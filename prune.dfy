/** The list clean-up loops of the power-key code. They walk the list with
    an index that goes up by one on every pass and remove entry i when it is
    bad. After a removal the next entry moves down to index i, and the
    increment then steps over it, so the entry right after each removed one
    is never looked at. */
module Prune {

  /** What the loop leaves: walking the original list, a bad entry is
      dropped together with the examination of its successor, which stays. */
  function SkipPrune<T>(s: seq<T>, drop: T -> bool): (r: seq<T>)
    ensures |r| <= |s|
  {
    if |s| == 0 then []
    else if drop(s[0]) then (if |s| == 1 then [] else [s[1]] + SkipPrune(s[2..], drop))
    else [s[0]] + SkipPrune(s[1..], drop)
  }

  /** One pass of the loop body on entry i of r, which comes out as r'. */
  ghost predicate LoopStep<T>(r: seq<T>, i: nat, r': seq<T>, drop: T -> bool)
    requires i < |r|
  {
    r' == if drop(r[i]) then r[..i] + r[i + 1..] else r
  }

  /** What the loop has settled: the first i entries of r are final, and the
      rest is still to be pruned (or the walk has stepped past the end). */
  ghost function Settled<T>(r: seq<T>, i: nat, drop: T -> bool): seq<T>
  {
    if i <= |r| then r[..i] + SkipPrune(r[i..], drop) else r
  }

  /** The loop body does not change what the loop will end with. */
  lemma StepKeepsSettled<T>(r: seq<T>, i: nat, r': seq<T>, drop: T -> bool)
    requires i < |r| && LoopStep(r, i, r', drop)
    ensures Settled(r', i + 1, drop) == Settled(r, i, drop)
  {
    assert r[i..][1..] == r[i + 1..];
    if drop(r[i]) {
      if i + 1 < |r| {
        assert r[i..][1] == r[i + 1];
        assert r[i..][2..] == r[i + 2..];
        assert r'[..i + 1] == r[..i] + [r[i + 1]];
        assert r'[i + 1..] == r[i + 2..];
      } else {
        assert r' == r[..i];
      }
    } else {
      assert r[..i + 1] == r[..i] + [r[i]];
    }
  }

  /** The loop itself, on the list it is given. */
  method RemoveAtWhileIncrementing<T>(list: seq<T>, drop: T -> bool) returns (r: seq<T>)
    ensures r == SkipPrune(list, drop)
  {
    r := list;
    var i := 0;
    assert r[..0] + SkipPrune(r[0..], drop) == SkipPrune(list, drop) by {
      assert r[..0] == [] && r[0..] == list;
    }
    while i < |r|
      invariant 0 <= i <= |r| + 1
      invariant Settled(r, i, drop) == SkipPrune(list, drop)
      decreases |r| + 1 - i
    {
      ghost var before := r;
      if drop(r[i]) {
        r := r[..i] + r[i + 1..];
      }
      StepKeepsSettled(before, i, r, drop);
      i := i + 1;
    }
    assert i == |r| ==> r[..i] == r && r[i..] == [];
  }

  /** r can be obtained from s by deleting entries. */
  ghost predicate IsSubsequence<T>(r: seq<T>, s: seq<T>)
    decreases |s|
  {
    |r| == 0 || (|s| > 0 && ((r[0] == s[0] && IsSubsequence(r[1..], s[1..])) || IsSubsequence(r, s[1..])))
  }

  lemma {:induction false} SubsequenceDrop<T>(r: seq<T>, s: seq<T>)
    requires |s| > 0 && IsSubsequence(r, s[1..])
    ensures IsSubsequence(r, s)
  {
  }

  /** The survivors keep their relative order: they are a subsequence of the list. */
  lemma {:induction false} SkipPruneSubsequence<T>(s: seq<T>, drop: T -> bool)
    ensures IsSubsequence(SkipPrune(s, drop), s)
  {
    var r := SkipPrune(s, drop);
    if |s| > 0 {
      if drop(s[0]) {
        if |s| > 1 {
          SkipPruneSubsequence(s[2..], drop);
          assert s[1..][1..] == s[2..];
          assert r[1..] == SkipPrune(s[2..], drop);
          assert IsSubsequence(r, s[1..]);
        }
      } else {
        SkipPruneSubsequence(s[1..], drop);
        assert r[1..] == SkipPrune(s[1..], drop);
      }
    }
  }

  /** Only bad entries are removed: no entry occurs more often afterwards,
      and a good entry occurs exactly as often as before. */
  lemma {:induction false} SkipPruneRemovesOnlyBad<T>(s: seq<T>, drop: T -> bool)
    ensures multiset(SkipPrune(s, drop)) <= multiset(s)
    ensures forall x :: !drop(x) ==> multiset(SkipPrune(s, drop))[x] == multiset(s)[x]
  {
    if |s| > 0 {
      var r := SkipPrune(s, drop);
      var k := if drop(s[0]) && |s| > 1 then 2 else 1;
      SkipPruneRemovesOnlyBad(s[k..], drop);
      MultisetHead(s);
      if drop(s[0]) {
        if |s| > 1 {
          assert s[1..][1..] == s[2..];
          MultisetHead(s[1..]);
          MultisetHead(r);
        }
      } else {
        MultisetHead(r);
      }
    }
  }

  lemma MultisetHead<T>(t: seq<T>)
    requires |t| > 0
    ensures multiset(t) == multiset{t[0]} + multiset(t[1..])
  {
    assert t == [t[0]] + t[1..];
  }

  /** A list without bad entries comes through unchanged. */
  lemma {:induction false} SkipPruneNoneBad<T>(s: seq<T>, drop: T -> bool)
    requires forall i :: 0 <= i < |s| ==> !drop(s[i])
    ensures SkipPrune(s, drop) == s
  {
    if |s| > 0 {
      SkipPruneNoneBad(s[1..], drop);
    }
  }

  /** The entries at odd positions. */
  function OddPositions<T>(s: seq<T>): (r: seq<T>)
    ensures |r| == |s| / 2
    ensures forall k :: 0 <= k < |r| ==> r[k] == s[2 * k + 1]
  {
    if |s| < 2 then [] else [s[1]] + OddPositions(s[2..])
  }

  /** When every entry is bad, every second one survives, so the loop does
      not empty a list of two or more. */
  lemma {:induction false} SkipPruneAllBad<T>(s: seq<T>, drop: T -> bool)
    requires forall i :: 0 <= i < |s| ==> drop(s[i])
    ensures SkipPrune(s, drop) == OddPositions(s)
    ensures |SkipPrune(s, drop)| == |s| / 2
  {
    if |s| >= 2 {
      SkipPruneAllBad(s[2..], drop);
    }
  }

  /** The entry right after a bad one is kept whatever it is, provided the
      walk reaches the bad one (nothing before it was removed just before it). */
  lemma SkipPruneTwoBad<T>(a: T, b: T, drop: T -> bool)
    requires drop(a) && drop(b)
    ensures SkipPrune([a, b], drop) == [b]
  {
    assert [a, b][2..] == [];
  }
}
