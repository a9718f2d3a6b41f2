/** The Qt string operations the device code relies on, written out:
    QByteArray::split, indexOf, simplified, toInt and QString::number. */
module Text {

  import opened Options

  /** The characters isspace() accepts. */
  predicate IsSpace(c: char) {
    c == ' ' || c == '\t' || c == '\n' || c == '\U{B}' || c == '\U{C}' || c == '\r'
  }

  predicate IsDigit(c: char) {
    '0' <= c <= '9'
  }

  /** Regrouping a concatenation, for proofs that peel off a prefix. */
  lemma Associative<T>(x: seq<T>, y: seq<T>, z: seq<T>)
    ensures x + (y + z) == (x + y) + z
  {
  }

  /** The pieces between separators; n separators give n + 1 pieces, so an
      empty string gives one empty piece, as QByteArray::split does. */
  function Split(s: string, sep: char): (r: seq<string>)
    ensures |r| >= 1
    ensures forall i :: 0 <= i < |r| ==> sep !in r[i]
  {
    if |s| == 0 then [""]
    else
      var rest := Split(s[1..], sep);
      if s[0] == sep then [""] + rest
      else [[s[0]] + rest[0]] + rest[1..]
  }

  /** The pieces with one separator between neighbours. */
  function Join(parts: seq<string>, sep: char): string
  {
    if |parts| == 0 then ""
    else if |parts| == 1 then parts[0]
    else parts[0] + [sep] + Join(parts[1..], sep)
  }

  /** Joining the pieces of a split gives the original string back. */
  lemma {:induction false} JoinSplit(s: string, sep: char)
    ensures Join(Split(s, sep), sep) == s
  {
    if |s| > 0 {
      var rest := Split(s[1..], sep);
      JoinSplit(s[1..], sep);
      if s[0] != sep {
        var r := Split(s, sep);
        assert r[1..] == rest[1..];
        if |rest| == 1 {
          assert Join(r, sep) == [s[0]] + rest[0];
        } else {
          assert Join(r, sep) == [s[0]] + rest[0] + [sep] + Join(rest[1..], sep);
        }
      }
    }
  }

  /** A piece without the separator, then the separator, splits off as the
      first piece. */
  lemma {:induction false} SplitPiece(a: string, sep: char, b: string)
    requires sep !in a
    ensures Split(a + [sep] + b, sep) == [a] + Split(b, sep)
  {
    var s := a + [sep] + b;
    if |a| == 0 {
      assert s == [sep] + b;
      assert s[1..] == b;
    } else {
      assert s[1..] == a[1..] + [sep] + b;
      SplitPiece(a[1..], sep, b);
      assert [a[0]] + a[1..] == a;
    }
  }

  /** A string without the separator is a single piece. */
  lemma {:induction false} SplitNoSeparator(s: string, sep: char)
    requires sep !in s
    ensures Split(s, sep) == [s]
  {
    if |s| > 0 {
      assert sep !in s[1..];
      SplitNoSeparator(s[1..], sep);
      assert [s[0]] + s[1..] == s;
    }
  }

  predicate OccursAt(s: string, key: string, i: nat) {
    i + |key| <= |s| && s[i..i + |key|] == key
  }

  function IndexFrom(s: string, key: string, i: nat): (r: int)
    requires i <= |s|
    decreases |s| - i
    ensures r == -1 || (i <= r && OccursAt(s, key, r))
    ensures r == -1 ==> forall j :: i <= j <= |s| ==> !OccursAt(s, key, j)
    ensures r != -1 ==> forall j :: i <= j < r ==> !OccursAt(s, key, j)
  {
    if OccursAt(s, key, i) then i
    else if i == |s| then -1
    else IndexFrom(s, key, i + 1)
  }

  /** QByteArray::indexOf: the first position where key occurs, or -1. */
  function IndexOf(s: string, key: string): (r: int)
    ensures r == -1 || (0 <= r && OccursAt(s, key, r))
    ensures r == -1 <==> forall j :: 0 <= j <= |s| ==> !OccursAt(s, key, j)
    ensures r != -1 ==> forall j :: 0 <= j < r ==> !OccursAt(s, key, j)
  {
    IndexFrom(s, key, 0)
  }

  /** The longest prefix of s without white space. */
  function Word(s: string): (w: string)
    ensures |w| <= |s| && w == s[..|w|]
    ensures forall i :: 0 <= i < |w| ==> !IsSpace(w[i])
    ensures |w| < |s| ==> IsSpace(s[|w|])
  {
    if |s| == 0 || IsSpace(s[0]) then "" else [s[0]] + Word(s[1..])
  }

  /** The maximal runs of non-space characters, in order. */
  function Words(s: string): (ws: seq<string>)
    decreases |s|
    ensures forall i :: 0 <= i < |ws| ==> |ws[i]| > 0
  {
    if |s| == 0 then []
    else if IsSpace(s[0]) then Words(s[1..])
    else var w := Word(s); [w] + Words(s[|w|..])
  }

  /** QByteArray::simplified: white space trimmed from both ends and every
      inner run of it replaced by one space. */
  function Simplified(s: string): string
  {
    Join(Words(s), ' ')
  }

  lemma {:induction false} WordsEmptyIff(s: string)
    ensures Words(s) == [] <==> forall i :: 0 <= i < |s| ==> IsSpace(s[i])
  {
    if |s| > 0 {
      WordsEmptyIff(s[1..]);
      assert forall i :: 1 <= i < |s| ==> s[i] == s[1..][i - 1];
    }
  }

  /** A line simplifies to nothing exactly when it is all white space. */
  lemma SimplifiedEmptyIff(s: string)
    ensures |Simplified(s)| == 0 <==> forall i :: 0 <= i < |s| ==> IsSpace(s[i])
  {
    WordsEmptyIff(s);
    var ws := Words(s);
    if |ws| > 1 {
      assert |Join(ws, ' ')| >= |ws[0]| + 1;
    }
  }

  /** A single word followed by a line break simplifies to the word. */
  lemma SimplifiedLine(w: string)
    requires |w| > 0 && forall i :: 0 <= i < |w| ==> !IsSpace(w[i])
    ensures Simplified(w + "\n") == w
  {
    var s := w + "\n";
    var v := Word(s);
    assert s[|w|] == '\n';
    assert |v| == |w| && v == w;
    assert s[|w|..] == "\n";
    assert Words("\n") == Words("\n"[1..]) == [];
    assert Words(s) == [w];
  }

  // --- decimal numbers ---

  function DigitChar(d: nat): (c: char)
    requires d < 10
    ensures IsDigit(c)
  {
    "0123456789"[d]
  }

  function DigitValue(c: char): (d: nat)
    requires IsDigit(c)
    ensures d < 10
  {
    (c as int - '0' as int) as nat
  }

  /** The decimal digits of n, most significant first, without leading zeros. */
  function Digits(n: nat): (s: string)
    ensures |s| > 0
    ensures forall i :: 0 <= i < |s| ==> IsDigit(s[i])
  {
    if n < 10 then [DigitChar(n)] else Digits(n / 10) + [DigitChar(n % 10)]
  }

  /** The value of a string of decimal digits. */
  function DigitsValue(s: string): (n: nat)
    requires forall i :: 0 <= i < |s| ==> IsDigit(s[i])
  {
    if |s| == 0 then 0 else 10 * DigitsValue(s[..|s| - 1]) + DigitValue(s[|s| - 1])
  }

  lemma {:induction false} DigitsValueOfDigits(n: nat)
    ensures DigitsValue(Digits(n)) == n
  {
    if n >= 10 {
      var s := Digits(n);
      DigitsValueOfDigits(n / 10);
      assert s[..|s| - 1] == Digits(n / 10);
    }
  }

  /** QString::number for an int: an optional minus sign, then the digits. */
  function NumberToString(n: int): (r: string)
    ensures |r| > 0 && (r[0] == '-' <==> n < 0)
    ensures forall i :: 0 <= i < |r| ==> IsDigit(r[i]) || (i == 0 && r[i] == '-')
  {
    if n < 0 then "-" + Digits(-n) else Digits(n)
  }

  function TrimLeftSpace(s: string): (r: string)
    ensures |r| <= |s| && r == s[|s| - |r|..]
    ensures |r| > 0 ==> !IsSpace(r[0])
  {
    if |s| > 0 && IsSpace(s[0]) then TrimLeftSpace(s[1..]) else s
  }

  predicate AllDigits(s: string) {
    |s| > 0 && forall i :: 0 <= i < |s| ==> IsDigit(s[i])
  }

  /** The value of an optional sign followed by decimal digits, if s is one. */
  function SignedValue(s: string): (r: Option<int>)
  {
    if |s| > 0 && (s[0] == '-' || s[0] == '+') then
      if AllDigits(s[1..]) then
        Some(if s[0] == '-' then -(DigitsValue(s[1..]) as int) else DigitsValue(s[1..]))
      else None
    else if AllDigits(s) then Some(DigitsValue(s))
    else None
  }

  /** QByteArray::toInt (base 10, Qt 4): leading white space is skipped, then
      a signed decimal number must make up the rest of the string and fit in
      an int; anything else gives 0. */
  function ToInt(s: string): (v: int)
    ensures -0x8000_0000 <= v < 0x8000_0000
    ensures SignedValue(TrimLeftSpace(s)).None? ==> v == 0
    ensures SignedValue(TrimLeftSpace(s)).Some? && !(-0x8000_0000 <= SignedValue(TrimLeftSpace(s)).value < 0x8000_0000) ==> v == 0
    ensures SignedValue(TrimLeftSpace(s)).Some? && -0x8000_0000 <= SignedValue(TrimLeftSpace(s)).value < 0x8000_0000 ==>
      v == SignedValue(TrimLeftSpace(s)).value
    ensures v != 0 ==> SignedValue(TrimLeftSpace(s)) == Some(v)
  {
    match SignedValue(TrimLeftSpace(s))
    case Some(n) => if -0x8000_0000 <= n < 0x8000_0000 then n else 0
    case None => 0
  }

  lemma DigitsSignedValue(n: nat)
    ensures SignedValue(Digits(n)) == Some(n)
    ensures SignedValue("-" + Digits(n)) == Some(-(n as int))
  {
    var d := Digits(n);
    DigitsValueOfDigits(n);
    assert AllDigits(d);
    assert ("-" + d)[1..] == d;
  }

  /** toInt reads back what QString::number writes, for every int. */
  lemma ToIntOfNumber(n: int)
    requires -0x8000_0000 <= n < 0x8000_0000
    ensures ToInt(NumberToString(n)) == n
  {
    var s := NumberToString(n);
    var m: nat := if n < 0 then -n else n;
    DigitsSignedValue(m);
    assert !IsSpace(s[0]);
    assert TrimLeftSpace(s) == s;
    assert SignedValue(s) == Some(n);
  }
}
