/** The device-side half of a session (class AdbExecObject): input events
    sent to the device, the screen brightness watch, and the discovery of
    the POWER key and its use to wake the screen.

    Every command the object runs is replaced by its outcome: `cat` on the
    backlight file by the next entry of a feed of outputs, the probe's
    listings by a DeviceFacts value. Emitted signals, and the power-key
    command run directly, are appended to a log. */
module Session {

  import opened Options
  import opened Text
  import opened Events
  import opened Commands
  import opened KeyLayout
  import opened Prune

  /** ANDROID_ICS, ANDROID_JB, or any other value the int field could hold. */
  datatype OsType = AndroidIcs | AndroidJb | OtherOs(code: int)

  /** DeviceKeyInfo: an input device's layout name, the event device index
      and POWER code found for it, and whether waking through it worked. */
  datatype KeyInfo = KeyInfo(keyLayout: string, eventDeviceIdx: int, powerKeycode: int, wakeSucceeded: bool)

  /** One `cat` of the backlight file: what it printed, or a failure. */
  datatype Reading = Brightness(output: string) | ReadFailed

  /** What the device answers during a probe: whether `input` offers
      `swipe`, the lines of the input-device name list (None when listing
      it fails), and the contents of each key layout file. */
  datatype DeviceFacts = DeviceFacts(hasSwipe: bool, inputNames: Option<seq<string>>, layouts: map<string, string>)

  /** What adbfb.h fixes for this class: INPUT_DEV_PREFIX, screenIsOn() as a
      function of the brightness, DeviceKeyInfo's default wakeSucessed, and
      the default ignoreComment of outputLinesHas. */
  datatype ExecConfig = ExecConfig(inputDevPrefix: string, screenIsOn: int -> bool,
                                   wakeDefault: bool, ignoreComment: bool)

  /** The object's state: osType, lcdBrightness, whether screenOnWaiteTimer
      runs, posPress, keyInfos, the brightness the coming reads will give
      (None for a read that fails), and the log. */
  datatype ExecState = ExecState(osType: OsType, lcd: int, timerOn: bool, posPress: Point,
                                 keyInfos: seq<KeyInfo>, feed: seq<Option<int>>, log: seq<Event>)

  // --- getDeviceLCDBrightness ---

  /** The brightness a read yields: output.simplified().toInt(), or nothing
      when the command fails. */
  function BrightnessOf(r: Reading): Option<int>
  {
    match r
    case ReadFailed => None
    case Brightness(out) => Some(ToInt(Simplified(out)))
  }

  /** The brightness of each coming read. */
  function Values(feed: seq<Reading>): (r: seq<Option<int>>)
    ensures |r| == |feed|
  {
    if |feed| == 0 then [] else [BrightnessOf(feed[0])] + Values(feed[1..])
  }

  /** What `cat` prints for a brightness, the number and a line break, reads
      back as that brightness. */
  lemma BrightnessOfLine(n: int)
    requires -0x8000_0000 <= n < 0x8000_0000
    ensures BrightnessOf(Brightness(NumberToString(n) + "\n")) == Some(n)
  {
    var num := NumberToString(n);
    assert forall i :: 0 <= i < |num| ==> !IsSpace(num[i]) by {
      if n < 0 { assert num == "-" + Digits(-n); }
    }
    SimplifiedLine(num);
    ToIntOfNumber(n);
  }

  datatype Read = Read(st: ExecState, value: int)

  /** getDeviceLCDBrightness: takes the next reading; a failed (or missing)
      one emits deviceDisconnected and yields -1. Nothing but the feed and
      the log changes. */
  function ReadBrightness(s: ExecState): (r: Read)
    ensures r.st == s.(feed := r.st.feed, log := r.st.log)
    ensures |s.feed| > 0 ==> r.st.feed == s.feed[1..]
    ensures |s.feed| == 0 ==> r.st.feed == []
    ensures (|s.feed| == 0 || s.feed[0].None?) <==> r.st.log == s.log + [DeviceDisconnected]
    ensures !(|s.feed| == 0 || s.feed[0].None?) ==> r.st.log == s.log && r.value == s.feed[0].value
    ensures (|s.feed| == 0 || s.feed[0].None?) ==> r.value == -1
  {
    if |s.feed| == 0 then Read(s.(log := s.log + [DeviceDisconnected]), -1)
    else if s.feed[0].None? then Read(s.(feed := s.feed[1..], log := s.log + [DeviceDisconnected]), -1)
    else Read(s.(feed := s.feed[1..]), s.feed[0].value)
  }

  // --- updateDeviceBrightness ---

  /** updateDeviceBrightness: a read, then on a change of value the new
      brightness is stored; going from exactly 0 to positive stops the
      screen-on timer and emits screenTurnedOn, going to 0 starts it and
      emits screenTurnedOff. */
  function UpdateBrightnessSpec(s: ExecState): ExecState
  {
    var r := ReadBrightness(s);
    var t := r.st;
    if r.value == s.lcd then t
    else if s.lcd == 0 && r.value > 0 then t.(lcd := r.value, timerOn := false, log := t.log + [ScreenTurnedOn])
    else if r.value == 0 then t.(lcd := 0, timerOn := true, log := t.log + [ScreenTurnedOff])
    else t.(lcd := r.value)
  }

  /** The screen events of one brightness update: On for 0 to positive, Off
      for a change to 0, none otherwise; they follow the read's own
      disconnect event, if any. */
  function ScreenEvents(old_lcd: int, v: int): seq<Event>
  {
    if v == old_lcd then []
    else if old_lcd == 0 && v > 0 then [ScreenTurnedOn]
    else if v == 0 then [ScreenTurnedOff]
    else []
  }

  lemma UpdateBrightnessEvents(s: ExecState)
    ensures var r := ReadBrightness(s); var u := UpdateBrightnessSpec(s);
      u.log == r.st.log + ScreenEvents(s.lcd, r.value) &&
      u.lcd == r.value && u.feed == r.st.feed &&
      u.keyInfos == s.keyInfos && u.osType == s.osType && u.posPress == s.posPress &&
      (ScreenEvents(s.lcd, r.value) == [ScreenTurnedOn] ==> !u.timerOn) &&
      (ScreenEvents(s.lcd, r.value) == [ScreenTurnedOff] ==> u.timerOn) &&
      (ScreenEvents(s.lcd, r.value) == [] ==> u.timerOn == s.timerOn)
  {
  }

  /** After a failed read has left the brightness at -1, a screen that comes
      back lit is recorded without a screenTurnedOn: only a change from
      exactly 0 announces it. */
  lemma NoScreenOnAfterFailedRead(s: ExecState)
    requires s.lcd == -1 && |s.feed| > 0 && s.feed[0].Some? && s.feed[0].value > 0
    ensures UpdateBrightnessSpec(s).log == s.log
    ensures UpdateBrightnessSpec(s).lcd == s.feed[0].value
  {
  }

  /** A dark screen read twice emits screenTurnedOff once. */
  lemma ScreenOffOnce(s: ExecState)
    requires s.lcd > 0 && |s.feed| >= 2 && s.feed[0] == Some(0) && s.feed[1] == Some(0)
    ensures UpdateBrightnessSpec(UpdateBrightnessSpec(s)).log == s.log + [ScreenTurnedOff]
    ensures UpdateBrightnessSpec(UpdateBrightnessSpec(s)).timerOn
  {
    var u := UpdateBrightnessSpec(s);
    assert u.feed == s.feed[1..] && u.lcd == 0;
  }

  // --- input commands ---

  /** sendTap: a press only records the position; a release emits a tap or
      a swipe from the recorded position, which stays recorded. */
  function TapSpec(s: ExecState, pos: Point, press: bool): ExecState
  {
    if press then s.(posPress := pos)
    else s.(log := s.log + [NewCommand(TapArgs(s.posPress, pos))])
  }

  /** sendVirtualClick: ICS gets the raw event sequence for every call; JB
      gets a tap or swipe, and nothing for a move with neither press nor
      release; any other type drops the click. */
  function ClickSpec(s: ExecState, pos: Point, press: bool, release: bool): ExecState
  {
    match s.osType
    case AndroidIcs => s.(log := s.log + [NewCommand(SendEventArgs(pos, press, release))])
    case AndroidJb => if press || release then TapSpec(s, pos, press) else s
    case OtherOs(_) => s
  }

  /** Press at p, release at q, release again at q2: two gestures, both from
      p, since posPress is not cleared by a release. */
  lemma PressReleaseRelease(s: ExecState, p: Point, q: Point, q2: Point)
    requires s.osType == AndroidJb
    ensures var s1 := ClickSpec(ClickSpec(s, p, true, false), q, false, true);
      s1.posPress == p && s1.log == s.log + [NewCommand(TapArgs(p, q))] &&
      ClickSpec(s1, q2, false, true).log == s.log + [NewCommand(TapArgs(p, q)), NewCommand(TapArgs(p, q2))]
  {
  }

  /** What a click does to the state besides the log (and, for a JB press,
      posPress): nothing. On ICS exactly one command goes out; moves on JB
      and clicks of an unknown type emit nothing. */
  lemma ClickDispatch(s: ExecState, pos: Point, press: bool, release: bool)
    ensures var c := ClickSpec(s, pos, press, release);
      c.keyInfos == s.keyInfos && c.lcd == s.lcd && c.feed == s.feed && c.osType == s.osType &&
      (s.osType == AndroidIcs ==> (|c.log| == |s.log| + 1 &&
         |c.log[|s.log|].args| == 1 + 6 * (5 + (if press then 1 else 0) + (if release then 2 else 0)))) &&
      (s.osType == AndroidJb && !press && !release ==> c == s) &&
      (s.osType.OtherOs? ==> c == s) &&
      (s.osType == AndroidJb && press ==> c.log == s.log && c.posPress == pos)
  {
  }

  /** sendPowerKey's command: the key sequence on the given event device. */
  function PowerKeyArgs(cfg: ExecConfig, deviceIdx: int, code: int): (r: seq<string>)
  {
    ["shell"] + EncodeSendevents(KeySequenceEvents(cfg.inputDevPrefix, deviceIdx, code))
  }

  /** sendPowerKey runs `shell` followed by newKeyEventCommandSequence: 19
      words that read back as a press, a release and a sync report on the
      entry's event device. */
  lemma PowerKeyCommand(cfg: ExecConfig, deviceIdx: int, code: int)
    requires -0x8000_0000 <= code < 0x8000_0000
    ensures var r := PowerKeyArgs(cfg, deviceIdx, code);
      r == ["shell"] + NewKeyEventCommandSequence(cfg.inputDevPrefix, deviceIdx, code) &&
      |r| == 19 && r[0] == "shell" &&
      ParseSendevents(r[1..]) == Some(KeySequenceEvents(cfg.inputDevPrefix, deviceIdx, code))
  {
    KeySequenceEncode(cfg.inputDevPrefix, deviceIdx, code);
    KeySequenceParse(cfg.inputDevPrefix, deviceIdx, code);
    assert PowerKeyArgs(cfg, deviceIdx, code)[1..] == NewKeyEventCommandSequence(cfg.inputDevPrefix, deviceIdx, code);
  }

  // --- probeDevicePowerKey ---

  /** The devices of the name list: one entry per line that simplifies to
      something, named by the simplified line, with index and code 0. */
  function Collect(cfg: ExecConfig, lines: seq<string>): (r: seq<KeyInfo>)
    ensures |r| <= |lines|
    ensures forall k :: 0 <= k < |r| ==>
      (r[k].eventDeviceIdx == 0 && r[k].powerKeycode == 0 && |r[k].keyLayout| > 0 && r[k].wakeSucceeded == cfg.wakeDefault)
  {
    if |lines| == 0 then []
    else
      var name := Simplified(lines[0]);
      var rest := Collect(cfg, lines[1..]);
      if |name| > 0 then [KeyInfo(name, 0, 0, cfg.wakeDefault)] + rest else rest
  }

  /** The entry a name line gives: the line simplified, when that is not
      empty, with index and code 0. */
  predicate Entry(cfg: ExecConfig, line: string, x: KeyInfo) {
    |Simplified(line)| > 0 && x == KeyInfo(Simplified(line), 0, 0, cfg.wakeDefault)
  }

  /** An entry is collected exactly when some non-blank line gives it. */
  lemma {:induction false} CollectMembers(cfg: ExecConfig, lines: seq<string>, x: KeyInfo)
    ensures x in Collect(cfg, lines) <==> exists i :: 0 <= i < |lines| && Entry(cfg, lines[i], x)
  {
    if |lines| > 0 {
      CollectMembers(cfg, lines[1..], x);
      if exists i :: 0 <= i < |lines| && Entry(cfg, lines[i], x) {
        var i :| 0 <= i < |lines| && Entry(cfg, lines[i], x);
        if i > 0 {
          assert Entry(cfg, lines[1..][i - 1], x);
        }
      }
      if exists j :: 0 <= j < |lines[1..]| && Entry(cfg, lines[1..][j], x) {
        var j :| 0 <= j < |lines[1..]| && Entry(cfg, lines[1..][j], x);
        assert Entry(cfg, lines[j + 1], x);
      }
    }
  }

  /** The entries follow the lines: collecting two runs of lines is
      collecting each and concatenating. */
  lemma {:induction false} CollectAppend(cfg: ExecConfig, a: seq<string>, b: seq<string>)
    ensures Collect(cfg, a + b) == Collect(cfg, a) + Collect(cfg, b)
  {
    if |a| > 0 {
      assert (a + b)[1..] == a[1..] + b;
      CollectAppend(cfg, a[1..], b);
      var name := Simplified(a[0]);
      Associative([KeyInfo(name, 0, 0, cfg.wakeDefault)], Collect(cfg, a[1..]), Collect(cfg, b));
    } else {
      assert a + b == b;
    }
  }

  /** With no blank line, entry k comes from line k. */
  lemma {:induction false} CollectNonBlank(cfg: ExecConfig, lines: seq<string>)
    requires forall i :: 0 <= i < |lines| ==> |Simplified(lines[i])| > 0
    ensures |Collect(cfg, lines)| == |lines|
    ensures forall k :: 0 <= k < |lines| ==> Collect(cfg, lines)[k] == KeyInfo(Simplified(lines[k]), 0, 0, cfg.wakeDefault)
  {
    if |lines| > 0 {
      CollectNonBlank(cfg, lines[1..]);
    }
  }

  /** Blank lines give no entries. */
  lemma {:induction false} CollectBlank(cfg: ExecConfig, lines: seq<string>)
    requires forall i :: 0 <= i < |lines| ==> |Simplified(lines[i])| == 0
    ensures Collect(cfg, lines) == []
  {
    if |lines| > 0 {
      CollectBlank(cfg, lines[1..]);
    }
  }

  /** The contents `cat` shows for a layout file; a missing file shows nothing. */
  function LayoutOf(facts: DeviceFacts, name: string): string
  {
    if name in facts.layouts then facts.layouts[name] else ""
  }

  /** The POWER code getKeyCodeFromKeyLayout finds in a device's layout. */
  function PowerCode(cfg: ExecConfig, facts: DeviceFacts, name: string): Option<int>
  {
    KeyCodeFromLayout(LayoutOf(facts, name), "POWER", cfg.ignoreComment)
  }

  /** The POWER codes of the entries, in order. */
  function PowerCodes(cfg: ExecConfig, facts: DeviceFacts, infos: seq<KeyInfo>): (r: seq<Option<int>>)
    ensures |r| == |infos|
  {
    if |infos| == 0 then [] else [PowerCode(cfg, facts, infos[0].keyLayout)] + PowerCodes(cfg, facts, infos[1..])
  }

  lemma {:induction false} PowerCodesAt(cfg: ExecConfig, facts: DeviceFacts, infos: seq<KeyInfo>, i: int)
    requires 0 <= i < |infos|
    ensures PowerCodes(cfg, facts, infos)[i] == PowerCode(cfg, facts, infos[i].keyLayout)
  {
    if i > 0 {
      PowerCodesAt(cfg, facts, infos[1..], i - 1);
    }
  }

  /** The assignment loop's effect on entry i: when its layout has a POWER
      code, the code and the event device index i are stored. */
  function Stored(info: KeyInfo, i: int, found: Option<int>): KeyInfo
  {
    match found
    case Some(c) => info.(eventDeviceIdx := i, powerKeycode := c)
    case None => info
  }

  function StoredAll(infos: seq<KeyInfo>, codes: seq<Option<int>>): (r: seq<KeyInfo>)
    requires |codes| == |infos|
    ensures |r| == |infos|
  {
    seq(|infos|, i requires 0 <= i < |infos| => Stored(infos[i], i, codes[i]))
  }

  /** The list after the assignment loop. */
  function Assigned(cfg: ExecConfig, facts: DeviceFacts, infos: seq<KeyInfo>): (r: seq<KeyInfo>)
    ensures |r| == |infos|
  {
    StoredAll(infos, PowerCodes(cfg, facts, infos))
  }

  predicate NoPowerKey(k: KeyInfo) {
    k.powerKeycode == 0
  }

  /** Entry i of the assigned list keeps its name; its index becomes i and its
      code the layout's when the layout has a POWER code, and it is unchanged
      otherwise. The index is the position in the list before pruning. */
  lemma AssignedEntries(cfg: ExecConfig, facts: DeviceFacts, infos: seq<KeyInfo>, i: int)
    requires 0 <= i < |infos|
    ensures var a := Assigned(cfg, facts, infos)[i];
      var found := KeyCodeFromLayout(LayoutOf(facts, infos[i].keyLayout), "POWER", cfg.ignoreComment);
      a.keyLayout == infos[i].keyLayout && a.wakeSucceeded == infos[i].wakeSucceeded &&
      (found.Some? ==> a.eventDeviceIdx == i && a.powerKeycode == found.value) &&
      (found.None? ==> a == infos[i])
  {
    PowerCodesAt(cfg, facts, infos, i);
  }

  /** What the assignment loop stores for an entry, given the verdict of
      getKeyCodeFromKeyLayout, is AssignKey. */
  lemma AssignStep(cfg: ExecConfig, facts: DeviceFacts, infos: seq<KeyInfo>, i: int, found: bool, code: int)
    requires 0 <= i < |infos|
    requires found <==> KeyCodeFromLayout(LayoutOf(facts, infos[i].keyLayout), "POWER", cfg.ignoreComment).Some?
    requires found ==> code == KeyCodeFromLayout(LayoutOf(facts, infos[i].keyLayout), "POWER", cfg.ignoreComment).value
    ensures (if found then infos[i].(eventDeviceIdx := i, powerKeycode := code) else infos[i]) == Assigned(cfg, facts, infos)[i]
  {
    PowerCodesAt(cfg, facts, infos, i);
  }

  /** The probe up to the wake: prompt, OS type, brightness forced to 100,
      then the key list, or deviceDisconnected when the name list cannot be
      read. */
  function ProbeCore(cfg: ExecConfig, s: ExecState, facts: DeviceFacts): ExecState
  {
    var s1 := s.(log := s.log + [PromptMessage("Probing device...")],
                 osType := if facts.hasSwipe then AndroidJb else AndroidIcs,
                 lcd := 100, keyInfos := []);
    match facts.inputNames
    case None => s1.(log := s1.log + [DeviceDisconnected])
    case Some(lines) => s1.(keyInfos := SkipPrune(Assigned(cfg, facts, Collect(cfg, lines)), NoPowerKey))
  }

  /** The probe's key list is a subsequence of the assigned list, and what
      it lost had no POWER code. */
  lemma ProbeKeyList(cfg: ExecConfig, s: ExecState, facts: DeviceFacts)
    requires facts.inputNames.Some?
    ensures var a := Assigned(cfg, facts, Collect(cfg, facts.inputNames.value));
      var k := ProbeCore(cfg, s, facts).keyInfos;
      IsSubsequence(k, a) && multiset(k) <= multiset(a) &&
      forall x :: !NoPowerKey(x) ==> multiset(k)[x] == multiset(a)[x]
  {
    var a := Assigned(cfg, facts, Collect(cfg, facts.inputNames.value));
    SkipPruneSubsequence(a, NoPowerKey);
    SkipPruneRemovesOnlyBad(a, NoPowerKey);
  }

  /** Two input devices neither of whose layouts has a POWER code: the pruning
      loop removes the first and steps over the second, which stays in the
      list with code 0, so the probe goes on to wake through it. */
  lemma TwoKeylessDevices(cfg: ExecConfig, s: ExecState, facts: DeviceFacts, a: string, b: string)
    requires facts.inputNames == Some([a, b])
    requires |Simplified(a)| > 0 && |Simplified(b)| > 0
    requires KeyCodeFromLayout(LayoutOf(facts, Simplified(a)), "POWER", cfg.ignoreComment).None?
    requires KeyCodeFromLayout(LayoutOf(facts, Simplified(b)), "POWER", cfg.ignoreComment).None?
    ensures ProbeCore(cfg, s, facts).keyInfos == [KeyInfo(Simplified(b), 0, 0, cfg.wakeDefault)]
  {
    var ka, kb := KeyInfo(Simplified(a), 0, 0, cfg.wakeDefault), KeyInfo(Simplified(b), 0, 0, cfg.wakeDefault);
    assert [a, b][1..] == [b];
    assert Collect(cfg, [b]) == [kb];
    assert Collect(cfg, [a, b]) == [ka, kb];
    PowerCodesAt(cfg, facts, [ka, kb], 0);
    PowerCodesAt(cfg, facts, [ka, kb], 1);
    var asg := Assigned(cfg, facts, [ka, kb]);
    assert asg == [ka, kb];
    SkipPruneTwoBad(ka, kb, NoPowerKey);
  }

  /** A name list that cannot be read leaves an empty key list, forced
      brightness 100 and a disconnect event, and no wake follows. */
  lemma ProbeListingFails(cfg: ExecConfig, s: ExecState, facts: DeviceFacts)
    requires facts.inputNames.None?
    ensures ProbeSpec(cfg, s, facts) ==
      s.(log := s.log + [PromptMessage("Probing device..."), DeviceDisconnected],
         osType := if facts.hasSwipe then AndroidJb else AndroidIcs, lcd := 100, keyInfos := [])
  {
  }

  // --- wakeUpDeviceViaPowerKey ---

  /** The countdown loop: up to cnt reads, stopping at the first positive
      brightness, which is stored and announced. */
  function Poll(s: ExecState, cnt: nat): (r: ExecState)
    decreases cnt
    ensures r.keyInfos == s.keyInfos && r.osType == s.osType && r.posPress == s.posPress && r.timerOn == s.timerOn
  {
    if cnt == 0 then s
    else
      var r := ReadBrightness(s);
      if r.value > 0 then r.st.(lcd := r.value, log := r.st.log + [ScreenTurnedOn])
      else Poll(r.st, cnt - 1)
  }

  /** The state once entry i's power key has been sent. */
  function KeySent(cfg: ExecConfig, s: ExecState, i: nat): ExecState
    requires i < |s.keyInfos|
  {
    var info := s.keyInfos[i];
    s.(log := s.log + [Executed(PowerKeyArgs(cfg, info.eventDeviceIdx, info.powerKeycode))])
  }

  /** The events a wake appends: the power-key command, the waking prompt,
      screen-on and disconnect. */
  predicate WakeEvent(e: Event) {
    e.Executed? || e.ScreenTurnedOn? || e.DeviceDisconnected? || e == PromptMessage("Waking up device...")
  }

  /** b is a with wake events appended. */
  predicate AppendsWakeEvents(a: seq<Event>, b: seq<Event>) {
    a <= b && forall k :: |a| <= k < |b| ==> WakeEvent(b[k])
  }

  lemma AppendsWakeEventsTrans(a: seq<Event>, b: seq<Event>, c: seq<Event>)
    requires AppendsWakeEvents(a, b) && AppendsWakeEvents(b, c)
    ensures AppendsWakeEvents(a, c)
  {
  }

  /** The poll only appends screen-on and disconnect events. */
  lemma {:induction false} PollLog(s: ExecState, cnt: nat)
    decreases cnt
    ensures AppendsWakeEvents(s.log, Poll(s, cnt).log)
  {
    if cnt > 0 {
      var r := ReadBrightness(s);
      assert AppendsWakeEvents(s.log, r.st.log);
      if r.value <= 0 {
        PollLog(r.st, cnt - 1);
        AppendsWakeEventsTrans(s.log, r.st.log, Poll(r.st, cnt - 1).log);
      }
    }
  }

  lemma PollUnfold(s: ExecState, cnt: nat)
    requires cnt > 0
    ensures var r := ReadBrightness(s);
      Poll(s, cnt) == if r.value > 0 then r.st.(lcd := r.value, log := r.st.log + [ScreenTurnedOn]) else Poll(r.st, cnt - 1)
  {
  }

  /** One pass of the sweep over entry i: the power key is sent through its
      device, the brightness polled, and the entry marked failed unless the
      screen counts as on afterwards. */
  function SweepStep(cfg: ExecConfig, s: ExecState, i: nat): (r: ExecState)
    requires i < |s.keyInfos|
    ensures var p := Poll(KeySent(cfg, s, i), 5);
      r.feed == p.feed && r.lcd == p.lcd && r.log == p.log &&
      r.keyInfos == if cfg.screenIsOn(p.lcd) then s.keyInfos else s.keyInfos[i := s.keyInfos[i].(wakeSucceeded := false)]
    ensures r.osType == s.osType && r.posPress == s.posPress && r.timerOn == s.timerOn
    ensures s.log + [Executed(PowerKeyArgs(cfg, s.keyInfos[i].eventDeviceIdx, s.keyInfos[i].powerKeycode))] <= r.log
    ensures AppendsWakeEvents(s.log, r.log)
  {
    var k := KeySent(cfg, s, i);
    PollLog(k, 5);
    var s2 := Poll(k, 5);
    if !cfg.screenIsOn(s2.lcd) then s2.(keyInfos := s2.keyInfos[i := s.keyInfos[i].(wakeSucceeded := false)]) else s2
  }

  /** The state after the poll, with entry i marked unless the screen is on,
      is SweepStep; the sweep from i goes on from there. */
  lemma SweepStepIs(cfg: ExecConfig, s: ExecState, i: nat, polled: ExecState, t: ExecState)
    requires i < |s.keyInfos| && polled == Poll(KeySent(cfg, s, i), 5)
    requires t == if cfg.screenIsOn(polled.lcd) then polled
                  else polled.(keyInfos := polled.keyInfos[i := polled.keyInfos[i].(wakeSucceeded := false)])
    ensures t == SweepStep(cfg, s, i)
    ensures SweepFrom(cfg, s, i) == SweepFrom(cfg, t, i + 1)
  {
  }

  /** The sweep from entry i goes on from entry i + 1 after SweepStep. */
  lemma SweepOn(cfg: ExecConfig, s: ExecState, i: nat, t: ExecState)
    requires i < |s.keyInfos| && t == SweepStep(cfg, s, i)
    ensures |t.keyInfos| == |s.keyInfos| && SweepFrom(cfg, s, i) == SweepFrom(cfg, t, i + 1)
  {
  }

  /** Past the last entry the sweep does nothing. */
  lemma SweepDone(cfg: ExecConfig, s: ExecState)
    ensures SweepFrom(cfg, s, |s.keyInfos|) == s
  {
  }

  /** The sweep from entry i on. */
  function SweepFrom(cfg: ExecConfig, s: ExecState, i: nat): (r: ExecState)
    requires i <= |s.keyInfos|
    decreases |s.keyInfos| - i
    ensures |r.keyInfos| == |s.keyInfos|
  {
    if i == |s.keyInfos| then s else SweepFrom(cfg, SweepStep(cfg, s, i), i + 1)
  }

  /** The sweep only appends wake events and leaves the OS type, the press
      position and the timer alone. */
  lemma {:induction false} SweepFromLog(cfg: ExecConfig, s: ExecState, i: nat)
    requires i <= |s.keyInfos|
    decreases |s.keyInfos| - i
    ensures var t := SweepFrom(cfg, s, i);
      AppendsWakeEvents(s.log, t.log) && t.osType == s.osType && t.posPress == s.posPress && t.timerOn == s.timerOn
  {
    if i < |s.keyInfos| {
      var t := SweepStep(cfg, s, i);
      SweepOn(cfg, s, i, t);
      SweepFromLog(cfg, t, i + 1);
      AppendsWakeEventsTrans(s.log, t.log, SweepFrom(cfg, t, i + 1).log);
    } else {
      SweepDone(cfg, s);
    }
  }

  predicate WakeFailed(k: KeyInfo) {
    !k.wakeSucceeded
  }

  /** wakeUpDeviceViaPowerKey: the sweep, then the pruning loop over the
      entries marked failed. */
  function WakeViaPowerKeySpec(cfg: ExecConfig, s: ExecState): ExecState
  {
    var t := SweepFrom(cfg, s, 0);
    t.(keyInfos := SkipPrune(t.keyInfos, WakeFailed))
  }

  /** The poll reads at most cnt times: the feed loses at most cnt entries
      from its front. */
  lemma {:induction false} PollReads(s: ExecState, cnt: nat)
    decreases cnt
    ensures |Poll(s, cnt).feed| <= |s.feed| && |s.feed| - |Poll(s, cnt).feed| <= cnt
    ensures Poll(s, cnt).feed == s.feed[|s.feed| - |Poll(s, cnt).feed|..]
  {
    if cnt > 0 {
      var r := ReadBrightness(s);
      if r.value <= 0 {
        PollReads(r.st, cnt - 1);
        if |s.feed| > 0 {
          assert s.feed[1..][|r.st.feed| - |Poll(r.st, cnt - 1).feed|..] == s.feed[|s.feed| - |Poll(r.st, cnt - 1).feed|..];
        }
      }
    }
  }

  /** The sweep reads at most five times per entry. */
  lemma {:induction false} SweepReads(cfg: ExecConfig, s: ExecState, i: nat)
    requires i <= |s.keyInfos|
    decreases |s.keyInfos| - i
    ensures |s.feed| - |SweepFrom(cfg, s, i).feed| <= 5 * (|s.keyInfos| - i)
  {
    if i < |s.keyInfos| {
      var k := KeySent(cfg, s, i);
      var t := SweepStep(cfg, s, i);
      SweepOn(cfg, s, i, t);
      assert k.feed == s.feed;
      PollReads(k, 5);
      SweepReads(cfg, t, i + 1);
    } else {
      SweepDone(cfg, s);
    }
  }

  /** No reading the feed will give shows a lit screen. */
  predicate Dark(feed: seq<Option<int>>) {
    forall k :: 0 <= k < |feed| && feed[k].Some? ==> feed[k].value <= 0
  }

  /** On a dark feed the poll never stores a brightness, and the rest of the
      feed stays dark. */
  lemma {:induction false} PollDark(s: ExecState, cnt: nat)
    requires Dark(s.feed)
    decreases cnt
    ensures Poll(s, cnt).lcd == s.lcd && Dark(Poll(s, cnt).feed)
  {
    if cnt > 0 {
      var r := ReadBrightness(s);
      assert Dark(r.st.feed);
      PollDark(r.st, cnt - 1);
    }
  }

  /** The entries from i on marked failed, the others as they are. */
  function MarkedFrom(ks: seq<KeyInfo>, i: nat): (r: seq<KeyInfo>)
    ensures |r| == |ks|
  {
    seq(|ks|, j requires 0 <= j < |ks| => if i <= j then ks[j].(wakeSucceeded := false) else ks[j])
  }

  /** Marking entry i and then everything after it is marking from i. */
  lemma MarkedStep(ks: seq<KeyInfo>, i: nat)
    requires i < |ks|
    ensures MarkedFrom(ks[i := ks[i].(wakeSucceeded := false)], i + 1) == MarkedFrom(ks, i)
  {
  }

  /** One step of the sweep over a dark screen keeps the brightness and the
      darkness of the feed, and marks entry i unless that brightness counts
      as on. */
  lemma SweepStepDark(cfg: ExecConfig, s: ExecState, i: nat)
    requires i < |s.keyInfos| && Dark(s.feed)
    ensures var t := SweepStep(cfg, s, i);
      t.lcd == s.lcd && Dark(t.feed) &&
      t.keyInfos == if cfg.screenIsOn(s.lcd) then s.keyInfos else s.keyInfos[i := s.keyInfos[i].(wakeSucceeded := false)]
  {
    var k := KeySent(cfg, s, i);
    assert k.feed == s.feed && k.lcd == s.lcd;
    PollDark(k, 5);
  }

  /** The sweep over a screen that stays dark, decided by the brightness it
      started with: every entry from i on is marked failed when that
      brightness does not count as on, and none is marked when it does. */
  lemma {:induction false} SweepDark(cfg: ExecConfig, s: ExecState, i: nat)
    requires i <= |s.keyInfos| && Dark(s.feed)
    decreases |s.keyInfos| - i
    ensures var t := SweepFrom(cfg, s, i);
      t.lcd == s.lcd &&
      t.keyInfos == if cfg.screenIsOn(s.lcd) then s.keyInfos else MarkedFrom(s.keyInfos, i)
  {
    if i < |s.keyInfos| {
      var t := SweepStep(cfg, s, i);
      SweepOn(cfg, s, i, t);
      SweepStepDark(cfg, s, i);
      SweepDark(cfg, t, i + 1);
      if !cfg.screenIsOn(s.lcd) {
        MarkedStep(s.keyInfos, i);
      }
    } else {
      SweepDone(cfg, s);
      assert MarkedFrom(s.keyInfos, i) == s.keyInfos;
    }
  }

  /** With the screen dark throughout and screenIsOn false for the brightness
      the sweep starts from, every entry is marked, yet the pruning loop
      keeps every second one: the entries at odd positions survive. */
  lemma DarkSweepKeepsOddPositions(cfg: ExecConfig, s: ExecState)
    requires Dark(s.feed) && !cfg.screenIsOn(s.lcd)
    ensures WakeViaPowerKeySpec(cfg, s).keyInfos ==
      OddPositions(seq(|s.keyInfos|, j requires 0 <= j < |s.keyInfos| => s.keyInfos[j].(wakeSucceeded := false)))
  {
    SweepDark(cfg, s, 0);
    var marked := seq(|s.keyInfos|, j requires 0 <= j < |s.keyInfos| => s.keyInfos[j].(wakeSucceeded := false));
    assert MarkedFrom(s.keyInfos, 0) == marked;
    SkipPruneAllBad(marked, WakeFailed);
  }

  /** With the screen dark throughout but screenIsOn true for the brightness
      the sweep starts from (the probe forces it to 100), no entry is marked,
      however many power keys failed to light the screen. */
  lemma DarkSweepMarksNothingWhenOn(cfg: ExecConfig, s: ExecState)
    requires Dark(s.feed) && cfg.screenIsOn(s.lcd)
    requires forall j :: 0 <= j < |s.keyInfos| ==> s.keyInfos[j].wakeSucceeded
    ensures WakeViaPowerKeySpec(cfg, s).keyInfos == s.keyInfos
  {
    SweepDark(cfg, s, 0);
    SkipPruneNoneBad(s.keyInfos, WakeFailed);
  }

  /** A positive first reading ends the poll at once, announcing the screen. */
  lemma PollStopsAtLight(s: ExecState, cnt: nat)
    requires cnt > 0 && |s.feed| > 0 && s.feed[0].Some? && s.feed[0].value > 0
    ensures Poll(s, cnt) == s.(feed := s.feed[1..], lcd := s.feed[0].value, log := s.log + [ScreenTurnedOn])
  {
  }

  // --- wakeUpDevice ---

  /** wakeUpDevice once the key list is known: an already lit screen is
      announced; otherwise a prompt and the power-key sweep. */
  function WakeCore(cfg: ExecConfig, s: ExecState): ExecState
  {
    var r := ReadBrightness(s);
    if r.value > 0 then r.st.(lcd := r.value, log := r.st.log + [ScreenTurnedOn])
    else WakeViaPowerKeySpec(cfg, r.st.(log := r.st.log + [PromptMessage("Waking up device...")]))
  }

  /** probeDevicePowerKey: the probe, then a wake when any key survived. */
  function ProbeSpec(cfg: ExecConfig, s: ExecState, facts: DeviceFacts): ExecState
  {
    var c := ProbeCore(cfg, s, facts);
    if |c.keyInfos| > 0 then WakeCore(cfg, c) else c
  }

  /** wakeUpDevice: with no key known, a probe first (which may itself wake
      the device), then the wake proper in any case. */
  function WakeSpec(cfg: ExecConfig, s: ExecState, facts: DeviceFacts): ExecState
  {
    WakeCore(cfg, if |s.keyInfos| == 0 then ProbeSpec(cfg, s, facts) else s)
  }

  /** The wake proper only appends wake events and leaves the OS type, the
      press position and the timer alone. */
  lemma WakeCoreLog(cfg: ExecConfig, s: ExecState)
    ensures var w := WakeCore(cfg, s);
      AppendsWakeEvents(s.log, w.log) && w.osType == s.osType && w.posPress == s.posPress &&
      w.timerOn == s.timerOn
  {
    var r := ReadBrightness(s);
    assert AppendsWakeEvents(s.log, r.st.log);
    if r.value <= 0 {
      var t := r.st.(log := r.st.log + [PromptMessage("Waking up device...")]);
      SweepFromLog(cfg, t, 0);
      AppendsWakeEventsTrans(s.log, t.log, WakeCore(cfg, s).log);
    }
  }

  /** wakeUpDevice with keys known probes nothing: it is the wake proper,
      the OS type stays, and no "Probing device..." prompt is emitted. */
  lemma WakeWithKeysNoProbe(cfg: ExecConfig, s: ExecState, facts: DeviceFacts)
    requires |s.keyInfos| > 0
    ensures var w := WakeSpec(cfg, s, facts);
      w == WakeCore(cfg, s) && w.osType == s.osType && s.log <= w.log &&
      PromptMessage("Probing device...") !in w.log[|s.log|..]
  {
    var w := WakeSpec(cfg, s, facts);
    WakeCoreLog(cfg, s);
  }

  /** wakeUpDevice with no key known probes first: it is the wake proper
      after probeDevicePowerKey, whose prompt comes first, and leaves the OS
      type the probe found. */
  lemma WakeWithoutKeysProbes(cfg: ExecConfig, s: ExecState, facts: DeviceFacts)
    requires |s.keyInfos| == 0
    ensures var w := WakeSpec(cfg, s, facts);
      w == WakeCore(cfg, ProbeSpec(cfg, s, facts)) &&
      s.log + [PromptMessage("Probing device...")] <= w.log &&
      w.osType == if facts.hasSwipe then AndroidJb else AndroidIcs
  {
    var c := ProbeCore(cfg, s, facts);
    var p := ProbeSpec(cfg, s, facts);
    assert s.log + [PromptMessage("Probing device...")] <= c.log;
    if |c.keyInfos| > 0 {
      WakeCoreLog(cfg, c);
    }
    assert c.log <= p.log && p.osType == c.osType;
    WakeCoreLog(cfg, p);
  }

  /** With keys already known nothing is probed: the OS type stays, and a lit
      screen costs one read and one event. */
  lemma WakeWithKeysLit(cfg: ExecConfig, s: ExecState, facts: DeviceFacts)
    requires |s.keyInfos| > 0 && |s.feed| > 0 && s.feed[0].Some? && s.feed[0].value > 0
    ensures WakeSpec(cfg, s, facts) ==
      s.(feed := s.feed[1..], lcd := s.feed[0].value, log := s.log + [ScreenTurnedOn])
  {
  }

  /** With no keys known and a probe that finds some, the brightness is read
      twice while the screen is lit: once by the probe's own wake and once
      by the wake that asked for the probe, each announcing the screen. */
  lemma WakeAfterProbeReadsTwice(cfg: ExecConfig, s: ExecState, facts: DeviceFacts)
    requires |s.keyInfos| == 0 && |ProbeCore(cfg, s, facts).keyInfos| > 0
    requires |s.feed| >= 2 && s.feed[0].Some? && s.feed[1].Some? && s.feed[0].value > 0 && s.feed[1].value > 0
    ensures var c := ProbeCore(cfg, s, facts);
      WakeSpec(cfg, s, facts) ==
      c.(feed := s.feed[2..], lcd := s.feed[1].value, log := c.log + [ScreenTurnedOn, ScreenTurnedOn])
  {
    var c := ProbeCore(cfg, s, facts);
    assert c.feed == s.feed;
    var w := WakeCore(cfg, c);
    assert w.feed == s.feed[1..];
    assert s.feed[1..][0] == s.feed[1] && s.feed[1..][1..] == s.feed[2..];
  }

  class AdbExecObject {
    const cfg: ExecConfig

    var osType: OsType
    var lcdBrightness: int
    /** Whether screenOnWaiteTimer runs. */
    var timerOn: bool
    var posPress: Point
    var keyInfos: seq<KeyInfo>
    /** What `cat` on the backlight file will give, read after read. */
    var feed: seq<Reading>
    var log: seq<Event>

    ghost function State(): ExecState
      reads this
    {
      ExecState(osType, lcdBrightness, timerOn, posPress, keyInfos, Values(feed), log)
    }

    constructor (c: ExecConfig, readings: seq<Reading>)
      ensures cfg == c && State() == ExecState(AndroidJb, 0, false, Point(0, 0), [], Values(readings), [])
    {
      cfg := c;
      osType := AndroidJb;
      lcdBrightness := 0;
      timerOn := false;
      posPress := Point(0, 0);
      keyInfos := [];
      feed := readings;
      log := [];
    }

    method GetDeviceLCDBrightness() returns (ret: int)
      modifies this
      ensures State() == ReadBrightness(old(State())).st && ret == ReadBrightness(old(State())).value
    {
      if |feed| == 0 || feed[0].ReadFailed? {
        if |feed| > 0 {
          feed := feed[1..];
        }
        log := log + [DeviceDisconnected];
        return -1;
      }
      ret := ToInt(Simplified(feed[0].output));
      feed := feed[1..];
    }

    method UpdateDeviceBrightness()
      modifies this
      ensures State() == UpdateBrightnessSpec(old(State()))
    {
      var oldBrightness := lcdBrightness;
      var ret := GetDeviceLCDBrightness();
      ghost var t := State();
      if ret == lcdBrightness {
        return;
      }
      lcdBrightness := ret;
      if oldBrightness == 0 && ret > 0 {
        timerOn := false;
        log := log + [ScreenTurnedOn];
        assert State() == t.(lcd := ret, timerOn := false, log := t.log + [ScreenTurnedOn]);
        return;
      }
      if ret == 0 {
        timerOn := true;
        log := log + [ScreenTurnedOff];
        assert State() == t.(lcd := 0, timerOn := true, log := t.log + [ScreenTurnedOff]);
      } else {
        assert State() == t.(lcd := ret);
      }
    }

    method SendPowerKey(deviceIdx: int, code: int)
      modifies this
      ensures State() == old(State()).(log := old(log) + [Executed(PowerKeyArgs(cfg, deviceIdx, code))])
    {
      var args := ["shell"] + NewKeyEventCommandSequence(cfg.inputDevPrefix, deviceIdx, code);
      KeySequenceEncode(cfg.inputDevPrefix, deviceIdx, code);
      log := log + [Executed(args)];
    }

    method SendTap(pos: Point, press: bool)
      modifies this
      ensures State() == TapSpec(old(State()), pos, press)
    {
      if press {
        posPress := pos;
        return;
      }
      var cmds := TapArgs(posPress, pos);
      log := log + [NewCommand(cmds)];
    }

    method SendEvent(pos: Point, press: bool, release: bool)
      modifies this
      ensures State() == old(State()).(log := old(log) + [NewCommand(SendEventArgs(pos, press, release))])
    {
      log := log + [NewCommand(SendEventArgs(pos, press, release))];
    }

    method SendVirtualKey(key: int)
      modifies this
      ensures State() == old(State()).(log := old(log) + [NewCommand(VirtualKeyArgs(key))])
    {
      log := log + [NewCommand(VirtualKeyArgs(key))];
    }

    method SendVirtualClick(pos: Point, press: bool, release: bool)
      modifies this
      ensures State() == ClickSpec(old(State()), pos, press, release)
    {
      match osType
      case AndroidIcs =>
        SendEvent(pos, press, release);
      case AndroidJb =>
        if press || release {
          SendTap(pos, press);
        }
      case OtherOs(_) =>
    }

    /** The countdown loop of wakeUpDeviceViaPowerKey: `while (cnt-- > 0)`
        with cnt starting at 5, the usleep between reads left out. */
    method PollScreen()
      modifies this
      ensures State() == Poll(old(State()), 5)
    {
      ghost var s1 := State();
      var cnt := 5;
      while cnt > 0
        invariant 0 <= cnt <= 5
        invariant Poll(State(), cnt) == Poll(s1, 5)
      {
        ghost var cur := State();
        PollUnfold(cur, cnt);
        cnt := cnt - 1;
        var ret := GetDeviceLCDBrightness();
        if ret > 0 {
          lcdBrightness := ret;
          log := log + [ScreenTurnedOn];
          assert State() == Poll(s1, 5);
          break;
        }
      }
    }

    /** One pass of wakeUpDeviceViaPowerKey's first loop: the power key
        through entry i's device, the countdown, and the entry marked failed
        unless the screen counts as on. */
    method SweepEntry(i: nat)
      requires i < |keyInfos|
      modifies this
      ensures State() == SweepStep(cfg, old(State()), i)
    {
      ghost var before := State();
      var info := keyInfos[i];
      SendPowerKey(info.eventDeviceIdx, info.powerKeycode);
      assert State() == KeySent(cfg, before, i);
      PollScreen();
      ghost var polled := State();
      if !cfg.screenIsOn(lcdBrightness) {
        keyInfos := keyInfos[i := keyInfos[i].(wakeSucceeded := false)];
      }
      SweepStepIs(cfg, before, i, polled, State());
    }

    /** wakeUpDeviceViaPowerKey's first loop: SweepEntry for every entry. */
    method SweepAll()
      modifies this
      ensures State() == SweepFrom(cfg, old(State()), 0)
    {
      ghost var s0 := State();
      var i := 0;
      while i < |keyInfos|
        invariant 0 <= i <= |keyInfos|
        invariant SweepFrom(cfg, State(), i) == SweepFrom(cfg, s0, 0)
      {
        ghost var before := State();
        SweepEntry(i);
        SweepOn(cfg, before, i, State());
        i := i + 1;
      }
      SweepDone(cfg, State());
    }

    method WakeUpDeviceViaPowerKey()
      modifies this
      ensures State() == WakeViaPowerKeySpec(cfg, old(State()))
    {
      SweepAll();
      keyInfos := RemoveAtWhileIncrementing(keyInfos, WakeFailed);
    }

    /** The probe's first loop: an entry for every non-blank name line. */
    method CollectKeyInfos(lines: seq<string>) returns (infos: seq<KeyInfo>)
      ensures infos == Collect(cfg, lines)
    {
      infos := [];
      var i := 0;
      while i < |lines|
        invariant 0 <= i <= |lines|
        invariant infos + Collect(cfg, lines[i..]) == Collect(cfg, lines)
      {
        var line := Simplified(lines[i]);
        assert lines[i..][1..] == lines[i + 1..];
        if |line| > 0 {
          infos := infos + [KeyInfo(line, 0, 0, cfg.wakeDefault)];
        }
        i := i + 1;
      }
      assert lines[i..] == [];
    }

    /** The probe's second loop: the POWER code and event device index of
        every entry whose layout has one. */
    method AssignPowerKeys(facts: DeviceFacts, collected: seq<KeyInfo>) returns (infos: seq<KeyInfo>)
      ensures infos == Assigned(cfg, facts, collected)
    {
      infos := collected;
      ghost var target := Assigned(cfg, facts, collected);
      var code := 0;
      var i := 0;
      while i < |infos|
        invariant 0 <= i <= |infos| && |infos| == |collected| == |target|
        invariant infos[..i] == target[..i]
        invariant infos[i..] == collected[i..]
      {
        var info := infos[i];
        assert info == collected[i] by { assert collected[i..][0] == collected[i]; }
        var found;
        found, code := GetKeyCodeFromKeyLayout(LayoutOf(facts, info.keyLayout), "POWER", cfg.ignoreComment, code);
        AssignStep(cfg, facts, collected, i, found, code);
        if found {
          infos := infos[i := info.(eventDeviceIdx := i, powerKeycode := code)];
        }
        assert infos[i] == target[i];
        assert infos[..i + 1] == infos[..i] + [infos[i]];
        assert target[..i + 1] == target[..i] + [target[i]];
        assert infos[i + 1..] == infos[i..][1..];
        i := i + 1;
      }
      assert infos == infos[..i] && target == target[..i];
    }

    method ProbeDevicePowerKey(facts: DeviceFacts)
      modifies this
      decreases 1
      ensures State() == ProbeSpec(cfg, old(State()), facts)
    {
      log := log + [PromptMessage("Probing device...")];
      osType := if facts.hasSwipe then AndroidJb else AndroidIcs;
      lcdBrightness := 100;
      keyInfos := [];
      if facts.inputNames.None? {
        log := log + [DeviceDisconnected];
        return;
      }
      var lines := facts.inputNames.value;
      var infos := CollectKeyInfos(lines);
      infos := AssignPowerKeys(facts, infos);
      keyInfos := RemoveAtWhileIncrementing(infos, NoPowerKey);
      assert State() == ProbeCore(cfg, old(State()), facts);
      if |keyInfos| > 0 {
        WakeUpDevice(facts);
      }
    }

    method WakeUpDevice(facts: DeviceFacts)
      modifies this
      decreases if |keyInfos| == 0 then 2 else 0
      ensures State() == WakeSpec(cfg, old(State()), facts)
    {
      if |keyInfos| == 0 {
        ProbeDevicePowerKey(facts);
      }
      var ret := GetDeviceLCDBrightness();
      if ret > 0 {
        lcdBrightness := ret;
        log := log + [ScreenTurnedOn];
        return;
      }
      log := log + [PromptMessage("Waking up device...")];
      WakeUpDeviceViaPowerKey();
    }
  }
}
