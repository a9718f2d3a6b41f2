/** The argument lists the input code sends to the device shell: tap and
    swipe gestures, raw `sendevent` sequences and key events. */
module Commands {

  import opened Options
  import opened Text
  import opened Bytes

  datatype Point = Point(x: int, y: int)

  /** QPoint's operator-. */
  function Minus(a: Point, b: Point): Point {
    Point(a.x - b.x, a.y - b.y)
  }

  /** A QRect by its corners; QRect(x, y, w, h) has x2 = x + w - 1. */
  datatype Rect = Rect(x1: int, y1: int, x2: int, y2: int)

  function MakeRect(x: int, y: int, w: int, h: int): Rect {
    Rect(x, y, x + w - 1, y + h - 1)
  }

  /** QRect::contains(point) as Qt 4 computes it (proper == false): corners
      are swapped first when the rectangle has negative extent. */
  predicate Contains(r: Rect, p: Point) {
    var l, rt := if r.x2 < r.x1 - 1 then r.x2 else r.x1, if r.x2 < r.x1 - 1 then r.x1 else r.x2;
    var t, b := if r.y2 < r.y1 - 1 then r.y2 else r.y1, if r.y2 < r.y1 - 1 then r.y1 else r.y2;
    l <= p.x <= rt && t <= p.y <= b
  }

  /** sendTap's tolerance square, QRect(-1, -1, 2, 2). */
  const TAP_ZONE: Rect := MakeRect(-1, -1, 2, 2)

  predicate IsTap(delta: Point) {
    Contains(TAP_ZONE, delta)
  }

  /** The tolerance square covers offsets -1 and 0 on each axis, not -1..+1. */
  lemma TapZoneIff(delta: Point)
    ensures IsTap(delta) <==> -1 <= delta.x <= 0 && -1 <= delta.y <= 0
  {
  }

  /** Press at (100,100) and release at (100,101) is a swipe, not a tap. */
  lemma OneBelowIsSwipe()
    ensures !IsTap(Minus(Point(100, 101), Point(100, 100)))
    ensures IsTap(Minus(Point(99, 99), Point(100, 100)))
  {
    TapZoneIff(Minus(Point(100, 101), Point(100, 100)));
  }

  /** sendTap's command on release: a tap at pos when the finger stayed in
      the tolerance square around the press position, otherwise a swipe
      from the press position to pos. */
  function TapArgs(posPress: Point, pos: Point): (r: seq<string>)
    ensures |r| >= 4 && r[0] == "shell"
    ensures IsTap(Minus(pos, posPress)) <==> |r| == 4
    ensures IsTap(Minus(pos, posPress)) ==> r[1] == "input tap"
    ensures !IsTap(Minus(pos, posPress)) ==> |r| == 6 && r[1] == "input swipe"
  {
    var head := if IsTap(Minus(pos, posPress)) then ["shell", "input tap"]
                else ["shell", "input swipe", NumberToString(posPress.x), NumberToString(posPress.y)];
    head + [NumberToString(pos.x), NumberToString(pos.y)]
  }

  /** The last two tokens read back as the release position and, for a
      swipe, the two after the verb as the press position. */
  lemma TapArgsDecode(posPress: Point, pos: Point)
    requires IsInt32(pos.x) && IsInt32(pos.y) && IsInt32(posPress.x) && IsInt32(posPress.y)
    ensures var r := TapArgs(posPress, pos);
      ToInt(r[|r| - 2]) == pos.x && ToInt(r[|r| - 1]) == pos.y &&
      (!IsTap(Minus(pos, posPress)) ==> ToInt(r[2]) == posPress.x && ToInt(r[3]) == posPress.y)
  {
    ToIntOfNumber(pos.x);
    ToIntOfNumber(pos.y);
    ToIntOfNumber(posPress.x);
    ToIntOfNumber(posPress.y);
  }

  /** One raw input event of the Linux input layer. */
  datatype InputEvent = InputEvent(kind: int, code: int, value: int)

  /** One `sendevent <device> <type> <code> <value>` command, as a device
      and the event it writes. */
  datatype Sendevent = Sendevent(device: string, event: InputEvent)

  predicate EventInt32(e: InputEvent) {
    IsInt32(e.kind) && IsInt32(e.code) && IsInt32(e.value)
  }

  /** The six tokens newEventCmd and newKeyEventCommand produce, ending in
      the ";" that chains shell commands. */
  function EventTokens(s: Sendevent): (r: seq<string>)
    ensures |r| == 6 && r[0] == "sendevent" && r[1] == s.device && r[5] == ";"
  {
    ["sendevent", s.device, NumberToString(s.event.kind), NumberToString(s.event.code),
     NumberToString(s.event.value), ";"]
  }

  function EncodeSendevents(ss: seq<Sendevent>): (r: seq<string>)
    ensures |r| == 6 * |ss|
  {
    if |ss| == 0 then [] else EventTokens(ss[0]) + EncodeSendevents(ss[1..])
  }

  /** Reads a token list back as `sendevent` commands, six tokens each;
      None when it is not made of such groups. */
  function ParseSendevents(t: seq<string>): Option<seq<Sendevent>>
    decreases |t|
  {
    if |t| == 0 then Some([])
    else if |t| < 6 || t[0] != "sendevent" || t[5] != ";" then None
    else
      match ParseSendevents(t[6..])
      case None => None
      case Some(rest) => Some([Sendevent(t[1], InputEvent(ToInt(t[2]), ToInt(t[3]), ToInt(t[4])))] + rest)
  }

  lemma EncodeCons(x: Sendevent, rest: seq<Sendevent>)
    ensures EncodeSendevents([x] + rest) == EventTokens(x) + EncodeSendevents(rest)
  {
    assert ([x] + rest)[1..] == rest;
  }

  lemma {:induction false} EncodeAppend(a: seq<Sendevent>, b: seq<Sendevent>)
    ensures EncodeSendevents(a + b) == EncodeSendevents(a) + EncodeSendevents(b)
  {
    if |a| > 0 {
      assert a + b == [a[0]] + (a[1..] + b);
      assert a == [a[0]] + a[1..];
      EncodeCons(a[0], a[1..] + b);
      EncodeCons(a[0], a[1..]);
      EncodeAppend(a[1..], b);
      Associative(EventTokens(a[0]), EncodeSendevents(a[1..]), EncodeSendevents(b));
    } else {
      assert a + b == b;
    }
  }

  /** One command's tokens in front of a token list parse back as that
      command in front of whatever the list parses as. */
  lemma EventTokensParse(x: Sendevent, rest: seq<string>)
    requires EventInt32(x.event)
    ensures ParseSendevents(EventTokens(x) + rest) ==
      match ParseSendevents(rest)
      case None => None
      case Some(r) => Some([x] + r)
  {
    var t := EventTokens(x) + rest;
    assert t[6..] == rest;
    assert t[2] == NumberToString(x.event.kind) && t[3] == NumberToString(x.event.code) && t[4] == NumberToString(x.event.value);
    ToIntOfNumber(x.event.kind);
    ToIntOfNumber(x.event.code);
    ToIntOfNumber(x.event.value);
  }

  /** Every list of commands with int-sized values parses back from its tokens. */
  lemma {:induction false} ParseEncode(ss: seq<Sendevent>)
    requires forall i :: 0 <= i < |ss| ==> EventInt32(ss[i].event)
    ensures ParseSendevents(EncodeSendevents(ss)) == Some(ss)
  {
    if |ss| > 0 {
      assert [ss[0]] + ss[1..] == ss;
      EncodeCons(ss[0], ss[1..]);
      ParseEncode(ss[1..]);
      EventTokensParse(ss[0], EncodeSendevents(ss[1..]));
    }
  }

  /** The device node newEventCmd always writes to. */
  const LEGACY_DEVICE: string := "/dev/input/event0"

  /** newEventCmd(type, code, value). */
  function NewEventCmd(kind: int, code: int, value: int): (r: seq<string>)
    ensures |r| == 6 && r[1] == LEGACY_DEVICE
  {
    EventTokens(Sendevent(LEGACY_DEVICE, InputEvent(kind, code, value)))
  }

  /** sendEvent's command: "shell", then the raw event commands for a
      touch update, with touch-down on press and touch-up on release. */
  function SendEventArgs(pos: Point, press: bool, release: bool): (r: seq<string>)
    ensures |r| == 1 + 6 * (5 + (if press then 1 else 0) + (if release then 2 else 0))
    ensures r[0] == "shell"
  {
    ["shell"]
    + NewEventCmd(3, 0x35, pos.x)
    + NewEventCmd(3, 0x36, pos.y)
    + (if press then NewEventCmd(1, 0x14a, 1) else [])
    + NewEventCmd(3, 0, pos.x)
    + NewEventCmd(3, 1, pos.y)
    + NewEventCmd(0, 0, 0)
    + (if release then NewEventCmd(1, 0x14a, 0) + NewEventCmd(0, 0, 0) else [])
  }

  /** The legacy event protocol for one touch report, on event0:
      multitouch X and Y (ABS_MT_POSITION_X/Y), BTN_TOUCH down on press,
      absolute X and Y, a sync report, and on release BTN_TOUCH up with a
      second sync. */
  function LegacyEvents(pos: Point, press: bool, release: bool): (r: seq<Sendevent>)
    ensures |r| == 5 + (if press then 1 else 0) + (if release then 2 else 0)
    ensures forall i :: 0 <= i < |r| ==> r[i].device == LEGACY_DEVICE
    ensures IsInt32(pos.x) && IsInt32(pos.y) ==> forall i :: 0 <= i < |r| ==> EventInt32(r[i].event)
  {
    var d := LEGACY_DEVICE;
    [Sendevent(d, InputEvent(3, 0x35, pos.x)), Sendevent(d, InputEvent(3, 0x36, pos.y))]
    + (if press then [Sendevent(d, InputEvent(1, 0x14a, 1))] else [])
    + [Sendevent(d, InputEvent(3, 0, pos.x)), Sendevent(d, InputEvent(3, 1, pos.y)),
       Sendevent(d, InputEvent(0, 0, 0))]
    + (if release then [Sendevent(d, InputEvent(1, 0x14a, 0)), Sendevent(d, InputEvent(0, 0, 0))] else [])
  }

  lemma Encode1(a: Sendevent)
    ensures EncodeSendevents([a]) == EventTokens(a)
  {
    EncodeCons(a, []);
  }

  lemma Encode2(a: Sendevent, b: Sendevent)
    ensures EncodeSendevents([a, b]) == EventTokens(a) + EventTokens(b)
  {
    EncodeCons(b, []);
    assert [a, b] == [a] + [b];
    EncodeCons(a, [b]);
  }

  lemma Encode3(a: Sendevent, b: Sendevent, c: Sendevent)
    ensures EncodeSendevents([a, b, c]) == EventTokens(a) + EventTokens(b) + EventTokens(c)
  {
    Encode2(b, c);
    assert [a, b, c] == [a] + [b, c];
    EncodeCons(a, [b, c]);
  }

  /** sendEvent concatenates exactly the encodings of the legacy events. */
  lemma SendEventArgsEncode(pos: Point, press: bool, release: bool)
    ensures SendEventArgs(pos, press, release)[1..] == EncodeSendevents(LegacyEvents(pos, press, release))
  {
    var d := LEGACY_DEVICE;
    var p1 := [Sendevent(d, InputEvent(3, 0x35, pos.x)), Sendevent(d, InputEvent(3, 0x36, pos.y))];
    var p2 := if press then [Sendevent(d, InputEvent(1, 0x14a, 1))] else [];
    var p3 := [Sendevent(d, InputEvent(3, 0, pos.x)), Sendevent(d, InputEvent(3, 1, pos.y)),
               Sendevent(d, InputEvent(0, 0, 0))];
    var p4 := if release then [Sendevent(d, InputEvent(1, 0x14a, 0)), Sendevent(d, InputEvent(0, 0, 0))] else [];
    var n1, n2, n3 := NewEventCmd(3, 0x35, pos.x), NewEventCmd(3, 0x36, pos.y), NewEventCmd(1, 0x14a, 1);
    var n4, n5, n6 := NewEventCmd(3, 0, pos.x), NewEventCmd(3, 1, pos.y), NewEventCmd(0, 0, 0);
    var n7 := NewEventCmd(1, 0x14a, 0);
    var q2 := if press then n3 else [];
    var q4 := if release then n7 + n6 else [];
    assert EncodeSendevents(p1) == n1 + n2 by { Encode2(p1[0], p1[1]); }
    assert EncodeSendevents(p2) == q2 by { if press { Encode1(p2[0]); } }
    assert EncodeSendevents(p3) == n4 + n5 + n6 by { Encode3(p3[0], p3[1], p3[2]); }
    assert EncodeSendevents(p4) == q4 by { if release { Encode2(p4[0], p4[1]); } }
    EncodeAppend(p1 + p2 + p3, p4);
    EncodeAppend(p1 + p2, p3);
    EncodeAppend(p1, p2);
    assert LegacyEvents(pos, press, release) == p1 + p2 + p3 + p4;
    Regroup(["shell"], n1, n2, q2, n4, n5, n6, q4);
  }

  lemma Regroup<T>(h: seq<T>, n1: seq<T>, n2: seq<T>, q2: seq<T>, n4: seq<T>, n5: seq<T>, n6: seq<T>, q4: seq<T>)
    ensures (h + n1 + n2 + q2 + n4 + n5 + n6 + q4)[|h|..] == (n1 + n2) + q2 + (n4 + n5 + n6) + q4
  {
  }

  /** sendEvent's tokens after "shell" read back as exactly the legacy
      protocol's events. */
  lemma SendEventArgsParse(pos: Point, press: bool, release: bool)
    requires IsInt32(pos.x) && IsInt32(pos.y)
    ensures ParseSendevents(SendEventArgs(pos, press, release)[1..]) == Some(LegacyEvents(pos, press, release))
  {
    SendEventArgsEncode(pos, press, release);
    ParseEncode(LegacyEvents(pos, press, release));
  }

  /** newKeyEventCommand(deviceIdx, type, code, value): the event device is
      the input device prefix followed by the index. */
  function NewKeyEventCommand(prefix: string, deviceIdx: int, kind: int, code: int, value: int): (r: seq<string>)
    ensures |r| == 6
    ensures |r[1]| > |prefix| && r[1][..|prefix|] == prefix
  {
    EventTokens(Sendevent(prefix + NumberToString(deviceIdx), InputEvent(kind, code, value)))
  }

  /** The device token is the prefix followed by the index, read back whole. */
  lemma KeyEventDeviceIndex(prefix: string, deviceIdx: int, kind: int, code: int, value: int)
    requires IsInt32(deviceIdx)
    ensures var r := NewKeyEventCommand(prefix, deviceIdx, kind, code, value);
      ToInt(r[1][|prefix|..]) == deviceIdx
  {
    var dev := prefix + NumberToString(deviceIdx);
    assert dev[|prefix|..] == NumberToString(deviceIdx);
    ToIntOfNumber(deviceIdx);
  }

  /** newKeyEventCommandSequence(deviceIdx, code): key down, key up, sync. */
  function NewKeyEventCommandSequence(prefix: string, deviceIdx: int, code: int): (r: seq<string>)
    ensures |r| == 18
  {
    NewKeyEventCommand(prefix, deviceIdx, 1, code, 1)
    + NewKeyEventCommand(prefix, deviceIdx, 1, code, 0)
    + NewKeyEventCommand(prefix, deviceIdx, 0, 0, 0)
  }

  /** The three events of the key sequence: press, release, sync report. */
  function KeySequenceEvents(prefix: string, deviceIdx: int, code: int): (r: seq<Sendevent>)
    ensures |r| == 3
  {
    var dev := prefix + NumberToString(deviceIdx);
    [Sendevent(dev, InputEvent(1, code, 1)), Sendevent(dev, InputEvent(1, code, 0)), Sendevent(dev, InputEvent(0, 0, 0))]
  }

  /** The key sequence is the encoding of its three events. */
  lemma KeySequenceEncode(prefix: string, deviceIdx: int, code: int)
    ensures NewKeyEventCommandSequence(prefix, deviceIdx, code) == EncodeSendevents(KeySequenceEvents(prefix, deviceIdx, code))
  {
    var ss := KeySequenceEvents(prefix, deviceIdx, code);
    Encode3(ss[0], ss[1], ss[2]);
  }

  /** The key sequence reads back as a press and a release of `code` and a
      sync report, all on the same event device. */
  lemma KeySequenceParse(prefix: string, deviceIdx: int, code: int)
    requires IsInt32(code)
    ensures ParseSendevents(NewKeyEventCommandSequence(prefix, deviceIdx, code))
            == Some(KeySequenceEvents(prefix, deviceIdx, code))
    ensures forall i :: 0 <= i < 3 ==>
      KeySequenceEvents(prefix, deviceIdx, code)[i].device == prefix + NumberToString(deviceIdx)
  {
    KeySequenceEncode(prefix, deviceIdx, code);
    ParseEncode(KeySequenceEvents(prefix, deviceIdx, code));
  }

  /** sendVirtualKey's command: an `input keyevent` with the key's number. */
  function VirtualKeyArgs(key: int): (r: seq<string>)
    ensures |r| == 3 && r[0] == "shell" && r[1] == "input keyevent"
  {
    ["shell", "input keyevent", NumberToString(key)]
  }

  /** The key token reads back as the key code. */
  lemma VirtualKeyDecode(key: int)
    requires IsInt32(key)
    ensures ToInt(VirtualKeyArgs(key)[2]) == key
  {
    ToIntOfNumber(key);
  }
}
