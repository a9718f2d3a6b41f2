/** The frame-buffer side of a device session (class FBEx): the capture
    header, the in-place RGBX8888 to RGB888 compaction, the length check
    before a frame goes out, and the connection events. */
module Frame {

  import opened Options
  import opened Bytes
  import opened Events
  import opened Delay

  /** The values adbfb.h fixes: FB_DATA_OFFSET, DEFAULT_FB_WIDTH/HEIGHT,
      FB_BPP_MAX and the three PIXEL_FORMAT_* codes. */
  datatype FbConfig = FbConfig(dataOffset: nat, defaultWidth: int, defaultHeight: int, bppMax: int,
                               rgbx565: int, rgb888: int, rgbx8888: int)

  /** What the model assumes of those values: positive default dimensions,
      three distinct format codes, and room for the default RGBX8888 format
      in FB_BPP_MAX. */
  predicate ConfigOk(cfg: FbConfig) {
    cfg.defaultWidth > 0 && cfg.defaultHeight > 0 && cfg.bppMax >= 4 &&
    cfg.rgbx565 != cfg.rgb888 && cfg.rgbx565 != cfg.rgbx8888 && cfg.rgb888 != cfg.rgbx8888
  }

  /** The bytes per pixel getScreenInfo assigns to a format code, if it
      knows the code. */
  function BppOf(cfg: FbConfig, format: int): (r: Option<int>)
    requires ConfigOk(cfg)
    ensures r.Some? <==> format in {cfg.rgbx565, cfg.rgb888, cfg.rgbx8888}
    ensures format == cfg.rgbx565 ==> r == Some(2)
    ensures format == cfg.rgb888 ==> r == Some(3)
    ensures format == cfg.rgbx8888 ==> r == Some(4)
  {
    if format == cfg.rgbx565 then Some(2)
    else if format == cfg.rgb888 then Some(3)
    else if format == cfg.rgbx8888 then Some(4)
    else None
  }

  // --- capture header ---

  datatype Header = Header(width: int, height: int, format: int)

  /** The first twelve bytes of a capture: width, height and format, each
      decoded by bigEndianToInt32 from mid(0, 4), mid(4, 4), mid(8, 4). */
  function DecodeHeader(b: seq<byte>): (h: Header)
    ensures IsInt32(h.width) && IsInt32(h.height) && IsInt32(h.format)
    ensures h.width < 0 <==> ByteAt(b, 3) >= 0x80
    ensures h.height < 0 <==> ByteAt(b, 7) >= 0x80
  {
    Header(HostInt32(Mid(b, 0, 4)), HostInt32(Mid(b, 4, 4)), HostInt32(Mid(b, 8, 4)))
  }

  /** The header a device with this geometry writes, followed by anything. */
  function EncodeHeader(h: Header): (q: seq<byte>)
    ensures |q| == 12
  {
    EncodeHost(h.width) + EncodeHost(h.height) + EncodeHost(h.format)
  }

  /** The header decode reads back what a little-endian device writes,
      whatever pixel data follows. */
  lemma DecodeEncodeHeader(h: Header, pixels: seq<byte>)
    requires IsInt32(h.width) && IsInt32(h.height) && IsInt32(h.format)
    ensures DecodeHeader(EncodeHeader(h) + pixels) == h
  {
    var b := EncodeHeader(h) + pixels;
    assert Mid(b, 0, 4) == EncodeHost(h.width);
    assert Mid(b, 4, 4) == EncodeHost(h.height);
    assert Mid(b, 8, 4) == EncodeHost(h.format);
    HostInt32OfEncode(h.width);
    HostInt32OfEncode(h.height);
    HostInt32OfEncode(h.format);
  }

  /** A capture shorter than a header decodes its missing bytes as zero,
      so an empty capture has width and height 0 and is rejected. */
  lemma EmptyCaptureRejected()
    ensures DecodeHeader([]).width == 0 && DecodeHeader([]).height == 0
  {
  }

  // --- RGBX8888 to RGB888 ---

  /** One pass of the inner loop body with write cursor p and read cursor
      n: three `*p++ = *n++` copies, each reading the buffer as the previous
      copy left it. */
  function CopyPixel(s: seq<byte>, p: nat, n: nat): (r: seq<byte>)
    requires p + 3 <= |s| && n + 3 <= |s|
    ensures |r| == |s|
  {
    var t1 := s[p := s[n]];
    var t2 := t1[p + 1 := t1[n + 1]];
    t2[p + 2 := t2[n + 2]]
  }

  /** With the write cursor at or behind the read cursor, the three copies
      read original bytes, and only the three written bytes change. */
  lemma CopyPixelSpec(s: seq<byte>, p: nat, n: nat)
    requires p <= n && n + 3 <= |s|
    ensures CopyPixel(s, p, n)[p..p + 3] == s[n..n + 3]
    ensures forall i :: 0 <= i < |s| && (i < p || p + 3 <= i) ==> CopyPixel(s, p, n)[i] == s[i]
  {
    var r := CopyPixel(s, p, n);
    assert r[p] == s[n] && r[p + 1] == s[n + 1] && r[p + 2] == s[n + 2];
  }

  /** The buffer after the first `count` pixels have been compacted, pixel
      k being written at off + 3k from off + 4k. */
  function Compact(s: seq<byte>, off: nat, count: nat): (r: seq<byte>)
    requires off + 4 * count <= |s|
    ensures |r| == |s|
    decreases count
  {
    if count == 0 then s
    else CopyPixel(Compact(s, off, count - 1), off + 3 * (count - 1), off + 4 * (count - 1))
  }

  /** The three colour bytes of RGB888 pixel k of the data at off. */
  function Rgb888At(r: seq<byte>, off: nat, k: nat): seq<byte>
    requires off + 3 * k + 3 <= |r|
  {
    r[off + 3 * k..off + 3 * k + 3]
  }

  /** The three colour bytes of RGBX8888 pixel k of the data at off, without
      its fourth byte. */
  function Rgbx8888At(s: seq<byte>, off: nat, k: nat): seq<byte>
    requires off + 4 * k + 4 <= |s|
  {
    s[off + 4 * k..off + 4 * k + 3]
  }

  /** Bytes before off and from off + 3 * count on are left as they were. */
  lemma {:induction false} CompactKeepsRest(s: seq<byte>, off: nat, count: nat)
    requires off + 4 * count <= |s|
    decreases count
    ensures forall i :: 0 <= i < |s| && (i < off || off + 3 * count <= i) ==> Compact(s, off, count)[i] == s[i]
  {
    if count > 0 {
      var j := count - 1;
      CompactKeepsRest(s, off, j);
      CopyPixelSpec(Compact(s, off, j), off + 3 * j, off + 4 * j);
    }
  }

  /** Pixel k's colours end up at off + 3k, read from the original pixel k
      at off + 4k: the write cursor never overtakes the read cursor, so
      every byte it copies is still the original one. */
  lemma {:induction false} CompactPixels(s: seq<byte>, off: nat, count: nat)
    requires off + 4 * count <= |s|
    decreases count
    ensures forall k :: 0 <= k < count ==> Rgb888At(Compact(s, off, count), off, k) == Rgbx8888At(s, off, k)
  {
    if count > 0 {
      var j := count - 1;
      CompactPixels(s, off, j);
      forall k | 0 <= k < count
        ensures Rgb888At(Compact(s, off, count), off, k) == Rgbx8888At(s, off, k)
      {
        if k < j {
          EarlierPixelKept(s, off, j, k);
        } else {
          LastPixelCopied(s, off, j);
        }
      }
    }
  }

  /** Copying pixel j leaves the pixels already written alone. */
  lemma EarlierPixelKept(s: seq<byte>, off: nat, j: nat, k: nat)
    requires off + 4 * (j + 1) <= |s| && k < j
    ensures Rgb888At(Compact(s, off, j + 1), off, k) == Rgb888At(Compact(s, off, j), off, k)
  {
    var prev := Compact(s, off, j);
    CopyPixelSpec(prev, off + 3 * j, off + 4 * j);
    PixelBefore(k, j, off);
  }

  /** Pixel j is copied from bytes the earlier copies have not reached. */
  lemma LastPixelCopied(s: seq<byte>, off: nat, j: nat)
    requires off + 4 * (j + 1) <= |s|
    ensures Rgb888At(Compact(s, off, j + 1), off, j) == Rgbx8888At(s, off, j)
  {
    var prev := Compact(s, off, j);
    CompactKeepsRest(s, off, j);
    CopyPixelSpec(prev, off + 3 * j, off + 4 * j);
    assert prev[off + 4 * j..off + 4 * j + 3] == s[off + 4 * j..off + 4 * j + 3];
  }

  lemma PixelBefore(k: nat, j: nat, off: nat)
    requires k < j
    ensures off + 3 * k + 3 <= off + 3 * j
  {
  }

  /** A frame of two pixels: the padding bytes 99 and 1 drop out, the
      colours close up, and the tail keeps the old bytes. */
  lemma CompactTwoPixels()
    ensures Compact([10, 20, 30, 99, 40, 50, 60, 1], 0, 2) == [10, 20, 30, 40, 50, 60, 60, 1]
  {
    var s: seq<byte> := [10, 20, 30, 99, 40, 50, 60, 1];
    assert Compact(s, 0, 1) == [10, 20, 30, 99, 40, 50, 60, 1];
  }

  lemma CompactStep(s: seq<byte>, off: nat, k: nat)
    requires off + 4 * (k + 1) <= |s|
    ensures Compact(s, off, k + 1) == CopyPixel(Compact(s, off, k), off + 3 * k, off + 4 * k)
  {
  }

  lemma NextRow(y: int, w: int, h: int)
    requires 0 <= y < h && w > 0
    ensures y * w + w == (y + 1) * w <= w * h
  {
    assert (y + 1) * w <= h * w;
  }

  lemma FourPixelsFit(w: int, h: int, bpp: int, rgbx: bool)
    requires w > 0 && h > 0 && (rgbx ==> bpp >= 4)
    ensures rgbx ==> 4 * (w * h) <= w * h * bpp
  {
    if rgbx {
      assert w * h * bpp - 4 * (w * h) == (w * h) * (bpp - 4);
    }
  }

  /** A model of the FBEx state, used to state what each method does. */
  datatype FbState = FbState(width: int, height: int, format: int, bpp: int, compress: bool,
                             connected: bool, bytes: seq<byte>, out: seq<byte>, log: seq<Event>)

  /** length(): header and pixel data of the current geometry. adbfb.h,
      which defines it, is not part of this model; this is the size the
      frame data must have. */
  function FrameLength(cfg: FbConfig, st: FbState): int {
    cfg.dataOffset + st.width * st.height * st.bpp
  }

  /** length() as the source evaluates it, in `int`: equal to FrameLength
      while that fits, wrapped around beyond. */
  function FrameLength32(cfg: FbConfig, st: FbState): (r: int)
    ensures IsInt32(r)
    ensures IsInt32(FrameLength(cfg, st)) ==> r == FrameLength(cfg, st)
  {
    Wrap32(FrameLength(cfg, st))
  }

  /** setConnected: an event only when the flag changes, newFBFound with the
      current geometry on connect and deviceDisconnected on disconnect. */
  function SetConnectedSpec(st: FbState, state: bool): FbState {
    if st.connected == state then st
    else st.(connected := state,
             log := st.log + [if state then NewFBFound(st.width, st.height, st.format) else DeviceDisconnected])
  }

  /** The frame sendNewFB puts out for a buffer already past the length
      check: for RGBX8888 the compacted 3 * w * h pixel bytes, for any other
      format mid(FB_DATA_OFFSET, length()). */
  function FrameOut(cfg: FbConfig, st: FbState): seq<byte>
    requires st.format == cfg.rgbx8888 ==> cfg.dataOffset + 4 * (st.width * st.height) <= |st.bytes|
  {
    var n := st.width * st.height;
    if st.format == cfg.rgbx8888 && st.width > 0 && st.height > 0 then
      Mid(Compact(st.bytes, cfg.dataOffset, n), cfg.dataOffset, 3 * n)
    else Mid(st.bytes, cfg.dataOffset, FrameLength(cfg, st))
  }

  /** An RGBX8888 frame that passes the length check goes out as exactly
      3 * w * h bytes, pixel k's colours at 3k.. taken from the capture's
      pixel k at offset + 4k... */
  lemma FrameOutRgbx(cfg: FbConfig, st: FbState)
    requires st.format == cfg.rgbx8888 && st.width > 0 && st.height > 0
    requires cfg.dataOffset + 4 * (st.width * st.height) <= |st.bytes|
    ensures |FrameOut(cfg, st)| == 3 * (st.width * st.height)
    ensures forall k :: 0 <= k < st.width * st.height ==>
      Rgb888At(FrameOut(cfg, st), 0, k) == Rgbx8888At(st.bytes, cfg.dataOffset, k)
  {
    var n := st.width * st.height;
    var off := cfg.dataOffset;
    var r := Compact(st.bytes, off, n);
    CompactPixels(st.bytes, off, n);
    var o := FrameOut(cfg, st);
    assert o == r[off..off + 3 * n];
    forall k | 0 <= k < n
      ensures Rgb888At(o, 0, k) == Rgbx8888At(st.bytes, off, k)
    {
      SlicePixel(r, off, n, k);
    }
  }

  lemma SlicePixel(r: seq<byte>, off: nat, n: nat, k: nat)
    requires off + 3 * n <= |r| && k < n
    ensures Rgb888At(r[off..off + 3 * n], 0, k) == Rgb888At(r, off, k)
  {
    var t := r[off..off + 3 * n];
    var i := 3 * k;
    assert t[i] == r[off + i] && t[i + 1] == r[off + i + 1] && t[i + 2] == r[off + i + 2];
    assert t[i..i + 3] == r[off + i..off + i + 3];
  }

  /** Any other format passes through: the bytes after the data offset,
      up to length() of them, so exactly the w * h * bpp pixel bytes when
      the capture is exactly length() long. */
  lemma FrameOutPassThrough(cfg: FbConfig, st: FbState)
    requires st.format != cfg.rgbx8888 && |st.bytes| >= FrameLength(cfg, st) && st.width * st.height * st.bpp >= 0
    ensures cfg.dataOffset + FrameLength(cfg, st) <= |st.bytes| ==>
      FrameOut(cfg, st) == st.bytes[cfg.dataOffset..cfg.dataOffset + FrameLength(cfg, st)]
    ensures cfg.dataOffset + FrameLength(cfg, st) > |st.bytes| ==> FrameOut(cfg, st) == st.bytes[cfg.dataOffset..]
    ensures |st.bytes| == FrameLength(cfg, st) ==>
      |FrameOut(cfg, st)| == st.width * st.height * st.bpp
  {
  }

  /** sendNewFB: a buffer shorter than length() disconnects; otherwise the
      RGBX8888 buffer is compacted in place and the frame is emitted. */
  function SendNewFBSpec(cfg: FbConfig, st: FbState): FbState
    requires ConfigOk(cfg) && st.width > 0 && st.height > 0 && (st.format == cfg.rgbx8888 ==> st.bpp >= 4)
  {
    if |st.bytes| < FrameLength(cfg, st) then SetConnectedSpec(st, false)
    else
      FourPixelsFit(st.width, st.height, st.bpp, st.format == cfg.rgbx8888);
      var frame := FrameOut(cfg, st);
      var bytes := if st.format == cfg.rgbx8888 then Compact(st.bytes, cfg.dataOffset, st.width * st.height) else st.bytes;
      st.(bytes := bytes, out := frame, log := st.log + [NewFrame(frame)])
  }

  /** screenCap: on a failed command the buffer is left alone; otherwise it
      becomes the captured bytes, inflated when compression is on, less the
      first `offset` bytes. Returns the command's exit code. */
  function ScreenCapSpec(st: FbState, exitCode: int, captured: seq<byte>, inflated: seq<byte>, offset: nat): FbState
  {
    if exitCode != 0 then st
    else
      var data := if st.compress then inflated else captured;
      st.(bytes := if offset > 0 then Drop(data, offset) else data)
  }

  /** getScreenInfo's effect: nothing when the width or height decodes as
      zero or negative, otherwise the geometry is stored and bpp follows
      the format when it is a known one. */
  function ScreenInfoSpec(cfg: FbConfig, st: FbState, b: seq<byte>): FbState
    requires ConfigOk(cfg)
  {
    var h := DecodeHeader(b);
    if h.width <= 0 || h.height <= 0 then st
    else
      var bpp := match BppOf(cfg, h.format) case Some(v) => v case None => st.bpp;
      st.(width := h.width, height := h.height, format := h.format, bpp := bpp)
  }

  /** getScreenInfo's result. */
  function ScreenInfoResult(cfg: FbConfig, b: seq<byte>): (r: int)
    requires ConfigOk(cfg)
    ensures r == 0 <==> DecodeHeader(b).width > 0 && DecodeHeader(b).height > 0 && BppOf(cfg, DecodeHeader(b).format).Some?
    ensures r == 0 || r == -1
  {
    var h := DecodeHeader(b);
    if h.width <= 0 || h.height <= 0 || BppOf(cfg, h.format).None? then -1 else 0
  }

  /** What getScreenInfo leaves: a rejected size changes nothing at all; an
      unknown format still overwrites the geometry and format but not bpp;
      a known format sets bpp to 2, 3 or 4. */
  lemma ScreenInfoCases(cfg: FbConfig, st: FbState, b: seq<byte>)
    requires ConfigOk(cfg)
    ensures var h := DecodeHeader(b); var st' := ScreenInfoSpec(cfg, st, b);
      (h.width <= 0 || h.height <= 0 ==> st' == st && ScreenInfoResult(cfg, b) == -1) &&
      (h.width > 0 && h.height > 0 ==>
         st'.width == h.width && st'.height == h.height && st'.format == h.format &&
         st'.connected == st.connected && st'.log == st.log && st'.bytes == st.bytes &&
         (BppOf(cfg, h.format).None? ==> st'.bpp == st.bpp && ScreenInfoResult(cfg, b) == -1) &&
         (h.format == cfg.rgbx565 ==> st'.bpp == 2) &&
         (h.format == cfg.rgb888 ==> st'.bpp == 3) &&
         (h.format == cfg.rgbx8888 ==> st'.bpp == 4))
  {
  }

  /** A width field with its top bit set is a negative int after the cast,
      so the capture is rejected without touching anything. */
  lemma HighBitWidthRejected(cfg: FbConfig, st: FbState, b: seq<byte>)
    requires ConfigOk(cfg) && ByteAt(b, 3) >= 0x80
    ensures ScreenInfoSpec(cfg, st, b) == st && ScreenInfoResult(cfg, b) == -1
  {
  }

  /** Connecting twice, or disconnecting twice, emits one event. */
  lemma SetConnectedIdempotent(st: FbState, state: bool)
    ensures SetConnectedSpec(SetConnectedSpec(st, state), state) == SetConnectedSpec(st, state)
    ensures |SetConnectedSpec(st, state).log| <= |st.log| + 1
    ensures SetConnectedSpec(st, state).connected == state
  {
  }

  class FbEx {
    const cfg: FbConfig
    /** The ADB part of the object, which holds the connection flag. */
    const adb: Adb

    var fbWidth: int
    var fbHeight: int
    var fbFormat: int
    var bpp: int
    var doCompress: bool
    var bytes: array<byte>
    var out: seq<byte>
    var log: seq<Event>

    /** The geometry is positive, and the RGBX8888 format has at least the
        four bytes per pixel the compaction reads. */
    ghost predicate Valid()
      reads this
    {
      ConfigOk(cfg) && fbWidth > 0 && fbHeight > 0 && (fbFormat == cfg.rgbx8888 ==> bpp >= 4)
    }

    ghost function State(): FbState
      reads this, adb, bytes
    {
      FbState(fbWidth, fbHeight, fbFormat, bpp, doCompress, adb.connected, bytes[..], out, log)
    }

    /** FBEx(), after the ADB part has been built with the given DELAY_*
        values. */
    constructor (c: FbConfig, fast: int, max: int, step: int)
      requires ConfigOk(c)
      ensures Valid() && cfg == c && fresh(adb)
      ensures adb.delayFast == fast && adb.delayMax == max && adb.delayStep == step
      ensures adb.delay == fast && !adb.connected && adb.wakeups == 0
      ensures fbWidth == c.defaultWidth && fbHeight == c.defaultHeight
      ensures fbFormat == c.rgbx8888 && bpp == c.bppMax && !doCompress
      ensures bytes.Length == 0 && out == [] && log == []
    {
      cfg := c;
      adb := new Adb(fast, max, step);
      doCompress := false;
      fbWidth, fbHeight := c.defaultWidth, c.defaultHeight;
      fbFormat := c.rgbx8888;
      bpp := c.bppMax;
      bytes := new byte[0];
      out, log := [], [];
    }

    method SetConnected(state: bool)
      modifies adb, this
      ensures State() == SetConnectedSpec(old(State()), state)
      ensures adb.delay == old(adb.delay) && adb.wakeups == old(adb.wakeups)
      ensures bytes == old(bytes) && Valid() == old(Valid())
    {
      if adb.connected == state {
        return;
      }
      adb.SetConnected(state);
      if state {
        log := log + [NewFBFound(fbWidth, fbHeight, fbFormat)];
      } else {
        log := log + [DeviceDisconnected];
      }
    }

    /** convertRGBAtoRGB888: walks the pixels row by row with a write cursor
        p and a read cursor n, copying three bytes and skipping the fourth;
        returns the size of the compacted data. */
    method ConvertRGBAtoRGB888(offset: nat) returns (len: int)
      requires Valid() && offset + 4 * (fbWidth * fbHeight) <= bytes.Length
      modifies bytes
      ensures bytes[..] == Compact(old(bytes[..]), offset, fbWidth * fbHeight)
      ensures len == fbWidth * fbHeight * 3
    {
      ghost var s0 := bytes[..];
      var w, h := fbWidth, fbHeight;
      ghost var k := 0;
      var p, n := offset, offset;
      var y := 0;
      while y < h
        invariant 0 <= y <= h && k == y * w && k <= w * h
        invariant p == offset + 3 * k && n == offset + 4 * k
        invariant bytes[..] == Compact(s0, offset, k)
      {
        NextRow(y, w, h);
        p, n, k := CompactRow(s0, offset, k, w, p, n);
        y := y + 1;
      }
      assert k == w * h;
      len := fbWidth * fbHeight * 3;
    }

    /** The inner loop: the w pixels of one row, from pixel k on, with the
        write cursor p and the read cursor n. */
    method CompactRow(ghost s0: seq<byte>, offset: nat, ghost k: nat, w: int, p: nat, n: nat) returns (p': nat, n': nat, ghost k': nat)
      requires 0 <= w && offset + 4 * (k + w) <= |s0| == bytes.Length
      requires p == offset + 3 * k && n == offset + 4 * k
      requires bytes[..] == Compact(s0, offset, k)
      modifies bytes
      ensures k' == k + w && bytes[..] == Compact(s0, offset, k')
      ensures p' == offset + 3 * k' && n' == offset + 4 * k'
    {
      p', n' := p, n;
      k' := k;
      var x := 0;
      while x < w
        invariant 0 <= x <= w && k' == k + x
        invariant p' == offset + 3 * k' && n' == offset + 4 * k'
        invariant bytes[..] == Compact(s0, offset, k')
      {
        CompactStep(s0, offset, k');
        p', n' := CopyPixelInPlace(p', n');
        n' := n' + 1;
        k' := k' + 1;
        x := x + 1;
      }
    }

    /** The three `*p++ = *n++` copies of one pixel. */
    method CopyPixelInPlace(p: nat, n: nat) returns (p': nat, n': nat)
      requires p + 3 <= bytes.Length && n + 3 <= bytes.Length
      modifies bytes
      ensures bytes[..] == CopyPixel(old(bytes[..]), p, n) && p' == p + 3 && n' == n + 3
    {
      ghost var t0 := bytes[..];
      bytes[p] := bytes[n];
      ghost var t1 := bytes[..];
      assert t1 == t0[p := t0[n]];
      bytes[p + 1] := bytes[n + 1];
      ghost var t2 := bytes[..];
      assert t2 == t1[p + 1 := t1[n + 1]];
      bytes[p + 2] := bytes[n + 2];
      assert bytes[..] == t2[p + 2 := t2[n + 2]];
      p', n' := p + 3, n + 3;
    }

    /** getScreenInfo(b). */
    method GetScreenInfo(b: seq<byte>) returns (ret: int)
      requires Valid()
      modifies this
      ensures State() == ScreenInfoSpec(cfg, old(State()), b) && ret == ScreenInfoResult(cfg, b)
      ensures Valid() && bytes == old(bytes)
    {
      var width := HostInt32(Mid(b, 0, 4));
      var height := HostInt32(Mid(b, 4, 4));
      var format := HostInt32(Mid(b, 8, 4));
      if width <= 0 || height <= 0 {
        return -1;
      }
      fbWidth, fbHeight, fbFormat := width, height, format;
      if format == cfg.rgbx565 {
        bpp := 2;
      } else if format == cfg.rgb888 {
        bpp := 3;
      } else if format == cfg.rgbx8888 {
        bpp := 4;
      } else {
        return -1;
      }
      return 0;
    }

    /** screenCap(bytes, offset), with the command's exit code, its output
        after line-ending repair, and what minigzip makes of that output
        given as parameters. */
    method ScreenCap(exitCode: int, captured: seq<byte>, inflated: seq<byte>, offset: nat) returns (ret: int)
      modifies this
      ensures State() == ScreenCapSpec(old(State()), exitCode, captured, inflated, offset)
      ensures ret == exitCode && Valid() == old(Valid())
      ensures exitCode != 0 ==> bytes == old(bytes)
      ensures exitCode == 0 ==> fresh(bytes)
    {
      if exitCode != 0 {
        return exitCode;
      }
      var data := captured;
      if doCompress {
        data := inflated;
      }
      if offset > 0 {
        data := Drop(data, offset);
      }
      bytes := new byte[|data|](i requires 0 <= i < |data| => data[i]);
      return exitCode;
    }

    method SendNewFB()
      requires Valid()
      modifies this, adb, bytes
      ensures State() == SendNewFBSpec(cfg, old(State())) && Valid()
      ensures adb.delay == old(adb.delay) && adb.wakeups == old(adb.wakeups)
      ensures bytes == old(bytes)
    {
      if bytes.Length < cfg.dataOffset + fbWidth * fbHeight * bpp {
        SetConnected(false);
        return;
      }
      FourPixelsFit(fbWidth, fbHeight, bpp, fbFormat == cfg.rgbx8888);
      var len;
      if fbFormat == cfg.rgbx8888 {
        len := ConvertRGBAtoRGB888(cfg.dataOffset);
      } else {
        len := cfg.dataOffset + fbWidth * fbHeight * bpp;
      }
      out := Mid(bytes[..], cfg.dataOffset, len);
      log := log + [NewFrame(out)];
    }

    /** readFrame, after its wait: nothing while disconnected or paused;
        otherwise a capture, which either goes out as a frame or
        disconnects. */
    method ReadFrame(paused: bool, exitCode: int, captured: seq<byte>, inflated: seq<byte>)
      requires Valid()
      modifies this, adb, bytes
      ensures Valid()
      ensures adb.delay == old(adb.delay) && adb.wakeups == old(adb.wakeups)
      ensures !old(adb.connected) || paused ==> State() == old(State())
      ensures old(adb.connected) && !paused && exitCode != 0 ==>
        State() == SetConnectedSpec(old(State()), false)
      ensures old(adb.connected) && !paused && exitCode == 0 ==>
        State() == SendNewFBSpec(cfg, ScreenCapSpec(old(State()), 0, captured, inflated, 0))
    {
      if !adb.connected || paused {
        return;
      }
      var ret := ScreenCap(exitCode, captured, inflated, 0);
      if ret == 0 {
        SendNewFB();
      } else {
        SetConnected(false);
      }
    }

    /** probeFBInfo: compression is switched on when the device has
        minigzip; then a capture whose header must decode, and only then
        the device counts as connected and the first frame goes out. */
    method ProbeFBInfo(compressSupported: bool, exitCode: int, captured: seq<byte>, inflated: seq<byte>)
      requires Valid()
      modifies this, adb, bytes
      ensures Valid()
      ensures adb.delay == old(adb.delay) && adb.wakeups == old(adb.wakeups)
      ensures var st0 := old(State()).(compress := compressSupported);
        var st1 := ScreenCapSpec(st0, exitCode, captured, inflated, 0);
        if exitCode != 0 then State() == SetConnectedSpec(st1, false)
        else if ScreenInfoResult(cfg, st1.bytes) != 0 then
          State() == SetConnectedSpec(ScreenInfoSpec(cfg, st1, st1.bytes), false)
        else State() == SendNewFBSpec(cfg, SetConnectedSpec(ScreenInfoSpec(cfg, st1, st1.bytes), true))
    {
      doCompress := compressSupported;
      var ret := ScreenCap(exitCode, captured, inflated, 0);
      if ret != 0 {
        SetConnected(false);
        return;
      }
      ret := GetScreenInfo(bytes[..]);
      if ret != 0 {
        SetConnected(false);
        return;
      }
      SetConnected(true);
      SendNewFB();
    }
  }

  /** A successful probe of a disconnected device with a well-formed
      RGBX8888 capture of the right size announces the geometry and then
      emits the compacted first frame, in that order. */
  lemma ProbeAnnouncesThenShows(cfg: FbConfig, st: FbState, h: Header, pixels: seq<byte>)
    requires ConfigOk(cfg) && !st.connected && !st.compress
    requires h.width > 0 && h.height > 0 && IsInt32(h.width) && IsInt32(h.height) && IsInt32(h.format)
    requires h.format == cfg.rgbx8888
    requires |EncodeHeader(h) + pixels| >= cfg.dataOffset + h.width * h.height * 4
    ensures var st1 := ScreenCapSpec(st, 0, EncodeHeader(h) + pixels, [], 0);
      ScreenInfoResult(cfg, st1.bytes) == 0 &&
      var st2 := SendNewFBSpec(cfg, SetConnectedSpec(ScreenInfoSpec(cfg, st1, st1.bytes), true));
      st2.connected &&
      st2.log == st.log + [NewFBFound(h.width, h.height, h.format), NewFrame(st2.out)] &&
      |st2.out| == 3 * (h.width * h.height)
  {
    var b := EncodeHeader(h) + pixels;
    DecodeEncodeHeader(h, pixels);
    var st1 := ScreenCapSpec(st, 0, b, [], 0);
    assert st1.bytes == b;
    var st2 := SetConnectedSpec(ScreenInfoSpec(cfg, st1, b), true);
    assert st2.width == h.width && st2.height == h.height && st2.bpp == 4;
    FourPixelsFit(h.width, h.height, 4, true);
    assert st2.width * st2.height * st2.bpp == h.width * h.height * 4;
    FrameOutRgbx(cfg, st2);
  }

  /** A 65536 x 65536 RGBX8888 header with FB_DATA_OFFSET 12: the length
      12 + 2^34 wraps to 12 in `int`, so a bare 12-byte capture passes the
      source's check although the compaction reads 2^34 bytes past the
      offset. The model's check, on the unwrapped length, disconnects. */
  lemma HugeHeaderPassesIntGuard(cfg: FbConfig, st: FbState)
    requires ConfigOk(cfg) && cfg.dataOffset == 12
    requires st.width == 65536 && st.height == 65536 && st.format == cfg.rgbx8888 && st.bpp == 4
    requires |st.bytes| == 12
    ensures !(|st.bytes| < FrameLength32(cfg, st))
    ensures |st.bytes| < cfg.dataOffset + 4 * (st.width * st.height)
    ensures SendNewFBSpec(cfg, st) == SetConnectedSpec(st, false)
  {
    assert FrameLength(cfg, st) == 12 + 0x4_0000_0000;
    assert Wrap32(12 + 0x4_0000_0000) == 12;
  }

  /** A capture that is too short disconnects a connected device, once, and
      emits no frame. */
  lemma ShortFrameDisconnects(cfg: FbConfig, st: FbState)
    requires ConfigOk(cfg) && st.width > 0 && st.height > 0 && (st.format == cfg.rgbx8888 ==> st.bpp >= 4)
    requires st.connected && |st.bytes| < FrameLength(cfg, st)
    ensures SendNewFBSpec(cfg, st).log == st.log + [DeviceDisconnected]
    ensures !SendNewFBSpec(cfg, st).connected && SendNewFBSpec(cfg, st).out == st.out
  {
  }
}
