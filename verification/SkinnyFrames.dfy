/** telephony/skinny_fixture.py: Skinny frames and the incremental decoder. */
module SkinnyFrames {
  import opened Bytes
  import opened Wrappers
  import Pieces

  const MAX_BODY_BYTES := 2048
  const MAX_BUFFER_BYTES := 8192
  const MAX_FRAMES_PER_FEED := 16

  /** Why a call raised. */
  datatype Fault =
    | ErrorState | BadFrame | BufferLimit | FrameLength | TooManyFrames | Truncated
    | RegisterRequired | BadRegister | BadIdentity | BadDeviceType | Unsupported
    | Unregistered | BadRinger

  datatype Frame = Frame(messageId: int, body: seq<byte>, reserved: int)

  /** `_validate_frame` */
  predicate ValidFrame(f: Frame) {
    0 <= f.messageId < TWO32 && 0 <= f.reserved < TWO32 && |f.body| <= MAX_BODY_BYTES
  }

  /** The length word counts the message id and the body. */
  function Wire(f: Frame): (s: seq<byte>)
    requires ValidFrame(f)
    ensures 12 <= |s| == |f.body| + 12 <= MAX_BODY_BYTES + 12
  {
    Le32(|f.body| + 4) + Le32(f.reserved) + Le32(f.messageId) + f.body
  }

  function EncodeFrame(f: Frame): Result<seq<byte>, Fault> {
    if ValidFrame(f) then Ok(Wire(f)) else Err(BadFrame)
  }

  predicate ValidFrames(fs: seq<Frame>) {
    forall i :: 0 <= i < |fs| ==> ValidFrame(fs[i])
  }

  /** A stream of frames. */
  function EncodeAll(fs: seq<Frame>): seq<byte>
    requires ValidFrames(fs)
  {
    if fs == [] then [] else Wire(fs[0]) + EncodeAll(fs[1..])
  }

  // ----- What a byte string holds -----

  predicate BadLength(length: nat) {
    length < 4 || length - 4 > MAX_BODY_BYTES
  }

  /** Every complete frame at the front of a string, what is left, and whether the next length is legal. */
  datatype Scanned = Scanned(frames: seq<Frame>, rest: seq<byte>, legal: bool)

  function FrameAt(s: seq<byte>, length: nat): Frame
    requires 4 <= length && length + 8 <= |s|
  {
    Frame(LeU32At(s, 8), s[12..length + 8], LeU32At(s, 4))
  }

  function Scan(s: seq<byte>): (r: Scanned)
    ensures |r.rest| <= |s|
  {
    if |s| < 8 then Scanned([], s, true)
    else
      var length := LeU32At(s, 0);
      if BadLength(length) then Scanned([], s, false)
      else if |s| < length + 8 then Scanned([], s, true)
      else
        var more := Scan(s[length + 8..]);
        Scanned([FrameAt(s, length)] + more.frames, more.rest, more.legal)
  }

  // ----- The decoder -----

  datatype Decoder = Decoder(buffer: seq<byte>, failed: bool)

  const FRESH := Decoder([], false)
  const DEAD := Decoder([], true)

  /** One `feed`: the new state, and the frames or the fault. */
  function Fed(d: Decoder, data: seq<byte>): (Decoder, Result<seq<Frame>, Fault>) {
    if d.failed then (d, Err(ErrorState))
    else if |data| + |d.buffer| > MAX_BUFFER_BYTES then (DEAD, Err(BufferLimit))
    else
      var r := Scan(d.buffer + data);
      if |r.frames| > MAX_FRAMES_PER_FEED then (DEAD, Err(TooManyFrames))
      else if !r.legal then (DEAD, Err(FrameLength))
      else (Decoder(r.rest, false), Ok(r.frames))
  }

  function Finished(d: Decoder): (Decoder, Option<Fault>) {
    if d.failed then (d, Some(ErrorState))
    else if d.buffer != [] then (DEAD, Some(Truncated))
    else (d, None)
  }

  class FrameDecoder {
    var buffer: seq<byte>
    var failed: bool

    function State(): Decoder
      reads this
    {
      Decoder(buffer, failed)
    }

    constructor ()
      ensures State() == FRESH
    {
      buffer, failed := [], false;
    }

    method Reset()
      modifies this
      ensures State() == FRESH
    {
      buffer, failed := [], false;
    }

    method Fail()
      modifies this
      ensures State() == DEAD
    {
      buffer, failed := [], true;
    }

    method Feed(data: seq<byte>) returns (r: Result<seq<Frame>, Fault>)
      modifies this
      ensures (State(), r) == Fed(old(State()), data)
    {
      hide LeU32At, FrameAt;
      if failed {
        return Err(ErrorState);
      }
      if |data| + |buffer| > MAX_BUFFER_BYTES {
        Fail();
        return Err(BufferLimit);
      }
      buffer := buffer + data;
      ghost var whole := Scan(buffer);
      var frames: seq<Frame> := [];
      while |frames| < MAX_FRAMES_PER_FEED && |buffer| >= 8
        invariant !failed && |frames| <= MAX_FRAMES_PER_FEED
        invariant whole == Scanned(frames + Scan(buffer).frames, Scan(buffer).rest, Scan(buffer).legal)
        decreases |buffer|
      {
        var length := LeU32At(buffer, 0);
        if BadLength(length) {
          Fail();
          return Err(FrameLength);
        }
        var wireSize := length + 8;
        if |buffer| < wireSize {
          break;
        }
        var frame := FrameAt(buffer, length);
        assert whole.frames == frames + [frame] + Scan(buffer[wireSize..]).frames;
        buffer := buffer[wireSize..];
        frames := frames + [frame];
      }
      if |frames| == MAX_FRAMES_PER_FEED && |buffer| >= 8 {
        var length := LeU32At(buffer, 0);
        if BadLength(length) {
          Fail();
          return Err(FrameLength);
        }
        if |buffer| >= length + 8 {
          Fail();
          return Err(TooManyFrames);
        }
      }
      assert Scan(buffer) == Scanned([], buffer, true);
      assert frames + [] == frames;
      return Ok(frames);
    }

    method Finish() returns (fault: Option<Fault>)
      modifies this
      ensures (State(), fault) == Finished(old(State()))
    {
      if failed {
        return Some(ErrorState);
      }
      if buffer != [] {
        Fail();
        return Some(Truncated);
      }
      return None;
    }
  }

  // ----- Frames are read back as sent -----

  lemma FrameReadBack(f: Frame, rest: seq<byte>)
    requires ValidFrame(f)
    ensures var s := Wire(f) + rest;
      LeU32At(s, 0) == |f.body| + 4 && FrameAt(s, |f.body| + 4) == f && s[|f.body| + 12..] == rest
  {
    var s := Wire(f) + rest;
    assert s[0..4] == Le32(|f.body| + 4) && s[4..8] == Le32(f.reserved) && s[8..12] == Le32(f.messageId);
    WordRoundTrip(|f.body| + 4);
    WordRoundTrip(f.reserved);
    WordRoundTrip(f.messageId);
    assert s[12..12 + |f.body|] == f.body;
  }

  /** A stream scans to the frames it was made of. */
  lemma {:induction false} ScanEncoded(fs: seq<Frame>)
    requires ValidFrames(fs)
    ensures Scan(EncodeAll(fs)) == Scanned(fs, [], true)
  {
    if fs != [] {
      FrameReadBack(fs[0], EncodeAll(fs[1..]));
      ScanEncoded(fs[1..]);
    }
  }

  /** Encoding refuses exactly the frames with a field out of range, and what it encodes decodes to that frame alone. */
  lemma FrameRoundTrip(f: Frame)
    ensures EncodeFrame(f) == if ValidFrame(f) then Ok(EncodeAll([f])) else Err(BadFrame)
    ensures ValidFrame(f) ==> Scan(EncodeAll([f])) == Scanned([f], [], true)
  {
    if ValidFrame(f) {
      assert [f][1..] == [] && Wire(f) + EncodeAll([]) == Wire(f);
      ScanEncoded([f]);
    }
  }

  lemma LittleWordRewrite(s: seq<byte>, i: nat)
    requires i + 4 <= |s|
    ensures Le32(LeU32At(s, i)) == s[i..i + 4]
  {
    var w := s[i..i + 4];
    assert Pow256(4) == TWO32;
    DigitsOfValue(Swapped(w));
    assert Swapped(Swapped(w)) == w;
  }

  lemma FrameWritten(s: seq<byte>, length: nat)
    requires 4 <= length <= MAX_BODY_BYTES + 4 && length + 8 <= |s| && LeU32At(s, 0) == length
    ensures ValidFrame(FrameAt(s, length)) && Wire(FrameAt(s, length)) == s[..length + 8]
  {
    hide Value, Digits;
    LittleWordRewrite(s, 0);
    LittleWordRewrite(s, 4);
    LittleWordRewrite(s, 8);
    assert s[..length + 8] == s[0..4] + s[4..8] + s[8..12] + s[12..length + 8];
  }

  /** Whatever a string scans to are valid frames, and writing them before what is left gives the string. */
  lemma {:induction false} ScanRewrites(s: seq<byte>)
    ensures ValidFrames(Scan(s).frames) && EncodeAll(Scan(s).frames) + Scan(s).rest == s
    decreases |s|
  {
    hide Wire, FrameAt, LeU32At;
    if Scan(s).frames != [] {
      var length := LeU32At(s, 0);
      FrameWritten(s, length);
      ScanRewrites(s[length + 8..]);
      var more := Scan(s[length + 8..]);
      assert Scan(s).frames[1..] == more.frames;
      assert s == s[..length + 8] + s[length + 8..];
      assert EncodeAll(Scan(s).frames) + Scan(s).rest == s[..length + 8] + (EncodeAll(more.frames) + more.rest);
    }
  }

  // ----- Chunking -----

  /** The first frame of a string, and the rest of it, when more bytes follow. */
  lemma HeadAppend(a: seq<byte>, b: seq<byte>)
    requires |a| >= 8
    ensures LeU32At(a + b, 0) == LeU32At(a, 0)
    ensures var n := LeU32At(a, 0);
      !BadLength(n) && |a| >= n + 8 ==> FrameAt(a + b, n) == FrameAt(a, n) && (a + b)[n + 8..] == a[n + 8..] + b
  {
    hide Value;
    var n := LeU32At(a, 0);
    assert (a + b)[0..4] == a[0..4];
    if !BadLength(n) && |a| >= n + 8 {
      assert (a + b)[4..8] == a[4..8] && (a + b)[8..12] == a[8..12] && (a + b)[12..n + 8] == a[12..n + 8];
    }
  }

  lemma ScanStep(s: seq<byte>, n: nat)
    requires |s| >= 8 && n == LeU32At(s, 0) && !BadLength(n) && |s| >= n + 8
    ensures var more := Scan(s[n + 8..]);
      Scan(s) == Scanned([FrameAt(s, n)] + more.frames, more.rest, more.legal)
  {
    hide LeU32At, FrameAt;
  }

  /** Scanning `b` after what `a` left over. */
  ghost predicate Continues(a: seq<byte>, b: seq<byte>) {
    if Scan(a).legal then
      var more := Scan(Scan(a).rest + b);
      Scan(a + b) == Scanned(Scan(a).frames + more.frames, more.rest, more.legal)
    else !Scan(a + b).legal
  }

  lemma ContinuesStep(a: seq<byte>, b: seq<byte>, n: nat)
    requires |a| >= 8 && n == LeU32At(a, 0) && !BadLength(n) && |a| >= n + 8 && Continues(a[n + 8..], b)
    ensures Continues(a, b)
  {
    hide Scan, LeU32At, FrameAt;
    HeadAppend(a, b);
    ScanStep(a, n);
    ScanStep(a + b, n);
    var f, tail := FrameAt(a, n), Scan(a[n + 8..]);
    var more := Scan(tail.rest + b);
    assert ([f] + tail.frames) + more.frames == [f] + (tail.frames + more.frames);
  }

  /** Bytes that arrive later do not change what was already scanned. */
  lemma {:induction false} ScanAppend(a: seq<byte>, b: seq<byte>)
    ensures Scan(a).legal ==>
      var more := Scan(Scan(a).rest + b);
      Scan(a + b) == Scanned(Scan(a).frames + more.frames, more.rest, more.legal)
    ensures !Scan(a).legal ==> !Scan(a + b).legal
    decreases |a|
  {
    hide LeU32At, FrameAt;
    if |a| >= 8 {
      HeadAppend(a, b);
      var n := LeU32At(a, 0);
      if !BadLength(n) && |a| >= n + 8 {
        ScanAppend(a[n + 8..], b);
        ContinuesStep(a, b, n);
      }
    }
  }

  /** Feeding chunks one after the other, up to the first fault. */
  function FedAll(d: Decoder, chunks: seq<seq<byte>>): (Decoder, Result<seq<Frame>, Fault>)
    decreases |chunks|
  {
    if chunks == [] then (d, Ok([]))
    else
      var (d1, first) := Fed(d, chunks[0]);
      if first.Err? then (d1, first)
      else
        var (d2, more) := FedAll(d1, chunks[1..]);
        if more.Err? then (d2, more) else (d2, Ok(first.value + more.value))
  }

  /** A successful run of feeds has scanned exactly the bytes it was given. */
  lemma {:induction false} FedAllScans(d: Decoder, chunks: seq<seq<byte>>)
    requires !d.failed && chunks != [] && FedAll(d, chunks).1.Ok?
    ensures var r := Scan(d.buffer + Pieces.Flat(chunks));
      r.legal && FedAll(d, chunks) == (Decoder(r.rest, false), Ok(r.frames))
    decreases |chunks|
  {
    hide Scan;
    var d1 := Fed(d, chunks[0]).0;
    Pieces.FlatCons(chunks);
    ScanAppend(d.buffer + chunks[0], Pieces.Flat(chunks[1..]));
    assert d.buffer + chunks[0] + Pieces.Flat(chunks[1..]) == d.buffer + Pieces.Flat(chunks);
    if chunks[1..] == [] {
      assert d.buffer + Pieces.Flat(chunks) == d.buffer + chunks[0];
      assert FedAll(d1, chunks[1..]) == (d1, Ok([]));
    } else {
      FedAllScans(d1, chunks[1..]);
    }
  }

  /** If the whole fits in one feed, every chunk of it does. */
  lemma {:induction false} WholeThenChunks(d: Decoder, chunks: seq<seq<byte>>)
    requires !d.failed && chunks != [] && Fed(d, Pieces.Flat(chunks)).1.Ok?
    ensures FedAll(d, chunks).1.Ok?
    decreases |chunks|
  {
    hide Scan;
    var a, b := d.buffer + chunks[0], Pieces.Flat(chunks[1..]);
    Pieces.FlatCons(chunks);
    ScanAppend(a, b);
    assert a + b == d.buffer + Pieces.Flat(chunks);
    if chunks[1..] != [] {
      WholeThenChunks(Fed(d, chunks[0]).0, chunks[1..]);
    }
  }

  /**
   Chunking does not matter: one feed succeeds exactly when every feed of any split of the data
   does and the whole stays within the limits of one feed; then frames and buffer are the same.
   */
  lemma ChunkingIndependence(d: Decoder, chunks: seq<seq<byte>>)
    requires !d.failed && chunks != []
    ensures Fed(d, Pieces.Flat(chunks)).1.Ok? <==>
      FedAll(d, chunks).1.Ok? && |d.buffer| + |Pieces.Flat(chunks)| <= MAX_BUFFER_BYTES
      && |FedAll(d, chunks).1.value| <= MAX_FRAMES_PER_FEED
    ensures Fed(d, Pieces.Flat(chunks)).1.Ok? ==> FedAll(d, chunks) == Fed(d, Pieces.Flat(chunks))
  {
    if Fed(d, Pieces.Flat(chunks)).1.Ok? {
      WholeThenChunks(d, chunks);
    }
    if FedAll(d, chunks).1.Ok? {
      FedAllScans(d, chunks);
    }
  }

  // ----- Streaming -----

  const SAFE_CHUNK := 192
  const MAX_PARTIAL := MAX_BODY_BYTES + 11

  /** A string that stops inside its first frame scans to nothing. */
  lemma ScanInside(f: Frame, s: seq<byte>, more: seq<byte>)
    requires ValidFrame(f) && s <= Wire(f) + more && |s| < |Wire(f)|
    ensures Scan(s) == Scanned([], s, true)
  {
    hide Value, Wire;
    FrameReadBack(f, more);
    if |s| >= 8 {
      assert s[0..4] == (Wire(f) + more)[0..4];
    }
  }

  lemma ScanFirst(f: Frame, t: seq<byte>)
    requires ValidFrame(f)
    ensures Scan(Wire(f) + t) == Scanned([f] + Scan(t).frames, Scan(t).rest, Scan(t).legal)
  {
    hide LeU32At, FrameAt, Wire;
    FrameReadBack(f, t);
  }

  /** How a front of a stream scans: whole frames of it, and less than one frame more. */
  ghost predicate Front(fs: seq<Frame>, s: seq<byte>, r: Scanned)
    requires ValidFrames(fs)
  {
    var k := |r.frames|;
    && r.legal && k <= |fs| && r.frames == fs[..k]
    && s == EncodeAll(fs[..k]) + r.rest && Partial(r.rest, fs[k..])
  }

  /** A buffer that is the front of a stream but not a whole frame of it. */
  ghost predicate Partial(buffer: seq<byte>, fs: seq<Frame>)
    requires ValidFrames(fs)
  {
    buffer <= EncodeAll(fs) && |buffer| <= MAX_PARTIAL
    && (fs != [] ==> |buffer| < |Wire(fs[0])|) && (fs == [] ==> buffer == [])
  }

  lemma FrontGrows(fs: seq<Frame>, t: seq<byte>)
    requires ValidFrames(fs) && fs != [] && Front(fs[1..], t, Scan(t))
    ensures Front(fs, Wire(fs[0]) + t, Scan(Wire(fs[0]) + t))
  {
    hide Scan, Wire;
    ScanFirst(fs[0], t);
    var k := |Scan(t).frames|;
    assert fs[..k + 1] == [fs[0]] + fs[1..][..k] && fs[..k + 1][1..] == fs[1..][..k];
    assert fs[k + 1..] == fs[1..][k..];
  }

  lemma {:induction false} ScanFront(fs: seq<Frame>, s: seq<byte>)
    requires ValidFrames(fs) && s <= EncodeAll(fs)
    ensures Front(fs, s, Scan(s))
  {
    hide Scan, Wire;
    if fs != [] {
      var first := Wire(fs[0]);
      if |s| < |first| {
        ScanInside(fs[0], s, EncodeAll(fs[1..]));
        assert fs[..0] == [] && fs[0..] == fs;
      } else {
        var t := s[|first|..];
        assert s == first + t;
        ScanFront(fs[1..], t);
        FrontGrows(fs, t);
      }
    } else {
      ScanEncoded([]);
      assert s == [] && fs[..0] == [];
    }
  }

  /** Frames are at least twelve bytes long. */
  lemma {:induction false} EncodeAllLength(fs: seq<Frame>)
    requires ValidFrames(fs)
    ensures |EncodeAll(fs)| >= 12 * |fs|
    ensures fs != [] ==> |EncodeAll(fs)| >= |Wire(fs[0])| + 12 * (|fs| - 1)
  {
    if fs != [] {
      EncodeAllLength(fs[1..]);
    }
  }

  lemma {:induction false} EncodeAllAppend(a: seq<Frame>, b: seq<Frame>)
    requires ValidFrames(a) && ValidFrames(b)
    ensures EncodeAll(a + b) == EncodeAll(a) + EncodeAll(b)
  {
    if a == [] {
      assert a + b == b;
    } else {
      EncodeAllAppend(a[1..], b);
      assert (a + b)[1..] == a[1..] + b;
    }
  }

  /** One small chunk of a stream is always accepted. */
  lemma StreamStep(d: Decoder, fs: seq<Frame>, chunk: seq<byte>)
    requires !d.failed && ValidFrames(fs) && Partial(d.buffer, fs)
    requires d.buffer + chunk <= EncodeAll(fs) && |chunk| <= SAFE_CHUNK
    ensures var (d1, r) := Fed(d, chunk);
      && !d1.failed && r.Ok? && |r.value| <= |fs| && r.value == fs[..|r.value|]
      && d.buffer + chunk == EncodeAll(r.value) + d1.buffer && Partial(d1.buffer, fs[|r.value|..])
  {
    hide Scan, EncodeAll, Wire;
    ScanFront(fs, d.buffer + chunk);
    EncodeAllLength(Scan(d.buffer + chunk).frames);
  }

  /**
   A stream of valid frames in chunks of at most 192 bytes is never refused. What has been
   returned is a front of what was sent, less than one frame stays buffered, and once the
   whole stream has arrived exactly the frames sent have been returned.
   */
  lemma {:induction false} StreamSafe(d: Decoder, fs: seq<Frame>, chunks: seq<seq<byte>>)
    requires !d.failed && ValidFrames(fs) && Partial(d.buffer, fs)
    requires d.buffer + Pieces.Flat(chunks) <= EncodeAll(fs)
    requires forall i :: 0 <= i < |chunks| ==> |chunks[i]| <= SAFE_CHUNK
    ensures var (d1, r) := FedAll(d, chunks);
      && !d1.failed && r.Ok? && r.value <= fs && |d1.buffer| <= MAX_PARTIAL
      && d.buffer + Pieces.Flat(chunks) == EncodeAll(r.value) + d1.buffer
      && (d.buffer + Pieces.Flat(chunks) == EncodeAll(fs) ==> r.value == fs && d1.buffer == [])
    decreases |chunks|
  {
    hide Scan, Wire, Fed, EncodeAll;
    if chunks == [] {
      assert d.buffer + Pieces.Flat(chunks) == d.buffer;
      WholeStream(d.buffer, fs);
    } else {
      var chunk, more := chunks[0], Pieces.Flat(chunks[1..]);
      Pieces.FlatCons(chunks);
      assert d.buffer + Pieces.Flat(chunks) == d.buffer + chunk + more;
      StreamStep(d, fs, chunk);
      var (d1, r) := Fed(d, chunk);
      AfterFrames(fs, |r.value|, d1.buffer + more) by {
        assert EncodeAll(r.value) + (d1.buffer + more) == d.buffer + Pieces.Flat(chunks);
      }
      StreamSafe(d1, fs[|r.value|..], chunks[1..]);
      var (d2, r2) := FedAll(d1, chunks[1..]);
      assert d.buffer + Pieces.Flat(chunks) == EncodeAll(r.value + r2.value) + d2.buffer by {
        EncodeAllAppend(r.value, r2.value);
        assert EncodeAll(r.value) + (d1.buffer + more) == d.buffer + Pieces.Flat(chunks);
      }
      PrefixJoin(fs, |r.value|, r2.value);
    }
  }

  lemma PrefixJoin(fs: seq<Frame>, k: nat, more: seq<Frame>)
    requires k <= |fs| && more <= fs[k..]
    ensures fs[..k] + more <= fs && (more == fs[k..] ==> fs[..k] + more == fs)
  {
  }

  /** A whole stream is not less than one frame, unless it is empty. */
  lemma WholeStream(buffer: seq<byte>, fs: seq<Frame>)
    requires ValidFrames(fs) && Partial(buffer, fs)
    ensures buffer == EncodeAll(fs) ==> fs == [] && buffer == []
    ensures EncodeAll([]) == []
  {
  }

  /** What follows the first frames of a stream is a front of the stream of the others. */
  lemma AfterFrames(fs: seq<Frame>, k: nat, s: seq<byte>)
    requires ValidFrames(fs) && k <= |fs| && EncodeAll(fs[..k]) + s <= EncodeAll(fs)
    ensures s <= EncodeAll(fs[k..])
    ensures EncodeAll(fs[..k]) + s == EncodeAll(fs) ==> s == EncodeAll(fs[k..])
  {
    hide EncodeAll;
    EncodeAllAppend(fs[..k], fs[k..]);
    assert fs == fs[..k] + fs[k..];
    var sent := EncodeAll(fs[..k]);
    assert (sent + s)[|sent|..] == s && EncodeAll(fs)[|sent|..] == EncodeAll(fs[k..]);
  }

  /** The bound is tight: one byte more per chunk, and a legal stream can be refused. */
  lemma ChunkBoundIsTight() returns (fs: seq<Frame>, chunks: seq<seq<byte>>)
    ensures ValidFrames(fs) && Pieces.Flat(chunks) == EncodeAll(fs)
    ensures forall i :: 0 <= i < |chunks| ==> |chunks[i]| <= SAFE_CHUNK + 1
    ensures FedAll(FRESH, chunks).1 == Err(TooManyFrames)
  {
    var keepAlive := Frame(0, [], 0);
    fs := seq(MAX_FRAMES_PER_FEED + 1, i => keepAlive);
    var stream := EncodeAll(fs);
    UniformStream(fs);
    chunks := [stream[..11], stream[11..]];
    assert chunks[1..][1..] == [];
    Pieces.FlatCons(chunks);
    Pieces.FlatCons(chunks[1..]);
    assert Pieces.Flat(chunks) == stream;
    ScanEncoded(fs);
    ScanFront(fs, stream[..11]);
    assert |Wire(fs[0])| == 12;
    EncodeAllLength(Scan(stream[..11]).frames);
    assert stream[..11] + stream[11..] == stream;
    assert [] + stream[..11] == stream[..11];
    assert Fed(FRESH, stream[..11]) == (Decoder(stream[..11], false), Ok([]));
    assert chunks[1..] == [stream[11..]];
    assert FedAll(Decoder(stream[..11], false), chunks[1..]).1 == Err(TooManyFrames);
  }

  lemma {:induction false} UniformStream(fs: seq<Frame>)
    requires forall i :: 0 <= i < |fs| ==> fs[i] == Frame(0, [], 0)
    ensures ValidFrames(fs) && |EncodeAll(fs)| == 12 * |fs|
  {
    if fs != [] {
      UniformStream(fs[1..]);
    }
  }
}
