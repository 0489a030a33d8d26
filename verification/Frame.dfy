/** The DERP wire format, its buffered stream decoder and its codec (crabscale-derp/src/frame.rs, codec.rs). */
module Frame {
  import opened Ordered

  type Byte = b: int | 0 <= b < 256

  const HEADER_LEN: nat := 5
  const MAX_BODY_LEN: nat := 1024 * 1024

  datatype FrameType =
    | ServerKey | ClientInfo | ServerInfo | SendPacket | RecvPacket | KeepAlive | NotePreferred | PeerGone
    | PeerPresent | ForwardPacket | WatchConns | Ping | Pong | Health | Restarting

  datatype FrameError =
    | Truncated
    | Oversized
    | InvalidFrameType(code: Byte)

  datatype Result<T> = Ok(value: T) | Err(error: FrameError)

  datatype Header = Header(ty: FrameType, len: nat)

  datatype Frame = Frame(ty: FrameType, payload: seq<Byte>)

  function Code(t: FrameType): Byte {
    match t
    case ServerKey => 0x01
    case ClientInfo => 0x02
    case ServerInfo => 0x03
    case SendPacket => 0x04
    case RecvPacket => 0x05
    case KeepAlive => 0x06
    case NotePreferred => 0x07
    case PeerGone => 0x08
    case PeerPresent => 0x09
    case ForwardPacket => 0x0A
    case WatchConns => 0x10
    case Ping => 0x12
    case Pong => 0x13
    case Health => 0x14
    case Restarting => 0x15
  }

  function TypeOf(b: Byte): (r: Result<FrameType>)
    ensures r.Ok? ==> Code(r.value) == b
    ensures r.Err? ==> r.error == InvalidFrameType(b) && forall t :: Code(t) != b
  {
    match b
    case 0x01 => Ok(ServerKey)
    case 0x02 => Ok(ClientInfo)
    case 0x03 => Ok(ServerInfo)
    case 0x04 => Ok(SendPacket)
    case 0x05 => Ok(RecvPacket)
    case 0x06 => Ok(KeepAlive)
    case 0x07 => Ok(NotePreferred)
    case 0x08 => Ok(PeerGone)
    case 0x09 => Ok(PeerPresent)
    case 0x0A => Ok(ForwardPacket)
    case 0x10 => Ok(WatchConns)
    case 0x12 => Ok(Ping)
    case 0x13 => Ok(Pong)
    case 0x14 => Ok(Health)
    case 0x15 => Ok(Restarting)
    case _ => Err(InvalidFrameType(b))
  }

  // ---------------------------------------------------------------------
  // Big-endian integers of any width.

  ghost function Pow256(k: nat): nat {
    if k == 0 then 1 else 256 * Pow256(k - 1)
  }

  function ToBe(n: nat, width: nat): (r: seq<Byte>)
    ensures |r| == width
  {
    if width == 0 then [] else ToBe(n / 256, width - 1) + [n % 256]
  }

  function FromBe(bs: seq<Byte>): (r: nat)
    ensures r < Pow256(|bs|)
  {
    if bs == [] then 0 else
      FromBe(bs[..|bs| - 1]) * 256 + bs[|bs| - 1]
  }

  lemma {:induction false} BeRoundTrip(n: nat, width: nat)
    requires n < Pow256(width)
    ensures FromBe(ToBe(n, width)) == n
  {
    if width > 0 {
      BeRoundTrip(n / 256, width - 1);
      assert ToBe(n, width)[..width - 1] == ToBe(n / 256, width - 1);
    }
  }

  lemma {:induction false} BeCanonical(bs: seq<Byte>)
    ensures ToBe(FromBe(bs), |bs|) == bs
  {
    if bs != [] {
      BeCanonical(bs[..|bs| - 1]);
      assert bs == bs[..|bs| - 1] + [bs[|bs| - 1]];
    }
  }

  // ---------------------------------------------------------------------
  // Headers and frames.

  function NewHeader(ty: FrameType, len: nat): Result<Header> {
    if len > MAX_BODY_LEN then Err(Oversized) else Ok(Header(ty, len))
  }

  function EncodeHeader(h: Header): (r: seq<Byte>)
    ensures |r| == HEADER_LEN
  {
    [Code(h.ty)] + ToBe(h.len, 4)
  }

  function DecodeHeader(buf: seq<Byte>): (r: Result<Header>)
    ensures r.Ok? ==> |buf| >= HEADER_LEN && r.value.len <= MAX_BODY_LEN
  {
    if |buf| < HEADER_LEN then
      Err(Truncated)
    else
      var ty := TypeOf(buf[0]);
      if ty.Err? then Err(ty.error) else NewHeader(ty.value, FromBe(buf[1..5]))
  }

  function EncodeFrame(f: Frame): Result<seq<Byte>> {
    var h := NewHeader(f.ty, |f.payload|);
    if h.Err? then Err(h.error) else Ok(EncodeHeader(h.value) + f.payload)
  }

  /** The first frame of a buffer and the bytes it took. */
  function DecodeFrame(buf: seq<Byte>): (r: Result<(Frame, nat)>)
    ensures r.Ok? ==> HEADER_LEN <= r.value.1 <= |buf|
  {
    var h := DecodeHeader(buf);
    if h.Err? then
      Err(h.error)
    else
      var end := HEADER_LEN + h.value.len;
      if |buf| < end then Err(Truncated) else Ok((Frame(h.value.ty, buf[HEADER_LEN..end]), end))
  }

  predicate Sendable(f: Frame) {
    |f.payload| <= MAX_BODY_LEN
  }

  function Wire(f: Frame): (r: seq<Byte>)
    requires Sendable(f)
    ensures |r| == HEADER_LEN + |f.payload|
  {
    EncodeFrame(f).value
  }

  lemma HeaderRoundTrip(h: Header, rest: seq<Byte>)
    requires h.len <= MAX_BODY_LEN
    ensures DecodeHeader(EncodeHeader(h) + rest) == Ok(h)
  {
    var buf := EncodeHeader(h) + rest;
    assert buf[1..5] == ToBe(h.len, 4);
    assert Pow256(4) == 256 * (256 * (256 * 256)) by {
      assert Pow256(1) == 256 && Pow256(2) == 256 * 256 && Pow256(3) == 256 * (256 * 256);
    }
    BeRoundTrip(h.len, 4);
  }

  lemma HeaderCanonical(buf: seq<Byte>)
    requires DecodeHeader(buf).Ok?
    ensures buf[..HEADER_LEN] == EncodeHeader(DecodeHeader(buf).value)
  {
    BeCanonical(buf[1..5]);
    assert buf[..HEADER_LEN] == [buf[0]] + buf[1..5];
  }

  /** What is encoded decodes to itself, whatever follows it in the buffer. */
  lemma FrameRoundTrip(f: Frame, rest: seq<Byte>)
    requires Sendable(f)
    ensures DecodeFrame(Wire(f) + rest) == Ok((f, |Wire(f)|))
  {
    var h := Header(f.ty, |f.payload|);
    HeaderRoundTrip(h, f.payload + rest);
    assert Wire(f) + rest == EncodeHeader(h) + (f.payload + rest);
    assert (Wire(f) + rest)[HEADER_LEN..HEADER_LEN + h.len] == f.payload;
  }

  /** The bytes a decoded frame took are exactly its encoding: the format has one spelling per frame. */
  lemma FrameCanonical(buf: seq<Byte>)
    requires DecodeFrame(buf).Ok?
    ensures var (f, n) := DecodeFrame(buf).value; Sendable(f) && Wire(f) == buf[..n]
  {
    HeaderCanonical(buf);
    var (f, n) := DecodeFrame(buf).value;
    assert buf[..n] == buf[..HEADER_LEN] + buf[HEADER_LEN..n];
  }

  /** A verdict other than "truncated" is final: no later byte changes it. */
  lemma DecodeStable(buf: seq<Byte>, more: seq<Byte>)
    requires DecodeFrame(buf) != Err(Truncated)
    ensures DecodeFrame(buf + more) == DecodeFrame(buf)
  {
    assert (buf + more)[1..5] == buf[1..5];
    if DecodeFrame(buf).Ok? {
      var n := DecodeFrame(buf).value.1;
      assert (buf + more)[HEADER_LEN..n] == buf[HEADER_LEN..n];
    }
  }

  /** The bytes are some but not all of a valid frame. */
  ghost predicate ProperPrefix(partial: seq<Byte>) {
    exists f :: Sendable(f) && |partial| < |Wire(f)| && partial == Wire(f)[..|partial|]
  }

  /** A buffer is incomplete exactly when it is shorter than a header or begins a valid frame it does not finish. */
  lemma TruncatedIff(buf: seq<Byte>)
    ensures DecodeFrame(buf) == Err(Truncated) <==> |buf| < HEADER_LEN || ProperPrefix(buf)
  {
    if ProperPrefix(buf) && |buf| >= HEADER_LEN {
      var f :| Sendable(f) && |buf| < |Wire(f)| && buf == Wire(f)[..|buf|];
      PrefixTruncated(f, |buf|);
    }
    if DecodeFrame(buf) == Err(Truncated) && |buf| >= HEADER_LEN {
      HeaderCanonical(buf);
      var h := DecodeHeader(buf).value;
      var f := Frame(h.ty, buf[HEADER_LEN..] + seq(HEADER_LEN + h.len - |buf|, _ => 0));
      assert buf == buf[..HEADER_LEN] + buf[HEADER_LEN..];
      assert Wire(f)[..|buf|] == buf;
    }
  }

  lemma PrefixTruncated(f: Frame, k: nat)
    requires Sendable(f) && k < |Wire(f)|
    ensures DecodeFrame(Wire(f)[..k]) == Err(Truncated)
  {
    var buf := Wire(f)[..k];
    if k >= HEADER_LEN {
      var h := Header(f.ty, |f.payload|);
      HeaderRoundTrip(h, f.payload[..k - HEADER_LEN]);
      assert buf == EncodeHeader(h) + f.payload[..k - HEADER_LEN];
    }
  }

  // ---------------------------------------------------------------------
  // The stream decoder.

  /** Complete frames taken off a buffer, what is left of it, and the error that stopped the decoder. */
  datatype Drained = Drained(frames: seq<Frame>, rest: seq<Byte>, failed: Option<FrameError>)

  function Drain(buf: seq<Byte>): Drained
    decreases |buf|
  {
    match DecodeFrame(buf)
    case Err(Truncated) => Drained([], buf, None)
    case Err(e) => Drained([], buf, Some(e))
    case Ok((f, n)) =>
      var d := Drain(buf[n..]);
      d.(frames := [f] + d.frames)
  }

  /** A drained buffer with frames taken before it. */
  function Under(frames: seq<Frame>, d: Drained): Drained {
    d.(frames := frames + d.frames)
  }

  lemma UnderTwice(a: seq<Frame>, b: seq<Frame>, d: Drained)
    ensures Under(a, Under(b, d)) == Under(a + b, d)
    ensures Under([], d) == d
  {
    assert a + (b + d.frames) == a + b + d.frames;
    assert [] + d.frames == d.frames;
  }

  function WireAll(fs: seq<Frame>): seq<Byte>
    requires forall f :: f in fs ==> Sendable(f)
  {
    if fs == [] then [] else Wire(fs[0]) + WireAll(fs[1..])
  }

  /** Nothing is invented or lost: the drained frames re-encoded, then the rest, are the buffer. */
  lemma {:induction false} DrainConserves(buf: seq<Byte>)
    ensures var d := Drain(buf);
            && (forall f :: f in d.frames ==> Sendable(f))
            && buf == WireAll(d.frames) + d.rest
            && (d.failed.None? <==> DecodeFrame(d.rest) == Err(Truncated))
    decreases |buf|
  {
    if DecodeFrame(buf).Ok? {
      var (f, n) := DecodeFrame(buf).value;
      FrameCanonical(buf);
      DrainConserves(buf[n..]);
      var d, e := Drain(buf), Drain(buf[n..]);
      assert d.frames[1..] == e.frames;
      assert buf == buf[..n] + buf[n..];
    }
  }

  /** Frames sent back to back, then an unfinished one, come out as sent with the unfinished one kept. */
  lemma {:induction false} DrainRecovers(fs: seq<Frame>, partial: seq<Byte>)
    requires forall f :: f in fs ==> Sendable(f)
    requires partial == [] || ProperPrefix(partial)
    ensures Drain(WireAll(fs) + partial) == Drained(fs, partial, None)
  {
    if fs == [] {
      TruncatedIff(partial);
      assert WireAll(fs) + partial == partial;
    } else {
      var rest := WireAll(fs[1..]) + partial;
      FrameRoundTrip(fs[0], rest);
      assert WireAll(fs) + partial == Wire(fs[0]) + rest;
      assert (Wire(fs[0]) + rest)[|Wire(fs[0])|..] == rest;
      DrainRecovers(fs[1..], partial);
      assert fs == [fs[0]] + fs[1..];
    }
  }

  /** Draining early and then going on gives what draining once at the end gives. */
  lemma {:induction false} DrainAppend(buf: seq<Byte>, more: seq<Byte>)
    ensures var d := Drain(buf);
            Drain(buf + more) ==
              if d.failed.Some? then d.(rest := d.rest + more)
              else Under(d.frames, Drain(d.rest + more))
    decreases |buf|
  {
    if DecodeFrame(buf) == Err(Truncated) {
      assert [] + Drain(buf + more).frames == Drain(buf + more).frames;
    } else {
      DecodeStable(buf, more);
      if DecodeFrame(buf).Ok? {
        var (f, n) := DecodeFrame(buf).value;
        DrainAppend(buf[n..], more);
        DrainAppendStep(buf, more);
        var d := Drain(buf[n..]);
        UnderTwice([f], d.frames, Drain(d.rest + more));
      }
    }
  }

  lemma DrainTakes(buf: seq<Byte>)
    requires DecodeFrame(buf).Ok?
    ensures Drain(buf) == Under([DecodeFrame(buf).value.0], Drain(buf[DecodeFrame(buf).value.1..]))
  {
  }

  lemma DrainAppendStep(buf: seq<Byte>, more: seq<Byte>)
    requires DecodeFrame(buf).Ok? && DecodeFrame(buf + more) == DecodeFrame(buf)
    ensures var (f, n) := DecodeFrame(buf).value;
            && Drain(buf) == Under([f], Drain(buf[n..]))
            && Drain(buf + more) == Under([f], Drain(buf[n..] + more))
  {
    var n := DecodeFrame(buf).value.1;
    DrainTakes(buf);
    DrainTakes(buf + more);
    assert (buf + more)[n..] == buf[n..] + more;
  }

  class FrameDecoder {
    var buf: seq<Byte>

    constructor ()
      ensures buf == []
    {
      buf := [];
    }

    /** Frames decoded before an error in the same call are not returned. */
    method Feed(data: seq<Byte>) returns (r: Result<seq<Frame>>)
      modifies this
      ensures var d := Drain(old(buf) + data);
              buf == d.rest && r == if d.failed.Some? then Err(d.failed.value) else Ok(d.frames)
    {
      buf := buf + data;
      ghost var whole := Drain(buf);
      var out := [];
      while true
        invariant whole == (var d := Drain(buf); d.(frames := out + d.frames))
        decreases |buf|
      {
        match DecodeFrame(buf) {
          case Ok((f, n)) =>
            assert (out + [f]) + Drain(buf[n..]).frames == out + ([f] + Drain(buf[n..]).frames);
            out := out + [f];
            buf := buf[n..];
          case Err(Truncated) =>
            assert out + [] == out;
            return Ok(out);
          case Err(e) =>
            return Err(e);
        }
      }
    }
  }

  /** The decoder fed one chunk after another until one fails. */
  datatype Fed = Fed(frames: seq<Frame>, buf: seq<Byte>, failed: Option<FrameError>)

  function FeedAll(buf: seq<Byte>, chunks: seq<seq<Byte>>): Fed
    decreases |chunks|
  {
    if chunks == [] then
      Fed([], buf, None)
    else
      var d := Drain(buf + chunks[0]);
      if d.failed.Some? then
        Fed([], d.rest, d.failed)
      else
        var later := FeedAll(d.rest, chunks[1..]);
        later.(frames := d.frames + later.frames)
  }

  function Concat<T>(parts: seq<seq<T>>): seq<T> {
    if parts == [] then [] else parts[0] + Concat(parts[1..])
  }

  /**
   * However the bytes are cut, the decoder fails exactly when the uncut bytes make it fail and with the same error.
   * Without a failure it returns the frames of the uncut bytes and keeps their remainder; with one it has
   * returned a prefix of them.
   */
  lemma {:induction false} ChunkIndependence(buf: seq<Byte>, chunks: seq<seq<Byte>>)
    requires DecodeFrame(buf) == Err(Truncated)
    ensures var fed, whole := FeedAll(buf, chunks), Drain(buf + Concat(chunks));
            && fed.failed == whole.failed
            && fed.frames <= whole.frames
            && (fed.failed.None? ==> fed.frames == whole.frames && fed.buf == whole.rest)
    decreases |chunks|
  {
    if chunks == [] {
      assert buf + Concat(chunks) == buf;
    } else {
      var head, later := buf + chunks[0], Concat(chunks[1..]);
      var d := Drain(head);
      assert buf + Concat(chunks) == head + later;
      DrainAppend(head, later);
      if d.failed.None? {
        DrainConserves(head);
        ChunkIndependence(d.rest, chunks[1..]);
      }
    }
  }

  /** Whole frames and an unfinished one, cut anywhere, are returned in order with the unfinished one kept. */
  lemma CutFramesRecovered(fs: seq<Frame>, partial: seq<Byte>, chunks: seq<seq<Byte>>)
    requires forall f :: f in fs ==> Sendable(f)
    requires partial == [] || ProperPrefix(partial)
    requires Concat(chunks) == WireAll(fs) + partial
    ensures FeedAll([], chunks) == Fed(fs, partial, None)
  {
    assert [] + Concat(chunks) == Concat(chunks);
    ChunkIndependence([], chunks);
    DrainRecovers(fs, partial);
  }

  /** A valid frame followed in the same chunk by a bad type byte is dropped with the error; cut apart, it is returned. */
  lemma FailingFeedDropsFrames(f: Frame)
    requires Sendable(f)
    ensures FeedAll([], [Wire(f) + [0, 0, 0, 0, 0]]) == Fed([], [0, 0, 0, 0, 0], Some(InvalidFrameType(0)))
    ensures FeedAll([], [Wire(f), [0, 0, 0, 0, 0]]) == Fed([f], [0, 0, 0, 0, 0], Some(InvalidFrameType(0)))
  {
    var bad: seq<Byte> := [0, 0, 0, 0, 0];
    assert DecodeFrame(bad) == Err(InvalidFrameType(0));
    assert Drain(bad) == Drained([], bad, Some(InvalidFrameType(0)));
    FrameRoundTrip(f, bad);
    assert (Wire(f) + bad)[|Wire(f)|..] == bad;
    assert [] + (Wire(f) + bad) == Wire(f) + bad;
    assert Drain(Wire(f) + bad).frames == [f];
    FrameRoundTrip(f, []);
    assert Wire(f) + [] == Wire(f) == [] + Wire(f);
    assert Wire(f)[|Wire(f)|..] == [];
    assert Drain(Wire(f)) == Drained([f], [], None);
    assert [Wire(f), bad][1..] == [bad];
    assert FeedAll([], [bad]) == Fed([], bad, Some(InvalidFrameType(0))) by {
      assert [] + bad == bad;
    }
  }

  /** The frames the failing call had already decoded; without a failure none. */
  function Lost(buf: seq<Byte>, chunks: seq<seq<Byte>>): seq<Frame>
    decreases |chunks|
  {
    if chunks == [] then
      []
    else
      var d := Drain(buf + chunks[0]);
      if d.failed.Some? then d.frames else Lost(d.rest, chunks[1..])
  }

  lemma FeedGoesOn(buf: seq<Byte>, chunks: seq<seq<Byte>>)
    requires chunks != [] && Drain(buf + chunks[0]).failed.None?
    ensures var d := Drain(buf + chunks[0]);
            && FeedAll(buf, chunks).frames == d.frames + FeedAll(d.rest, chunks[1..]).frames
            && Lost(buf, chunks) == Lost(d.rest, chunks[1..])
  {
  }

  lemma JoinFrames(a: seq<Frame>, b: seq<Frame>, c: seq<Frame>)
    ensures a + (b + c) == a + b + c
  {
  }

  /** What the decoder returned, then what its failing call dropped, are the frames of the uncut bytes. */
  lemma {:induction false} ReturnedThenLost(buf: seq<Byte>, chunks: seq<seq<Byte>>)
    requires DecodeFrame(buf) == Err(Truncated)
    ensures Drain(buf + Concat(chunks)).frames == FeedAll(buf, chunks).frames + Lost(buf, chunks)
    decreases |chunks|
  {
    if chunks == [] {
      assert buf + Concat(chunks) == buf;
    } else {
      var head, later := buf + chunks[0], Concat(chunks[1..]);
      var d := Drain(head);
      assert buf + Concat(chunks) == head + later;
      DrainAppend(head, later);
      if d.failed.None? {
        DrainConserves(head);
        ReturnedThenLost(d.rest, chunks[1..]);
        FeedGoesOn(buf, chunks);
        JoinFrames(d.frames, FeedAll(d.rest, chunks[1..]).frames, Lost(d.rest, chunks[1..]));
      }
    }
  }

  /** How many bytes some frames take. */
  ghost function BytesOf(fs: seq<Frame>): nat {
    if fs == [] then 0 else HEADER_LEN + |fs[0].payload| + BytesOf(fs[1..])
  }

  lemma {:induction false} BytesOfJoin(a: seq<Frame>, b: seq<Frame>)
    ensures BytesOf(a + b) == BytesOf(a) + BytesOf(b)
  {
    if a == [] {
      assert a + b == b;
    } else {
      assert (a + b)[1..] == a[1..] + b;
      BytesOfJoin(a[1..], b);
    }
  }

  lemma {:induction false} BytesOfWire(fs: seq<Frame>)
    requires forall f :: f in fs ==> Sendable(f)
    ensures |WireAll(fs)| == BytesOf(fs)
  {
    if fs != [] {
      BytesOfWire(fs[1..]);
    }
  }

  /** Where a chunk ends in the bytes that follow `buf`; the end of `buf` itself comes first. */
  ghost function Boundary(buf: seq<Byte>, chunks: seq<seq<Byte>>, k: nat): nat
    requires k <= |chunks|
  {
    |buf| + |Concat(chunks[..k])|
  }

  /** A chunk ends at or after the end of the last good frame and before the bad header is complete. */
  ghost predicate CutBeforeBad(buf: seq<Byte>, chunks: seq<seq<Byte>>, end: nat) {
    exists k :: 0 <= k <= |chunks| && end <= Boundary(buf, chunks, k) < end + HEADER_LEN
  }

  /** Bytes that hold no whole frame end inside the first frame of whatever they grow into, or inside a bad header. */
  lemma EndsInside(buf: seq<Byte>, more: seq<Byte>)
    requires DecodeFrame(buf) == Err(Truncated)
    ensures Drain(buf + more).frames != [] ==> |buf| < BytesOf(Drain(buf + more).frames)
    ensures Drain(buf + more).frames == [] && Drain(buf + more).failed.Some? ==> |buf| < HEADER_LEN
  {
    var all := buf + more;
    assert |buf| >= HEADER_LEN ==> all[1..5] == buf[1..5];
    if DecodeFrame(all).Ok? {
      var (f, n) := DecodeFrame(all).value;
      DrainTakes(all);
      assert Drain(all).frames[0] == f;
    }
  }

  lemma BadHeaderComplete(buf: seq<Byte>)
    requires Drain(buf).failed.Some?
    ensures BytesOf(Drain(buf).frames) + HEADER_LEN <= |buf|
  {
    DrainConserves(buf);
    BytesOfWire(Drain(buf).frames);
  }

  lemma BoundaryShifts(buf: seq<Byte>, chunks: seq<seq<Byte>>, k: nat)
    requires 0 < k <= |chunks|
    ensures Boundary(buf, chunks, k) == |buf + chunks[0]| + |Concat(chunks[1..][..k - 1])|
  {
    assert chunks[..k][1..] == chunks[1..][..k - 1];
  }

  /**
   * Nothing is lost exactly when there is no failure, or some chunk ends between the end of the last good frame and
   * the completion of the bad header, so that the failing call starts with no good frame left to decode.
   */
  lemma {:induction false} NothingLostIff(buf: seq<Byte>, chunks: seq<seq<Byte>>)
    requires DecodeFrame(buf) == Err(Truncated)
    ensures var whole := Drain(buf + Concat(chunks));
            Lost(buf, chunks) == [] <==> whole.failed.None? || CutBeforeBad(buf, chunks, BytesOf(whole.frames))
    decreases |chunks|
  {
    if chunks == [] {
      assert buf + Concat(chunks) == buf;
    } else {
      var head, later := buf + chunks[0], Concat(chunks[1..]);
      assert buf + Concat(chunks) == head + later;
      DrainAppend(head, later);
      if Drain(head).failed.Some? {
        LostAtOnce(buf, chunks);
      } else {
        DrainConserves(head);
        NothingLostIff(Drain(head).rest, chunks[1..]);
        LostLater(buf, chunks);
      }
    }
  }

  /** The first chunk fails: its frames are lost unless there are none. */
  lemma LostAtOnce(buf: seq<Byte>, chunks: seq<seq<Byte>>)
    requires DecodeFrame(buf) == Err(Truncated) && chunks != [] && Drain(buf + chunks[0]).failed.Some?
    ensures var end := BytesOf(Drain(buf + chunks[0]).frames);
            Drain(buf + chunks[0]).frames == [] <==> CutBeforeBad(buf, chunks, end)
  {
    var d := Drain(buf + chunks[0]);
    EndsInside(buf, chunks[0]);
    BadHeaderComplete(buf + chunks[0]);
    forall k | 0 < k <= |chunks|
      ensures Boundary(buf, chunks, k) >= BytesOf(d.frames) + HEADER_LEN
    {
      BoundaryShifts(buf, chunks, k);
    }
    assert chunks[..0] == [];
    assert Boundary(buf, chunks, 0) == |buf|;
  }

  /** The first chunk is decoded: the question moves on to what it left. */
  lemma LostLater(buf: seq<Byte>, chunks: seq<seq<Byte>>)
    requires DecodeFrame(buf) == Err(Truncated) && chunks != [] && Drain(buf + chunks[0]).failed.None?
    requires DecodeFrame(Drain(buf + chunks[0]).rest) == Err(Truncated)
    requires var rest, later := Drain(buf + chunks[0]).rest, Concat(chunks[1..]);
             var whole := Drain(rest + later);
             Lost(rest, chunks[1..]) == [] <==> whole.failed.None? || CutBeforeBad(rest, chunks[1..], BytesOf(whole.frames))
    ensures var whole := Drain(buf + chunks[0] + Concat(chunks[1..]));
            Lost(buf, chunks) == [] <==> whole.failed.None? || CutBeforeBad(buf, chunks, BytesOf(whole.frames))
  {
    var head, later := buf + chunks[0], Concat(chunks[1..]);
    var d := Drain(head);
    var after := Drain(d.rest + later);
    DrainAppend(head, later);
    DrainConserves(head);
    BytesOfWire(d.frames);
    BytesOfJoin(d.frames, after.frames);
    if after.failed.Some? {
      CutMoves(buf, chunks, d.frames, d.rest, BytesOf(after.frames));
      FirstCut(buf, chunks);
    }
  }

  /** A cut behind the first chunk is a cut in what that chunk left. */
  lemma CutMoves(buf: seq<Byte>, chunks: seq<seq<Byte>>, fs: seq<Frame>, rest: seq<Byte>, end: nat)
    requires chunks != [] && |buf + chunks[0]| == BytesOf(fs) + |rest|
    ensures CutBeforeBad(rest, chunks[1..], end) <==>
            exists k :: 0 < k <= |chunks| && BytesOf(fs) + end <= Boundary(buf, chunks, k) < BytesOf(fs) + end + HEADER_LEN
  {
    if CutBeforeBad(rest, chunks[1..], end) {
      var k :| 0 <= k <= |chunks[1..]| && end <= Boundary(rest, chunks[1..], k) < end + HEADER_LEN;
      BoundaryShifts(buf, chunks, k + 1);
      assert Boundary(buf, chunks, k + 1) == BytesOf(fs) + Boundary(rest, chunks[1..], k);
    }
    if exists k :: 0 < k <= |chunks| && BytesOf(fs) + end <= Boundary(buf, chunks, k) < BytesOf(fs) + end + HEADER_LEN {
      var k :| 0 < k <= |chunks| && BytesOf(fs) + end <= Boundary(buf, chunks, k) < BytesOf(fs) + end + HEADER_LEN;
      BoundaryShifts(buf, chunks, k);
      assert Boundary(rest, chunks[1..], k - 1) == Boundary(buf, chunks, k) - BytesOf(fs);
    }
  }

  /** The end of the old bytes is such a cut only when no good frame precedes the bad header, and then nothing can be lost. */
  lemma FirstCut(buf: seq<Byte>, chunks: seq<seq<Byte>>)
    requires DecodeFrame(buf) == Err(Truncated) && chunks != []
    ensures var whole := Drain(buf + chunks[0] + Concat(chunks[1..]));
            whole.failed.Some? && BytesOf(whole.frames) <= |buf| ==> Lost(buf, chunks) == []
  {
    assert buf + Concat(chunks) == buf + chunks[0] + Concat(chunks[1..]);
    EndsInside(buf, Concat(chunks));
    ReturnedThenLost(buf, chunks);
  }

  // ---------------------------------------------------------------------
  // The codec with a configurable body ceiling.

  class ByteBuffer {
    var bytes: seq<Byte>

    constructor (bytes: seq<Byte>)
      ensures this.bytes == bytes
    {
      this.bytes := bytes;
    }
  }

  /** The frames a codec with the given ceiling takes off a buffer when it is called until it has nothing more to give. */
  function CodecDrain(max: nat, buf: seq<Byte>): Drained
    decreases |buf|
  {
    match DecodeHeader(buf)
    case Err(Truncated) => Drained([], buf, None)
    case Err(e) => Drained([], buf, Some(e))
    case Ok(h) =>
      if h.len > max then
        Drained([], buf, Some(Oversized))
      else if |buf| < HEADER_LEN + h.len then
        Drained([], buf, None)
      else
        var d := CodecDrain(max, buf[HEADER_LEN + h.len..]);
        d.(frames := [Frame(h.ty, buf[HEADER_LEN..HEADER_LEN + h.len])] + d.frames)
  }

  class DerpCodec {
    const maxBodyLen: nat

    constructor (maxBodyLen: nat)
      ensures this.maxBodyLen == maxBodyLen
    {
      this.maxBodyLen := maxBodyLen;
    }

    /** One call: a frame, nothing yet, or an error; only a frame takes bytes off the buffer. */
    method Decode(src: ByteBuffer) returns (r: Result<Option<Frame>>)
      modifies src
      ensures var before, after := CodecDrain(maxBodyLen, old(src.bytes)), CodecDrain(maxBodyLen, src.bytes);
              match r
              case Ok(Some(f)) => before == Under([f], after) && |src.bytes| < |old(src.bytes)|
              case Ok(None) => before == Drained([], old(src.bytes), None) && src.bytes == old(src.bytes)
              case Err(e) => before == Drained([], old(src.bytes), Some(e)) && src.bytes == old(src.bytes)
    {
      if |src.bytes| < HEADER_LEN {
        return Ok(None);
      }
      var h := DecodeHeader(src.bytes);
      if h.Err? {
        return Err(h.error);
      }
      if h.value.len > maxBodyLen {
        return Err(Oversized);
      }
      var total := HEADER_LEN + h.value.len;
      if |src.bytes| < total {
        return Ok(None);
      }
      var frame := Frame(h.value.ty, src.bytes[HEADER_LEN..total]);
      src.bytes := src.bytes[total..];
      r := Ok(Some(frame));
    }

    method Encode(f: Frame, dst: ByteBuffer) returns (r: Result<()>)
      modifies dst
      ensures r.Ok? <==> |f.payload| <= maxBodyLen && Sendable(f)
      ensures dst.bytes == if r.Ok? then old(dst.bytes) + Wire(f) else old(dst.bytes)
      ensures r.Err? ==> r.error == Oversized
    {
      if |f.payload| > maxBodyLen {
        return Err(Oversized);
      }
      var h := NewHeader(f.ty, |f.payload|);
      if h.Err? {
        return Err(h.error);
      }
      assert old(dst.bytes) + EncodeHeader(h.value) + f.payload == old(dst.bytes) + Wire(f);
      dst.bytes := dst.bytes + EncodeHeader(h.value);
      dst.bytes := dst.bytes + f.payload;
      r := Ok(());
    }

    /** The caller's loop: decode until there is nothing more to take. */
    method DecodeAll(src: ByteBuffer) returns (frames: seq<Frame>, failed: Option<FrameError>)
      modifies src
      ensures Drained(frames, src.bytes, failed) == CodecDrain(maxBodyLen, old(src.bytes))
    {
      frames, failed := [], None;
      UnderTwice([], [], CodecDrain(maxBodyLen, src.bytes));
      while true
        invariant CodecDrain(maxBodyLen, old(src.bytes)) == Under(frames, CodecDrain(maxBodyLen, src.bytes))
        decreases |src.bytes|
      {
        var r := Decode(src);
        if r.Err? {
          assert frames + [] == frames;
          failed := Some(r.error);
          return;
        }
        if r.value.None? {
          assert frames + [] == frames;
          return;
        }
        UnderTwice(frames, [r.value.value], CodecDrain(maxBodyLen, src.bytes));
        frames := frames + [r.value.value];
      }
    }
  }

  /** With its default ceiling the codec is the stream decoder. */
  lemma {:induction false} CodecAgrees(buf: seq<Byte>)
    ensures CodecDrain(MAX_BODY_LEN, buf) == Drain(buf)
    decreases |buf|
  {
    if DecodeFrame(buf).Ok? {
      CodecAgrees(buf[DecodeFrame(buf).value.1..]);
    }
  }

  /** The largest body a codec has let through. */
  ghost predicate AllWithin(max: nat, fs: seq<Frame>) {
    forall f :: f in fs ==> |f.payload| <= max
  }

  /** A lower ceiling never changes a frame: the codec gives the stream decoder's frames up to the first header above it. */
  lemma {:induction false} CodecCutsOff(max: nat, buf: seq<Byte>)
    ensures var c, d := CodecDrain(max, buf), Drain(buf);
            && c.frames <= d.frames && AllWithin(max, c.frames)
            && (c == d || (c.failed == Some(Oversized) && DecodeHeader(c.rest).Ok? && DecodeHeader(c.rest).value.len > max))
    decreases |buf|
  {
    if DecodeFrame(buf).Ok? && DecodeHeader(buf).value.len <= max {
      CodecCutsOff(max, buf[DecodeFrame(buf).value.1..]);
    }
  }

  /** One frame within the ceiling comes off first. */
  lemma CodecTakes(max: nat, buf: seq<Byte>)
    requires DecodeFrame(buf).Ok? && DecodeHeader(buf).value.len <= max
    ensures var (f, n) := DecodeFrame(buf).value;
            CodecDrain(max, buf) == Under([f], CodecDrain(max, buf[n..]))
  {
  }

  lemma WireAllCons(f: Frame, fs: seq<Frame>, rest: seq<Byte>)
    requires Sendable(f) && forall g :: g in fs ==> Sendable(g)
    ensures forall g :: g in [f] + fs ==> Sendable(g)
    ensures WireAll([f] + fs) + rest == Wire(f) + (WireAll(fs) + rest)
  {
    assert ([f] + fs)[1..] == fs;
    assert Wire(f) + WireAll(fs) + rest == Wire(f) + (WireAll(fs) + rest);
  }

  /** Nothing is invented or lost by the codec either. */
  lemma {:induction false} CodecConserves(max: nat, buf: seq<Byte>)
    ensures var c := CodecDrain(max, buf);
            (forall f :: f in c.frames ==> Sendable(f)) && buf == WireAll(c.frames) + c.rest
    decreases |buf|
  {
    if DecodeFrame(buf).Ok? && DecodeHeader(buf).value.len <= max {
      var (f, n) := DecodeFrame(buf).value;
      FrameCanonical(buf);
      CodecConserves(max, buf[n..]);
      CodecTakes(max, buf);
      var later := CodecDrain(max, buf[n..]);
      WireAllCons(f, later.frames, later.rest);
      assert buf == buf[..n] + buf[n..];
    } else {
      assert CodecDrain(max, buf).frames == [];
      assert WireAll([]) + buf == buf;
    }
  }
}
