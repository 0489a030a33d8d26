/** Whole WebSocket streams: reassembly, control frames, the byte stream on top and DERP over it (crabscale-derp/src/websocket.rs). */
module Transport {
  import opened Ordered
  import opened Frame
  import opened WebSocket

  // ---------------------------------------------------------------------
  // What a sender may put on the wire.

  /** A control frame, or one fragment of a data message; `last` ends the message. */
  datatype Piece =
    | Control(opcode: nat, payload: seq<Byte>, key: Key)
    | Part(text: bool, last: bool, payload: seq<Byte>, key: Key, form: Form)

  /** The sender keeps to the framing rules and to the message limit, given the message it has open. */
  predicate PieceFits(open: Option<seq<Byte>>, p: Piece) {
    match p
    case Control(opcode, payload, _) => (opcode == CLOSE || opcode == PING || opcode == PONG) && |payload| <= 125
    case Part(_, _, payload, _, form) => FormFits(form, |payload|) && |OpenBytes(open)| + |payload| <= MAX_MESSAGE_LEN
  }

  function OpenBytes(open: Option<seq<Byte>>): seq<Byte> {
    if open.Some? then open.value else []
  }

  function PieceWire(receiver: Role, open: Option<seq<Byte>>, p: Piece): seq<Byte>
    requires PieceFits(open, p)
  {
    match p
    case Control(opcode, payload, key) => FrameBytes(true, opcode, KeyFor(receiver, key), Short, payload)
    case Part(text, last, payload, key, form) => FrameBytes(last, PartOpcode(open, p), KeyFor(receiver, key), form, payload)
  }

  function PartOpcode(open: Option<seq<Byte>>, p: Piece): nat
    requires p.Part?
  {
    if open.Some? then CONTINUATION else if p.text then TEXT else BINARY
  }

  /** The message open after a piece. */
  function OpenAfter(open: Option<seq<Byte>>, p: Piece): Option<seq<Byte>> {
    if p.Control? then open else if p.last then None else Some(OpenBytes(open) + p.payload)
  }

  /** What a piece makes the receiver surface: a control frame at once, a message with its last fragment. */
  function Surfaces(open: Option<seq<Byte>>, p: Piece): seq<WsFrame> {
    match p
    case Control(opcode, payload, _) =>
      [if opcode == PING then WsPing(payload) else if opcode == PONG then WsPong(payload) else WsClose]
    case Part(text, last, payload, _, _) =>
      if !last then [] else [if open.None? && text then Text(payload) else Binary(OpenBytes(open) + payload)]
  }

  predicate Fits(open: Option<seq<Byte>>, pieces: seq<Piece>)
    decreases |pieces|
  {
    pieces == [] || (PieceFits(open, pieces[0]) && Fits(OpenAfter(open, pieces[0]), pieces[1..]))
  }

  function StreamWire(receiver: Role, open: Option<seq<Byte>>, pieces: seq<Piece>): seq<Byte>
    requires Fits(open, pieces)
    decreases |pieces|
  {
    if pieces == [] then []
    else PieceWire(receiver, open, pieces[0]) + StreamWire(receiver, OpenAfter(open, pieces[0]), pieces[1..])
  }

  function OpenAfterAll(open: Option<seq<Byte>>, pieces: seq<Piece>): Option<seq<Byte>>
    decreases |pieces|
  {
    if pieces == [] then open else OpenAfterAll(OpenAfter(open, pieces[0]), pieces[1..])
  }

  function SurfacesAll(open: Option<seq<Byte>>, pieces: seq<Piece>): seq<WsFrame>
    decreases |pieces|
  {
    if pieces == [] then [] else Surfaces(open, pieces[0]) + SurfacesAll(OpenAfter(open, pieces[0]), pieces[1..])
  }

  // ---------------------------------------------------------------------
  // Repeated decoding.

  datatype Outcome = Outcome(frames: seq<WsFrame>, open: Option<seq<Byte>>, rest: seq<Byte>, failed: Option<WsError>)

  function Emitted(out: Option<WsFrame>): seq<WsFrame> {
    if out.Some? then [out.value] else []
  }

  /** The decoder called until it waits for bytes or fails. */
  function Run(role: Role, open: Option<seq<Byte>>, buf: seq<Byte>): Outcome
    decreases |buf|
  {
    match DecodeStep(role, open, buf)
    case Starved => Outcome([], open, buf, None)
    case Failed(e, rest) => Outcome([], open, rest, Some(e))
    case Took(out, open', rest) =>
      var r := Run(role, open', rest);
      r.(frames := Emitted(out) + r.frames)
  }

  lemma PieceStep(role: Role, open: Option<seq<Byte>>, p: Piece, after: seq<Byte>)
    requires PieceFits(open, p)
    ensures var step := DecodeStep(role, open, PieceWire(role, open, p) + after);
            step.Took? && Emitted(step.out) == Surfaces(open, p) && step.open == OpenAfter(open, p) && step.rest == after
  {
    match p
    case Control(opcode, payload, key) =>
      StepWire(role, open, true, opcode, key, Short, payload, after);
    case Part(text, last, payload, key, form) =>
      StepWire(role, open, last, PartOpcode(open, p), key, form, payload, after);
      assert open.None? ==> OpenBytes(open) + payload == payload;
  }

  lemma RunPiece(role: Role, open: Option<seq<Byte>>, p: Piece, after: seq<Byte>)
    requires PieceFits(open, p)
    ensures var r := Run(role, OpenAfter(open, p), after);
            Run(role, open, PieceWire(role, open, p) + after) == r.(frames := Surfaces(open, p) + r.frames)
  {
    PieceStep(role, open, p, after);
  }

  lemma WireCons(role: Role, open: Option<seq<Byte>>, pieces: seq<Piece>, after: seq<Byte>)
    requires Fits(open, pieces) && pieces != []
    ensures StreamWire(role, open, pieces) + after ==
            PieceWire(role, open, pieces[0]) + (StreamWire(role, OpenAfter(open, pieces[0]), pieces[1..]) + after)
  {
  }

  /** Any legal stream is reassembled into exactly the frames it stands for, whatever bytes follow it. */
  lemma {:induction false} StreamDecodes(role: Role, open: Option<seq<Byte>>, pieces: seq<Piece>, after: seq<Byte>)
    requires Fits(open, pieces)
    ensures var r := Run(role, OpenAfterAll(open, pieces), after);
            Run(role, open, StreamWire(role, open, pieces) + after) == r.(frames := SurfacesAll(open, pieces) + r.frames)
    decreases |pieces|
  {
    if pieces == [] {
      assert StreamWire(role, open, pieces) + after == after;
      assert [] + Run(role, open, after).frames == Run(role, open, after).frames;
    } else {
      var p := pieces[0];
      var open' := OpenAfter(open, p);
      WireCons(role, open, pieces, after);
      RunPiece(role, open, p, StreamWire(role, open', pieces[1..]) + after);
      StreamDecodes(role, open', pieces[1..], after);
      Associate(Surfaces(open, p), SurfacesAll(open', pieces[1..]), Run(role, OpenAfterAll(open, pieces), after).frames);
    }
  }

  lemma Associate<T>(a: seq<T>, b: seq<T>, c: seq<T>)
    ensures a + (b + c) == (a + b) + c
  {
  }

  // ---------------------------------------------------------------------
  // Arrival in chunks.

  lemma LengthStable(buf: seq<Byte>, more: seq<Byte>)
    requires |buf| >= 2 && ParseLength(buf).Some?
    ensures ParseLength(buf + more) == ParseLength(buf)
  {
    var width := ParseLength(buf).value.1;
    assert (buf + more)[2..2 + width] == buf[2..2 + width];
  }

  lemma ParseStable(role: Role, buf: seq<Byte>, more: seq<Byte>)
    requires Parse(role, buf) != Wait
    ensures Parse(role, buf + more) == Parse(role, buf)
  {
    assert (buf + more)[0] == buf[0] && (buf + more)[1] == buf[1];
    if ParseLength(buf).Some? {
      LengthStable(buf, more);
      var (length, width) := ParseLength(buf).value;
      var start := 2 + width + (if buf[1] / 128 == 1 then 4 else 0);
      if |buf| >= start + length {
        assert (buf + more)[start..start + length] == buf[start..start + length];
        assert (buf + more)[2 + width..start] == buf[2 + width..start];
      }
    }
  }

  /** What follows a frame has no part in what it surfaces. */
  lemma SurfaceStable(open: Option<seq<Byte>>, fin: bool, opcode: nat, payload: seq<Byte>, rest: seq<Byte>, rest': seq<Byte>)
    ensures !Surface(open, fin, opcode, payload, rest).Starved?
    ensures Surface(open, fin, opcode, payload, rest') == Surface(open, fin, opcode, payload, rest).(rest := rest')
    ensures Surface(open, fin, opcode, payload, rest).rest == rest
  {
  }

  /** A step once possible stays the same step as bytes arrive. */
  lemma StepStable(role: Role, open: Option<seq<Byte>>, buf: seq<Byte>, more: seq<Byte>)
    requires !DecodeStep(role, open, buf).Starved?
    ensures var step := DecodeStep(role, open, buf);
            DecodeStep(role, open, buf + more) == step.(rest := step.rest + more)
  {
    ParseStable(role, buf, more);
    var parsed := Parse(role, buf);
    if parsed.Got? {
      var rest := buf[parsed.total..];
      assert (buf + more)[parsed.total..] == rest + more;
      SurfaceStable(open, parsed.fin, parsed.opcode, parsed.payload, rest, rest + more);
    }
  }

  /** Decoding early and going on when bytes arrive gives what decoding all the bytes at the end gives. */
  lemma {:induction false} RunAppend(role: Role, open: Option<seq<Byte>>, buf: seq<Byte>, more: seq<Byte>)
    ensures var r := Run(role, open, buf);
            Run(role, open, buf + more) ==
              if r.failed.Some? then r.(rest := r.rest + more)
              else var s := Run(role, r.open, r.rest + more); s.(frames := r.frames + s.frames)
    decreases |buf|
  {
    var step := DecodeStep(role, open, buf);
    if step.Starved? {
      assert [] + Run(role, open, buf + more).frames == Run(role, open, buf + more).frames;
    } else {
      StepStable(role, open, buf, more);
      if step.Took? {
        RunAppend(role, step.open, step.rest, more);
        var r := Run(role, step.open, step.rest);
        Associate(Emitted(step.out), r.frames, Run(role, r.open, r.rest + more).frames);
      }
    }
  }

  /** An unfinished frame makes the decoder wait; it is never mistaken for an error. */
  lemma UnfinishedWaits(role: Role, open: Option<seq<Byte>>, p: Piece, k: nat)
    requires PieceFits(open, p) && k < |PieceWire(role, open, p)|
    ensures Run(role, open, PieceWire(role, open, p)[..k]) == Outcome([], open, PieceWire(role, open, p)[..k], None)
  {
    match p
    case Control(opcode, payload, key) =>
      PrefixWaits(role, true, opcode, key, Short, payload, k);
    case Part(text, last, payload, key, form) =>
      PrefixWaits(role, last, PartOpcode(open, p), key, form, payload, k);
  }

  lemma PrefixWaits(role: Role, fin: bool, opcode: nat, key: Key, form: Form, payload: seq<Byte>, k: nat)
    requires opcode < 16 && FormFits(form, |payload|) && k < |FrameBytes(fin, opcode, KeyFor(role, key), form, payload)|
    ensures Parse(role, FrameBytes(fin, opcode, KeyFor(role, key), form, payload)[..k]) == Wait
  {
    var header := HeaderBytes(fin, opcode, role.Server?, form, |payload|);
    var buf := FrameBytes(fin, opcode, KeyFor(role, key), form, payload)[..k];
    FlagsRead(fin, opcode, role.Server?, form, |payload|);
    if 2 + ExtWidth(form) <= k {
      LengthReads(fin, opcode, role.Server?, form, |payload|, buf[|header|..]);
      assert buf == header + buf[|header|..];
    } else if 2 <= k {
      assert buf[0] == header[0] && buf[1] == header[1];
      assert buf[1] % 128 == LenByte(form, |payload|);
    }
  }

  /** Bytes decoded chunk by chunk, each time until the decoder waits. */
  function RunAll(role: Role, open: Option<seq<Byte>>, buf: seq<Byte>, chunks: seq<seq<Byte>>): Outcome
    decreases |chunks|
  {
    if chunks == [] then
      Outcome([], open, buf, None)
    else
      var r := Run(role, open, buf + chunks[0]);
      if r.failed.Some? then r else
        var later := RunAll(role, r.open, r.rest, chunks[1..]);
        later.(frames := r.frames + later.frames)
  }

  /** How the bytes are cut makes no difference to the frames, the open message, the remainder or the error. */
  lemma {:induction false} CutsDoNotMatter(role: Role, open: Option<seq<Byte>>, buf: seq<Byte>, chunks: seq<seq<Byte>>)
    requires DecodeStep(role, open, buf).Starved?
    ensures var cut, whole := RunAll(role, open, buf, chunks), Run(role, open, buf + Concat(chunks));
            && cut.frames == whole.frames && cut.failed == whole.failed && cut.open == whole.open
            && (cut.failed.None? ==> cut.rest == whole.rest)
    decreases |chunks|
  {
    if chunks == [] {
      assert buf + Concat(chunks) == buf;
    } else {
      var head, later := buf + chunks[0], Concat(chunks[1..]);
      assert buf + Concat(chunks) == head + later;
      RunAppend(role, open, head, later);
      var r := Run(role, open, head);
      if r.failed.None? {
        RunSettles(role, open, head);
        CutsDoNotMatter(role, r.open, r.rest, chunks[1..]);
      }
    }
  }

  lemma {:induction false} RunSettles(role: Role, open: Option<seq<Byte>>, buf: seq<Byte>)
    ensures var r := Run(role, open, buf); r.failed.None? ==> DecodeStep(role, r.open, r.rest).Starved?
    decreases |buf|
  {
    var step := DecodeStep(role, open, buf);
    if step.Took? {
      RunSettles(role, step.open, step.rest);
    }
  }

  // ---------------------------------------------------------------------
  // A reader that stops at the first "no frame".

  /** The decoder called until it first reports no frame, as a reader does that then goes back to the socket. */
  function Poll(role: Role, open: Option<seq<Byte>>, buf: seq<Byte>): Outcome
    decreases |buf|
  {
    match DecodeStep(role, open, buf)
    case Starved => Outcome([], open, buf, None)
    case Failed(e, rest) => Outcome([], open, rest, Some(e))
    case Took(None, open', rest) => Outcome([], open', rest, None)
    case Took(Some(f), open', rest) =>
      var r := Poll(role, open', rest);
      r.(frames := [f] + r.frames)
  }

  /** Such a reader may stop early, but it loses nothing: going on from where it stopped gives the rest. */
  lemma {:induction false} PollLosesNothing(role: Role, open: Option<seq<Byte>>, buf: seq<Byte>)
    ensures var p, whole := Poll(role, open, buf), Run(role, open, buf);
            if p.failed.Some? then p == whole
            else var later := Run(role, p.open, p.rest); whole == later.(frames := p.frames + later.frames)
    decreases |buf|
  {
    var step := DecodeStep(role, open, buf);
    if step.Took? && step.out.Some? {
      PollLosesNothing(role, step.open, step.rest);
      var p := Poll(role, step.open, step.rest);
      if p.failed.None? {
        Associate(Emitted(step.out), p.frames, Run(role, p.open, p.rest).frames);
      }
    } else if !step.Failed? {
      var p := Poll(role, open, buf);
      assert [] + Run(role, p.open, p.rest).frames == Run(role, p.open, p.rest).frames;
    }
  }

  /** A fragment that does not end its message, with another piece behind it. */
  ghost predicate StallsAt(pieces: seq<Piece>, i: int) {
    0 <= i < |pieces| - 1 && pieces[i].Part? && !pieces[i].last
  }

  ghost predicate Stalls(pieces: seq<Piece>) {
    exists i :: StallsAt(pieces, i)
  }

  lemma StallsStep(pieces: seq<Piece>)
    requires pieces != []
    ensures Stalls(pieces) <==> StallsAt(pieces, 0) || Stalls(pieces[1..])
  {
    forall i | StallsAt(pieces, i)
      ensures StallsAt(pieces, 0) || Stalls(pieces[1..])
    {
      assert i == 0 || StallsAt(pieces[1..], i - 1);
    }
    forall i | StallsAt(pieces[1..], i)
      ensures Stalls(pieces)
    {
      assert StallsAt(pieces, i + 1);
    }
  }

  lemma WholeStream(role: Role, open: Option<seq<Byte>>, pieces: seq<Piece>)
    requires Fits(open, pieces)
    ensures Run(role, open, StreamWire(role, open, pieces)) == Outcome(SurfacesAll(open, pieces), OpenAfterAll(open, pieces), [], None)
  {
    StreamDecodes(role, open, pieces, []);
    assert StreamWire(role, open, pieces) + [] == StreamWire(role, open, pieces);
    assert SurfacesAll(open, pieces) + [] == SurfacesAll(open, pieces);
  }

  /** Such a reader goes past a control frame or the end of a message, and stops behind any other fragment. */
  lemma PollPiece(role: Role, open: Option<seq<Byte>>, p: Piece, after: seq<Byte>)
    requires PieceFits(open, p)
    ensures var polled := Poll(role, open, PieceWire(role, open, p) + after);
            if p.Control? || p.last
            then var r := Poll(role, OpenAfter(open, p), after); polled == r.(frames := Surfaces(open, p) + r.frames)
            else polled == Outcome([], OpenAfter(open, p), after, None)
  {
    PieceStep(role, open, p, after);
  }

  lemma PieceWireNonempty(role: Role, open: Option<seq<Byte>>, p: Piece)
    requires PieceFits(open, p)
    ensures PieceWire(role, open, p) != []
  {
  }

  /**
   * A reader that stops at the first "no frame" consumes all the frames that have arrived if and only if no
   * unfinished fragment has a further frame behind it; otherwise the frames behind it wait for another arrival.
   */
  lemma {:induction false} PollCompleteIff(role: Role, open: Option<seq<Byte>>, pieces: seq<Piece>)
    requires Fits(open, pieces)
    ensures var w := StreamWire(role, open, pieces);
            Poll(role, open, w) == Run(role, open, w) <==> !Stalls(pieces)
    decreases |pieces|
  {
    if pieces != [] {
      var p, open' := pieces[0], OpenAfter(open, pieces[0]);
      var later := StreamWire(role, open', pieces[1..]);
      PollPiece(role, open, p, later);
      RunPiece(role, open, p, later);
      StallsStep(pieces);
      WholeStream(role, open', pieces[1..]);
      if p.Control? || p.last {
        PollCompleteIff(role, open', pieces[1..]);
        CancelLeft(Surfaces(open, p), Poll(role, open', later).frames, Run(role, open', later).frames);
      } else if |pieces| > 1 {
        PieceWireNonempty(role, open', pieces[1]);
        assert StallsAt(pieces, 0);
      } else {
        assert !Stalls(pieces[1..]);
      }
    }
  }

  lemma CancelLeft<T>(a: seq<T>, b: seq<T>, c: seq<T>)
    ensures a + b == a + c <==> b == c
  {
    assert (a + b)[|a|..] == b && (a + c)[|a|..] == c;
  }

  lemma TwoFragments(a: seq<Byte>, b: seq<Byte>, key: Key)
    requires |a| + |b| <= 125
    ensures var pieces := [Part(false, false, a, key, Short), Part(false, true, b, key, Short)];
            && Fits(None, pieces) && OpenAfter(None, pieces[0]) == Some(a)
            && SurfacesAll(None, pieces) == [Binary(a + b)]
  {
    var pieces := [Part(false, false, a, key, Short), Part(false, true, b, key, Short)];
    assert pieces[1..] == [pieces[1]] && pieces[1..][1..] == [];
    assert [] + a == a;
    assert SurfacesAll(Some(a), pieces[1..]) == [Binary(a + b)] + [];
  }

  /** A two-fragment message that arrives in one chunk surfaces nothing for that reader, though it is complete. */
  lemma FragmentsInOneChunkWait(role: Role, a: seq<Byte>, b: seq<Byte>, key: Key)
    requires |a| + |b| <= 125
    ensures var pieces := [Part(false, false, a, key, Short), Part(false, true, b, key, Short)];
            && Fits(None, pieces)
            && Poll(role, None, StreamWire(role, None, pieces)).frames == []
            && Run(role, None, StreamWire(role, None, pieces)).frames == [Binary(a + b)]
  {
    var pieces := [Part(false, false, a, key, Short), Part(false, true, b, key, Short)];
    TwoFragments(a, b, key);
    WholeStream(role, None, pieces);
    PollPiece(role, None, pieces[0], StreamWire(role, Some(a), pieces[1..]));
  }

  // ---------------------------------------------------------------------
  // Messages and bytes.

  /** The payload bytes of the data messages. */
  function Payloads(frames: seq<WsFrame>): seq<Byte> {
    if frames == [] then [] else (if frames[0].Binary? || frames[0].Text? then frames[0].data else []) + Payloads(frames[1..])
  }

  function Controls(frames: seq<WsFrame>): seq<WsFrame> {
    if frames == [] then [] else (if frames[0].Binary? || frames[0].Text? then [] else [frames[0]]) + Controls(frames[1..])
  }

  function PartBytes(pieces: seq<Piece>): seq<Byte> {
    if pieces == [] then [] else (if pieces[0].Part? then pieces[0].payload else []) + PartBytes(pieces[1..])
  }

  function ControlsSent(pieces: seq<Piece>): seq<WsFrame> {
    if pieces == [] then [] else (if pieces[0].Control? then Surfaces(None, pieces[0]) else []) + ControlsSent(pieces[1..])
  }

  lemma {:induction false} SplitFrames(a: seq<WsFrame>, b: seq<WsFrame>)
    ensures Payloads(a + b) == Payloads(a) + Payloads(b)
    ensures Controls(a + b) == Controls(a) + Controls(b)
  {
    if a == [] {
      assert a + b == b;
    } else {
      assert (a + b)[1..] == a[1..] + b;
      SplitFrames(a[1..], b);
      var data := a[0].Binary? || a[0].Text?;
      Associate(if data then a[0].data else [], Payloads(a[1..]), Payloads(b));
      Associate(if data then [] else [a[0]], Controls(a[1..]), Controls(b));
    }
  }

  lemma OneFrame(f: WsFrame)
    ensures Payloads([f]) == (if f.Binary? || f.Text? then f.data else [])
    ensures Controls([f]) == (if f.Binary? || f.Text? then [] else [f])
  {
    assert [f][1..] == [];
  }

  /** No byte of any fragment is lost, reordered or repeated, and the control frames come out in order. */
  lemma {:induction false} ReassemblyConserves(open: Option<seq<Byte>>, pieces: seq<Piece>)
    requires Fits(open, pieces)
    ensures Payloads(SurfacesAll(open, pieces)) + OpenBytes(OpenAfterAll(open, pieces)) == OpenBytes(open) + PartBytes(pieces)
    ensures Controls(SurfacesAll(open, pieces)) == ControlsSent(pieces)
    decreases |pieces|
  {
    if pieces != [] {
      var p := pieces[0];
      var now, later := Surfaces(open, p), SurfacesAll(OpenAfter(open, p), pieces[1..]);
      SplitFrames(now, later);
      PieceConserves(open, p);
      ReassemblyConserves(OpenAfter(open, p), pieces[1..]);
      Carried(Payloads(now), Payloads(later), OpenBytes(OpenAfterAll(open, pieces)), OpenBytes(OpenAfter(open, p)),
              PartBytes(pieces[1..]), OpenBytes(open), if p.Part? then p.payload else []);
    }
  }

  lemma PieceConserves(open: Option<seq<Byte>>, p: Piece)
    ensures Payloads(Surfaces(open, p)) + OpenBytes(OpenAfter(open, p)) == OpenBytes(open) + if p.Part? then p.payload else []
    ensures Controls(Surfaces(open, p)) == if p.Control? then Surfaces(None, p) else []
  {
    var bytes := OpenBytes(open);
    if p.Control? {
      OneFrame(Surfaces(open, p)[0]);
      assert [] + bytes == bytes + [];
    } else if p.last {
      var f := Surfaces(open, p)[0];
      OneFrame(f);
      assert open.None? ==> bytes + p.payload == p.payload;
      assert f.data == bytes + p.payload;
      assert f.data + [] == f.data;
    } else {
      assert [] + (bytes + p.payload) == bytes + p.payload;
    }
  }

  lemma Carried(now: seq<Byte>, later: seq<Byte>, end: seq<Byte>, between: seq<Byte>, rest: seq<Byte>, start: seq<Byte>, first: seq<Byte>)
    requires later + end == between + rest && now + between == start + first
    ensures (now + later) + end == start + (first + rest)
  {
    Associate(now, later, end);
    Associate(now, between, rest);
    Associate(start, first, rest);
  }

  /** The pieces of one message: every fragment but the last says that more follow, and nothing comes after the last one. */
  ghost predicate IsOneMessage(pieces: seq<Piece>) {
    && pieces != [] && pieces[|pieces| - 1].Part? && pieces[|pieces| - 1].last
    && forall i :: 0 <= i < |pieces| - 1 ==> pieces[i].Control? || !pieces[i].last
  }

  /** Before the message ends only its interleaved control frames are surfaced. */
  lemma {:induction false} OnlyControlsBefore(open: Option<seq<Byte>>, pieces: seq<Piece>)
    requires forall i :: 0 <= i < |pieces| ==> pieces[i].Control? || !pieces[i].last
    ensures SurfacesAll(open, pieces) == ControlsSent(pieces)
    ensures OpenBytes(OpenAfterAll(open, pieces)) == OpenBytes(open) + PartBytes(pieces)
    ensures OpenAfterAll(open, pieces).None? <==> open.None? && forall i :: 0 <= i < |pieces| ==> pieces[i].Control?
    decreases |pieces|
  {
    if pieces != [] {
      OnlyControlsBefore(OpenAfter(open, pieces[0]), pieces[1..]);
    }
  }

  lemma {:induction false} SurfacesSplit(open: Option<seq<Byte>>, a: seq<Piece>, b: seq<Piece>)
    ensures SurfacesAll(open, a + b) == SurfacesAll(open, a) + SurfacesAll(OpenAfterAll(open, a), b)
    ensures PartBytes(a + b) == PartBytes(a) + PartBytes(b)
    decreases |a|
  {
    if a == [] {
      assert a + b == b;
    } else {
      assert (a + b)[1..] == a[1..] + b;
      SurfacesSplit(OpenAfter(open, a[0]), a[1..], b);
    }
  }

  /**
   * One message, cut into any fragments with any control frames between them, gives the control frames in order and
   * then one message equal to the fragments joined. It is a text message only when it came whole: a text message
   * in fragments comes out as binary.
   */
  lemma MessageReassembled(pieces: seq<Piece>)
    requires Fits(None, pieces) && IsOneMessage(pieces)
    ensures var head, end := pieces[..|pieces| - 1], pieces[|pieces| - 1];
            SurfacesAll(None, pieces) == ControlsSent(head) +
              [if end.text && (forall i :: 0 <= i < |head| ==> head[i].Control?) then Text(PartBytes(pieces)) else Binary(PartBytes(pieces))]
  {
    var head, end := pieces[..|pieces| - 1], pieces[|pieces| - 1];
    assert pieces == head + [end];
    OnlyControlsBefore(None, head);
    SurfacesSplit(None, head, [end]);
    var open := OpenAfterAll(None, head);
    assert [end][1..] == [];
    assert PartBytes([end]) == end.payload;
    assert SurfacesAll(open, [end]) == Surfaces(open, end);
    assert OpenBytes(None) + PartBytes(head) == PartBytes(head);
    assert open.None? ==> PartBytes(pieces) == end.payload;
  }

  // ---------------------------------------------------------------------
  // The byte stream over the messages.

  datatype Read = Data(bytes: seq<Byte>) | Eof | Pending

  function Pings(frames: seq<WsFrame>): seq<seq<Byte>> {
    if frames == [] then [] else (if frames[0].WsPing? then [frames[0].data] else []) + Pings(frames[1..])
  }

  lemma Divided(bytes: seq<Byte>, n: nat, after: seq<Byte>)
    requires n <= |bytes|
    ensures bytes + after == bytes[..n] + (bytes[n..] + after)
  {
  }

  /** What taking the first frame does to the bytes and pings still to come. */
  lemma HeadOff(frames: seq<WsFrame>, pongs: seq<seq<Byte>>)
    requires frames != []
    ensures [] + Payloads(frames) == (if frames[0].Binary? || frames[0].Text? then frames[0].data else []) + Payloads(frames[1..])
    ensures pongs + Pings(frames) == (if frames[0].WsPing? then pongs + [frames[0].data] else pongs) + Pings(frames[1..])
    ensures [] + Payloads(frames[1..]) == Payloads(frames[1..])
  {
    assert [] + Payloads(frames) == Payloads(frames) && [] + Payloads(frames[1..]) == Payloads(frames[1..]);
    if frames[0].WsPing? {
      Associate(pongs, [frames[0].data], Pings(frames[1..]));
    } else {
      assert [] + Pings(frames[1..]) == Pings(frames[1..]);
    }
  }

  /** The frames before the first close frame. */
  function BeforeClose(frames: seq<WsFrame>): seq<WsFrame> {
    if frames == [] || frames[0].WsClose? then [] else [frames[0]] + BeforeClose(frames[1..])
  }

  /** One read: the result, the frames still to come and the bytes still buffered. */
  function ReadStep(incoming: seq<WsFrame>, readBuf: seq<Byte>, capacity: nat): (Read, seq<WsFrame>, seq<Byte>)
    decreases |incoming|
  {
    if readBuf != [] then
      var n := if |readBuf| < capacity then |readBuf| else capacity;
      (Data(readBuf[..n]), incoming, readBuf[n..])
    else if incoming == [] then
      (Pending, [], [])
    else match incoming[0] {
      case Binary(data) => ReadStep(incoming[1..], data, capacity)
      case Text(data) => ReadStep(incoming[1..], data, capacity)
      case WsClose => (Eof, incoming[1..], [])
      case _ => ReadStep(incoming[1..], [], capacity)
    }
  }

  /** The bytes a reader can still get: it goes no further than a close frame. */
  function Readable(incoming: seq<WsFrame>, readBuf: seq<Byte>): seq<Byte> {
    readBuf + Payloads(BeforeClose(incoming))
  }

  lemma ReadableHead(incoming: seq<WsFrame>)
    requires incoming != [] && !incoming[0].WsClose?
    ensures Readable(incoming, []) ==
            Readable(incoming[1..], if incoming[0].Binary? || incoming[0].Text? then incoming[0].data else [])
  {
    var later := BeforeClose(incoming[1..]);
    SplitFrames([incoming[0]], later);
    OneFrame(incoming[0]);
  }

  /** A read takes its bytes off what can be read; it finds the end only when nothing is left. */
  lemma {:induction false} ReadConserves(incoming: seq<WsFrame>, readBuf: seq<Byte>, capacity: nat)
    ensures var (r, incoming', readBuf') := ReadStep(incoming, readBuf, capacity);
            if r.Data? then Readable(incoming, readBuf) == r.bytes + Readable(incoming', readBuf')
            else Readable(incoming, readBuf) == []
    ensures ReadStep(incoming, readBuf, capacity).0.Eof? ==> WsClose in incoming
    ensures ReadStep(incoming, readBuf, capacity).0.Pending? ==> WsClose !in incoming
    decreases |incoming|
  {
    if readBuf != [] {
      Divided(readBuf, if |readBuf| < capacity then |readBuf| else capacity, Payloads(BeforeClose(incoming)));
    } else if incoming != [] && !incoming[0].WsClose? {
      ReadableHead(incoming);
      ReadConserves(incoming[1..], if incoming[0].Binary? || incoming[0].Text? then incoming[0].data else [], capacity);
    }
  }

  /** What a reader took, and how it stopped: at the end, waiting for frames, or `Data([])` when it could go on. */
  datatype Reading = Reading(taken: seq<seq<Byte>>, end: Read)

  /** Reads with one buffer after another until the end or a wait. */
  function Reads(incoming: seq<WsFrame>, readBuf: seq<Byte>, capacities: seq<nat>): Reading
    decreases |capacities|
  {
    if capacities == [] then
      Reading([], Data([]))
    else
      var (r, incoming', readBuf') := ReadStep(incoming, readBuf, capacities[0]);
      if !r.Data? then
        Reading([], r)
      else
        var later := Reads(incoming', readBuf', capacities[1..]);
        later.(taken := [r.bytes] + later.taken)
  }

  /** Any run of reads takes a prefix of what can be read, and all of it when the run reaches the end or a wait. */
  lemma {:induction false} ReadsConserve(incoming: seq<WsFrame>, readBuf: seq<Byte>, capacities: seq<nat>)
    ensures var run := Reads(incoming, readBuf, capacities);
            && Concat(run.taken) <= Readable(incoming, readBuf)
            && (run.end != Data([]) ==> Concat(run.taken) == Readable(incoming, readBuf))
    decreases |capacities|
  {
    if capacities != [] {
      ReadConserves(incoming, readBuf, capacities[0]);
      var (r, incoming', readBuf') := ReadStep(incoming, readBuf, capacities[0]);
      if r.Data? {
        ReadsConserve(incoming', readBuf', capacities[1..]);
        var later := Reads(incoming', readBuf', capacities[1..]);
        assert ([r.bytes] + later.taken)[1..] == later.taken;
      }
    }
  }

  class WebSocketByteStream {
    var incoming: seq<WsFrame>
    var readBuf: seq<Byte>
    var pendingPongs: seq<seq<Byte>>

    constructor (incoming: seq<WsFrame>)
      ensures this.incoming == incoming && readBuf == [] && pendingPongs == []
    {
      this.incoming, readBuf, pendingPongs := incoming, [], [];
    }

    /** The bytes this stream will still hand out, in order. */
    function Unread(): seq<Byte>
      reads this
    {
      readBuf + Payloads(incoming)
    }

    /** Empty messages are skipped rather than taken for the end; pings are queued for an answer. */
    method PollRead(capacity: nat) returns (r: Read)
      modifies this
      ensures (r, incoming, readBuf) == ReadStep(old(incoming), old(readBuf), capacity)
      ensures old(Unread()) == (if r.Data? then r.bytes else []) + Unread()
      ensures old(pendingPongs) + Pings(old(incoming)) == pendingPongs + Pings(incoming)
      ensures r.Data? ==> |r.bytes| <= capacity && (r.bytes == [] <==> capacity == 0) && (r.bytes == [] ==> readBuf != [])
      ensures r.Eof? ==> WsClose in old(incoming)
      ensures r.Pending? ==> incoming == [] && readBuf == []
    {
      while true
        invariant ReadStep(incoming, readBuf, capacity) == ReadStep(old(incoming), old(readBuf), capacity)
        invariant Unread() == old(Unread())
        invariant old(pendingPongs) + Pings(old(incoming)) == pendingPongs + Pings(incoming)
        invariant forall f :: f in incoming ==> f in old(incoming)
        decreases |incoming|
      {
        if readBuf != [] {
          var n := if |readBuf| < capacity then |readBuf| else capacity;
          var bytes := readBuf[..n];
          Divided(readBuf, n, Payloads(incoming));
          readBuf := readBuf[n..];
          return Data(bytes);
        }
        if incoming == [] {
          return Pending;
        }
        var f := incoming[0];
        HeadOff(incoming, pendingPongs);
        incoming := incoming[1..];
        match f {
          case Binary(data) => readBuf := data;
          case Text(data) => readBuf := data;
          case WsPing(data) => pendingPongs := pendingPongs + [data];
          case WsPong(_) =>
          case WsClose => return Eof;
        }
      }
    }
  }

  // ---------------------------------------------------------------------
  // DERP over WebSocket.

  lemma {:induction false} BeforeCloseIsPrefix(frames: seq<WsFrame>)
    ensures Payloads(BeforeClose(frames)) <= Payloads(frames)
  {
    if frames != [] && !frames[0].WsClose? {
      BeforeCloseIsPrefix(frames[1..]);
      assert ([frames[0]] + BeforeClose(frames[1..]))[1..] == BeforeClose(frames[1..]);
    }
  }

  lemma UntilCloseIsPrefix(pieces: seq<Piece>)
    requires Fits(None, pieces)
    ensures BytesUntilClose(pieces) <= PartBytes(pieces)
  {
    ReassemblyConserves(None, pieces);
    BeforeCloseIsPrefix(SurfacesAll(None, pieces));
    assert [] + PartBytes(pieces) == PartBytes(pieces);
  }

  /** Any prefix of the bytes of DERP frames decodes to a prefix of the frames, without an error. */
  lemma PrefixDecodes(fs: seq<Frame>, partial: seq<Byte>, taken: seq<seq<Byte>>)
    requires forall f :: f in fs ==> Sendable(f)
    requires partial == [] || ProperPrefix(partial)
    requires Concat(taken) <= WireAll(fs) + partial
    ensures FeedAll([], taken).failed.None? && FeedAll([], taken).frames <= fs
  {
    var all, got := WireAll(fs) + partial, Concat(taken);
    assert [] + got == got && all == got + all[|got|..];
    ChunkIndependence([], taken);
    DrainRecovers(fs, partial);
    DrainAppend(got, all[|got|..]);
  }

  lemma {:induction false} OnlyControls(open: Option<seq<Byte>>, pieces: seq<Piece>)
    requires forall i :: 0 <= i < |pieces| ==> !pieces[i].Part?
    ensures OpenAfterAll(open, pieces) == open && PartBytes(pieces) == []
    decreases |pieces|
  {
    if pieces != [] {
      OnlyControls(open, pieces[1..]);
    }
  }

  /** No fragment comes after a close frame. */
  ghost predicate NoPartAfterClose(pieces: seq<Piece>) {
    forall i, j :: 0 <= i < j < |pieces| && IsClose(pieces[i]) ==> !pieces[j].Part?
  }

  predicate IsClose(p: Piece) {
    p.Control? && p.opcode == CLOSE
  }

  lemma BeforeCloseSkips(open: Option<seq<Byte>>, p: Piece, later: seq<WsFrame>)
    requires PieceFits(open, p) && !IsClose(p)
    ensures BeforeClose(Surfaces(open, p) + later) == Surfaces(open, p) + BeforeClose(later)
  {
    var now := Surfaces(open, p);
    if now == [] {
      assert now + later == later && now + BeforeClose(later) == BeforeClose(later);
    } else {
      assert (now + later)[1..] == later;
    }
  }

  /** A piece that is no close frame passes its bytes on: to the frames before the close, or to the open message. */
  lemma PieceBeforeClose(open: Option<seq<Byte>>, p: Piece, later: seq<WsFrame>, bytes: seq<Byte>)
    requires PieceFits(open, p) && !IsClose(p)
    requires Payloads(BeforeClose(later)) == OpenBytes(OpenAfter(open, p)) + bytes
    ensures Payloads(BeforeClose(Surfaces(open, p) + later)) == OpenBytes(open) + ((if p.Part? then p.payload else []) + bytes)
  {
    var now, before := Surfaces(open, p), BeforeClose(later);
    BeforeCloseSkips(open, p, later);
    SplitFrames(now, before);
    PieceConserves(open, p);
    assert Payloads(before) + [] == Payloads(before);
    Carried(Payloads(now), Payloads(before), [], OpenBytes(OpenAfter(open, p)), bytes, OpenBytes(open), if p.Part? then p.payload else []);
  }

  lemma {:induction false} CloseLastCutsNothing(open: Option<seq<Byte>>, pieces: seq<Piece>)
    requires Fits(open, pieces) && OpenAfterAll(open, pieces).None? && NoPartAfterClose(pieces)
    ensures Payloads(BeforeClose(SurfacesAll(open, pieces))) == OpenBytes(open) + PartBytes(pieces)
    decreases |pieces|
  {
    if pieces != [] {
      if IsClose(pieces[0]) {
        OnlyControls(open, pieces[1..]);
      } else {
        var open' := OpenAfter(open, pieces[0]);
        CloseLastCutsNothing(open', pieces[1..]);
        PieceBeforeClose(open, pieces[0], SurfacesAll(open', pieces[1..]), PartBytes(pieces[1..]));
      }
    }
  }

  /** The payload bytes of the messages completed before the first close frame. */
  function BytesUntilClose(pieces: seq<Piece>): seq<Byte> {
    Payloads(BeforeClose(SurfacesAll(None, pieces)))
  }

  /** Bytes arriving in any chunks, then read with any buffers: the reader gets the bytes up to the first close frame. */
  lemma ReadOverWebSocket(role: Role, pieces: seq<Piece>, arrivals: seq<seq<Byte>>, capacities: seq<nat>)
    requires Fits(None, pieces) && Concat(arrivals) == StreamWire(role, None, pieces)
    ensures RunAll(role, None, [], arrivals) == Outcome(SurfacesAll(None, pieces), OpenAfterAll(None, pieces), [], None)
    ensures var run := Reads(RunAll(role, None, [], arrivals).frames, [], capacities);
            && Concat(run.taken) <= BytesUntilClose(pieces)
            && (run.end != Data([]) ==> Concat(run.taken) == BytesUntilClose(pieces))
  {
    assert [] + Concat(arrivals) == Concat(arrivals);
    CutsDoNotMatter(role, None, [], arrivals);
    WholeStream(role, None, pieces);
    ReadsConserve(SurfacesAll(None, pieces), [], capacities);
    assert [] + BytesUntilClose(pieces) == BytesUntilClose(pieces);
  }

  /**
   * DERP frames cut anywhere into WebSocket messages, those into fragments, with control frames anywhere and the
   * bytes arriving in any chunks: a reader that goes on to the end gets exactly the DERP frames that were complete
   * before the first close frame, and the bytes of an unfinished one.
   */
  lemma DerpUntilClose(role: Role, fs: seq<Frame>, partial: seq<Byte>, pieces: seq<Piece>, arrivals: seq<seq<Byte>>,
                       capacities: seq<nat>)
    requires forall f :: f in fs ==> Sendable(f)
    requires partial == [] || ProperPrefix(partial)
    requires Fits(None, pieces) && BytesUntilClose(pieces) == WireAll(fs) + partial
    requires Concat(arrivals) == StreamWire(role, None, pieces)
    requires Reads(RunAll(role, None, [], arrivals).frames, [], capacities).end != Data([])
    ensures FeedAll([], Reads(RunAll(role, None, [], arrivals).frames, [], capacities).taken) == Fed(fs, partial, None)
  {
    ReadOverWebSocket(role, pieces, arrivals, capacities);
    CutFramesRecovered(fs, partial, Reads(RunAll(role, None, [], arrivals).frames, [], capacities).taken);
  }

  /** No close frame comes before the last fragment, and no message is left open. */
  ghost predicate ClosesLast(pieces: seq<Piece>) {
    OpenAfterAll(None, pieces).None? && NoPartAfterClose(pieces)
  }

  /**
   * However many reads are made, the DERP frames decoded are a prefix of those sent and decoding does not fail; when
   * no close frame comes before the last fragment and the reader goes on to the end, they are all of them.
   */
  lemma DerpOverWebSocket(role: Role, fs: seq<Frame>, partial: seq<Byte>, pieces: seq<Piece>, arrivals: seq<seq<Byte>>,
                          capacities: seq<nat>)
    requires forall f :: f in fs ==> Sendable(f)
    requires partial == [] || ProperPrefix(partial)
    requires Fits(None, pieces) && PartBytes(pieces) == WireAll(fs) + partial
    requires Concat(arrivals) == StreamWire(role, None, pieces)
    ensures var run := Reads(RunAll(role, None, [], arrivals).frames, [], capacities);
            && FeedAll([], run.taken).failed.None? && FeedAll([], run.taken).frames <= fs
            && (run.end != Data([]) && ClosesLast(pieces) ==> FeedAll([], run.taken) == Fed(fs, partial, None))
  {
    ReadOverWebSocket(role, pieces, arrivals, capacities);
    var run := Reads(RunAll(role, None, [], arrivals).frames, [], capacities);
    UntilCloseIsPrefix(pieces);
    PrefixDecodes(fs, partial, run.taken);
    if run.end != Data([]) && ClosesLast(pieces) {
      CloseLastCutsNothing(None, pieces);
      assert [] + PartBytes(pieces) == PartBytes(pieces);
      CutFramesRecovered(fs, partial, run.taken);
    }
  }
}
