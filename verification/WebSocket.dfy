/** WebSocket framing under the DERP transport (crabscale-derp/src/websocket.rs; sections 5.2 to 5.5 of RFC 6455). */
module WebSocket {
  import opened Ordered
  import Net
  import opened Frame

  const MAX_MESSAGE_LEN: nat := MAX_BODY_LEN

  const CONTINUATION: nat := 0
  const TEXT: nat := 1
  const BINARY: nat := 2
  const CLOSE: nat := 8
  const PING: nat := 9
  const PONG: nat := 10

  datatype Role = Server | Client

  datatype WsFrame =
    | Binary(data: seq<Byte>)
    | Text(data: seq<Byte>)
    | WsPing(data: seq<Byte>)
    | WsPong(data: seq<Byte>)
    | WsClose

  datatype WsError =
    | WrongMasking
    | UnexpectedContinuation
    | MessageAlreadyOpen
    | ControlFrameTooLong
    | TooLong
    | RsvNotZero
    | UnknownOpcode(opcode: nat)

  // ---------------------------------------------------------------------
  // Masking.

  type Key = k: seq<Byte> | |k| == 4 witness [0, 0, 0, 0]

  const ZERO_KEY: Key := [0, 0, 0, 0]

  /** Exclusive or of the low bits of two numbers. */
  function XorBits(a: nat, b: nat, bits: nat): (r: nat)
    ensures r < Net.Pow2(bits)
  {
    if bits == 0 then 0 else (a % 2 + b % 2) % 2 + 2 * XorBits(a / 2, b / 2, bits - 1)
  }

  function Xor(a: Byte, b: Byte): Byte {
    assert Net.Pow2(8) == 256 by { assert Net.Pow2(4) == 16; }
    XorBits(a, b, 8)
  }

  lemma Halves(low: nat, high: nat)
    requires low < 2
    ensures (low + 2 * high) / 2 == high && (low + 2 * high) % 2 == low
  {
  }

  lemma {:induction false} XorTwice(a: nat, b: nat, bits: nat)
    requires a < Net.Pow2(bits)
    ensures XorBits(XorBits(a, b, bits), b, bits) == a
    ensures XorBits(a, 0, bits) == a
  {
    if bits > 0 {
      XorTwice(a / 2, b / 2, bits - 1);
      var low, high := (a % 2 + b % 2) % 2, XorBits(a / 2, b / 2, bits - 1);
      assert XorBits(a, b, bits) == low + 2 * high;
      Halves(low, high);
      assert (low + b % 2) % 2 == a % 2;
      Halves(a % 2, a / 2);
    }
  }

  function Masked(payload: seq<Byte>, key: Key): (r: seq<Byte>)
    ensures |r| == |payload|
  {
    seq(|payload|, i requires 0 <= i < |payload| => Xor(payload[i], key[i % 4]))
  }

  /** Masking with any key is undone by masking again, and the zero key masks nothing. */
  lemma UnmaskMask(payload: seq<Byte>, key: Key)
    ensures Masked(Masked(payload, key), key) == payload
    ensures Masked(payload, ZERO_KEY) == payload
  {
    forall i | 0 <= i < |payload|
      ensures Masked(Masked(payload, key), key)[i] == payload[i] && Masked(payload, ZERO_KEY)[i] == payload[i]
    {
      assert Net.Pow2(8) == 256 by { assert Net.Pow2(4) == 16; }
      XorTwice(payload[i], key[i % 4], 8);
      XorTwice(payload[i], 0, 8);
    }
  }

  /** The decoder's loop: the payload is unmasked where it lies. */
  method Unmask(payload: array<Byte>, key: Key)
    modifies payload
    ensures payload[..] == Masked(old(payload[..]), key)
  {
    ghost var was := payload[..];
    for i := 0 to payload.Length
      invariant payload[..i] == Masked(was, key)[..i] && payload[i..] == was[i..]
    {
      payload[i] := Xor(payload[i], key[i % 4]);
    }
  }

  // ---------------------------------------------------------------------
  // One frame on the wire.

  /** The three ways of writing a payload length. */
  datatype Form = Short | Medium | Long

  function ExtWidth(form: Form): nat {
    match form case Short => 0 case Medium => 2 case Long => 8
  }

  function LenByte(form: Form, len: nat): nat {
    match form case Short => len case Medium => 126 case Long => 127
  }

  predicate FormFits(form: Form, len: nat) {
    && len <= MAX_MESSAGE_LEN
    && (form.Short? ==> len <= 125)
    && (form.Medium? ==> len <= 0xFFFF)
  }

  function SmallestForm(len: nat): Form {
    if len <= 125 then Short else if len <= 0xFFFF then Medium else Long
  }

  function HeaderBytes(fin: bool, opcode: nat, masked: bool, form: Form, len: nat): (r: seq<Byte>)
    requires opcode < 16 && FormFits(form, len)
    ensures |r| == 2 + ExtWidth(form)
  {
    [(if fin then 128 else 0) + opcode, (if masked then 128 else 0) + LenByte(form, len)] + ToBe(len, ExtWidth(form))
  }

  function FrameBytes(fin: bool, opcode: nat, key: Option<Key>, form: Form, payload: seq<Byte>): seq<Byte>
    requires opcode < 16 && FormFits(form, |payload|)
  {
    HeaderBytes(fin, opcode, key.Some?, form, |payload|) + (if key.Some? then key.value + Masked(payload, key.value) else payload)
  }

  datatype Parsed =
    | Wait
    | Bad(error: WsError)
    | Got(fin: bool, opcode: nat, payload: seq<Byte>, total: nat)

  predicate IsControl(opcode: nat) {
    (opcode / 8) % 2 == 1
  }

  /** The payload length and the width of its extended field; nothing while that field is incomplete. */
  function ParseLength(buf: seq<Byte>): (r: Option<(nat, nat)>)
    requires |buf| >= 2
    ensures r.Some? ==> 2 + r.value.1 <= |buf|
  {
    var small := buf[1] % 128;
    if small <= 125 then
      Some((small, 0))
    else
      var width := if small == 126 then 2 else 8;
      if |buf| < 2 + width then None else Some((FromBe(buf[2..2 + width]), width))
  }

  /** The rest of a frame once its first two bytes were accepted. */
  function ParseBody(fin: bool, opcode: nat, masked: bool, buf: seq<Byte>): (r: Parsed)
    requires |buf| >= 2
    ensures r.Got? ==> 2 <= r.total <= |buf|
  {
    var len := ParseLength(buf);
    if len.None? then
      Wait
    else if len.value.0 > MAX_MESSAGE_LEN then
      Bad(TooLong)
    else
      var (length, width) := len.value;
      var start := 2 + width + (if masked then 4 else 0);
      if |buf| < start + length then Wait
      else if IsControl(opcode) && !fin then Bad(MessageAlreadyOpen)
      else if IsControl(opcode) && length > 125 then Bad(ControlFrameTooLong)
      else
        var raw := buf[start..start + length];
        Got(fin, opcode, if masked then Masked(raw, buf[2 + width..start]) else raw, start + length)
  }

  /** The frame at the front of a buffer, as the receiving role reads it. */
  function Parse(role: Role, buf: seq<Byte>): (r: Parsed)
    ensures r.Got? ==> 2 <= r.total <= |buf|
  {
    if |buf| < 2 then Wait
    else if (buf[0] / 16) % 8 != 0 then Bad(RsvNotZero)
    else if role.Server? != (buf[1] / 128 == 1) then Bad(WrongMasking)
    else ParseBody(buf[0] / 128 == 1, buf[0] % 16, buf[1] / 128 == 1, buf)
  }

  // ---------------------------------------------------------------------
  // Reassembly.

  /** One call of the decoder: wait for bytes, fail, or take a frame off the buffer, with or without surfacing a message. */
  datatype Step =
    | Starved
    | Failed(error: WsError, rest: seq<Byte>)
    | Took(out: Option<WsFrame>, open: Option<seq<Byte>>, rest: seq<Byte>)

  function Surface(open: Option<seq<Byte>>, fin: bool, opcode: nat, payload: seq<Byte>, rest: seq<Byte>): Step {
    if opcode == PING then
      Took(Some(WsPing(payload)), open, rest)
    else if opcode == PONG then
      Took(Some(WsPong(payload)), open, rest)
    else if opcode == CLOSE then
      Took(Some(WsClose), open, rest)
    else if opcode == CONTINUATION then
      if open.None? then Failed(UnexpectedContinuation, rest)
      else if |open.value| + |payload| > MAX_MESSAGE_LEN then Failed(TooLong, rest)
      else if fin then Took(Some(Binary(open.value + payload)), None, rest)
      else Took(None, Some(open.value + payload), rest)
    else if opcode == TEXT || opcode == BINARY then
      if open.Some? then Failed(MessageAlreadyOpen, rest)
      else if fin then Took(Some(if opcode == TEXT then Text(payload) else Binary(payload)), None, rest)
      else Took(None, Some(payload), rest)
    else
      Failed(UnknownOpcode(opcode), rest)
  }

  function DecodeStep(role: Role, open: Option<seq<Byte>>, buf: seq<Byte>): (r: Step)
    ensures r.Took? ==> |r.rest| < |buf|
  {
    match Parse(role, buf)
    case Wait => Starved
    case Bad(e) => Failed(e, buf)
    case Got(fin, opcode, payload, total) => Surface(open, fin, opcode, payload, buf[total..])
  }

  datatype WsResult<T> = Done(value: T) | Broken(error: WsError)

  class WebSocketCodec {
    const role: Role
    var open: Option<seq<Byte>>

    constructor (role: Role)
      ensures this.role == role && open == None
    {
      this.role := role;
      open := None;
    }

    /** The fields of a complete frame, the payload unmasked in place. */
    method TakeFrame(src: ByteBuffer) returns (p: Parsed)
      modifies src
      ensures p == Parse(role, old(src.bytes))
      ensures src.bytes == if p.Got? then old(src.bytes)[p.total..] else old(src.bytes)
    {
      if |src.bytes| < 2 {
        return Wait;
      }
      var first, second := src.bytes[0], src.bytes[1];
      var fin, opcode, masked := first / 128 == 1, first % 16, second / 128 == 1;
      if (first / 16) % 8 != 0 {
        return Bad(RsvNotZero);
      }
      if role.Server? != masked {
        return Bad(WrongMasking);
      }
      var len := ParseLength(src.bytes);
      if len.None? {
        return Wait;
      }
      if len.value.0 > MAX_MESSAGE_LEN {
        return Bad(TooLong);
      }
      var length := len.value.0;
      var maskOffset := 2 + len.value.1;
      var start := maskOffset + if masked then 4 else 0;
      if |src.bytes| < start + length {
        return Wait;
      }
      if IsControl(opcode) {
        if !fin {
          return Bad(MessageAlreadyOpen);
        }
        if length > 125 {
          return Bad(ControlFrameTooLong);
        }
      }
      var frame := src.bytes[..start + length];
      src.bytes := src.bytes[start + length..];
      var payload := frame[start..];
      assert payload == old(src.bytes)[start..start + length];
      if masked {
        var key: Key := frame[maskOffset..start];
        assert key == old(src.bytes)[maskOffset..start];
        var a := new Byte[length](i requires 0 <= i < length => payload[i]);
        assert a[..] == payload;
        Unmask(a, key);
        payload := a[..];
      }
      p := Got(fin, opcode, payload, start + length);
    }

    /** Both "need more bytes" and "kept a fragment" are reported as no frame. */
    method Decode(src: ByteBuffer) returns (r: WsResult<Option<WsFrame>>)
      modifies this, src
      ensures match DecodeStep(role, old(open), old(src.bytes))
              case Starved => r == Done(None) && open == old(open) && src.bytes == old(src.bytes)
              case Failed(e, rest) => r == Broken(e) && open == old(open) && src.bytes == rest
              case Took(out, open', rest) => r == Done(out) && open == open' && src.bytes == rest
    {
      var p := TakeFrame(src);
      match p {
        case Wait => return Done(None);
        case Bad(e) => return Broken(e);
        case Got(_, _, _, _) =>
      }
      if p.opcode == PING {
        return Done(Some(WsPing(p.payload)));
      }
      if p.opcode == PONG {
        return Done(Some(WsPong(p.payload)));
      }
      if p.opcode == CLOSE {
        return Done(Some(WsClose));
      }
      if p.opcode == CONTINUATION {
        if open.None? {
          return Broken(UnexpectedContinuation);
        }
        if |open.value| + |p.payload| > MAX_MESSAGE_LEN {
          return Broken(TooLong);
        }
        open := Some(open.value + p.payload);
        if p.fin {
          var bytes := open.value;
          open := None;
          return Done(Some(Binary(bytes)));
        }
        return Done(None);
      }
      if p.opcode == TEXT || p.opcode == BINARY {
        if open.Some? {
          return Broken(MessageAlreadyOpen);
        }
        if p.fin {
          return Done(Some(if p.opcode == TEXT then Text(p.payload) else Binary(p.payload)));
        }
        open := Some(p.payload);
        return Done(None);
      }
      r := Broken(UnknownOpcode(p.opcode));
    }

    /** The first two bytes and the extended length, in the shortest form. */
    method PutHeader(opcode: nat, len: nat, dst: ByteBuffer)
      requires opcode < 16 && len <= MAX_MESSAGE_LEN
      modifies dst
      ensures dst.bytes == old(dst.bytes) + HeaderBytes(true, opcode, role.Client?, SmallestForm(len), len)
    {
      var maskBit := if role.Client? then 128 else 0;
      dst.bytes := dst.bytes + [128 + opcode];
      if len <= 125 {
        dst.bytes := dst.bytes + [maskBit + len];
      } else if len <= 0xFFFF {
        dst.bytes := dst.bytes + [maskBit + 126];
        dst.bytes := dst.bytes + ToBe(len, 2);
      } else {
        dst.bytes := dst.bytes + [maskBit + 127];
        dst.bytes := dst.bytes + ToBe(len, 8);
      }
    }

    /** The payload under a key, byte by byte. */
    method PutMasked(payload: seq<Byte>, key: Key, dst: ByteBuffer)
      modifies dst
      ensures dst.bytes == old(dst.bytes) + Masked(payload, key)
    {
      for i := 0 to |payload|
        invariant dst.bytes == old(dst.bytes) + Masked(payload, key)[..i]
      {
        dst.bytes := dst.bytes + [Xor(payload[i], key[i % 4])];
      }
      assert Masked(payload, key)[..|payload|] == Masked(payload, key);
    }

    method Encode(item: WsFrame, dst: ByteBuffer) returns (r: WsResult<()>)
      modifies dst
      ensures r == (if |PayloadOf(item)| > MAX_MESSAGE_LEN then Broken(TooLong) else Done(()))
      ensures dst.bytes == old(dst.bytes) + if r.Done? then Encoded(role, item) else []
    {
      var opcode, payload := OpcodeOf(item), PayloadOf(item);
      if |payload| > MAX_MESSAGE_LEN {
        return Broken(TooLong);
      }
      PutHeader(opcode, |payload|, dst);
      ghost var was, header := old(dst.bytes), HeaderBytes(true, opcode, role.Client?, SmallestForm(|payload|), |payload|);
      if role.Client? {
        dst.bytes := dst.bytes + ZERO_KEY;
        PutMasked(payload, ZERO_KEY, dst);
        Regroup(was, header, ZERO_KEY, Masked(payload, ZERO_KEY));
      } else {
        dst.bytes := dst.bytes + payload;
        Regroup(was, header, payload, []);
      }
      r := Done(());
    }
  }

  lemma Regroup(a: seq<Byte>, b: seq<Byte>, c: seq<Byte>, d: seq<Byte>)
    ensures a + b + c + d == a + (b + (c + d)) && c + [] == c
  {
  }

  // ---------------------------------------------------------------------
  // What an endpoint sends is what the other endpoint reads.

  function OpcodeOf(f: WsFrame): nat {
    match f
    case Binary(_) => BINARY
    case Text(_) => TEXT
    case WsPing(_) => PING
    case WsPong(_) => PONG
    case WsClose => CLOSE
  }

  function PayloadOf(f: WsFrame): seq<Byte> {
    if f.WsClose? then [] else f.data
  }

  function Other(role: Role): Role {
    if role.Server? then Client else Server
  }

  function Encoded(role: Role, f: WsFrame): seq<Byte>
    requires |PayloadOf(f)| <= MAX_MESSAGE_LEN
  {
    FrameBytes(true, OpcodeOf(f), if role.Client? then Some(ZERO_KEY) else None, SmallestForm(|PayloadOf(f)|), PayloadOf(f))
  }

  lemma PowerBounds()
    ensures Pow256(2) == 65536 && Pow256(8) > MAX_MESSAGE_LEN
  {
    assert Pow256(1) == 256;
    assert Pow256(2) == 256 * 256;
    assert Pow256(3) >= Pow256(2) && Pow256(4) == 256 * Pow256(3);
    assert Pow256(5) >= Pow256(4) && Pow256(6) >= Pow256(5) && Pow256(7) >= Pow256(6) && Pow256(8) >= Pow256(7);
  }

  /** Whatever form the length was written in, it reads back. */
  lemma LengthReads(fin: bool, opcode: nat, masked: bool, form: Form, len: nat, after: seq<Byte>)
    requires opcode < 16 && FormFits(form, len)
    ensures ParseLength(HeaderBytes(fin, opcode, masked, form, len) + after) == Some((len, ExtWidth(form)))
  {
    var buf := HeaderBytes(fin, opcode, masked, form, len) + after;
    assert buf[1] % 128 == LenByte(form, len);
    if !form.Short? {
      PowerBounds();
      BeRoundTrip(len, ExtWidth(form));
      assert buf[2..2 + ExtWidth(form)] == ToBe(len, ExtWidth(form));
    }
  }

  /** The receiver's masking rule: a server reads masked frames, a client unmasked ones. */
  function KeyFor(receiver: Role, key: Key): Option<Key> {
    if receiver.Server? then Some(key) else None
  }

  lemma FlagsRead(fin: bool, opcode: nat, masked: bool, form: Form, len: nat)
    requires opcode < 16 && FormFits(form, len)
    ensures var first, second := (if fin then 128 else 0) + opcode, (if masked then 128 else 0) + LenByte(form, len);
            && first < 256 && second < 256
            && (first / 16) % 8 == 0 && first % 16 == opcode
            && (first / 128 == 1 <==> fin) && (second / 128 == 1 <==> masked)
  {
  }

  lemma Middle(a: seq<Byte>, b: seq<Byte>, c: seq<Byte>)
    ensures (a + b + c)[|a|..|a| + |b|] == b
  {
  }

  lemma PlainBodyReads(fin: bool, opcode: nat, form: Form, payload: seq<Byte>, after: seq<Byte>)
    requires opcode < 16 && FormFits(form, |payload|)
    requires IsControl(opcode) ==> fin && |payload| <= 125
    ensures var w := FrameBytes(fin, opcode, None, form, payload);
            ParseBody(fin, opcode, false, w + after) == Got(fin, opcode, payload, |w|)
  {
    var header := HeaderBytes(fin, opcode, false, form, |payload|);
    LengthReads(fin, opcode, false, form, |payload|, payload + after);
    assert header + payload + after == header + (payload + after);
    Middle(header, payload, after);
  }

  lemma MaskedBodyReads(fin: bool, opcode: nat, key: Key, form: Form, payload: seq<Byte>, after: seq<Byte>)
    requires opcode < 16 && FormFits(form, |payload|)
    requires IsControl(opcode) ==> fin && |payload| <= 125
    ensures var w := FrameBytes(fin, opcode, Some(key), form, payload);
            ParseBody(fin, opcode, true, w + after) == Got(fin, opcode, payload, |w|)
  {
    var header, masked := HeaderBytes(fin, opcode, true, form, |payload|), Masked(payload, key);
    LengthReads(fin, opcode, true, form, |payload|, key + masked + after);
    var buf := header + (key + masked) + after;
    assert buf == header + (key + masked + after);
    assert buf == header + key + (masked + after);
    Middle(header, key, masked + after);
    assert buf == (header + key) + masked + after;
    Middle(header + key, masked, after);
    UnmaskMask(payload, key);
  }

  /** Any legal frame, under any key and any length form that holds it, parses to its fields whatever follows it. */
  lemma ParseWire(receiver: Role, fin: bool, opcode: nat, key: Key, form: Form, payload: seq<Byte>, after: seq<Byte>)
    requires opcode < 16 && FormFits(form, |payload|)
    requires IsControl(opcode) ==> fin && |payload| <= 125
    ensures var w := FrameBytes(fin, opcode, KeyFor(receiver, key), form, payload);
            Parse(receiver, w + after) == Got(fin, opcode, payload, |w|)
  {
    FlagsRead(fin, opcode, receiver.Server?, form, |payload|);
    if receiver.Server? {
      MaskedBodyReads(fin, opcode, key, form, payload, after);
    } else {
      PlainBodyReads(fin, opcode, form, payload, after);
    }
  }

  /** Decoding a buffer that starts with a legal frame surfaces that frame and leaves what follows it. */
  lemma StepWire(receiver: Role, open: Option<seq<Byte>>, fin: bool, opcode: nat, key: Key, form: Form, payload: seq<Byte>, after: seq<Byte>)
    requires opcode < 16 && FormFits(form, |payload|)
    requires IsControl(opcode) ==> fin && |payload| <= 125
    ensures DecodeStep(receiver, open, FrameBytes(fin, opcode, KeyFor(receiver, key), form, payload) + after)
            == Surface(open, fin, opcode, payload, after)
  {
    var w := FrameBytes(fin, opcode, KeyFor(receiver, key), form, payload);
    ParseWire(receiver, fin, opcode, key, form, payload, after);
    assert (w + after)[|w|..] == after;
  }

  /**
   * A frame encoded by one role is decoded to itself by the other, in every length form, exactly when it is not
   * a ping or pong with more than 125 bytes, which the encoder writes and the decoder refuses.
   */
  lemma EncodeThenDecode(role: Role, f: WsFrame, open: Option<seq<Byte>>)
    requires |PayloadOf(f)| <= MAX_MESSAGE_LEN
    requires open.None? || IsControl(OpcodeOf(f))
    ensures DecodeStep(Other(role), open, Encoded(role, f)) == Took(Some(f), open, [])
            <==> !(IsControl(OpcodeOf(f)) && |PayloadOf(f)| > 125)
  {
    if IsControl(OpcodeOf(f)) && |PayloadOf(f)| > 125 {
      LongControlRefused(role, f);
    } else {
      ShortFrameDecodes(role, f, open);
    }
  }

  lemma SurfacesItself(f: WsFrame, open: Option<seq<Byte>>)
    requires open.None? || IsControl(OpcodeOf(f))
    ensures Surface(open, true, OpcodeOf(f), PayloadOf(f), []) == Took(Some(f), open, [])
  {
  }

  lemma ShortFrameDecodes(role: Role, f: WsFrame, open: Option<seq<Byte>>)
    requires |PayloadOf(f)| <= MAX_MESSAGE_LEN && (IsControl(OpcodeOf(f)) ==> |PayloadOf(f)| <= 125)
    requires open.None? || IsControl(OpcodeOf(f))
    ensures DecodeStep(Other(role), open, Encoded(role, f)) == Took(Some(f), open, [])
  {
    StepWire(Other(role), open, true, OpcodeOf(f), ZERO_KEY, SmallestForm(|PayloadOf(f)|), PayloadOf(f), []);
    assert Encoded(role, f) + [] == Encoded(role, f);
    SurfacesItself(f, open);
  }

  lemma LongControlRefused(role: Role, f: WsFrame)
    requires 125 < |PayloadOf(f)| <= MAX_MESSAGE_LEN && IsControl(OpcodeOf(f))
    ensures Parse(Other(role), Encoded(role, f)) == Bad(ControlFrameTooLong)
  {
    var payload := PayloadOf(f);
    var form := SmallestForm(|payload|);
    FlagsRead(true, OpcodeOf(f), role.Client?, form, |payload|);
    LengthReads(true, OpcodeOf(f), role.Client?, form, |payload|, if role.Client? then ZERO_KEY + Masked(payload, ZERO_KEY) else payload);
  }
}
