// The KISS framing layer of the kiss_modem firmware (KISSProtocol.h/.cpp):
// a byte-at-a-time SLIP-style decoder over a fixed 512-byte receive buffer and
// the encoder that writes command frames to the serial stream.
//
// The decoder is specified by a pure transition function `Step` over an
// abstract `DecoderState`; the class `KissProtocol` keeps the source's fields
// (_rxBuffer, _rxIndex, _inFrame, _escaped) and each of its methods is proved
// to perform `Step`. The encoder is specified by `Encode`. The central
// property is that a decoder in any state turns `Encode(cmd, data)` into
// exactly the frame (cmd, data), preceded at most by the frame that was
// already being assembled.

module KissProtocol {
  import opened Bytes

  const FEND: byte := 0xC0
  const FESC: byte := 0xDB
  const TFEND: byte := 0xDC
  const TFESC: byte := 0xDD

  const CMD_DATA: byte := 0x00
  const CMD_GET_IDENTITY: byte := 0x01
  const CMD_SIGN_DATA: byte := 0x04
  const CMD_ENCRYPT_DATA: byte := 0x05
  const CMD_DECRYPT_DATA: byte := 0x06
  const CMD_KEY_EXCHANGE: byte := 0x07
  const CMD_HASH: byte := 0x08

  const RESP_IDENTITY: byte := 0x11
  const RESP_SIGNATURE: byte := 0x14
  const RESP_ENCRYPTED: byte := 0x15
  const RESP_DECRYPTED: byte := 0x16
  const RESP_SHARED_SECRET: byte := 0x17
  const RESP_HASH: byte := 0x18

  /** Capacity of _rxBuffer: command byte plus data. */
  const MAX_FRAME_SIZE: nat := 512

  /** A decoded frame as handed to IKISSFrameHandler::onKISSFrame. */
  datatype Frame = Frame(command: byte, data: seq<byte>)

  /** What the decoder remembers between bytes: the buffer contents
    * _rxBuffer[0.._rxIndex), and the flags _inFrame and _escaped. */
  datatype DecoderState = DecoderState(buffer: seq<byte>, inFrame: bool, escaped: bool)

  /** Fresh decoder, and the state resetDecoder() leaves. */
  const Idle: DecoderState := DecoderState([], false, false)

  /** State right after a FEND: an empty frame is open. */
  const Open: DecoderState := DecoderState([], true, false)

  ghost predicate WellFormed(s: DecoderState) {
    |s.buffer| <= MAX_FRAME_SIZE
  }

  /** Every reply command is its request command with bit 4 set. */
  lemma ResponseCodesPairRequests()
    ensures RESP_IDENTITY == CMD_GET_IDENTITY + 0x10
    ensures RESP_SIGNATURE == CMD_SIGN_DATA + 0x10
    ensures RESP_ENCRYPTED == CMD_ENCRYPT_DATA + 0x10
    ensures RESP_DECRYPTED == CMD_DECRYPT_DATA + 0x10
    ensures RESP_SHARED_SECRET == CMD_KEY_EXCHANGE + 0x10
    ensures RESP_HASH == CMD_HASH + 0x10
  {
  }

  /** handleCompleteFrame: a frame needs at least its command byte. */
  function CompleteFrame(s: DecoderState): (r: Option<Frame>)
    ensures r.Some? <==> |s.buffer| >= 1
    ensures r.Some? ==> [r.value.command] + r.value.data == s.buffer
  {
    if |s.buffer| < 1 then None else Some(Frame(s.buffer[0], s.buffer[1..]))
  }

  /** Appends one decoded byte, or drops the frame when the buffer is full. */
  function Store(s: DecoderState, b: byte): (r: DecoderState)
    requires s.inFrame
    ensures |s.buffer| < MAX_FRAME_SIZE ==> r == DecoderState(s.buffer + [b], true, false)
    ensures |s.buffer| >= MAX_FRAME_SIZE ==> r == Idle
  {
    if |s.buffer| < MAX_FRAME_SIZE then DecoderState(s.buffer + [b], true, false) else Idle
  }

  /** processReceivedByte: the new decoder state and the frame, if any, that the
    * byte completes. */
  function Step(s: DecoderState, b: byte): (r: (DecoderState, Option<Frame>))
    ensures WellFormed(s) ==> WellFormed(r.0)
    ensures r.1.Some? ==> b == FEND && s.inFrame && r.1 == CompleteFrame(s)
    ensures b == FEND ==> (r.1.Some? <==> s.inFrame && |s.buffer| > 0)
    ensures b == FEND ==> r.0 == Open
    ensures !s.inFrame && b != FEND ==> r == (s, None)
  {
    if b == FEND then
      (Open, if s.inFrame && |s.buffer| > 0 then CompleteFrame(s) else None)
    else if !s.inFrame then
      (s, None)
    else if s.escaped then
      if b == TFEND then (Store(s, FEND), None)
      else if b == TFESC then (Store(s, FESC), None)
      else (Idle, None)
    else if b == FESC then
      (s.(escaped := true), None)
    else
      (Store(s, b), None)
  }

  /** Feeds a byte stream to the decoder: the final state and every frame
    * dispatched, in order. */
  function Run(s: DecoderState, input: seq<byte>): (r: (DecoderState, seq<Frame>))
    ensures WellFormed(s) ==> WellFormed(r.0)
    ensures |r.1| <= |input|
    decreases |input|
  {
    if input == [] then (s, [])
    else
      var first := Step(s, input[0]);
      var rest := Run(first.0, input[1..]);
      (rest.0, OptionToSeq(first.1) + rest.1)
  }

  /** Unfolds Run by one byte at the front. */
  lemma RunCons(s: DecoderState, b: byte, rest: seq<byte>)
    ensures Run(s, [b] + rest).0 == Run(Step(s, b).0, rest).0
    ensures Run(s, [b] + rest).1 == OptionToSeq(Step(s, b).1) + Run(Step(s, b).0, rest).1
  {
    assert ([b] + rest)[0] == b && ([b] + rest)[1..] == rest;
  }

  /** A byte that completes no frame only moves the state. */
  lemma RunSilent(s: DecoderState, b: byte, rest: seq<byte>)
    requires Step(s, b).1 == None
    ensures Run(s, [b] + rest) == Run(Step(s, b).0, rest)
  {
    RunCons(s, b, rest);
    assert OptionToSeq(Step(s, b).1) == [];
    assert [] + Run(Step(s, b).0, rest).1 == Run(Step(s, b).0, rest).1;
  }

  /** sendEscapedByte: the bytes written for one frame byte. */
  function EscapeByte(b: byte): (r: seq<byte>)
    ensures FEND !in r
    ensures 1 <= |r| <= 2
    ensures (|r| == 2) <==> (b == FEND || b == FESC)
  {
    if b == FEND then [FESC, TFEND]
    else if b == FESC then [FESC, TFESC]
    else [b]
  }

  /** Number of bytes in data that need an escape sequence. */
  function SpecialCount(data: seq<byte>): nat {
    if data == [] then 0
    else (if data[0] == FEND || data[0] == FESC then 1 else 0) + SpecialCount(data[1..])
  }

  /** The escaped form of a byte sequence. */
  function Escape(data: seq<byte>): seq<byte>
  {
    if data == [] then [] else EscapeByte(data[0]) + Escape(data[1..])
  }

  /** The escaped form never contains FEND and is one byte longer per
    * special byte. */
  lemma {:induction false} EscapeShape(data: seq<byte>)
    ensures FEND !in Escape(data)
    ensures |Escape(data)| == |data| + SpecialCount(data)
    decreases |data|
  {
    if data != [] {
      EscapeShape(data[1..]);
    }
  }

  lemma {:induction false} EscapeAppend(xs: seq<byte>, b: byte)
    ensures Escape(xs + [b]) == Escape(xs) + EscapeByte(b)
  {
    if xs == [] {
      assert xs + [b] == [b];
    } else {
      assert (xs + [b])[1..] == xs[1..] + [b];
      EscapeAppend(xs[1..], b);
    }
  }

  /** sendFrame: FEND, the escaped command byte, the escaped data, FEND. */
  function Encode(cmd: byte, data: seq<byte>): (r: seq<byte>)
    ensures |r| >= 3 && r[0] == FEND && r[|r| - 1] == FEND
    ensures forall i :: 0 < i < |r| - 1 ==> r[i] != FEND
  {
    var body := EscapeByte(cmd) + Escape(data);
    EscapeShape(data);
    assert FEND !in body;
    [FEND] + body + [FEND]
  }

  /** Encode appended to what was already written, grouped as SendFrame writes it. */
  lemma EncodeParts(written: seq<byte>, cmd: byte, data: seq<byte>)
    ensures written + Encode(cmd, data) == written + [FEND] + EscapeByte(cmd) + Escape(data) + [FEND]
  {
  }

  // ----- decoding an encoded frame -----

  /** Escaped bytes only ever extend the open frame: feeding Escape(xs) to an
    * open, unescaped frame with room for xs appends xs and dispatches nothing. */
  lemma {:induction false} RunEscaped(buf: seq<byte>, xs: seq<byte>, rest: seq<byte>)
    requires |buf| + |xs| <= MAX_FRAME_SIZE
    ensures Run(DecoderState(buf, true, false), Escape(xs) + rest)
         == Run(DecoderState(buf + xs, true, false), rest)
    decreases |xs|
  {
    if xs == [] {
      assert Escape(xs) + rest == rest;
      assert buf + xs == buf;
    } else {
      var x, ys := xs[0], xs[1..];
      var tail := Escape(ys) + rest;
      assert Escape(xs) + rest == EscapeByte(x) + tail;
      assert Run(DecoderState(buf, true, false), EscapeByte(x) + tail)
          == Run(DecoderState(buf + [x], true, false), tail) by {
        RunEscapedByte(buf, x, tail);
      }
      assert Run(DecoderState(buf + [x], true, false), tail)
          == Run(DecoderState(buf + xs, true, false), rest) by {
        RunEscaped(buf + [x], ys, rest);
        assert buf + [x] + ys == buf + xs;
      }
    }
  }

  lemma RunEscapedByte(buf: seq<byte>, x: byte, rest: seq<byte>)
    requires |buf| < MAX_FRAME_SIZE
    ensures Run(DecoderState(buf, true, false), EscapeByte(x) + rest)
         == Run(DecoderState(buf + [x], true, false), rest)
  {
    var s := DecoderState(buf, true, false);
    if x == FEND || x == FESC {
      var second := if x == FEND then TFEND else TFESC;
      assert EscapeByte(x) + rest == [FESC] + ([second] + rest);
      RunSilent(s, FESC, [second] + rest);
      RunSilent(s.(escaped := true), second, rest);
    } else {
      assert EscapeByte(x) + rest == [x] + rest;
      RunSilent(s, x, rest);
    }
  }

  /** Whatever state the decoder is in (mid-frame, after an invalid escape,
    * after an overflow), an encoded frame that fits the buffer is decoded as
    * exactly that frame; the leading FEND may first complete the frame that
    * was being assembled. */
  lemma {:induction false} DecodeEncoded(s: DecoderState, cmd: byte, data: seq<byte>)
    requires 1 + |data| <= MAX_FRAME_SIZE
    ensures Run(s, Encode(cmd, data)) == (Open, OptionToSeq(Step(s, FEND).1) + [Frame(cmd, data)])
  {
    var xs := [cmd] + data;
    assert Escape(xs) == EscapeByte(cmd) + Escape(data) by {
      assert xs[0] == cmd && xs[1..] == data;
    }
    var input := Encode(cmd, data);
    assert input == [FEND] + (Escape(xs) + [FEND]);
    assert input[1..] == Escape(xs) + [FEND];
    RunEscaped([], xs, [FEND]);
    assert [] + xs == xs;
    var full := DecoderState(xs, true, false);
    assert Run(full, [FEND]) == (Open, [Frame(cmd, data)]) by {
      assert [FEND] + [] == [FEND];
      RunCons(full, FEND, []);
      assert Step(full, FEND) == (Open, Some(Frame(cmd, data)));
      assert Run(Open, []) == (Open, []);
      assert OptionToSeq(Some(Frame(cmd, data))) + [] == [Frame(cmd, data)];
    }
    RunCons(s, FEND, Escape(xs) + [FEND]);
    assert input == [FEND] + (Escape(xs) + [FEND]);
  }

  /** The round trip from a reset decoder: exactly one frame, equal to the input. */
  lemma RoundTrip(cmd: byte, data: seq<byte>)
    requires 1 + |data| <= MAX_FRAME_SIZE
    ensures Run(Idle, Encode(cmd, data)) == (Open, [Frame(cmd, data)])
  {
    DecodeEncoded(Idle, cmd, data);
    assert Step(Idle, FEND).1 == None;
    assert OptionToSeq(Step(Idle, FEND).1) + [Frame(cmd, data)] == [Frame(cmd, data)];
  }

  /** An escape introducer followed by anything but TFEND/TFESC discards the
    * partial frame, and the next encoded frame is still decoded intact. */
  lemma InvalidEscapeDropsFrame(buf: seq<byte>, b: byte, cmd: byte, data: seq<byte>)
    requires b != TFEND && b != TFESC && b != FEND
    requires 1 + |data| <= MAX_FRAME_SIZE
    ensures Step(DecoderState(buf, true, true), b) == (Idle, None)
    ensures Run(DecoderState(buf, true, true), [b] + Encode(cmd, data)) == (Open, [Frame(cmd, data)])
  {
    RunSilent(DecoderState(buf, true, true), b, Encode(cmd, data));
    RoundTrip(cmd, data);
  }

  /** A frame longer than the buffer never reaches the handler: the decoder
    * drops it on the 513th byte and the closing FEND finds no frame open. */
  lemma OversizedFrameDropped(cmd: byte, data: seq<byte>)
    requires 1 + |data| > MAX_FRAME_SIZE
    ensures Run(Idle, Encode(cmd, data)).1 == []
  {
    var xs := [cmd] + data;
    var keep := xs[..MAX_FRAME_SIZE];
    var over := xs[MAX_FRAME_SIZE];
    var t := Escape(xs[MAX_FRAME_SIZE + 1..]) + [FEND];
    var afterOpen := Escape(keep) + (EscapeByte(over) + t);
    EncodeSplit(cmd, data, MAX_FRAME_SIZE);
    RunSilent(Idle, FEND, afterOpen);
    RunEscaped([], keep, EscapeByte(over) + t);
    assert [] + keep == keep;
    AfterOverflow(DecoderState(keep, true, false), over, t);
    NoFramesAfterEscaped(xs[MAX_FRAME_SIZE + 1..]);
  }

  /** The escaped tail of a dropped frame and its closing FEND dispatch nothing. */
  lemma NoFramesAfterEscaped(xs: seq<byte>)
    ensures Run(Idle, Escape(xs) + [FEND]).1 == []
  {
    var t := Escape(xs) + [FEND];
    EscapeShape(xs);
    forall i | 0 <= i < |t| - 1
      ensures t[i] != FEND
    {
      assert t[i] == Escape(xs)[i];
    }
    NoFramesOutside(t);
  }

  /** Encode(cmd, data) cut at the escaped form of the k-th frame byte. */
  lemma EncodeSplit(cmd: byte, data: seq<byte>, k: nat)
    requires k < 1 + |data|
    ensures var xs := [cmd] + data;
      Encode(cmd, data)
      == [FEND] + (Escape(xs[..k]) + (EscapeByte(xs[k]) + (Escape(xs[k + 1..]) + [FEND])))
  {
    var xs := [cmd] + data;
    var after := [xs[k]] + xs[k + 1..];
    assert xs == xs[..k] + after;
    EscapeConcat(xs[..k], after);
    EscapeCons(xs[k], xs[k + 1..]);
    EscapeCons(cmd, data);
  }

  lemma EscapeCons(x: byte, xs: seq<byte>)
    ensures Escape([x] + xs) == EscapeByte(x) + Escape(xs)
  {
    assert ([x] + xs)[0] == x && ([x] + xs)[1..] == xs;
  }

  lemma {:induction false} EscapeConcat(a: seq<byte>, b: seq<byte>)
    ensures Escape(a + b) == Escape(a) + Escape(b)
  {
    if a == [] {
      assert a + b == b;
    } else {
      assert (a + b)[0] == a[0] && (a + b)[1..] == a[1..] + b;
      EscapeConcat(a[1..], b);
    }
  }

  /** The byte that would overflow a full buffer resets the decoder. */
  lemma {:induction false} AfterOverflow(full: DecoderState, over: byte, rest: seq<byte>)
    requires full.inFrame && !full.escaped && |full.buffer| == MAX_FRAME_SIZE
    ensures Run(full, EscapeByte(over) + rest) == Run(Idle, rest)
  {
    if over == FEND || over == FESC {
      var second := if over == FEND then TFEND else TFESC;
      assert EscapeByte(over) + rest == [FESC] + ([second] + rest);
      RunSilent(full, FESC, [second] + rest);
      RunSilent(full.(escaped := true), second, rest);
    } else {
      assert EscapeByte(over) + rest == [over] + rest;
      RunSilent(full, over, rest);
    }
  }

  /** A reset decoder ignores everything before the next FEND, and a FEND that
    * opens a frame dispatches nothing; so an escaped body and a closing FEND
    * produce no frame. */
  lemma {:induction false} NoFramesOutside(rest: seq<byte>)
    requires rest != [] && rest[|rest| - 1] == FEND
    requires forall i :: 0 <= i < |rest| - 1 ==> rest[i] != FEND
    ensures Run(Idle, rest).1 == []
  {
    assert rest == [rest[0]] + rest[1..];
    if |rest| == 1 {
      RunCons(Idle, FEND, []);
    } else {
      RunSilent(Idle, rest[0], rest[1..]);
      NoFramesOutside(rest[1..]);
    }
  }

  // ----- the firmware class -----

  /** KISSProtocol: decoder state over a fixed receive buffer, plus the serial
    * stream the encoder writes to (modelled as the sequence of bytes written). */
  class KissProtocol {
    const rxBuffer: array<byte>
    var rxIndex: nat
    var inFrame: bool
    var escaped: bool
    var serialOut: seq<byte>

    ghost predicate Valid()
      reads this
    {
      rxBuffer.Length == MAX_FRAME_SIZE && rxIndex <= MAX_FRAME_SIZE
    }

    /** The abstract decoder state the fields represent. */
    ghost function State(): DecoderState
      reads this, rxBuffer
      requires Valid()
    {
      DecoderState(rxBuffer[..rxIndex], inFrame, escaped)
    }

    constructor ()
      ensures Valid() && fresh(rxBuffer)
      ensures State() == Idle && serialOut == []
    {
      rxBuffer := new byte[MAX_FRAME_SIZE];
      rxIndex := 0;
      inFrame := false;
      escaped := false;
      serialOut := [];
    }

    method ResetDecoder()
      requires Valid()
      modifies this
      ensures Valid() && State() == Idle
      ensures serialOut == old(serialOut)
    {
      rxIndex := 0;
      inFrame := false;
      escaped := false;
    }

    /** handleCompleteFrame: the frame the handler receives, if the buffer holds one. */
    method HandleCompleteFrame() returns (frame: Option<Frame>)
      requires Valid()
      ensures frame.Some? <==> rxIndex >= 1
      ensures frame.Some? ==> (frame.value.command == rxBuffer[0]
                               && frame.value.data == rxBuffer[1..rxIndex])
    {
      if rxIndex < 1 {
        return None;
      }
      frame := Some(Frame(rxBuffer[0], rxBuffer[1..rxIndex]));
    }

    /** processReceivedByte, returning the frame dispatched to the handler. */
    method ProcessReceivedByte(b: byte) returns (dispatched: Option<Frame>)
      requires Valid()
      modifies this, rxBuffer
      ensures Valid() && serialOut == old(serialOut)
      ensures (State(), dispatched) == Step(old(State()), b)
    {
      ghost var s := State();
      dispatched := None;
      if b == FEND {
        if inFrame && rxIndex > 0 {
          dispatched := HandleCompleteFrame();
        }
        ResetDecoder();
        inFrame := true;
        return;
      }
      if !inFrame {
        return;
      }
      var c := b;
      if escaped {
        escaped := false;
        if b == TFEND {
          c := FEND;
        } else if b == TFESC {
          c := FESC;
        } else {
          ResetDecoder();
          return;
        }
      } else if b == FESC {
        escaped := true;
        return;
      }
      if rxIndex < MAX_FRAME_SIZE {
        rxBuffer[rxIndex] := c;
        rxIndex := rxIndex + 1;
        assert rxBuffer[..rxIndex] == s.buffer + [c];
      } else {
        ResetDecoder();
      }
    }

    /** process: drains the bytes available on the serial stream. */
    method Process(input: seq<byte>) returns (frames: seq<Frame>)
      requires Valid()
      modifies this, rxBuffer
      ensures Valid() && serialOut == old(serialOut)
      ensures (State(), frames) == Run(old(State()), input)
    {
      frames := [];
      var i := 0;
      while i < |input|
        invariant 0 <= i <= |input|
        invariant Valid() && serialOut == old(serialOut)
        invariant Run(old(State()), input).0 == Run(State(), input[i..]).0
        invariant Run(old(State()), input).1 == frames + Run(State(), input[i..]).1
      {
        assert input[i..] == [input[i]] + input[i + 1..];
        RunCons(State(), input[i], input[i + 1..]);
        var f := ProcessReceivedByte(input[i]);
        frames := frames + OptionToSeq(f);
        i := i + 1;
      }
      assert input[i..] == [];
      assert Run(State(), input[i..]) == (State(), []);
      assert frames + [] == frames;
    }

    method SendEscapedByte(b: byte)
      modifies this`serialOut
      ensures serialOut == old(serialOut) + EscapeByte(b)
    {
      if b == FEND {
        serialOut := serialOut + [FESC, TFEND];
      } else if b == FESC {
        serialOut := serialOut + [FESC, TFESC];
      } else {
        serialOut := serialOut + [b];
      }
    }

    /** sendFrame: writes one encoded frame. The stream reference is never
      * null in this firmware, so the call always reports success. */
    method SendFrame(cmd: byte, data: seq<byte>) returns (ok: bool)
      modifies this`serialOut
      ensures ok && serialOut == old(serialOut) + Encode(cmd, data)
    {
      ghost var start := serialOut;
      serialOut := serialOut + [FEND];
      SendEscapedByte(cmd);
      ghost var prefix := serialOut;
      var i := 0;
      while i < |data|
        invariant 0 <= i <= |data|
        invariant serialOut == prefix + Escape(data[..i])
      {
        assert data[..i + 1] == data[..i] + [data[i]];
        EscapeAppend(data[..i], data[i]);
        SendEscapedByte(data[i]);
        i := i + 1;
      }
      assert data[..i] == data;
      serialOut := serialOut + [FEND];
      EncodeParts(start, cmd, data);
      ok := true;
    }
  }
}
