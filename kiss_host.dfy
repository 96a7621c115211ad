// The host side of the KISS link, as the Python tools implement it
// (KISSModem._escape, _send_frame and _receive_frame, identical in
// simple_room_server.py and the four test_kiss_*.py scripts).
//
// The host encoder writes the command byte unescaped; its decoder is lenient
// (an escape introducer followed by anything other than TFEND yields FESC),
// has no size limit, and returns the first complete frame. The lemmas relate
// both directions of the link to the firmware codec in KissProtocol.

module KissHost {
  import opened Bytes
  import opened KissProtocol

  /** The local variables of _receive_frame between two bytes. */
  datatype HostState = HostState(buffer: seq<byte>, inFrame: bool, escaped: bool)

  const HostInitial: HostState := HostState([], false, false)

  /** What one loop iteration of _receive_frame does: go on from a new state,
    * or return a complete frame. */
  datatype HostOutcome = Continue(state: HostState) | Returned(frame: Frame)

  /** One iteration of _receive_frame's loop: either the frame it returns or
    * the state the next iteration starts from. */
  function HostStep(s: HostState, b: byte): (r: HostOutcome)
    ensures r.Returned? <==> b == FEND && s.inFrame && |s.buffer| > 0
    ensures r.Returned? ==> [r.frame.command] + r.frame.data == s.buffer
    ensures b == FEND && !(s.inFrame && |s.buffer| > 0) ==> r == Continue(HostState([], true, false))
    ensures b != FEND && !s.inFrame ==> r == Continue(s)
  {
    if b == FEND then
      if s.inFrame && |s.buffer| > 0 then Returned(Frame(s.buffer[0], s.buffer[1..]))
      else Continue(HostState([], true, false))
    else if !s.inFrame then Continue(s)
    else if s.escaped then Continue(HostState(s.buffer + [if b == TFEND then FEND else FESC], true, false))
    else if b == FESC then Continue(s.(escaped := true))
    else Continue(s.(buffer := s.buffer + [b]))
  }

  /** The frame _receive_frame returns when the bytes of input arrive before
    * the timeout, starting from state s; None when input ends first. */
  function HostReceive(s: HostState, input: seq<byte>): (r: Option<Frame>)
    ensures r.Some? ==> FEND in input
    decreases |input|
  {
    if input == [] then None
    else match HostStep(s, input[0])
      case Returned(f) => Some(f)
      case Continue(s') => HostReceive(s', input[1..])
  }

  /** _send_frame: FEND, the raw command byte, the escaped data, FEND. */
  function HostFrame(cmd: byte, data: seq<byte>): (r: seq<byte>)
    ensures |r| == 3 + |Escape(data)| && r[1] == cmd
    ensures r[0] == FEND && r[|r| - 1] == FEND
  {
    [FEND, cmd] + Escape(data) + [FEND]
  }

  /** _escape, written as the loop it is. */
  method EscapeBytes(data: seq<byte>) returns (output: seq<byte>)
    ensures output == Escape(data)
  {
    output := [];
    var i := 0;
    while i < |data|
      invariant 0 <= i <= |data|
      invariant output == Escape(data[..i])
    {
      assert data[..i + 1] == data[..i] + [data[i]];
      EscapeAppend(data[..i], data[i]);
      if data[i] == FEND {
        output := output + [FESC, TFEND];
      } else if data[i] == FESC {
        output := output + [FESC, TFESC];
      } else {
        output := output + [data[i]];
      }
      i := i + 1;
    }
    assert data[..i] == data;
  }

  /** _receive_frame over the bytes that arrive before the timeout. */
  method ReceiveFrame(input: seq<byte>) returns (frame: Option<Frame>)
    ensures frame == HostReceive(HostInitial, input)
  {
    var inFrame := false;
    var escaped := false;
    var buffer: seq<byte> := [];
    var i := 0;
    while i < |input|
      invariant 0 <= i <= |input|
      invariant HostReceive(HostInitial, input) == HostReceive(HostState(buffer, inFrame, escaped), input[i..])
    {
      var b := input[i];
      assert input[i..][0] == b && input[i..][1..] == input[i + 1..];
      i := i + 1;
      if b == FEND {
        if inFrame && |buffer| > 0 {
          return Some(Frame(buffer[0], buffer[1..]));
        }
        inFrame := true;
        buffer := [];
        escaped := false;
        continue;
      }
      if !inFrame {
        continue;
      }
      if escaped {
        buffer := buffer + [if b == TFEND then FEND else FESC];
        escaped := false;
      } else if b == FESC {
        escaped := true;
      } else {
        buffer := buffer + [b];
      }
    }
    return None;
  }

  // ----- agreement with the firmware codec -----

  lemma HostStepCons(s: HostState, b: byte, rest: seq<byte>)
    requires HostStep(s, b).Continue?
    ensures HostReceive(s, [b] + rest) == HostReceive(HostStep(s, b).state, rest)
  {
    assert ([b] + rest)[0] == b && ([b] + rest)[1..] == rest;
  }

  /** The host decoder appends the bytes of an escaped run to the open frame. */
  lemma {:induction false} HostReceiveEscaped(buf: seq<byte>, xs: seq<byte>, rest: seq<byte>)
    ensures HostReceive(HostState(buf, true, false), Escape(xs) + rest)
         == HostReceive(HostState(buf + xs, true, false), rest)
    decreases |xs|
  {
    if xs == [] {
      assert Escape(xs) + rest == rest;
      assert buf + xs == buf;
    } else {
      var x, ys := xs[0], xs[1..];
      var tail := Escape(ys) + rest;
      assert Escape(xs) + rest == EscapeByte(x) + tail;
      assert HostReceive(HostState(buf, true, false), EscapeByte(x) + tail)
          == HostReceive(HostState(buf + [x], true, false), tail) by {
        HostReceiveEscapedByte(buf, x, tail);
      }
      assert HostReceive(HostState(buf + [x], true, false), tail)
          == HostReceive(HostState(buf + xs, true, false), rest) by {
        HostReceiveEscaped(buf + [x], ys, rest);
        assert buf + [x] + ys == buf + xs;
      }
    }
  }

  lemma HostReceiveEscapedByte(buf: seq<byte>, x: byte, rest: seq<byte>)
    ensures HostReceive(HostState(buf, true, false), EscapeByte(x) + rest)
         == HostReceive(HostState(buf + [x], true, false), rest)
  {
    var s := HostState(buf, true, false);
    if x == FEND || x == FESC {
      var second := if x == FEND then TFEND else TFESC;
      assert EscapeByte(x) + rest == [FESC] + ([second] + rest);
      HostStepCons(s, FESC, [second] + rest);
      HostStepCons(s.(escaped := true), second, rest);
    } else {
      assert EscapeByte(x) + rest == [x] + rest;
      HostStepCons(s, x, rest);
    }
  }

  /** The host receives every frame the firmware sends, whatever its length. */
  lemma HostDecodesFirmwareFrames(cmd: byte, data: seq<byte>)
    ensures HostReceive(HostInitial, Encode(cmd, data)) == Some(Frame(cmd, data))
  {
    var xs := [cmd] + data;
    assert Escape(xs) == EscapeByte(cmd) + Escape(data) by {
      assert xs[0] == cmd && xs[1..] == data;
    }
    assert Encode(cmd, data) == [FEND] + (Escape(xs) + [FEND]);
    HostStepCons(HostInitial, FEND, Escape(xs) + [FEND]);
    HostReceiveEscaped([], xs, [FEND]);
    assert [] + xs == xs;
  }

  /** For every command byte that needs no escaping, the host writes exactly
    * the bytes the firmware encoder would. */
  lemma HostFrameIsFirmwareEncoding(cmd: byte, data: seq<byte>)
    requires cmd != FEND && cmd != FESC
    ensures HostFrame(cmd, data) == Encode(cmd, data)
  {
  }

  /** Host-to-modem round trip: the firmware decoder delivers exactly the
    * command and data the host sent, for every command the tools use. */
  lemma FirmwareDecodesHostFrames(cmd: byte, data: seq<byte>)
    requires cmd != FEND && cmd != FESC
    requires 1 + |data| <= MAX_FRAME_SIZE
    ensures Run(Idle, HostFrame(cmd, data)) == (Open, [Frame(cmd, data)])
  {
    HostFrameIsFirmwareEncoding(cmd, data);
    RoundTrip(cmd, data);
  }

  /** Host-to-host round trip for every command that needs no escaping. */
  lemma HostRoundTrip(cmd: byte, data: seq<byte>)
    requires cmd != FEND && cmd != FESC
    ensures HostReceive(HostInitial, HostFrame(cmd, data)) == Some(Frame(cmd, data))
  {
    HostFrameIsFirmwareEncoding(cmd, data);
    HostDecodesFirmwareFrames(cmd, data);
  }

  /** Where the two decoders differ: after FESC, a byte other than TFEND,
    * TFESC or FEND makes the firmware drop the frame while the host stores FESC. */
  lemma LenientEscape(buf: seq<byte>, b: byte)
    requires b != TFEND && b != TFESC && b != FEND
    ensures HostStep(HostState(buf, true, true), b) == Continue(HostState(buf + [FESC], true, false))
    ensures Step(DecoderState(buf, true, true), b) == (Idle, None)
  {
  }

  /** Because the command byte is not escaped, a command equal to FEND would
    * be read as an empty frame boundary: both decoders then take the first
    * data byte as the command. */
  lemma UnescapedFendCommandMisframed(data: seq<byte>)
    requires |data| >= 1
    ensures HostReceive(HostInitial, HostFrame(FEND, data)) == Some(Frame(data[0], data[1..]))
  {
    var open := HostState([], true, false);
    assert HostFrame(FEND, data) == [FEND] + ([FEND] + (Escape(data) + [FEND]));
    HostStepCons(HostInitial, FEND, [FEND] + (Escape(data) + [FEND]));
    HostStepCons(open, FEND, Escape(data) + [FEND]);
    HostReceiveEscaped([], data, [FEND]);
    assert [] + data == data;
  }
}
