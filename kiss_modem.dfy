// The command side of the kiss_modem firmware (KISSModem): the handler that
// receives each decoded KISS frame, validates it, answers crypto requests,
// hands host packets to the mesh for transmission, and forwards received
// radio packets to the host.
//
// Frames the modem writes through KISSProtocol::sendFrame are recorded in
// `toHost`; the mesh's sendFlood/sendDirect calls in `radioOut`. The node's
// identity and the mesh library's crypto are an abstract `Crypto` value, and
// Packet::readFrom (with the packet pool) an abstract parsing function.

module KissModem {
  import opened Bytes
  import opened KissProtocol

  // Sizes from the mesh library's headers.
  const PUB_KEY_SIZE: nat := 32
  const SIGNATURE_SIZE: nat := 64
  const CIPHER_KEY_SIZE: nat := 16
  const CIPHER_MAC_SIZE: nat := 2
  const MAX_TRANS_UNIT: nat := 255

  const MAX_SIGN_DATA: nat := 1024
  const MAX_CRYPTO_DATA: nat := 512
  const MIN_DECRYPT_DATA: nat := CIPHER_KEY_SIZE + CIPHER_MAC_SIZE + 16

  const FIRMWARE_VERSION: string := "v1.0.0"
  const FIRMWARE_BUILD_DATE: string := "22 Oct 2025"
  const FIRMWARE_ROLE: string := "kiss_modem"

  /** ModemStats. */
  datatype ModemStats = ModemStats(
    packetsReceived: uint32,
    packetsSent: uint32,
    framesFromSerial: uint32,
    framesToSerial: uint32,
    totalAirtimeSecs: uint32,
    totalUptimeSecs: uint32,
    lastRssi: int16,
    lastSnr: int16)

  const ZeroStats: ModemStats := ModemStats(0, 0, 0, 0, 0, 0, 0, 0)

  /** The node identity and the mesh library's primitives. An empty result
    * from encryptThenMac or macThenDecrypt stands for a length <= 0. */
  datatype Crypto = Crypto(
    pubKey: seq<byte>,
    sign: seq<byte> -> seq<byte>,
    sharedSecret: seq<byte> -> seq<byte>,
    encryptThenMac: (seq<byte>, seq<byte>) -> seq<byte>,
    macThenDecrypt: (seq<byte>, seq<byte>) -> seq<byte>,
    sha256: seq<byte> -> seq<byte>)

  /** The parts of a parsed mesh::Packet that transmitPacket looks at. */
  datatype Packet = Packet(isRouteFlood: bool, isRouteDirect: bool, path: seq<byte>)

  /** A call to Mesh::sendFlood or Mesh::sendDirect, with whether the mesh
    * would have been allowed to forward packets while it ran. */
  datatype MeshSend =
    | SendFlood(packet: Packet, forwardAllowed: bool)
    | SendDirect(packet: Packet, path: seq<byte>, forwardAllowed: bool)

  /** psk_padded: the 16-byte key from the request, zero-filled to 32 bytes. */
  function PaddedPsk(data: seq<byte>): (psk: seq<byte>)
    requires |data| >= CIPHER_KEY_SIZE
    ensures |psk| == PUB_KEY_SIZE
    ensures psk[..CIPHER_KEY_SIZE] == data[..CIPHER_KEY_SIZE]
    ensures forall i :: CIPHER_KEY_SIZE <= i < PUB_KEY_SIZE ==> psk[i] == 0
  {
    data[..CIPHER_KEY_SIZE] + Zeros(PUB_KEY_SIZE - CIPHER_KEY_SIZE)
  }

  /** isValidPacketData: the masked route and payload fields always fit their
    * ranges, so only the length decides. */
  function IsValidPacketData(data: seq<byte>): (ok: bool)
    ensures ok <==> 2 <= |data| <= MAX_TRANS_UNIT
  {
    if |data| < 2 || |data| > MAX_TRANS_UNIT then false
    else
      var header := data[0] as bv8;
      var routeType := header & 0x03;
      var payloadType := (header >> 2) & 0x0F;
      !(routeType > 0x03 || payloadType > 0x0F)
  }

  /** The reply frame one request produces, or None when the request is
    * rejected, produces an empty result, or is not a request. */
  function Reply(command: byte, data: seq<byte>, crypto: Crypto): (r: Option<Frame>)
    ensures r.Some? ==> r.value.command == command + 0x10
    ensures r.Some? ==> command in {CMD_GET_IDENTITY, CMD_SIGN_DATA, CMD_ENCRYPT_DATA,
                                    CMD_DECRYPT_DATA, CMD_KEY_EXCHANGE, CMD_HASH}
    ensures command == CMD_SIGN_DATA ==> (r.Some? <==> 1 <= |data| <= MAX_SIGN_DATA)
    ensures command == CMD_HASH ==> (r.Some? <==> 1 <= |data| <= MAX_CRYPTO_DATA)
    ensures command == CMD_KEY_EXCHANGE ==> (r.Some? <==> |data| == PUB_KEY_SIZE)
    ensures command == CMD_ENCRYPT_DATA && r.Some? ==> CIPHER_KEY_SIZE + 1 <= |data| <= MAX_CRYPTO_DATA
    ensures command == CMD_DECRYPT_DATA && r.Some? ==> MIN_DECRYPT_DATA <= |data| <= MAX_CRYPTO_DATA
    ensures r.Some? && command in {CMD_ENCRYPT_DATA, CMD_DECRYPT_DATA} ==> |r.value.data| > 0
  {
    if command == CMD_GET_IDENTITY then
      Some(Frame(RESP_IDENTITY, crypto.pubKey))
    else if command == CMD_SIGN_DATA then
      if |data| == 0 || |data| > MAX_SIGN_DATA then None
      else Some(Frame(RESP_SIGNATURE, crypto.sign(data)))
    else if command == CMD_ENCRYPT_DATA then
      if |data| < CIPHER_KEY_SIZE + 1 || |data| > MAX_CRYPTO_DATA then None
      else
        var encrypted := crypto.encryptThenMac(PaddedPsk(data), data[CIPHER_KEY_SIZE..]);
        if |encrypted| > 0 then Some(Frame(RESP_ENCRYPTED, encrypted)) else None
    else if command == CMD_DECRYPT_DATA then
      if |data| < MIN_DECRYPT_DATA || |data| > MAX_CRYPTO_DATA then None
      else
        var decrypted := crypto.macThenDecrypt(PaddedPsk(data), data[CIPHER_KEY_SIZE..]);
        if |decrypted| > 0 then Some(Frame(RESP_DECRYPTED, decrypted)) else None
    else if command == CMD_KEY_EXCHANGE then
      if |data| != PUB_KEY_SIZE then None
      else Some(Frame(RESP_SHARED_SECRET, crypto.sharedSecret(data)))
    else if command == CMD_HASH then
      if |data| == 0 || |data| > MAX_CRYPTO_DATA then None
      else Some(Frame(RESP_HASH, crypto.sha256(data)))
    else
      None
  }

  /** What an encrypt or decrypt request hands to the cipher: the padded key
    * and everything after the first 16 bytes. */
  lemma CipherRequestSplit(command: byte, data: seq<byte>, crypto: Crypto)
    requires command == CMD_ENCRYPT_DATA || command == CMD_DECRYPT_DATA
    requires Reply(command, data, crypto).Some?
    ensures command == CMD_ENCRYPT_DATA ==>
      Reply(command, data, crypto).value.data == crypto.encryptThenMac(PaddedPsk(data), data[CIPHER_KEY_SIZE..])
    ensures command == CMD_DECRYPT_DATA ==>
      Reply(command, data, crypto).value.data == crypto.macThenDecrypt(PaddedPsk(data), data[CIPHER_KEY_SIZE..])
  {
  }

  /** Through the KISS decoder a request carries at most 511 data bytes, so
    * the 1024- and 512-byte upper limits never reject anything: only the
    * lower limits matter. */
  lemma DecodedRequestsOnlyLowerGuards(command: byte, data: seq<byte>, crypto: Crypto)
    requires |data| < MAX_FRAME_SIZE
    ensures command == CMD_SIGN_DATA ==> (Reply(command, data, crypto).Some? <==> |data| >= 1)
    ensures command == CMD_HASH ==> (Reply(command, data, crypto).Some? <==> |data| >= 1)
    ensures command == CMD_ENCRYPT_DATA && |data| >= CIPHER_KEY_SIZE + 1 ==>
      (Reply(command, data, crypto).Some? <==>
       |crypto.encryptThenMac(PaddedPsk(data), data[CIPHER_KEY_SIZE..])| > 0)
    ensures command == CMD_DECRYPT_DATA && |data| >= MIN_DECRYPT_DATA ==>
      (Reply(command, data, crypto).Some? <==>
       |crypto.macThenDecrypt(PaddedPsk(data), data[CIPHER_KEY_SIZE..])| > 0)
  {
  }

  /** Every frame the decoder dispatches fits those limits. */
  lemma {:induction false} DecodedFramesBounded(s: DecoderState, input: seq<byte>)
    requires WellFormed(s)
    ensures forall f :: f in Run(s, input).1 ==> |f.data| < MAX_FRAME_SIZE
    decreases |input|
  {
    if input != [] {
      var first := Step(s, input[0]);
      DecodedFramesBounded(first.0, input[1..]);
    }
  }

  /** transmitPacket's choice: direct only for a non-flood direct route with a path. */
  function RouteFor(packet: Packet, forwardAllowed: bool): (send: MeshSend)
    ensures send.packet == packet && send.forwardAllowed == forwardAllowed
    ensures send.SendDirect? <==> !packet.isRouteFlood && packet.isRouteDirect && |packet.path| > 0
    ensures send.SendDirect? ==> send.path == packet.path
  {
    if packet.isRouteFlood then SendFlood(packet, forwardAllowed)
    else if packet.isRouteDirect then
      if |packet.path| > 0 then SendDirect(packet, packet.path, forwardAllowed)
      else SendFlood(packet, forwardAllowed)
    else SendFlood(packet, forwardAllowed)
  }

  /** The sends one host data frame causes: none if the frame is invalid or
    * cannot be parsed into a packet, otherwise exactly one, made while
    * forwarding is suspended. */
  function DataFrameSends(data: seq<byte>, readFrom: seq<byte> -> Option<Packet>): (sends: seq<MeshSend>)
    ensures |sends| <= 1
    ensures |sends| == 1 <==> IsValidPacketData(data) && readFrom(data).Some?
    ensures |sends| == 1 ==> sends[0] == RouteFor(readFrom(data).value, false)
  {
    if !IsValidPacketData(data) then []
    else match readFrom(data)
      case None => []
      case Some(p) => [RouteFor(p, false)]
  }

  class KISSModem {
    var stats: ModemStats
    var transmittingFromSerial: bool
    var toHost: seq<Frame>
    var radioOut: seq<MeshSend>

    /** Between calls the modem is never mid-transmission. */
    ghost predicate Valid()
      reads this
    {
      !transmittingFromSerial
    }

    /** The handler answered with reply (if any), counting it, and changed nothing else. */
    twostate predicate Answered(reply: Option<Frame>)
      reads this
    {
      toHost == old(toHost) + OptionToSeq(reply)
      && stats == old(stats).(framesToSerial :=
           if reply.Some? then Inc32(old(stats.framesToSerial)) else old(stats.framesToSerial))
      && radioOut == old(radioOut)
      && transmittingFromSerial == old(transmittingFromSerial)
    }

    constructor ()
      ensures Valid() && stats == ZeroStats
      ensures toHost == [] && radioOut == []
    {
      stats := ZeroStats;
      transmittingFromSerial := false;
      toHost := [];
      radioOut := [];
    }

    /** allowPacketForward. */
    predicate AllowPacketForward()
      reads this
      ensures AllowPacketForward() <==> !transmittingFromSerial
    {
      !transmittingFromSerial
    }

    function GetStats(): ModemStats
      reads this
    {
      stats
    }

    /** onKISSFrame: counts every frame, then dispatches on the command. */
    method OnKISSFrame(command: byte, data: seq<byte>, crypto: Crypto, readFrom: seq<byte> -> Option<Packet>)
      requires Valid()
      modifies this
      ensures Valid()
      ensures stats.framesFromSerial == Inc32(old(stats.framesFromSerial))
      ensures command != CMD_DATA ==>
        toHost == old(toHost) + OptionToSeq(Reply(command, data, crypto))
        && radioOut == old(radioOut)
        && stats == old(stats).(framesFromSerial := stats.framesFromSerial,
                                framesToSerial := if Reply(command, data, crypto).Some?
                                                  then Inc32(old(stats.framesToSerial))
                                                  else old(stats.framesToSerial))
      ensures command == CMD_DATA ==>
        toHost == old(toHost) && radioOut == old(radioOut) + DataFrameSends(data, readFrom)
        && stats == old(stats).(framesFromSerial := stats.framesFromSerial)
    {
      stats := stats.(framesFromSerial := Inc32(stats.framesFromSerial));
      if command == CMD_DATA {
        HandleDataFrame(data, readFrom);
      } else if command == CMD_GET_IDENTITY {
        SendIdentityResponse(crypto);
      } else if command == CMD_SIGN_DATA {
        HandleSignRequest(data, crypto);
      } else if command == CMD_ENCRYPT_DATA {
        HandleEncryptRequest(data, crypto);
      } else if command == CMD_DECRYPT_DATA {
        HandleDecryptRequest(data, crypto);
      } else if command == CMD_KEY_EXCHANGE {
        HandleKeyExchangeRequest(data, crypto);
      } else if command == CMD_HASH {
        HandleHashRequest(data, crypto);
      }
    }

    method SendIdentityResponse(crypto: Crypto)
      modifies this
      ensures Answered(Some(Frame(RESP_IDENTITY, crypto.pubKey)))
    {
      toHost := toHost + [Frame(RESP_IDENTITY, crypto.pubKey)];
      stats := stats.(framesToSerial := Inc32(stats.framesToSerial));
    }

    method HandleSignRequest(data: seq<byte>, crypto: Crypto)
      modifies this
      ensures Answered(Reply(CMD_SIGN_DATA, data, crypto))
    {
      if |data| == 0 || |data| > MAX_SIGN_DATA {
        return;
      }
      var signature := crypto.sign(data);
      toHost := toHost + [Frame(RESP_SIGNATURE, signature)];
      stats := stats.(framesToSerial := Inc32(stats.framesToSerial));
    }

    method HandleEncryptRequest(data: seq<byte>, crypto: Crypto)
      modifies this
      ensures Answered(Reply(CMD_ENCRYPT_DATA, data, crypto))
    {
      if |data| < CIPHER_KEY_SIZE + 1 || |data| > MAX_CRYPTO_DATA {
        return;
      }
      var pskPadded := PaddedPsk(data);
      var encrypted := crypto.encryptThenMac(pskPadded, data[CIPHER_KEY_SIZE..]);
      if |encrypted| > 0 {
        toHost := toHost + [Frame(RESP_ENCRYPTED, encrypted)];
        stats := stats.(framesToSerial := Inc32(stats.framesToSerial));
      }
    }

    method HandleDecryptRequest(data: seq<byte>, crypto: Crypto)
      modifies this
      ensures Answered(Reply(CMD_DECRYPT_DATA, data, crypto))
    {
      if |data| < MIN_DECRYPT_DATA || |data| > MAX_CRYPTO_DATA {
        return;
      }
      var pskPadded := PaddedPsk(data);
      var decrypted := crypto.macThenDecrypt(pskPadded, data[CIPHER_KEY_SIZE..]);
      if |decrypted| > 0 {
        toHost := toHost + [Frame(RESP_DECRYPTED, decrypted)];
        stats := stats.(framesToSerial := Inc32(stats.framesToSerial));
      }
    }

    method HandleKeyExchangeRequest(data: seq<byte>, crypto: Crypto)
      modifies this
      ensures Answered(Reply(CMD_KEY_EXCHANGE, data, crypto))
    {
      if |data| != PUB_KEY_SIZE {
        return;
      }
      toHost := toHost + [Frame(RESP_SHARED_SECRET, crypto.sharedSecret(data))];
      stats := stats.(framesToSerial := Inc32(stats.framesToSerial));
    }

    method HandleHashRequest(data: seq<byte>, crypto: Crypto)
      modifies this
      ensures Answered(Reply(CMD_HASH, data, crypto))
    {
      if |data| == 0 || |data| > MAX_CRYPTO_DATA {
        return;
      }
      toHost := toHost + [Frame(RESP_HASH, crypto.sha256(data))];
      stats := stats.(framesToSerial := Inc32(stats.framesToSerial));
    }

    /** handleDataFrame: validate, parse (allocation failure and parse
      * failure both give None), transmit. */
    method HandleDataFrame(data: seq<byte>, readFrom: seq<byte> -> Option<Packet>)
      requires Valid()
      modifies this
      ensures Valid() && stats == old(stats) && toHost == old(toHost)
      ensures radioOut == old(radioOut) + DataFrameSends(data, readFrom)
    {
      if !IsValidPacketData(data) {
        return;
      }
      var packet := readFrom(data);
      if packet.None? {
        return;
      }
      TransmitPacket(packet.value);
    }

    /** transmitPacket: the send happens with forwarding suspended, and the
      * flag is cleared again afterwards. */
    method TransmitPacket(packet: Packet)
      requires Valid()
      modifies this
      ensures Valid() && stats == old(stats) && toHost == old(toHost)
      ensures radioOut == old(radioOut) + [RouteFor(packet, false)]
    {
      transmittingFromSerial := true;
      if packet.isRouteFlood {
        radioOut := radioOut + [SendFlood(packet, AllowPacketForward())];
      } else if packet.isRouteDirect {
        if |packet.path| > 0 {
          radioOut := radioOut + [SendDirect(packet, packet.path, AllowPacketForward())];
        } else {
          radioOut := radioOut + [SendFlood(packet, AllowPacketForward())];
        }
      } else {
        radioOut := radioOut + [SendFlood(packet, AllowPacketForward())];
      }
      transmittingFromSerial := false;
    }

    /** onRecvPacket: every received packet goes to the host as one CMD_DATA
      * frame carrying its serialised bytes. */
    method OnRecvPacket(raw: seq<byte>)
      modifies this
      ensures Answered(Some(Frame(CMD_DATA, raw)))
    {
      toHost := toHost + [Frame(CMD_DATA, raw)];
      stats := stats.(framesToSerial := Inc32(stats.framesToSerial));
    }
  }
}
