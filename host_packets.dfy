// The mesh packet layouts the Python host scripts build and parse: the header
// byte packing route | (type << 2), the generic parse into route, payload
// type, path and payload, the room advert (pub key, timestamp, 64-byte
// signature, app data) with its parser, and the encrypted group-text message
// with its parser. Signing, AES, HMAC, SHA-256 and the modem's decryption are
// function parameters; the time stamp is a parameter; text is kept as the
// bytes its UTF-8 encoding produces.

module HostPackets {
  import opened Bytes

  const ROUTE_TYPE_FLOOD: nat := 0x01
  const ROUTE_TYPE_DIRECT: nat := 0x02

  const PAYLOAD_TYPE_RESPONSE: nat := 0x01
  const PAYLOAD_TYPE_ADVERT: nat := 0x04
  const PAYLOAD_TYPE_GRP_TXT: nat := 0x05
  const PAYLOAD_TYPE_ANON_REQ: nat := 0x07
  const PAYLOAD_TYPE_PATH: nat := 0x08

  const ADV_TYPE_NODE: byte := 0x00
  const ADV_TYPE_RELAY: byte := 0x01
  const ADV_TYPE_GATEWAY: byte := 0x02
  const ADV_TYPE_ROOM: byte := 0x03
  const ADV_FLAG_HAS_LOCATION: nat := 0x10
  const ADV_FLAG_HAS_NAME: nat := 0x80

  const PUB_KEY_SIZE: nat := 32
  const SIGNATURE_SIZE: nat := 64
  /** pub key, timestamp and signature: the fixed part of an advert payload. */
  const ADVERT_FIXED_SIZE: nat := PUB_KEY_SIZE + 4 + SIGNATURE_SIZE

  // Bit fields of a byte are written arithmetically: `b & (2^k - 1)` is
  // `b % 2^k`, `b >> k` is `b / 2^k`, and the OR of fields that do not
  // overlap is their sum.

  /** The two header fields: the low two bits (header & 0x03) are the route
    * type, the next four ((header >> 2) & 0x0F) the payload type; the top
    * two bits are ignored. */
  function RouteOf(h: byte): (r: nat)
    ensures r < 4
  {
    h % 4
  }

  function PayloadTypeOf(h: byte): (t: nat)
    ensures t < 16
  {
    (h / 4) % 16
  }

  /** ROUTE | (PAYLOAD_TYPE << 2), as every builder writes it. */
  function Header(route: nat, payloadType: nat): (h: byte)
    requires route < 4 && payloadType < 16
    ensures h < 64
    ensures RouteOf(h) == route && PayloadTypeOf(h) == payloadType
  {
    route + 4 * payloadType
  }

  /** Parsing loses nothing of a header whose top two bits are clear. */
  lemma HeaderFieldsDetermineHeader(h: byte)
    requires h < 64
    ensures Header(RouteOf(h), PayloadTypeOf(h)) == h
  {
    var q := h / 4;
    assert h == 4 * q + h % 4;
    assert q < 16 && q % 16 == q;
  }

  /** The header bytes written by the builders in the host scripts. */
  lemma BuilderHeaders()
    ensures Header(ROUTE_TYPE_FLOOD, PAYLOAD_TYPE_ADVERT) == 0x11
    ensures Header(ROUTE_TYPE_FLOOD, PAYLOAD_TYPE_GRP_TXT) == 0x15
    ensures Header(ROUTE_TYPE_FLOOD, PAYLOAD_TYPE_RESPONSE) == 0x05
    ensures Header(ROUTE_TYPE_FLOOD, PAYLOAD_TYPE_PATH) == 0x21
  {
  }

  /** A path as carried in a packet: at most 255 hop hashes. */
  type Path = s: seq<byte> | |s| < 0x100

  /** The dictionary parse_packet returns. */
  datatype ParsedPacket = ParsedPacket(routeType: nat, payloadType: nat, pathLen: byte,
                                       path: Path, payload: seq<byte>)

  /** parse_packet: None below two bytes; otherwise the header fields, the
    * path (clamped to what is there) and the rest as payload. */
  function ParsePacket(packet: seq<byte>): (r: Option<ParsedPacket>)
    ensures r.None? <==> |packet| < 2
    ensures r.Some? ==> r.value.routeType == RouteOf(packet[0])
                        && r.value.payloadType == PayloadTypeOf(packet[0])
                        && r.value.pathLen == packet[1] && |r.value.path| <= packet[1]
    ensures r.Some? && 2 + packet[1] <= |packet| ==>
              |r.value.path| == packet[1] && packet[2..] == r.value.path + r.value.payload
    ensures r.Some? && 2 + packet[1] > |packet| ==>
              r.value.path == packet[2..] && r.value.payload == []
  {
    if |packet| < 2 then None
    else
      var pathLen: nat := packet[1];
      Some(ParsedPacket(RouteOf(packet[0]), PayloadTypeOf(packet[0]), pathLen,
                        if pathLen > 0 then Slice(packet, 2, 2 + pathLen) else [],
                        Drop(packet, 2 + pathLen)))
  }

  /** The packet a builder lays out: header, path length, path, payload. */
  function Layout(route: nat, payloadType: nat, path: seq<byte>, payload: seq<byte>): (p: seq<byte>)
    requires route < 4 && payloadType < 16 && |path| < 0x100
    ensures |p| == 2 + |path| + |payload|
  {
    [Header(route, payloadType), |path|] + path + payload
  }

  /** parse_packet inverts the builders' layout. */
  lemma ParseInvertsLayout(route: nat, payloadType: nat, path: seq<byte>, payload: seq<byte>)
    requires route < 4 && payloadType < 16 && |path| < 0x100
    ensures ParsePacket(Layout(route, payloadType, path, payload))
            == Some(ParsedPacket(route, payloadType, |path|, path, payload))
  {
    var p := Layout(route, payloadType, path, payload);
    assert p[2..] == path + payload;
    var r := ParsePacket(p).value;
    assert r.path + r.payload == path + payload && |r.path| == |path|;
    assert r.path == (r.path + r.payload)[..|path|] == path;
    assert r.payload == (r.path + r.payload)[|path|..] == payload;
  }

  // ---------------------------------------------------------------- adverts

  datatype NodeType = Node | Relay | Gateway | RoomServer | UnknownType

  /** The advert dictionary. `snr` carries the packet's path length, as the
    * monitor script fills it; `location` holds the raw signed micro-degree
    * values before the division by 1e6. */
  datatype Advert = Advert(pubKey: seq<byte>, nodeHash: byte, timestamp: uint32, snr: byte,
                           nodeType: NodeType, name: Option<seq<byte>>,
                           location: Option<(int32, int32)>)

  /** The type_names lookup of flags & 0x0F. */
  function TypeName(flags: byte): (t: NodeType)
    ensures t == UnknownType <==> flags % 16 > 3
    ensures t == RoomServer <==> flags % 16 == ADV_TYPE_ROOM
  {
    var advType := flags % 16;
    if advType == ADV_TYPE_NODE then Node
    else if advType == ADV_TYPE_RELAY then Relay
    else if advType == ADV_TYPE_GATEWAY then Gateway
    else if advType == ADV_TYPE_ROOM then RoomServer
    else UnknownType
  }

  /** struct.unpack('<i', s): four little-endian bytes as two's complement. */
  function FromLE32Signed(s: seq<byte>): (r: int32)
    requires |s| == 4
    ensures FromLE32(s) < 0x8000_0000 ==> r == FromLE32(s)
    ensures FromLE32(s) >= 0x8000_0000 ==> r == FromLE32(s) - UINT32_MODULUS
  {
    var u := FromLE32(s);
    if u >= 0x8000_0000 then u - UINT32_MODULUS else u
  }

  /** flags & flag != 0, for a one-bit flag. */
  predicate HasFlag(flags: byte, flag: nat)
    requires flag == ADV_FLAG_HAS_LOCATION || flag == ADV_FLAG_HAS_NAME
  {
    (flags / flag) % 2 == 1
  }

  /** What the app data after the fixed advert part says: the type from the
    * low nibble of its first byte, then an 8-byte location when flagged and
    * present, then a NUL-trimmed name when flagged and bytes remain. */
  function ParseAppData(appdata: seq<byte>): (r: (NodeType, Option<(int32, int32)>, Option<seq<byte>>))
    requires |appdata| > 0
    ensures r.0 == TypeName(appdata[0])
    ensures r.1.Some? <==> HasFlag(appdata[0], ADV_FLAG_HAS_LOCATION) && |appdata| >= 9
    ensures r.1.Some? ==> r.1.value == (FromLE32Signed(appdata[1..5]), FromLE32Signed(appdata[5..9]))
    ensures var offset := if r.1.Some? then 9 else 1;
            (r.2.Some? <==> HasFlag(appdata[0], ADV_FLAG_HAS_NAME) && |appdata| > offset)
            && (r.2.Some? ==> r.2.value == RStripNul(appdata[offset..]))
  {
    var flags := appdata[0];
    var location :=
      if HasFlag(flags, ADV_FLAG_HAS_LOCATION) && |appdata| >= 1 + 8
      then Some((FromLE32Signed(appdata[1..5]), FromLE32Signed(appdata[5..9])))
      else None;
    var offset := if location.Some? then 9 else 1;
    var name :=
      if HasFlag(flags, ADV_FLAG_HAS_NAME) && |appdata| > offset
      then Some(RStripNul(appdata[offset..]))
      else None;
    (TypeName(flags), location, name)
  }

  /** parse_advert_packet. */
  function ParseAdvertPacket(packet: seq<byte>): (r: Option<Advert>)
    ensures r.Some? <==> |packet| >= 2 && PayloadTypeOf(packet[0]) == PAYLOAD_TYPE_ADVERT
                         && |packet| >= 2 + packet[1] + ADVERT_FIXED_SIZE
    ensures r.Some? ==>
              var payload := packet[2 + packet[1]..];
              && r.value.pubKey == payload[..PUB_KEY_SIZE] && r.value.nodeHash == payload[0]
              && r.value.timestamp == FromLE32(payload[32..36]) && r.value.snr == packet[1]
              && (|payload| == ADVERT_FIXED_SIZE ==>
                    r.value.nodeType == Node && r.value.name.None? && r.value.location.None?)
              && (|payload| > ADVERT_FIXED_SIZE ==>
                    (r.value.nodeType, r.value.location, r.value.name)
                    == ParseAppData(payload[ADVERT_FIXED_SIZE..]))
  {
    if |packet| < 2 then None
    else if PayloadTypeOf(packet[0]) != PAYLOAD_TYPE_ADVERT then None
    else
      var pathLen: nat := packet[1];
      var payloadStart := 2 + pathLen;
      if payloadStart + 36 > |packet| then None
      else
        var payload := packet[payloadStart..];
        var pubKey := payload[..PUB_KEY_SIZE];
        var timestamp := FromLE32(payload[32..36]);
        if |payload| < ADVERT_FIXED_SIZE then None
        else
          var base := Advert(pubKey, pubKey[0], timestamp, pathLen, Node, None, None);
          if |payload| > ADVERT_FIXED_SIZE then
            var app := ParseAppData(payload[ADVERT_FIXED_SIZE..]);
            Some(base.(nodeType := app.0, location := app.1, name := app.2))
          else Some(base)
  }

  /** ADV_TYPE_ROOM | ADV_FLAG_HAS_NAME followed by the name. */
  function RoomAppData(name: seq<byte>): (a: seq<byte>)
    ensures |a| == 1 + |name| && a[1..] == name
    ensures TypeName(a[0]) == RoomServer
    ensures HasFlag(a[0], ADV_FLAG_HAS_NAME) && !HasFlag(a[0], ADV_FLAG_HAS_LOCATION)
  {
    [ADV_TYPE_ROOM + ADV_FLAG_HAS_NAME] + name
  }

  /** create_room_advert: the modem signs pub key, timestamp and app data; a
    * missing signature or one that is not 64 bytes is an error. The packet
    * carries the signed fields with the signature between the timestamp and
    * the app data. */
  function CreateRoomAdvert(pubKey: seq<byte>, timestamp: uint32, name: seq<byte>,
                            sign: seq<byte> -> Option<seq<byte>>): (r: Result<seq<byte>>)
    ensures var message := pubKey + LE32(timestamp) + RoomAppData(name);
            var sig := sign(message);
            && (r.Success? <==> sig.Some? && |sig.value| == SIGNATURE_SIZE)
            && (r.Success? ==> r.value == Layout(ROUTE_TYPE_FLOOD, PAYLOAD_TYPE_ADVERT, [],
                                                 message[..|pubKey| + 4] + sig.value
                                                 + message[|pubKey| + 4..]))
  {
    var appdata := RoomAppData(name);
    var message := pubKey + LE32(timestamp) + appdata;
    var signature := sign(message);
    if signature.None? || signature.value == [] || |signature.value| != SIGNATURE_SIZE then
      Failure("Failed to get signature from device")
    else
      Success([Header(ROUTE_TYPE_FLOOD, PAYLOAD_TYPE_ADVERT), 0]
              + pubKey + LE32(timestamp) + signature.value + appdata)
  }

  /** Whatever the name, parse_advert_packet reads a built room advert back
    * as a room server from that key and time, with the name NUL-trimmed
    * (none when the name is empty) and no location. */
  lemma {:induction false} RoomAdvertRoundTrip(pubKey: seq<byte>, timestamp: uint32, name: seq<byte>,
                                               sign: seq<byte> -> Option<seq<byte>>)
    requires |pubKey| == PUB_KEY_SIZE
    requires CreateRoomAdvert(pubKey, timestamp, name, sign).Success?
    ensures ParseAdvertPacket(CreateRoomAdvert(pubKey, timestamp, name, sign).value)
            == Some(Advert(pubKey, pubKey[0], timestamp, 0, RoomServer,
                           if name == [] then None else Some(RStripNul(name)), None))
  {
    var appdata := RoomAppData(name);
    var message := pubKey + LE32(timestamp) + appdata;
    var sig := sign(message).value;
    var packet := CreateRoomAdvert(pubKey, timestamp, name, sign).value;
    var payload := pubKey + LE32(timestamp) + sig + appdata;
    assert message[..|pubKey| + 4] == pubKey + LE32(timestamp);
    assert message[|pubKey| + 4..] == appdata;
    assert packet == [packet[0], 0] + payload;
    assert packet[2 + packet[1]..] == payload;
    assert payload[..PUB_KEY_SIZE] == pubKey;
    assert payload[32..36] == LE32(timestamp);
    LE32RoundTrip(timestamp);
    assert payload[ADVERT_FIXED_SIZE..] == appdata;
  }

  // ------------------------------------------------------------- group text

  /** The plaintext zero-filled to the next multiple of the AES block. */
  function Padded(plaintext: seq<byte>): (p: seq<byte>)
    ensures |p| % 16 == 0 && |plaintext| <= |p| < |plaintext| + 16
    ensures p[..|plaintext|] == plaintext
    ensures forall i :: |plaintext| <= i < |p| ==> p[i] == 0
  {
    var paddingLen := (16 - |plaintext| % 16) % 16;
    plaintext + Zeros(paddingLen)
  }

  /** AES-128 in ECB mode under a key, and HMAC-SHA256 under a key. */
  type BlockCipher = (seq<byte>, seq<byte>) -> seq<byte>
  type Mac = (seq<byte>, seq<byte>) -> seq<byte>

  /** encrypt_group_message: a 2-byte MAC truncated from the HMAC of the
    * ciphertext, followed by the ciphertext of the padded plaintext under
    * the first 16 key bytes. */
  function EncryptGroupMessage(psk: seq<byte>, plaintext: seq<byte>, aes: BlockCipher, hmac: Mac): (r: seq<byte>)
    ensures var ciphertext := aes(Slice(psk, 0, 16), Padded(plaintext));
            |hmac(psk, ciphertext)| >= 2 ==>
              |r| == 2 + |ciphertext| && r[2..] == ciphertext && r[..2] == hmac(psk, r[2..])[..2]
  {
    var padded := Padded(plaintext);
    var ciphertext := aes(Slice(psk, 0, 16), padded);
    var mac := Slice(hmac(psk, ciphertext), 0, 2);
    mac + ciphertext
  }

  /** The text the sender puts in a group message: "name: message". */
  function ChatText(senderName: seq<byte>, message: seq<byte>): (t: seq<byte>)
    ensures |t| == |senderName| + 2 + |message|
  {
    senderName + [0x3A, 0x20] + message
  }

  /** The group-message plaintext: LE32 timestamp, flags 0, then the text. */
  function GroupPlaintext(timestamp: uint32, text: seq<byte>): (p: seq<byte>)
    ensures |p| == 5 + |text| && p[..4] == LE32(timestamp) && p[4] == 0 && p[5..] == text
  {
    LE32(timestamp) + [0x00] + text
  }

  /** create_group_chat_message: flood-routed GRP_TXT, empty path, the first
    * SHA-256 byte of the key as channel hash, then the encrypted plaintext. */
  function CreateGroupChatMessage(psk: seq<byte>, senderName: seq<byte>, message: seq<byte>,
                                  timestamp: uint32, aes: BlockCipher, hmac: Mac,
                                  sha256: seq<byte> -> seq<byte>): (p: seq<byte>)
    requires |sha256(psk)| > 0
    ensures |p| >= 2 && p[0] == 0x15 && p[1] == 0
    ensures ParsePacket(p) == Some(ParsedPacket(ROUTE_TYPE_FLOOD, PAYLOAD_TYPE_GRP_TXT, 0, [],
                                                [sha256(psk)[0]]
                                                + EncryptGroupMessage(psk, GroupPlaintext(timestamp, ChatText(senderName, message)), aes, hmac)))
  {
    var plaintext := GroupPlaintext(timestamp, ChatText(senderName, message));
    var encrypted := EncryptGroupMessage(psk, plaintext, aes, hmac);
    var channelHash := sha256(psk)[0];
    var payload := [channelHash] + encrypted;
    ParseInvertsLayout(ROUTE_TYPE_FLOOD, PAYLOAD_TYPE_GRP_TXT, [], payload);
    assert [Header(ROUTE_TYPE_FLOOD, PAYLOAD_TYPE_GRP_TXT), 0] + payload
           == Layout(ROUTE_TYPE_FLOOD, PAYLOAD_TYPE_GRP_TXT, [], payload);
    [Header(ROUTE_TYPE_FLOOD, PAYLOAD_TYPE_GRP_TXT), 0] + payload
  }

  /** The message dictionary; `snr` carries the path length. */
  datatype GroupText = GroupText(timestamp: uint32, flags: byte, message: seq<byte>, snr: byte)

  /** The modem's decrypt request: None when no decrypted frame comes back. */
  type Decrypt = (seq<byte>, seq<byte>) -> Option<seq<byte>>

  /** parse_group_text_packet. */
  function ParseGroupTextPacket(packet: seq<byte>, psk: seq<byte>, channelHash: byte, decrypt: Decrypt): (r: Option<GroupText>)
    ensures r.Some? ==> |packet| >= 2 && PayloadTypeOf(packet[0]) == PAYLOAD_TYPE_GRP_TXT
                        && packet[1] as int + 3 < |packet| && packet[packet[1] as int + 2] == channelHash
    ensures r.Some? ==> var plaintext := decrypt(psk, packet[packet[1] as int + 3..]);
                        && plaintext.Some? && |plaintext.value| >= 5
                        && LE32(r.value.timestamp) == plaintext.value[..4]
                        && r.value.flags == plaintext.value[4]
                        && r.value.message == RStripNul(plaintext.value[5..])
                        && r.value.snr == packet[1]
    ensures (&& |packet| >= 2 && PayloadTypeOf(packet[0]) == PAYLOAD_TYPE_GRP_TXT
             && packet[1] as int + 3 < |packet| && packet[packet[1] as int + 2] == channelHash
             && decrypt(psk, packet[packet[1] as int + 3..]).Some?
             && |decrypt(psk, packet[packet[1] as int + 3..]).value| >= 5) ==> r.Some?
  {
    if |packet| < 2 then None
    else if PayloadTypeOf(packet[0]) != PAYLOAD_TYPE_GRP_TXT then None
    else
      var pathLen: nat := packet[1];
      var payloadStart := 2 + pathLen;
      if payloadStart + 1 >= |packet| then None
      else
        var payload := packet[payloadStart..];
        if payload[0] != channelHash then None
        else
          var plaintext := decrypt(psk, payload[1..]);
          if plaintext.None? || plaintext.value == [] || |plaintext.value| < 5 then None
          else
            var p := plaintext.value;
            FromLE32RoundTrip(p[..4]);
            Some(GroupText(FromLE32(p[..4]), p[4], RStripNul(p[5..]), pathLen))
  }

  /** Trailing zero padding disappears under the NUL trim. */
  lemma {:induction false} RStripNulPadding(s: seq<byte>, n: nat)
    ensures RStripNul(s + Zeros(n)) == RStripNul(s)
    decreases n
  {
    if n > 0 {
      assert (s + Zeros(n))[..|s| + n - 1] == s + Zeros(n - 1);
      RStripNulPadding(s, n - 1);
    } else {
      assert s + Zeros(0) == s;
    }
  }

  /** A group message built for a channel key is read back by the monitor
    * with that key, provided the modem's decryption undoes the script's
    * encryption and the cipher keeps the padded length: the sender's time,
    * flags 0, and the text "name: message" (NUL-trimmed, which changes
    * nothing unless the message itself ends in NUL). */
  lemma {:induction false} GroupChatRoundTrip(psk: seq<byte>, senderName: seq<byte>, message: seq<byte>,
                                              timestamp: uint32, aes: BlockCipher, hmac: Mac,
                                              sha256: seq<byte> -> seq<byte>, decrypt: Decrypt)
    requires |sha256(psk)| > 0
    requires var plaintext := GroupPlaintext(timestamp, ChatText(senderName, message));
             && |aes(Slice(psk, 0, 16), Padded(plaintext))| == |Padded(plaintext)|
             && decrypt(psk, EncryptGroupMessage(psk, plaintext, aes, hmac)) == Some(Padded(plaintext))
    ensures var got := ParseGroupTextPacket(CreateGroupChatMessage(psk, senderName, message, timestamp, aes, hmac, sha256),
                                            psk, sha256(psk)[0], decrypt);
            && got.Some? && got.value.timestamp == timestamp && got.value.flags == 0
            && got.value.snr == 0
            && got.value.message == RStripNul(ChatText(senderName, message))
            && (message != [] && message[|message| - 1] != 0 ==> got.value.message == ChatText(senderName, message))
  {
    var text := ChatText(senderName, message);
    var plaintext := GroupPlaintext(timestamp, text);
    var encrypted := EncryptGroupMessage(psk, plaintext, aes, hmac);
    var packet := CreateGroupChatMessage(psk, senderName, message, timestamp, aes, hmac, sha256);
    var padded := Padded(plaintext);
    assert |encrypted| >= 16 by {
      var ciphertext := aes(Slice(psk, 0, 16), padded);
      assert encrypted == Slice(hmac(psk, ciphertext), 0, 2) + ciphertext;
    }
    assert packet[2..] == [sha256(psk)[0]] + encrypted;
    assert packet[3..] == encrypted;
    var got := ParseGroupTextPacket(packet, psk, sha256(psk)[0], decrypt).value;
    assert padded[..4] == LE32(timestamp);
    LE32Injective(got.timestamp, timestamp);
    var k := |padded| - |plaintext|;
    assert padded[5..] == text + Zeros(k);
    RStripNulPadding(text, k);
    if message != [] && message[|message| - 1] != 0 {
      assert text[|text| - 1] == message[|message| - 1];
    }
  }
}
