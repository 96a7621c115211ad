// The Python room server (SimpleRoomServer): anonymous login requests are
// keyed by sender and payload hash, held in a cache for three seconds so that
// the copy with the shortest path wins, then answered once with a login
// response, either inside a flood-routed PATH return or as a plain RESPONSE.
// The cache is a dictionary with insertion order, modelled as a map plus the
// order of its keys. Times are the readings of time.time(), passed in as
// reals; the modem's key exchange, decryption and encryption, SHA-256 and
// os.urandom are parameters.

module RoomServer {
  import opened Bytes
  import opened HostPackets
  import KissProtocol
  import KissModem

  const CIPHER_MAC_SIZE: nat := 2
  const RESP_SERVER_LOGIN_OK: byte := 0x00
  const PERM_ACL_READ_WRITE: byte := 0x01
  const FIRMWARE_VER_LEVEL: byte := 1
  const DEDUP_WINDOW_SECONDS: real := 3.0
  const CACHE_MAX_AGE_SECONDS: real := 5.0

  /** The shortest ANON_REQ payload get_packet_key keys, and the shortest
    * handle_anon_request_immediate looks at. */
  const MIN_KEYED_PAYLOAD: nat := 1 + PUB_KEY_SIZE + CIPHER_MAC_SIZE + 16
  const MIN_REQUEST_PAYLOAD: nat := 1 + PUB_KEY_SIZE + CIPHER_MAC_SIZE

  // ------------------------------------------------------------ packet key

  datatype PacketKey = PacketKey(senderPubKey: seq<byte>, payloadHash: seq<byte>)

  /** get_packet_key: only ANON_REQ payloads long enough to hold a sender key,
    * a MAC and one block are keyed, by sender key and the first four bytes of
    * the payload's SHA-256. */
  function GetPacketKey(parsed: ParsedPacket, sha256: seq<byte> -> seq<byte>): (k: Option<PacketKey>)
    ensures k.Some? <==> parsed.payloadType == PAYLOAD_TYPE_ANON_REQ && |parsed.payload| >= MIN_KEYED_PAYLOAD
    ensures k.Some? ==> k.value.senderPubKey == parsed.payload[1..1 + PUB_KEY_SIZE]
                        && |k.value.payloadHash| <= 4
  {
    if parsed.payloadType != PAYLOAD_TYPE_ANON_REQ then None
    else if |parsed.payload| < MIN_KEYED_PAYLOAD then None
    else Some(PacketKey(parsed.payload[1..1 + PUB_KEY_SIZE], Slice(sha256(parsed.payload), 0, 4)))
  }

  /** Copies of one request that arrive by different routes and paths share
    * a key; requests from different senders never do. */
  lemma KeyIgnoresRoute(p: ParsedPacket, q: ParsedPacket, sha256: seq<byte> -> seq<byte>)
    requires p.payloadType == q.payloadType
    ensures p.payload == q.payload ==> GetPacketKey(p, sha256) == GetPacketKey(q, sha256)
    ensures GetPacketKey(p, sha256).Some? && GetPacketKey(q, sha256).Some?
            && p.payload[1..1 + PUB_KEY_SIZE] != q.payload[1..1 + PUB_KEY_SIZE]
            ==> GetPacketKey(p, sha256) != GetPacketKey(q, sha256)
  {
  }

  // --------------------------------------------------------- login response

  /** The modem calls the login handler makes: key exchange, decryption and
    * encryption, each None when no response frame comes back. */
  datatype ModemCalls = ModemCalls(
    sharedSecret: seq<byte> -> Option<seq<byte>>,
    decrypt: (seq<byte>, seq<byte>) -> Option<seq<byte>>,
    encrypt: (seq<byte>, seq<byte>) -> Option<seq<byte>>)

  /** Python truthiness of an optional byte string. */
  predicate Truthy(o: Option<seq<byte>>)
  {
    o.Some? && o.value != []
  }

  /** os.urandom(4). */
  type Random4 = s: seq<byte> | |s| == 4 witness [0, 0, 0, 0]

  /** The login response body: server time, RESP_SERVER_LOGIN_OK, two zero
    * bytes, PERM_ACL_READ_WRITE, four random bytes, FIRMWARE_VER_LEVEL. */
  function LoginBody(clock: uint32, random: Random4): (body: seq<byte>)
    ensures |body| == 13
    ensures body[..4] == LE32(clock) && body[4..8] == [0x00, 0, 0, 0x01]
    ensures body[8..12] == random && body[12] == 1
  {
    LE32(clock) + [RESP_SERVER_LOGIN_OK, 0, 0, PERM_ACL_READ_WRITE] + random + [FIRMWARE_VER_LEVEL]
  }

  /** The plaintext of a PATH return: the path back to the sender (length
    * first), the embedded payload type, then the response. */
  function PathData(path: Path, response: seq<byte>): (d: seq<byte>)
  {
    [|path|] + path + [PAYLOAD_TYPE_RESPONSE] + response
  }

  /** The length byte of the path data locates the path, the embedded
    * payload type and the response within it. */
  lemma PathDataLocatesPath(path: Path, response: seq<byte>)
    ensures var d := PathData(path, response);
            && |d| == 2 + d[0] + |response|
            && d[1..1 + d[0]] == path && d[1 + d[0]] == PAYLOAD_TYPE_RESPONSE
            && d[2 + d[0]..] == response
  {
    var d := PathData(path, response);
    assert d == [|path|] + (path + ([PAYLOAD_TYPE_RESPONSE] + response));
  }

  /** The packet both reply builders lay out: flood-routed, an empty path,
    * then the destination hash, this server's hash and the encrypted bytes. */
  function Addressed(payloadType: nat, destHash: byte, myHash: byte, encrypted: seq<byte>): (p: seq<byte>)
    requires payloadType < 16
  {
    [Header(ROUTE_TYPE_FLOOD, payloadType), 0, destHash, myHash] + encrypted
  }

  /** Such a packet reads back as flood-routed with an empty path, carrying
    * the two hashes and the encrypted bytes as its payload. */
  lemma AddressedParses(payloadType: nat, destHash: byte, myHash: byte, encrypted: seq<byte>)
    requires payloadType < 16
    ensures ParsePacket(Addressed(payloadType, destHash, myHash, encrypted))
            == Some(ParsedPacket(ROUTE_TYPE_FLOOD, payloadType, 0, [], [destHash, myHash] + encrypted))
  {
    var payload := [destHash, myHash] + encrypted;
    ParseInvertsLayout(ROUTE_TYPE_FLOOD, payloadType, [], payload);
    assert Addressed(payloadType, destHash, myHash, encrypted) == Layout(ROUTE_TYPE_FLOOD, payloadType, [], payload);
  }

  /** _create_response: a RESPONSE to dest_hash. */
  function CreateResponse(myHash: byte, destHash: byte, encrypted: seq<byte>): (p: seq<byte>)
    ensures ParsePacket(p) == Some(ParsedPacket(ROUTE_TYPE_FLOOD, PAYLOAD_TYPE_RESPONSE, 0, [],
                                                [destHash, myHash] + encrypted))
  {
    AddressedParses(PAYLOAD_TYPE_RESPONSE, destHash, myHash, encrypted);
    Addressed(PAYLOAD_TYPE_RESPONSE, destHash, myHash, encrypted)
  }

  /** _create_path_return: the encrypted path data in a PATH packet to
    * dest_hash, or None when encryption yields nothing. */
  function CreatePathReturn(myHash: byte, destHash: byte, path: Path, secret: seq<byte>,
                            response: seq<byte>, modem: ModemCalls): (p: Option<seq<byte>>)
    ensures p.Some? <==> Truthy(modem.encrypt(secret, PathData(path, response)))
    ensures p.Some? ==> ParsePacket(p.value)
                        == Some(ParsedPacket(ROUTE_TYPE_FLOOD, PAYLOAD_TYPE_PATH, 0, [],
                                             [destHash, myHash] + modem.encrypt(secret, PathData(path, response)).value))
  {
    var encryptedPath := modem.encrypt(secret, PathData(path, response));
    if !Truthy(encryptedPath) then None
    else
      AddressedParses(PAYLOAD_TYPE_PATH, destHash, myHash, encryptedPath.value);
      Some(Addressed(PAYLOAD_TYPE_PATH, destHash, myHash, encryptedPath.value))
  }

  /** The four steps a request must pass before a response is built: long
    * enough, addressed to this server, a shared secret, and a decrypted
    * request of at least eight bytes. */
  predicate Accepted(myHash: byte, payload: seq<byte>, modem: ModemCalls)
  {
    && |payload| >= MIN_REQUEST_PAYLOAD
    && payload[0] == myHash
    && var secret := modem.sharedSecret(payload[1..1 + PUB_KEY_SIZE]);
       && Truthy(secret)
       && var decrypted := modem.decrypt(secret.value, payload[1 + PUB_KEY_SIZE..]);
          Truthy(decrypted) && |decrypted.value| >= 8
  }

  /** handle_anon_request_immediate: the packet it sends, if any. */
  function LoginResponse(myHash: byte, parsed: ParsedPacket, clock: uint32, random: Random4,
                         modem: ModemCalls): (r: Option<seq<byte>>)
    ensures r.Some? ==> Accepted(myHash, parsed.payload, modem)
  {
    var payload := parsed.payload;
    if |payload| < MIN_REQUEST_PAYLOAD then None
    else if payload[0] != myHash then None
    else
      var senderPubKey := payload[1..1 + PUB_KEY_SIZE];
      var macAndCiphertext := payload[1 + PUB_KEY_SIZE..];
      var secret := modem.sharedSecret(senderPubKey);
      if !Truthy(secret) then None
      else
        var decrypted := modem.decrypt(secret.value, macAndCiphertext);
        if !Truthy(decrypted) || |decrypted.value| < 8 then None
        else
          var body := LoginBody(clock, random);
          var senderHash := senderPubKey[0];
          if parsed.routeType == ROUTE_TYPE_FLOOD then
            CreatePathReturn(myHash, senderHash, parsed.path, secret.value, body, modem)
          else
            var encrypted := modem.encrypt(secret.value, body);
            if !Truthy(encrypted) then None
            else Some(CreateResponse(myHash, senderHash, encrypted.value))
  }

  /** A request whose first byte is not this server's hash, or that fails
    * any later step, is never answered. An accepted flood request is
    * answered with a PATH return carrying the encrypted path it came by and
    * the login body; any other route gets a RESPONSE carrying the encrypted
    * body. Both are flood-routed, addressed from this server to the first
    * byte of the sender's key, and sent exactly when encryption yields bytes. */
  lemma LoginResponseAnswers(myHash: byte, parsed: ParsedPacket, clock: uint32, random: Random4,
                             modem: ModemCalls)
    ensures var r := LoginResponse(myHash, parsed, clock, random, modem);
            && (!Accepted(myHash, parsed.payload, modem) ==> r.None?)
            && (Accepted(myHash, parsed.payload, modem) ==>
                  var payload := parsed.payload;
                  var secret := modem.sharedSecret(payload[1..1 + PUB_KEY_SIZE]).value;
                  var flood := parsed.routeType == ROUTE_TYPE_FLOOD;
                  var plaintext := if flood then PathData(parsed.path, LoginBody(clock, random))
                                   else LoginBody(clock, random);
                  var encrypted := modem.encrypt(secret, plaintext);
                  && (r.Some? <==> Truthy(encrypted))
                  && (r.Some? ==> ParsePacket(r.value)
                                  == Some(ParsedPacket(ROUTE_TYPE_FLOOD,
                                                       if flood then PAYLOAD_TYPE_PATH else PAYLOAD_TYPE_RESPONSE,
                                                       0, [], [payload[1], myHash] + encrypted.value))))
  {
    var payload := parsed.payload;
    if Accepted(myHash, payload, modem) {
      var senderHash := payload[1];
      var secret := modem.sharedSecret(payload[1..1 + PUB_KEY_SIZE]).value;
      var body := LoginBody(clock, random);
      if parsed.routeType == ROUTE_TYPE_FLOOD {
        var encrypted := modem.encrypt(secret, PathData(parsed.path, body));
        if Truthy(encrypted) {
          AddressedParses(PAYLOAD_TYPE_PATH, senderHash, myHash, encrypted.value);
        }
      } else {
        var encrypted := modem.encrypt(secret, body);
        if Truthy(encrypted) {
          AddressedParses(PAYLOAD_TYPE_RESPONSE, senderHash, myHash, encrypted.value);
        }
      }
    }
  }

  /** The server hands the modem the whole 32-byte shared secret as the key
    * of a decrypt request. The modem takes only the first 16 bytes as the
    * key (zero-padded) and decrypts the remaining 16 secret bytes followed by
    * the packet's MAC and ciphertext. */
  lemma SharedSecretSplitByModem(secret: seq<byte>, macAndCiphertext: seq<byte>, crypto: KissModem.Crypto)
    requires |secret| == PUB_KEY_SIZE
    requires KissModem.Reply(KissProtocol.CMD_DECRYPT_DATA, secret + macAndCiphertext, crypto).Some?
    ensures KissModem.Reply(KissProtocol.CMD_DECRYPT_DATA, secret + macAndCiphertext, crypto).value.data
            == crypto.macThenDecrypt(secret[..16] + Zeros(16), secret[16..] + macAndCiphertext)
  {
    var data := secret + macAndCiphertext;
    KissModem.CipherRequestSplit(KissProtocol.CMD_DECRYPT_DATA, data, crypto);
    assert data[..KissModem.CIPHER_KEY_SIZE] == secret[..16];
    assert data[KissModem.CIPHER_KEY_SIZE..] == secret[16..] + macAndCiphertext;
  }

  // ------------------------------------------------------------------ cache

  /** One packet_cache value: the kept parse, the first arrival time and the
    * kept parse's path length. */
  datatype CacheEntry = CacheEntry(parsed: ParsedPacket, arrival: real, pathLen: nat)

  /** An age test against the clock: at least `age` seconds old, or strictly
    * older when `strict`. */
  datatype Sweep = Sweep(now: real, age: real, strict: bool)

  predicate Expired(e: CacheEntry, sw: Sweep)
  {
    if sw.strict then sw.now - e.arrival > sw.age else sw.now - e.arrival >= sw.age
  }

  /** process_cached_packets handles entries at least three seconds old;
    * cleanup_old_cache_entries drops entries more than five seconds old. */
  function DueAt(now: real): Sweep { Sweep(now, DEDUP_WINDOW_SECONDS, false) }
  function StaleAt(now: real): Sweep { Sweep(now, CACHE_MAX_AGE_SECONDS, true) }

  ghost predicate Distinct<T>(s: seq<T>)
  {
    forall i, j :: 0 <= i < j < |s| ==> s[i] != s[j]
  }

  /** The keys of `order` present in `cache` whose entry is (or is not)
    * expired under the sweep, in order. */
  function Select(order: seq<PacketKey>, cache: map<PacketKey, CacheEntry>, sw: Sweep, expired: bool): (ks: seq<PacketKey>)
    ensures |ks| <= |order| && forall k :: k in ks ==> k in cache
  {
    if order == [] then []
    else
      var k := order[|order| - 1];
      Select(order[..|order| - 1], cache, sw, expired)
      + (if k in cache && Expired(cache[k], sw) == expired then [k] else [])
  }

  /** `order` without the keys in `ks`. */
  function Without(order: seq<PacketKey>, ks: seq<PacketKey>): (r: seq<PacketKey>)
    ensures |r| <= |order|
  {
    if order == [] then []
    else
      var k := order[|order| - 1];
      Without(order[..|order| - 1], ks) + (if k in ks then [] else [k])
  }

  /** The cache entries whose expiry under the sweep is `expired`. */
  function Restrict(cache: map<PacketKey, CacheEntry>, sw: Sweep, expired: bool): (c: map<PacketKey, CacheEntry>)
    ensures forall k :: k in c <==> k in cache && Expired(cache[k], sw) == expired
    ensures forall k :: k in c ==> c[k] == cache[k]
  {
    map k | k in cache && Expired(cache[k], sw) == expired :: cache[k]
  }

  lemma {:induction false} SelectContents(order: seq<PacketKey>, cache: map<PacketKey, CacheEntry>, sw: Sweep, expired: bool)
    ensures forall k :: k in Select(order, cache, sw, expired) <==>
                          k in order && k in cache && Expired(cache[k], sw) == expired
    ensures Distinct(order) ==> Distinct(Select(order, cache, sw, expired))
  {
    if order != [] {
      var init := order[..|order| - 1];
      SelectContents(init, cache, sw, expired);
      assert order == init + [order[|order| - 1]];
      if Distinct(order) {
        assert Distinct(init);
      }
    }
  }

  lemma {:induction false} WithoutContents(order: seq<PacketKey>, ks: seq<PacketKey>)
    ensures forall k :: k in Without(order, ks) <==> k in order && k !in ks
    ensures Distinct(order) ==> Distinct(Without(order, ks))
  {
    if order != [] {
      var init := order[..|order| - 1];
      WithoutContents(init, ks);
      assert order == init + [order[|order| - 1]];
      if Distinct(order) {
        assert Distinct(init);
      }
    }
  }

  /** Removing keys one at a time removes them all. */
  lemma {:induction false} WithoutSnoc(order: seq<PacketKey>, ks: seq<PacketKey>, k: PacketKey)
    ensures Without(Without(order, ks), [k]) == Without(order, ks + [k])
  {
    if order != [] {
      var init := order[..|order| - 1];
      var last := order[|order| - 1];
      WithoutSnoc(init, ks, k);
      var w := Without(init, ks);
      assert last in ks + [k] <==> last in ks || last == k;
      if last in ks {
        assert Without(order, ks) == w + [] == w;
        assert Without(order, ks + [k]) == Without(init, ks + [k]) + [];
      } else {
        assert Without(order, ks) == w + [last];
        assert (w + [last])[..|w + [last]| - 1] == w;
        assert Without(w + [last], [k]) == Without(w, [k]) + (if last == k then [] else [last]);
      }
    }
  }

  lemma {:induction false} WithoutNothing(order: seq<PacketKey>)
    ensures Without(order, []) == order
  {
    if order != [] {
      WithoutNothing(order[..|order| - 1]);
      assert order == order[..|order| - 1] + [order[|order| - 1]];
    }
  }

  /** Removing the expired keys of an order leaves the unexpired ones. */
  lemma {:induction false} WithoutExpired(order: seq<PacketKey>, cache: map<PacketKey, CacheEntry>, sw: Sweep, ks: seq<PacketKey>)
    requires forall k :: k in order ==> k in cache
    requires forall k :: k in order ==> (k in ks <==> Expired(cache[k], sw))
    ensures Without(order, ks) == Select(order, cache, sw, false)
  {
    if order != [] {
      WithoutExpired(order[..|order| - 1], cache, sw, ks);
    }
  }

  /** The parses of the entries under the given keys. */
  function Parses(ks: seq<PacketKey>, cache: map<PacketKey, CacheEntry>): (ps: seq<ParsedPacket>)
    requires forall k :: k in ks ==> k in cache
    ensures |ps| == |ks| && forall i :: 0 <= i < |ks| ==> ps[i] == cache[ks[i]].parsed
  {
    seq(|ks|, i requires 0 <= i < |ks| => cache[ks[i]].parsed)
  }

  /** The login handler as process_cached_packets uses it: the packets sent
    * for the n-th request it handles, which reads the n-th value of
    * int(time.time()) and gets the n-th draw of random bytes. */
  function Handler(myHash: byte, clock: nat -> uint32, urandom: nat -> Random4, modem: ModemCalls): (ParsedPacket, nat) -> seq<seq<byte>>
  {
    (p: ParsedPacket, n: nat) => OptionToSeq(LoginResponse(myHash, p, clock(n), urandom(n), modem))
  }

  /** Everything the handler sends for the handled parses, in order. */
  function Responses(ps: seq<ParsedPacket>, handle: (ParsedPacket, nat) -> seq<seq<byte>>): (sent: seq<seq<byte>>)
  {
    if ps == [] then []
    else
      var n := |ps| - 1;
      Responses(ps[..n], handle) + handle(ps[n], n)
  }

  /** cache_packet on the dictionary: a new key is stored with the arrival
    * time; a known key keeps its first arrival time, and its parse is
    * replaced only by a copy with a strictly shorter path. */
  function CacheInsert(cache: map<PacketKey, CacheEntry>, order: seq<PacketKey>, parsed: ParsedPacket,
                       now: real, sha256: seq<byte> -> seq<byte>): (r: (map<PacketKey, CacheEntry>, seq<PacketKey>))
    ensures var key := GetPacketKey(parsed, sha256);
            && (key.None? ==> r == (cache, order))
            && (key.Some? ==> r.0.Keys == cache.Keys + {key.value}
                              && forall k :: k in cache && k != key.value ==> r.0[k] == cache[k])
            && (key.Some? && key.value in cache ==>
                  var prior := cache[key.value];
                  && r.1 == order
                  && r.0[key.value].arrival == prior.arrival
                  && r.0[key.value].pathLen == (if parsed.pathLen < prior.pathLen then parsed.pathLen else prior.pathLen)
                  && r.0[key.value].parsed == (if parsed.pathLen < prior.pathLen then parsed else prior.parsed))
            && (key.Some? && key.value !in cache ==>
                  r.1 == order + [key.value] && r.0[key.value] == CacheEntry(parsed, now, parsed.pathLen))
  {
    var packetKey := GetPacketKey(parsed, sha256);
    if packetKey.None? then (cache, order)
    else
      var key := packetKey.value;
      var pathLen: nat := parsed.pathLen;
      if key in cache then
        var cached := cache[key];
        if pathLen < cached.pathLen then (cache[key := CacheEntry(parsed, cached.arrival, pathLen)], order)
        else (cache, order)
      else (cache[key := CacheEntry(parsed, now, pathLen)], order + [key])
  }

  /** Two copies of one request: the cache keeps one entry, timed by the
    * first copy, holding the copy with the shorter path (the first on a tie). */
  lemma TwoCopiesKeepShorterPath(cache: map<PacketKey, CacheEntry>, order: seq<PacketKey>,
                                 first: ParsedPacket, second: ParsedPacket, t1: real, t2: real,
                                 sha256: seq<byte> -> seq<byte>)
    requires first.payloadType == second.payloadType && first.payload == second.payload
    requires GetPacketKey(first, sha256).Some? && GetPacketKey(first, sha256).value !in cache
    ensures var key := GetPacketKey(first, sha256).value;
            var after := CacheInsert(CacheInsert(cache, order, first, t1, sha256).0,
                                     CacheInsert(cache, order, first, t1, sha256).1, second, t2, sha256);
            && after.1 == order + [key]
            && after.0[key].arrival == t1
            && after.0[key].parsed == (if second.pathLen < first.pathLen then second else first)
  {
    KeyIgnoresRoute(first, second, sha256);
  }

  /** A sweep that drops entries more than five seconds old finds nothing in
    * a cache just cleared of entries three or more seconds old. */
  lemma CleanupAfterProcessFindsNothing(cache: map<PacketKey, CacheEntry>, now: real)
    ensures Restrict(Restrict(cache, DueAt(now), false), StaleAt(now), true) == map[]
  {
  }

  lemma SelectSnoc(order: seq<PacketKey>, i: nat, cache: map<PacketKey, CacheEntry>, sw: Sweep, expired: bool)
    requires i < |order|
    ensures Select(order[..i + 1], cache, sw, expired)
            == Select(order[..i], cache, sw, expired)
               + (if order[i] in cache && Expired(cache[order[i]], sw) == expired then [order[i]] else [])
  {
    assert order[..i + 1][..i] == order[..i];
  }

  lemma ParsesSnoc(ks: seq<PacketKey>, k: PacketKey, cache: map<PacketKey, CacheEntry>)
    requires k in cache && forall k' :: k' in ks ==> k' in cache
    ensures Parses(ks + [k], cache) == Parses(ks, cache) + [cache[k].parsed]
  {
  }

  lemma ResponsesSnoc(ps: seq<ParsedPacket>, p: ParsedPacket, handle: (ParsedPacket, nat) -> seq<seq<byte>>)
    ensures Responses(ps + [p], handle) == Responses(ps, handle) + handle(p, |ps|)
  {
    assert (ps + [p])[..|ps|] == ps;
  }

  function KeySet(ks: seq<PacketKey>): (r: set<PacketKey>)
    ensures forall k :: k in r <==> k in ks
  {
    set k | k in ks
  }

  /** One deletion of the loop in RemoveKeys. */
  lemma RemovalStep(cache: map<PacketKey, CacheEntry>, order: seq<PacketKey>, keys: seq<PacketKey>, j: nat)
    requires j < |keys|
    ensures (cache - KeySet(keys[..j])) - {keys[j]} == cache - KeySet(keys[..j + 1])
    ensures Without(Without(order, keys[..j]), [keys[j]]) == Without(order, keys[..j + 1])
  {
    assert keys[..j + 1] == keys[..j] + [keys[j]];
    WithoutSnoc(order, keys[..j], keys[j]);
  }

  /** What a sweep leaves of a well-formed cache: removing the expired keys
    * (distinct, all present) keeps exactly the unexpired entries, in order. */
  lemma SweepResult(order: seq<PacketKey>, cache: map<PacketKey, CacheEntry>, sw: Sweep)
    requires Distinct(order) && forall k :: k in cache <==> k in order
    ensures var ks := Select(order, cache, sw, true);
            && Distinct(ks) && (forall k :: k in ks ==> k in cache)
            && cache - KeySet(ks) == Restrict(cache, sw, false)
            && Without(order, ks) == Select(order, cache, sw, false)
    ensures Distinct(Select(order, cache, sw, false))
    ensures forall k :: k in Restrict(cache, sw, false) <==> k in Select(order, cache, sw, false)
  {
    var ks := Select(order, cache, sw, true);
    SelectContents(order, cache, sw, true);
    SelectContents(order, cache, sw, false);
    WithoutExpired(order, cache, sw, ks);
    assert cache - KeySet(ks) == Restrict(cache, sw, false);
  }

  // ----------------------------------------------------------------- server

  class SimpleRoomServer {
    const pubKey: seq<byte>
    const roomName: seq<byte>
    const myHash: byte
    var packetCache: map<PacketKey, CacheEntry>
    /** The insertion order of packetCache's keys. */
    var cacheOrder: seq<PacketKey>

    /** The order lists each cached key once. */
    ghost predicate Valid()
      reads this`packetCache, this`cacheOrder
    {
      && Distinct(cacheOrder)
      && (forall k :: k in packetCache <==> k in cacheOrder)
    }

    constructor(pubKey: seq<byte>, roomName: seq<byte>)
      requires |pubKey| == PUB_KEY_SIZE
      ensures this.pubKey == pubKey && this.roomName == roomName && myHash == pubKey[0]
      ensures packetCache == map[] && cacheOrder == [] && Valid()
    {
      this.pubKey := pubKey;
      this.roomName := roomName;
      this.myHash := pubKey[0];
      packetCache := map[];
      cacheOrder := [];
    }

    /** create_room_advert for this server's key and name; what it builds
      * reads back as this room. */
    function CreateRoomAdvert(timestamp: uint32, sign: seq<byte> -> Option<seq<byte>>): (r: Result<seq<byte>>)
      requires |pubKey| == PUB_KEY_SIZE
      ensures r.Success? ==>
                ParseAdvertPacket(r.value)
                == Some(Advert(pubKey, pubKey[0], timestamp, 0, RoomServer,
                               if roomName == [] then None else Some(RStripNul(roomName)), None))
    {
      var r := HostPackets.CreateRoomAdvert(pubKey, timestamp, roomName, sign);
      if r.Success? then
        RoomAdvertRoundTrip(pubKey, timestamp, roomName, sign);
        r
      else r
    }

    /** cache_packet. */
    method CachePacket(parsed: ParsedPacket, now: real, sha256: seq<byte> -> seq<byte>)
      requires Valid()
      modifies this`packetCache, this`cacheOrder
      ensures (packetCache, cacheOrder) == CacheInsert(old(packetCache), old(cacheOrder), parsed, now, sha256)
      ensures Valid()
    {
      var packetKey := GetPacketKey(parsed, sha256);
      if packetKey.None? {
        return;
      }
      var key := packetKey.value;
      var pathLen: nat := parsed.pathLen;
      if key in packetCache {
        var cached := packetCache[key];
        if pathLen < cached.pathLen {
          packetCache := packetCache[key := CacheEntry(parsed, cached.arrival, pathLen)];
        }
      } else {
        packetCache := packetCache[key := CacheEntry(parsed, now, pathLen)];
        cacheOrder := cacheOrder + [key];
      }
    }

    /** handle_packet: parse, and cache it if it is an anonymous request. */
    method HandlePacket(packet: seq<byte>, now: real, sha256: seq<byte> -> seq<byte>)
      requires Valid()
      modifies this`packetCache, this`cacheOrder
      ensures var parsed := ParsePacket(packet);
              if parsed.Some? && parsed.value.payloadType == PAYLOAD_TYPE_ANON_REQ
              then (packetCache, cacheOrder) == CacheInsert(old(packetCache), old(cacheOrder), parsed.value, now, sha256)
              else packetCache == old(packetCache) && cacheOrder == old(cacheOrder)
      ensures Valid()
    {
      var parsed := ParsePacket(packet);
      if parsed.Some? && parsed.value.payloadType == PAYLOAD_TYPE_ANON_REQ {
        CachePacket(parsed.value, now, sha256);
      }
    }

    /** process_cached_packets: every entry at least three seconds old is
      * handled once, in insertion order, and then removed. */
    method ProcessCachedPackets(now: real, clock: nat -> uint32, urandom: nat -> Random4, modem: ModemCalls)
      returns (handled: seq<ParsedPacket>, sent: seq<seq<byte>>)
      requires Valid()
      modifies this`packetCache, this`cacheOrder
      ensures var due := Select(old(cacheOrder), old(packetCache), DueAt(now), true);
              handled == Parses(due, old(packetCache))
      ensures sent == Responses(handled, Handler(myHash, clock, urandom, modem))
      ensures packetCache == Restrict(old(packetCache), DueAt(now), false)
      ensures cacheOrder == Select(old(cacheOrder), old(packetCache), DueAt(now), false)
      ensures Valid()
    {
      var keysToRemove;
      keysToRemove, handled, sent := HandleDue(now, Handler(myHash, clock, urandom, modem));
      SweepResult(cacheOrder, packetCache, DueAt(now));
      RemoveKeys(keysToRemove);
    }

    /** The first loop of process_cached_packets: each entry at least three
      * seconds old, in insertion order, goes to the login handler and its key
      * is noted for removal. */
    method HandleDue(now: real, handle: (ParsedPacket, nat) -> seq<seq<byte>>)
      returns (keysToRemove: seq<PacketKey>, handled: seq<ParsedPacket>, sent: seq<seq<byte>>)
      requires forall k :: k in cacheOrder ==> k in packetCache
      ensures keysToRemove == Select(cacheOrder, packetCache, DueAt(now), true)
      ensures handled == Parses(keysToRemove, packetCache)
      ensures sent == Responses(handled, handle)
    {
      keysToRemove := [];
      handled := [];
      sent := [];
      var i := 0;
      while i < |cacheOrder|
        invariant 0 <= i <= |cacheOrder|
        invariant keysToRemove == Select(cacheOrder[..i], packetCache, DueAt(now), true)
        invariant handled == Parses(keysToRemove, packetCache)
        invariant sent == Responses(handled, handle)
      {
        var key := cacheOrder[i];
        var entry := packetCache[key];
        SelectSnoc(cacheOrder, i, packetCache, DueAt(now), true);
        if now - entry.arrival >= DEDUP_WINDOW_SECONDS {
          var response := handle(entry.parsed, |handled|);
          ResponsesSnoc(handled, entry.parsed, handle);
          ParsesSnoc(keysToRemove, key, packetCache);
          sent := sent + response;
          handled := handled + [entry.parsed];
          keysToRemove := keysToRemove + [key];
        }
        i := i + 1;
      }
      assert cacheOrder[..i] == cacheOrder;
    }

    /** cleanup_old_cache_entries: entries more than five seconds old are
      * dropped unhandled. */
    method CleanupOldCacheEntries(now: real)
      requires Valid()
      modifies this`packetCache, this`cacheOrder
      ensures packetCache == Restrict(old(packetCache), StaleAt(now), false)
      ensures cacheOrder == Select(old(cacheOrder), old(packetCache), StaleAt(now), false)
      ensures Valid()
    {
      var keysToRemove := Select(cacheOrder, packetCache, StaleAt(now), true);
      SweepResult(cacheOrder, packetCache, StaleAt(now));
      RemoveKeys(keysToRemove);
    }

    /** The deletion loop: del self.packet_cache[key] for each key; every key
      * is present when it is deleted. */
    method RemoveKeys(keys: seq<PacketKey>)
      requires Distinct(keys) && forall k :: k in keys ==> k in packetCache
      modifies this`packetCache, this`cacheOrder
      ensures packetCache == old(packetCache) - KeySet(keys)
      ensures cacheOrder == Without(old(cacheOrder), keys)
    {
      WithoutNothing(cacheOrder);
      var j := 0;
      while j < |keys|
        invariant 0 <= j <= |keys|
        invariant packetCache == old(packetCache) - KeySet(keys[..j])
        invariant cacheOrder == Without(old(cacheOrder), keys[..j])
      {
        var key := keys[j];
        assert key in packetCache by {
          assert key !in keys[..j];
        }
        packetCache := packetCache - {key};
        cacheOrder := Without(cacheOrder, [key]);
        RemovalStep(old(packetCache), old(cacheOrder), keys, j);
        j := j + 1;
      }
      assert keys[..j] == keys;
    }
  }
}
