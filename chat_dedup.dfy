// The secure-chat node's duplicate filter: a ring of the last ten message
// hashes with their arrival times, shared by direct and channel messages.
// A message counts as a duplicate when some slot holds its hash and was
// written less than 300 seconds ago (uint32 difference); otherwise it is
// written at the ring index, which then advances, so slots are reused in
// FIFO order whether or not the old entry has expired.

module ChatDedup {
  import opened Bytes

  const RECENT_MSG_CACHE_SIZE: nat := 10
  const DEDUP_WINDOW_SECS: nat := 300

  /** RecentMessageEntry: a truncated SHA-256 of the message and its arrival time. */
  datatype RecentEntry = RecentEntry(hash: uint32, recvTime: uint32)

  /** The zero-filled ring the constructor starts from. */
  const EmptyRing: seq<RecentEntry> := seq(RECENT_MSG_CACHE_SIZE, _ => RecentEntry(0, 0))

  predicate Matches(e: RecentEntry, hash: uint32, now: uint32)
  {
    e.hash == hash && Sub32(now, e.recvTime) < DEDUP_WINDOW_SECS
  }

  /** Some slot of the ring makes the message with this hash a duplicate at now. */
  predicate IsRecent(ring: seq<RecentEntry>, hash: uint32, now: uint32)
  {
    exists i :: 0 <= i < |ring| && Matches(ring[i], hash, now)
  }

  ghost predicate RingShape(ring: seq<RecentEntry>, index: nat)
  {
    |ring| == RECENT_MSG_CACHE_SIZE && index < RECENT_MSG_CACHE_SIZE
  }

  /** The outcome of one check: whether the message is a duplicate, and the
    * ring and index afterwards. */
  function Check(ring: seq<RecentEntry>, index: nat, hash: uint32, now: uint32): (r: (bool, seq<RecentEntry>, nat))
    requires RingShape(ring, index)
    ensures RingShape(r.1, r.2)
    ensures r.0 <==> IsRecent(ring, hash, now)
    ensures r.0 ==> r.1 == ring && r.2 == index
    ensures !r.0 ==> (r.2 == (index + 1) % RECENT_MSG_CACHE_SIZE
                      && r.1[index] == RecentEntry(hash, now)
                      && (forall i :: 0 <= i < |ring| && i != index ==> r.1[i] == ring[i]))
  {
    if IsRecent(ring, hash, now) then (true, ring, index)
    else (false, ring[index := RecentEntry(hash, now)], (index + 1) % RECENT_MSG_CACHE_SIZE)
  }

  /** A repeat of a message that was just recorded as new is caught as long
    * as it arrives within the window. (A repeat that was itself a duplicate
    * does not refresh the stored arrival time.) */
  lemma RepeatWithinWindowDetected(ring: seq<RecentEntry>, index: nat, hash: uint32, now: uint32, later: uint32)
    requires RingShape(ring, index)
    requires !IsRecent(ring, hash, now)
    requires Sub32(later, now) < DEDUP_WINDOW_SECS
    ensures var r := Check(ring, index, hash, now);
            Check(r.1, r.2, hash, later).0
  {
    var r := Check(ring, index, hash, now);
    assert Matches(r.1[index], hash, later);
  }

  /** The ring after a sequence of messages that were all new. */
  function RecordAll(ring: seq<RecentEntry>, index: nat, arrivals: seq<RecentEntry>): (r: (seq<RecentEntry>, nat))
    requires RingShape(ring, index)
    ensures RingShape(r.0, r.1)
    decreases |arrivals|
  {
    if arrivals == [] then (ring, index)
    else
      RecordAll(ring[index := arrivals[0]], (index + 1) % RECENT_MSG_CACHE_SIZE, arrivals[1..])
  }

  /** How many new messages, written from index on, come before the one
    * that overwrites slot s. */
  function SlotsAhead(index: nat, s: nat): (k: nat)
    requires index < RECENT_MSG_CACHE_SIZE && s < RECENT_MSG_CACHE_SIZE
    ensures k < RECENT_MSG_CACHE_SIZE
  {
    if s >= index then s - index else s + RECENT_MSG_CACHE_SIZE - index
  }

  /** FIFO reuse: the next k new messages overwrite exactly the k slots
    * starting at the index, so every other slot survives them. */
  lemma {:induction false} RecordAllKeepsOtherSlots(ring: seq<RecentEntry>, index: nat, arrivals: seq<RecentEntry>, s: nat)
    requires RingShape(ring, index)
    requires s < RECENT_MSG_CACHE_SIZE
    requires SlotsAhead(index, s) >= |arrivals|
    ensures RecordAll(ring, index, arrivals).0[s] == ring[s]
    decreases |arrivals|
  {
    if arrivals != [] {
      var next := (index + 1) % RECENT_MSG_CACHE_SIZE;
      assert SlotsAhead(next, s) == SlotsAhead(index, s) - 1;
      RecordAllKeepsOtherSlots(ring[index := arrivals[0]], next, arrivals[1..], s);
    }
  }

  /** A recorded message stays in the ring through the next nine new messages. */
  lemma RecordedEntrySurvivesNine(ring: seq<RecentEntry>, index: nat, hash: uint32, now: uint32, arrivals: seq<RecentEntry>)
    requires RingShape(ring, index)
    requires !IsRecent(ring, hash, now)
    requires |arrivals| < RECENT_MSG_CACHE_SIZE
    ensures var r := Check(ring, index, hash, now);
            RecordAll(r.1, r.2, arrivals).0[index] == RecentEntry(hash, now)
  {
    var r := Check(ring, index, hash, now);
    assert SlotsAhead(r.2, index) == RECENT_MSG_CACHE_SIZE - 1;
    RecordAllKeepsOtherSlots(r.1, r.2, arrivals, index);
  }

  /** The bytes hashed for a direct message: the timestamp, the sender's
    * 32-byte public key, then the text. */
  function DirectHashInput(timestamp: uint32, senderPubKey: seq<byte>, text: seq<byte>): (input: seq<byte>)
    ensures |input| == 4 + |senderPubKey| + |text|
    ensures input[..4] == LE32(timestamp) && input[4 + |senderPubKey|..] == text
  {
    LE32(timestamp) + senderPubKey + text
  }

  /** The bytes hashed for a channel message: the timestamp, the first two
    * bytes of the channel hash, then the text. */
  function ChannelHashInput(timestamp: uint32, channelHash: seq<byte>, text: seq<byte>): (input: seq<byte>)
    requires |channelHash| >= 2
    ensures |input| == 6 + |text|
    ensures input[..4] == LE32(timestamp) && input[4..6] == channelHash[..2] && input[6..] == text
  {
    LE32(timestamp) + channelHash[..2] + text
  }
}
