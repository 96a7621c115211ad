// The secure-chat node's message history: a ten-slot ring written at
// history_index, with history_count saturating at ten. cmdHistory lists the
// stored entries oldest first. The lemmas show that the ring always holds
// exactly the last min(n, 10) of the n messages added, in the order the
// listing visits them.

module ChatHistory {
  import opened Bytes

  const MAX_MESSAGE_HISTORY: nat := 10
  const NAME_FIELD_SIZE: nat := 32
  const MAX_TEXT_LEN: nat := 160

  const ROUTING_DIRECT: uint8 := 0
  const ROUTING_FLOOD: uint8 := 1
  const ROUTING_PUBLIC: uint8 := 2

  /** MessageHistoryEntry. */
  datatype HistoryEntry = HistoryEntry(fromName: seq<byte>, text: seq<byte>, timestamp: uint32, routingType: uint8)

  const BlankEntry: HistoryEntry := HistoryEntry([], [], 0, 0)

  /** A copy into a char field of the given size: at most size - 1 bytes
    * survive, the last one being the terminator. */
  function CopyToField(s: seq<byte>, size: nat): (r: seq<byte>)
    requires size > 0
    ensures |r| <= size - 1 && |r| <= |s| && r == s[..|r|]
    ensures |s| <= size - 1 ==> r == s
  {
    if |s| <= size - 1 then s else s[..size - 1]
  }

  /** The entry addMessageToHistory stores for its arguments. */
  function MakeEntry(from: seq<byte>, text: seq<byte>, timestamp: uint32, routingType: uint8): (e: HistoryEntry)
    ensures |e.fromName| < NAME_FIELD_SIZE && |e.text| <= MAX_TEXT_LEN
    ensures e.timestamp == timestamp && e.routingType == routingType
  {
    HistoryEntry(CopyToField(from, NAME_FIELD_SIZE), CopyToField(text, MAX_TEXT_LEN + 1), timestamp, routingType)
  }

  /** message_history with history_index and history_count. */
  datatype Ring = Ring(slots: seq<HistoryEntry>, index: nat, count: nat)

  const EmptyRing: Ring := Ring(seq(MAX_MESSAGE_HISTORY, _ => BlankEntry), 0, 0)

  /** addMessageToHistory on the ring. */
  function Add(r: Ring, e: HistoryEntry): (r': Ring)
    requires |r.slots| == MAX_MESSAGE_HISTORY && r.index < MAX_MESSAGE_HISTORY
    ensures |r'.slots| == MAX_MESSAGE_HISTORY && r'.index < MAX_MESSAGE_HISTORY
  {
    Ring(r.slots[r.index := e], (r.index + 1) % MAX_MESSAGE_HISTORY,
         if r.count < MAX_MESSAGE_HISTORY then r.count + 1 else r.count)
  }

  /** Where cmdHistory starts: slot 0 while the ring is filling, the write
    * index (the oldest slot) once it is full. */
  function Start(r: Ring): nat
  {
    if r.index >= r.count then 0 else r.index
  }

  /** The entries in the order cmdHistory visits them. */
  function Listing(r: Ring): (l: seq<HistoryEntry>)
    requires |r.slots| == MAX_MESSAGE_HISTORY && r.count <= MAX_MESSAGE_HISTORY
    ensures |l| == r.count
  {
    seq(r.count, i requires 0 <= i < r.count => r.slots[(Start(r) + i) % MAX_MESSAGE_HISTORY])
  }

  /** The last min(n, |log|) elements of log, oldest first. */
  function Last<T>(log: seq<T>, n: nat): (l: seq<T>)
    ensures |l| == if |log| < n then |log| else n
  {
    if |log| < n then log else log[|log| - n..]
  }

  /** The ring holds the tail of the log of everything added: the count is
    * min(|log|, 10), the index is |log| mod 10, and the listing is that tail. */
  ghost predicate Holds(r: Ring, log: seq<HistoryEntry>)
  {
    && |r.slots| == MAX_MESSAGE_HISTORY
    && r.count == (if |log| < MAX_MESSAGE_HISTORY then |log| else MAX_MESSAGE_HISTORY)
    && r.index == |log| % MAX_MESSAGE_HISTORY
    && Listing(r) == Last(log, MAX_MESSAGE_HISTORY)
  }

  lemma EmptyRingHolds()
    ensures Holds(EmptyRing, [])
  {
  }

  /** Adding an entry keeps the ring equal to the tail of the log. */
  lemma AddKeepsTail(r: Ring, log: seq<HistoryEntry>, e: HistoryEntry)
    requires Holds(r, log)
    ensures Holds(Add(r, e), log + [e])
  {
    if |log| < MAX_MESSAGE_HISTORY {
      AddWhileFilling(r, log, e);
    } else {
      AddWhenFull(r, log, e);
    }
  }

  lemma {:induction false} AddWhileFilling(r: Ring, log: seq<HistoryEntry>, e: HistoryEntry)
    requires Holds(r, log) && |log| < MAX_MESSAGE_HISTORY
    ensures Holds(Add(r, e), log + [e])
  {
    var r' := Add(r, e);
    assert r.index == r.count == |log|;
    ListingFromZero(r);
    ListingFromZero(r');
    assert r'.slots[..r'.count] == r.slots[..r.count] + [e];
  }

  /** A ring that starts at slot 0 lists its first count slots in order. */
  lemma ListingFromZero(r: Ring)
    requires |r.slots| == MAX_MESSAGE_HISTORY && r.count <= MAX_MESSAGE_HISTORY && Start(r) == 0
    ensures Listing(r) == r.slots[..r.count]
  {
  }

  lemma {:induction false} AddWhenFull(r: Ring, log: seq<HistoryEntry>, e: HistoryEntry)
    requires Holds(r, log) && |log| >= MAX_MESSAGE_HISTORY
    ensures Holds(Add(r, e), log + [e])
  {
    var r' := Add(r, e);
    var got := Listing(r');
    var want := Last(log + [e], MAX_MESSAGE_HISTORY);
    assert (|log| + 1) % MAX_MESSAGE_HISTORY == (|log| % MAX_MESSAGE_HISTORY + 1) % MAX_MESSAGE_HISTORY;
    assert Start(r) == r.index && Start(r') == r'.index;
    forall i | 0 <= i < MAX_MESSAGE_HISTORY
      ensures got[i] == want[i]
    {
      var slot := (r'.index + i) % MAX_MESSAGE_HISTORY;
      if i < MAX_MESSAGE_HISTORY - 1 {
        NextSlot(r.index, i);
        assert got[i] == r.slots[slot] == Listing(r)[i + 1];
      } else {
        NextSlot(r.index, i);
      }
    }
  }

  /** Slot arithmetic of the full ring: after the write at a, listing position
    * i is old listing position i + 1, and only the last position is slot a. */
  lemma NextSlot(a: nat, i: nat)
    requires a < MAX_MESSAGE_HISTORY && i < MAX_MESSAGE_HISTORY
    ensures ((a + 1) % MAX_MESSAGE_HISTORY + i) % MAX_MESSAGE_HISTORY == (a + (i + 1)) % MAX_MESSAGE_HISTORY
    ensures ((a + 1) % MAX_MESSAGE_HISTORY + i) % MAX_MESSAGE_HISTORY == a <==> i == MAX_MESSAGE_HISTORY - 1
  {
  }

  /** Whatever sequence of messages is added, the listing shows the last ten
    * (or all of them, when fewer), oldest first. */
  lemma {:induction false} ListingIsLastTen(entries: seq<HistoryEntry>)
    ensures Holds(AddAll(EmptyRing, entries), entries)
    ensures Listing(AddAll(EmptyRing, entries)) == Last(entries, MAX_MESSAGE_HISTORY)
    decreases |entries|
  {
    if entries == [] {
      EmptyRingHolds();
    } else {
      var init := entries[..|entries| - 1];
      ListingIsLastTen(init);
      AddAllSnoc(EmptyRing, init, entries[|entries| - 1]);
      AddKeepsTail(AddAll(EmptyRing, init), init, entries[|entries| - 1]);
      assert init + [entries[|entries| - 1]] == entries;
    }
  }

  function AddAll(r: Ring, entries: seq<HistoryEntry>): (r': Ring)
    requires |r.slots| == MAX_MESSAGE_HISTORY && r.index < MAX_MESSAGE_HISTORY
    ensures |r'.slots| == MAX_MESSAGE_HISTORY && r'.index < MAX_MESSAGE_HISTORY
    decreases |entries|
  {
    if entries == [] then r else AddAll(Add(r, entries[0]), entries[1..])
  }

  lemma {:induction false} AddAllSnoc(r: Ring, entries: seq<HistoryEntry>, e: HistoryEntry)
    requires |r.slots| == MAX_MESSAGE_HISTORY && r.index < MAX_MESSAGE_HISTORY
    ensures AddAll(r, entries + [e]) == Add(AddAll(r, entries), e)
    decreases |entries|
  {
    if entries == [] {
      assert entries + [e] == [e];
      assert [e][1..] == [];
    } else {
      assert (entries + [e])[0] == entries[0] && (entries + [e])[1..] == entries[1..] + [e];
      AddAllSnoc(Add(r, entries[0]), entries[1..], e);
    }
  }
}
