// Contact numbering in the secure-chat node: cmdList and resolveContact
// collect (table index, last advert timestamp) pairs, order them newest
// first with an exchange sort, and number them from 1. The contact table is
// the mesh library's; here it is the sequence of stored contacts, which
// getContactByIdx returns by position.

module ChatContacts {
  import opened Bytes
  import opened ChatSend
  import opened ChatText

  const MAX_CONTACTS: nat := 100

  /** The local ContactEntry: a table index and that contact's timestamp. */
  datatype ContactEntry = ContactEntry(idx: nat, timestamp: uint32)

  /** Newest first: timestamps never increase along the ranking. */
  ghost predicate NewestFirst(s: seq<ContactEntry>)
  {
    forall i, j :: 0 <= i < j < |s| ==> s[i].timestamp >= s[j].timestamp
  }

  /** The collection loop: one entry per stored contact, in table order. */
  function Collect(table: seq<Contact>): (entries: seq<ContactEntry>)
    ensures |entries| == if |table| < MAX_CONTACTS then |table| else MAX_CONTACTS
    ensures forall i :: 0 <= i < |entries| ==>
              entries[i] == ContactEntry(i, table[i].lastAdvertTimestamp)
  {
    var n := if |table| < MAX_CONTACTS then |table| else MAX_CONTACTS;
    seq(n, i requires 0 <= i < n => ContactEntry(i, table[i].lastAdvertTimestamp))
  }

  /** The first entry of a newest-first ranking is at least as recent as every contact. */
  lemma RankingStartsWithNewest(ranking: seq<ContactEntry>, entries: seq<ContactEntry>)
    requires NewestFirst(ranking) && multiset(ranking) == multiset(entries) && ranking != []
    ensures forall e :: e in entries ==> ranking[0].timestamp >= e.timestamp
  {
    forall e | e in entries
      ensures ranking[0].timestamp >= e.timestamp
    {
      assert e in multiset(ranking);
      var j :| 0 <= j < |ranking| && ranking[j] == e;
      if j > 0 {
        assert ranking[0].timestamp >= ranking[j].timestamp;
      }
    }
  }

  /** The first i entries are in place: each at least as new as every entry
    * after it. */
  ghost predicate Placed(s: seq<ContactEntry>, i: nat)
  {
    forall k, l :: 0 <= k < l < |s| && k < i ==> s[k].timestamp >= s[l].timestamp
  }

  /** The inner loop of the exchange sort for position i, from j on: each later
    * entry newer than the one at i is exchanged with it. */
  function SelectFrom(s: seq<ContactEntry>, i: nat, j: nat): (r: seq<ContactEntry>)
    requires i < j <= |s|
    ensures |r| == |s|
    decreases |s| - j
  {
    if j == |s| then s
    else SelectFrom(if s[j].timestamp > s[i].timestamp then s[i := s[j]][j := s[i]] else s, i, j + 1)
  }

  /** The outer loop of the exchange sort, from position i on. */
  function SortFrom(s: seq<ContactEntry>, i: nat): (r: seq<ContactEntry>)
    requires i <= |s|
    ensures |r| == |s|
    decreases |s| - i
  {
    if i + 1 < |s| then SortFrom(SelectFrom(s, i, i + 1), i + 1) else s
  }

  /** The exchange sort of cmdList and resolveContact, which both number the
    * contacts by its result. */
  function ExchangeSort(s: seq<ContactEntry>): (r: seq<ContactEntry>)
    ensures |r| == |s|
  {
    SortFrom(s, 0)
  }

  /** The newest-first numbering of a contact table. */
  function Ranking(table: seq<Contact>): (r: seq<ContactEntry>)
    ensures |r| == |Collect(table)|
  {
    ExchangeSort(Collect(table))
  }

  /** Exchanging i with a later j keeps the entries before i placed and
    * loses nothing. */
  lemma ExchangeKeepsPlaced(s: seq<ContactEntry>, i: nat, j: nat)
    requires i < j < |s| && Placed(s, i)
    ensures Placed(s[i := s[j]][j := s[i]], i)
    ensures multiset(s[i := s[j]][j := s[i]]) == multiset(s)
  {
    var next := s[i := s[j]][j := s[i]];
    forall k, l | 0 <= k < l < |next| && k < i
      ensures next[k].timestamp >= next[l].timestamp
    {
      assert next[k] == s[k];
      assert next[l] == s[l] || next[l] == s[i] || next[l] == s[j];
    }
  }

  /** The inner loop places entry i: it ends up at least as new as every later
    * entry, the entries before it stay placed, and nothing is lost. */
  lemma {:induction false} SelectFromPlaces(s: seq<ContactEntry>, i: nat, j: nat)
    requires i < j <= |s| && Placed(s, i)
    requires forall l :: i < l < j ==> s[i].timestamp >= s[l].timestamp
    ensures Placed(SelectFrom(s, i, j), i + 1)
    ensures multiset(SelectFrom(s, i, j)) == multiset(s)
    decreases |s| - j
  {
    if j == |s| {
      assert Placed(s, i + 1);
    } else if s[j].timestamp > s[i].timestamp {
      ExchangeKeepsPlaced(s, i, j);
      SelectFromPlaces(s[i := s[j]][j := s[i]], i, j + 1);
    } else {
      SelectFromPlaces(s, i, j + 1);
    }
  }

  lemma {:induction false} SortFromRanks(s: seq<ContactEntry>, i: nat)
    requires i <= |s| && Placed(s, i)
    ensures NewestFirst(SortFrom(s, i)) && multiset(SortFrom(s, i)) == multiset(s)
    decreases |s| - i
  {
    if i + 1 < |s| {
      SelectFromPlaces(s, i, i + 1);
      SortFromRanks(SelectFrom(s, i, i + 1), i + 1);
    }
  }

  /** The exchange sort orders the entries newest first and is a permutation
    * of them. */
  lemma ExchangeSortRanks(s: seq<ContactEntry>)
    ensures NewestFirst(ExchangeSort(s)) && multiset(ExchangeSort(s)) == multiset(s)
  {
    SortFromRanks(s, 0);
  }

  /** The exchange sort in place on a[..n]. */
  method SortNewestFirst(a: array<ContactEntry>, n: nat)
    requires n <= a.Length
    modifies a
    ensures a[..n] == ExchangeSort(old(a[..n]))
    ensures NewestFirst(a[..n]) && multiset(a[..n]) == multiset(old(a[..n]))
    ensures a[n..] == old(a[n..])
  {
    var i := 0;
    while i + 1 < n
      invariant 0 <= i <= n
      invariant SortFrom(a[..n], i) == ExchangeSort(old(a[..n])) && a[n..] == old(a[n..])
    {
      SelectNewest(a, n, i);
      i := i + 1;
    }
    ExchangeSortRanks(old(a[..n]));
  }

  /** The inner loop for position i. */
  method SelectNewest(a: array<ContactEntry>, n: nat, i: nat)
    requires i + 1 < n <= a.Length
    modifies a
    ensures a[..n] == SelectFrom(old(a[..n]), i, i + 1) && a[n..] == old(a[n..])
  {
    var j := i + 1;
    while j < n
      invariant i + 1 <= j <= n
      invariant SelectFrom(a[..n], i, j) == SelectFrom(old(a[..n]), i, i + 1)
      invariant a[n..] == old(a[n..])
    {
      ghost var before := a[..];
      if a[j].timestamp > a[i].timestamp {
        Swap(a, i, j);
        assert a[..n] == before[..n][i := before[j]][j := before[i]];
        assert a[n..] == before[n..];
      }
      j := j + 1;
    }
  }

  /** Exchanges a[i] and a[j]. */
  method Swap(a: array<ContactEntry>, i: nat, j: nat)
    requires i < j < a.Length
    modifies a
    ensures a[..] == old(a[..])[i := old(a[j])][j := old(a[i])]
  {
    a[i], a[j] := a[j], a[i];
  }

  /** How resolveContact resolves its argument. */
  datatype Resolution =
    | ByRank(tableIndex: nat)   // the contact numbered by the argument
    | NoSuchRank                // a number outside 1..count
    | ByName(prefix: string)    // handed to searchContactsByPrefix

  /** resolveContact given the newest-first ranking: an argument of digits
    * (the empty one included) numbers a ranked contact from 1; any other
    * argument is a name prefix. */
  function Resolve(arg: string, ranking: seq<ContactEntry>): (r: Resolution)
    ensures !AllDigits(arg) ==> r == ByName(arg)
    ensures AllDigits(arg) ==> (r.ByRank? <==> 1 <= DecimalValue(arg) <= |ranking|)
    ensures AllDigits(arg) && !r.ByRank? ==> r == NoSuchRank
    ensures r.ByRank? ==> r.tableIndex == ranking[DecimalValue(arg) - 1].idx
  {
    if !AllDigits(arg) then ByName(arg)
    else
      var index := DecimalValue(arg) - 1;
      if 0 <= index < |ranking| then ByRank(ranking[index].idx) else NoSuchRank
  }

  /** How many entries cmdList shows for its argument n. */
  function DisplayCount(n: int, count: nat): (d: nat)
    ensures d <= count
    ensures 0 < n < count ==> d == n
    ensures !(0 < n < count) ==> d == count
  {
    if n > 0 && n < count then n else count
  }
}
