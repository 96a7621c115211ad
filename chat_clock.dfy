// Clock handling in the secure-chat node: the explicit setClock request and
// the automatic consensus over timestamps seen in received packets. Samples
// go into a five-slot window; once three have arrived the median of the
// window becomes the clock, but only when it is more than ten seconds ahead.
// The real-time clock itself is outside the model: the current time is an
// input and a clock update is an output.

module ChatClock {
  import opened Bytes

  const MIN_REASONABLE_TIMESTAMP: nat := 1600000000
  const MAX_REASONABLE_TIMESTAMP: nat := 4102444800
  const TIME_SAMPLE_SIZE: nat := 5
  const MAX_SAMPLE_LAG_SECS: nat := 3600
  const MIN_SYNC_STEP_SECS: nat := 10
  const MIN_CONSENSUS_SAMPLES: nat := 3

  /** setClock: the time the clock is set to, or None when the request is
    * rejected (out of the plausible range, or not ahead of the clock). */
  function SetClock(timestamp: uint32, curr: uint32): (r: Option<uint32>)
    ensures r.Some? <==> MIN_REASONABLE_TIMESTAMP <= timestamp <= MAX_REASONABLE_TIMESTAMP && timestamp > curr
    ensures r.Some? ==> r.value == timestamp && r.value > curr
  {
    if timestamp > MAX_REASONABLE_TIMESTAMP then None
    else if timestamp < MIN_REASONABLE_TIMESTAMP then None
    else if timestamp > curr then Some(timestamp)
    else None
  }

  // ----- ordering of samples -----

  predicate Sorted(s: seq<uint32>)
  {
    forall i, j :: 0 <= i < j < |s| ==> s[i] <= s[j]
  }

  lemma SortedCons(a: uint32, r: seq<uint32>)
    requires Sorted(r) && (r == [] || a <= r[0])
    ensures Sorted([a] + r)
  {
    forall i, j | 0 <= i < j < |[a] + r|
      ensures ([a] + r)[i] <= ([a] + r)[j]
    {
      if i > 0 {
        assert ([a] + r)[i] == r[i - 1] && ([a] + r)[j] == r[j - 1];
      } else {
        assert ([a] + r)[j] == r[j - 1];
      }
    }
  }

  function Insert(x: uint32, s: seq<uint32>): (r: seq<uint32>)
    ensures multiset(r) == multiset(s) + multiset{x} && |r| == |s| + 1
    ensures r[0] == x || (s != [] && r[0] == s[0])
  {
    if s == [] then [x]
    else if x <= s[0] then [x] + s
    else
      assert s == [s[0]] + s[1..];
      [s[0]] + Insert(x, s[1..])
  }

  lemma {:induction false} InsertSorted(x: uint32, s: seq<uint32>)
    requires Sorted(s)
    ensures Sorted(Insert(x, s))
    decreases |s|
  {
    if s == [] {
    } else if x <= s[0] {
      SortedCons(x, s);
    } else {
      InsertSorted(x, s[1..]);
      SortedCons(s[0], Insert(x, s[1..]));
    }
  }

  /** A reference sort (insertion sort), independent of the bubble sort the
    * node runs. */
  function SortedCopy(s: seq<uint32>): (r: seq<uint32>)
    ensures Sorted(r) && multiset(r) == multiset(s) && |r| == |s|
  {
    if s == [] then []
    else
      assert s == [s[0]] + s[1..];
      InsertSorted(s[0], SortedCopy(s[1..]));
      Insert(s[0], SortedCopy(s[1..]))
  }

  /** A sorted arrangement of a multiset is unique. */
  lemma {:induction false} SortedUnique(a: seq<uint32>, b: seq<uint32>)
    requires Sorted(a) && Sorted(b) && multiset(a) == multiset(b)
    ensures a == b
    decreases |a|
  {
    assert |a| == |multiset(a)| == |multiset(b)| == |b|;
    if a != [] {
      assert b[0] in multiset(b) && a[0] in multiset(a);
      HeadIsLeast(a, b[0]);
      HeadIsLeast(b, a[0]);
      SameTails(a, b);
      SortedTail(a);
      SortedTail(b);
      SortedUnique(a[1..], b[1..]);
      assert a == [a[0]] + a[1..] && b == [b[0]] + b[1..];
    }
  }

  lemma HeadIsLeast(a: seq<uint32>, x: uint32)
    requires Sorted(a) && x in multiset(a)
    ensures a[0] <= x
  {
    var j :| 0 <= j < |a| && a[j] == x;
    if j > 0 { assert a[0] <= a[j]; }
  }

  lemma SameTails(a: seq<uint32>, b: seq<uint32>)
    requires a != [] && b != [] && a[0] == b[0] && multiset(a) == multiset(b)
    ensures multiset(a[1..]) == multiset(b[1..])
  {
    assert a == [a[0]] + a[1..] && b == [b[0]] + b[1..];
    assert multiset(a[1..]) == multiset(a) - multiset{a[0]};
    assert multiset(b[1..]) == multiset(b) - multiset{b[0]};
  }

  lemma SortedTail(a: seq<uint32>)
    requires Sorted(a) && a != []
    ensures Sorted(a[1..])
  {
    forall i, j | 0 <= i < j < |a[1..]|
      ensures a[1..][i] <= a[1..][j]
    {
      assert a[1..][i] == a[i + 1] && a[1..][j] == a[j + 1];
    }
  }

  /** The median the node takes: element n/2 of the sorted window. */
  function Median(s: seq<uint32>): (m: uint32)
    requires |s| > 0
    ensures m in multiset(s)
  {
    var r := SortedCopy(s);
    assert r[|s| / 2] in multiset(r);
    r[|s| / 2]
  }

  /** How many samples exceed t. */
  function CountAbove(s: seq<uint32>, t: int): (c: nat)
    ensures c <= |s|
  {
    if s == [] then 0 else (if s[0] > t then 1 else 0) + CountAbove(s[1..], t)
  }

  lemma {:induction false} CountAboveConcat(u: seq<uint32>, v: seq<uint32>, t: int)
    ensures CountAbove(u + v, t) == CountAbove(u, t) + CountAbove(v, t)
    decreases |u|
  {
    if u != [] {
      assert (u + v)[0] == u[0] && (u + v)[1..] == u[1..] + v;
      CountAboveConcat(u[1..], v, t);
    } else {
      assert u + v == v;
    }
  }

  /** The count depends only on the multiset of samples. */
  lemma {:induction false} CountAbovePermutation(a: seq<uint32>, b: seq<uint32>, t: int)
    requires multiset(a) == multiset(b)
    ensures CountAbove(a, t) == CountAbove(b, t)
    decreases |a|
  {
    if a == [] {
      assert |b| == |multiset(b)| == 0;
    } else {
      var x := a[0];
      assert x in multiset(b);
      var k :| 0 <= k < |b| && b[k] == x;
      var rest := b[..k] + b[k + 1..];
      assert b == b[..k] + [x] + b[k + 1..];
      assert a == [x] + a[1..];
      assert multiset(a[1..]) == multiset(a) - multiset{x};
      assert multiset(b) == multiset(b[..k]) + multiset{x} + multiset(b[k + 1..]);
      assert multiset(rest) == multiset(b[..k]) + multiset(b[k + 1..]);
      assert multiset(rest) == multiset(b) - multiset{x};
      CountAbovePermutation(a[1..], rest, t);
      CountAboveConcat(b[..k] + [x], b[k + 1..], t);
      CountAboveConcat(b[..k], [x], t);
      CountAboveConcat(b[..k], b[k + 1..], t);
    }
  }

  /** In a sorted sequence whose element m exceeds t, so do all after it. */
  lemma {:induction false} SortedSuffixAbove(r: seq<uint32>, m: nat, t: int)
    requires Sorted(r) && m < |r| && r[m] > t
    ensures CountAbove(r, t) >= |r| - m
    decreases |r|
  {
    if m > 0 {
      assert r == [r[0]] + r[1..];
      SortedSuffixAbove(r[1..], m - 1, t);
    } else {
      AllAbove(r, t);
    }
  }

  lemma {:induction false} AllAbove(r: seq<uint32>, t: int)
    requires forall i :: 0 <= i < |r| ==> r[i] > t
    ensures CountAbove(r, t) == |r|
    decreases |r|
  {
    if r != [] {
      AllAbove(r[1..], t);
    }
  }

  /** The median exceeds t only when at least half the samples (rounded up)
    * do: one outlier among three cannot move the clock. */
  lemma MedianNeedsMajority(s: seq<uint32>, t: int)
    requires |s| > 0 && Median(s) > t
    ensures CountAbove(s, t) >= |s| - |s| / 2
  {
    var r := SortedCopy(s);
    SortedSuffixAbove(r, |s| / 2, t);
    CountAbovePermutation(r, s, t);
  }

  // ----- the consensus window -----

  /** time_samples and the uint8 time_sample_count. */
  datatype SyncWindow = SyncWindow(samples: seq<uint32>, count: uint8)

  const InitialWindow: SyncWindow := SyncWindow(seq(TIME_SAMPLE_SIZE, _ => 0), 0)

  /** The slots the median is taken over: the first min(count, 5). */
  function Recent(w: SyncWindow): (r: seq<uint32>)
    requires |w.samples| == TIME_SAMPLE_SIZE
    ensures |r| == if w.count < TIME_SAMPLE_SIZE then w.count as nat else TIME_SAMPLE_SIZE
  {
    w.samples[..if w.count < TIME_SAMPLE_SIZE then w.count as nat else TIME_SAMPLE_SIZE]
  }

  predicate Plausible(senderTime: uint32, ourTime: uint32)
  {
    MIN_REASONABLE_TIMESTAMP <= senderTime <= MAX_REASONABLE_TIMESTAMP
    && Add32(senderTime, MAX_SAMPLE_LAG_SECS) >= ourTime
  }

  /** The uint8 time_sample_count after ++. */
  function NextCount(c: uint8): (r: uint8)
    ensures c < 0xFF ==> r == c + 1
    ensures c == 0xFF ==> r == 0
  {
    if c == 0xFF then 0 else c + 1
  }

  /** The window with a sample written at slot count % 5 and the count advanced. */
  function Accept(w: SyncWindow, senderTime: uint32): (r: SyncWindow)
    requires |w.samples| == TIME_SAMPLE_SIZE
    ensures |r.samples| == TIME_SAMPLE_SIZE && r.count == NextCount(w.count)
    ensures r.samples[w.count as nat % TIME_SAMPLE_SIZE] == senderTime
    ensures forall i :: 0 <= i < TIME_SAMPLE_SIZE && i != w.count as nat % TIME_SAMPLE_SIZE ==>
              r.samples[i] == w.samples[i]
  {
    SyncWindow(w.samples[w.count as nat % TIME_SAMPLE_SIZE := senderTime], NextCount(w.count))
  }

  /** autoSyncTime: the window afterwards and the time the clock is set to, if any. */
  function AutoSync(w: SyncWindow, senderTime: uint32, ourTime: uint32): (r: (SyncWindow, Option<uint32>))
    requires |w.samples| == TIME_SAMPLE_SIZE
    ensures |r.0.samples| == TIME_SAMPLE_SIZE
    ensures !Plausible(senderTime, ourTime) ==> r == (w, None)
    ensures Plausible(senderTime, ourTime) ==>
      r.0.samples == Accept(w, senderTime).samples
    ensures r.1.Some? ==> r.0.count == 0
    ensures r.1.Some? <==>
              Plausible(senderTime, ourTime) && Accept(w, senderTime).count >= MIN_CONSENSUS_SAMPLES
              && Median(Recent(Accept(w, senderTime))) > Add32(ourTime, MIN_SYNC_STEP_SECS)
    ensures r.1.Some? ==> r.1.value == Median(Recent(Accept(w, senderTime)))
    ensures Plausible(senderTime, ourTime) && r.1.None? ==> r.0 == Accept(w, senderTime)
  {
    if senderTime < MIN_REASONABLE_TIMESTAMP || senderTime > MAX_REASONABLE_TIMESTAMP then (w, None)
    else if Add32(senderTime, MAX_SAMPLE_LAG_SECS) < ourTime then (w, None)
    else
      var added := Accept(w, senderTime);
      if added.count < MIN_CONSENSUS_SAMPLES then (added, None)
      else
        var median := Median(Recent(added));
        if median > Add32(ourTime, MIN_SYNC_STEP_SECS) then (added.(count := 0), Some(median))
        else (added, None)
  }

  /** The consensus only ever moves the clock forward, by more than ten
    * seconds: an accepted sample bounds the current time, so ourTime + 10
    * cannot wrap. */
  lemma AutoSyncForwardOnly(w: SyncWindow, senderTime: uint32, ourTime: uint32)
    requires |w.samples| == TIME_SAMPLE_SIZE
    ensures var r := AutoSync(w, senderTime, ourTime);
            r.1.Some? ==> r.1.value > ourTime + MIN_SYNC_STEP_SECS
  {
    var r := AutoSync(w, senderTime, ourTime);
    if r.1.Some? {
      assert senderTime + MAX_SAMPLE_LAG_SECS < UINT32_MODULUS;
      assert ourTime + MIN_SYNC_STEP_SECS < UINT32_MODULUS;
    }
  }

  /** A clock change needs at least three samples in the window, a majority
    * of which are ahead of the clock by more than ten seconds, and takes one
    * of those sample values. */
  lemma AutoSyncConsensus(w: SyncWindow, senderTime: uint32, ourTime: uint32)
    requires |w.samples| == TIME_SAMPLE_SIZE
    ensures var r := AutoSync(w, senderTime, ourTime);
            var added := Accept(w, senderTime);
            r.1.Some? ==>
              && |Recent(added)| >= MIN_CONSENSUS_SAMPLES
              && r.1.value in multiset(Recent(added))
              && CountAbove(Recent(added), ourTime + MIN_SYNC_STEP_SECS)
                   >= |Recent(added)| - |Recent(added)| / 2
  {
    var r := AutoSync(w, senderTime, ourTime);
    if r.1.Some? {
      AutoSyncForwardOnly(w, senderTime, ourTime);
      var added := Accept(w, senderTime);
      assert r.1.value == Median(Recent(added));
      MedianNeedsMajority(Recent(added), ourTime + MIN_SYNC_STEP_SECS);
    }
  }

  /** Three agreeing senders at least eleven seconds ahead, starting from an
    * empty window, move the clock to their time. */
  lemma ThreeAgreeingSamplesSync(t: uint32, ourTime: uint32)
    requires MIN_REASONABLE_TIMESTAMP <= t <= MAX_REASONABLE_TIMESTAMP
    requires ourTime + MIN_SYNC_STEP_SECS < t
    ensures var r1 := AutoSync(InitialWindow, t, ourTime);
            var r2 := AutoSync(r1.0, t, ourTime);
            var r3 := AutoSync(r2.0, t, ourTime);
            r1.1 == None && r2.1 == None && r3.1 == Some(t) && r3.0.count == 0
  {
    var r1 := AutoSync(InitialWindow, t, ourTime);
    AutoSyncWaitsForThree(InitialWindow, t, ourTime);
    var r2 := AutoSync(r1.0, t, ourTime);
    AutoSyncWaitsForThree(r1.0, t, ourTime);
    var added := Accept(r2.0, t);
    assert added == SyncWindow(r2.0.samples[2 := t], 3);
    assert Recent(added) == [t, t, t];
    MedianOfEqualSamples(Recent(added), t);
  }

  /** The first two plausible samples after a reset only fill the window. */
  lemma AutoSyncWaitsForThree(w: SyncWindow, senderTime: uint32, ourTime: uint32)
    requires |w.samples| == TIME_SAMPLE_SIZE && w.count < 2
    requires Plausible(senderTime, ourTime)
    ensures AutoSync(w, senderTime, ourTime) == (Accept(w, senderTime), None)
    ensures Accept(w, senderTime) == SyncWindow(w.samples[w.count as nat := senderTime], w.count + 1)
  {
    assert w.count as nat % TIME_SAMPLE_SIZE == w.count as nat;
  }

  lemma MedianOfEqualSamples(s: seq<uint32>, t: uint32)
    requires |s| > 0 && forall i :: 0 <= i < |s| ==> s[i] == t
    ensures Median(s) == t
  {
    var m := Median(s);
    assert m in multiset(s);
    var k :| 0 <= k < |s| && s[k] == m;
  }

  /** Every element of a[..n] before position m is at most every element from m on. */
  ghost predicate Partitioned(a: array<uint32>, m: nat, n: nat)
    reads a
    requires m <= n <= a.Length
  {
    forall k, l :: 0 <= k < m <= l < n ==> a[k] <= a[l]
  }

  ghost predicate SortedRange(a: array<uint32>, lo: nat, hi: nat)
    reads a
    requires lo <= hi <= a.Length
  {
    forall k, l :: lo <= k < l < hi ==> a[k] <= a[l]
  }

  /** The in-place bubble sort autoSyncTime runs over its copy of the window. */
  method BubbleSort(a: array<uint32>, n: nat)
    requires n <= a.Length
    modifies a
    ensures Sorted(a[..n])
    ensures multiset(a[..n]) == multiset(old(a[..n]))
    ensures a[n..] == old(a[n..])
  {
    var i := 0;
    while i + 1 < n
      invariant 0 <= i <= n
      invariant multiset(a[..n]) == multiset(old(a[..n])) && a[n..] == old(a[n..])
      invariant SortedRange(a, n - i, n) && Partitioned(a, n - i, n)
    {
      BubblePass(a, n, i);
      i := i + 1;
    }
    assert SortedRange(a, 0, n);
  }

  /** One pass of the inner loop: carries the largest of a[..n - i] to position n - i - 1. */
  method BubblePass(a: array<uint32>, n: nat, i: nat)
    requires i + 1 < n <= a.Length
    requires SortedRange(a, n - i, n) && Partitioned(a, n - i, n)
    modifies a
    ensures SortedRange(a, n - i - 1, n) && Partitioned(a, n - i - 1, n)
    ensures multiset(a[..n]) == multiset(old(a[..n])) && a[n..] == old(a[n..])
  {
    var j := 0;
    while j < n - i - 1
      invariant 0 <= j <= n - i - 1
      invariant multiset(a[..n]) == multiset(old(a[..n])) && a[n..] == old(a[n..])
      invariant SortedRange(a, n - i, n) && Partitioned(a, n - i, n)
      invariant forall k :: 0 <= k <= j ==> a[k] <= a[j]
    {
      if a[j] > a[j + 1] {
        SwapAdjacent(a, j, n - i, n);
      }
      j := j + 1;
    }
  }

  /** Exchanges a[j] and a[j + 1] below the sorted top part a[m..n], which
    * stays sorted and above everything below it. */
  method SwapAdjacent(a: array<uint32>, j: nat, m: nat, n: nat)
    requires j + 1 < m <= n <= a.Length
    requires SortedRange(a, m, n) && Partitioned(a, m, n)
    modifies a
    ensures a[..] == old(a[..])[j := old(a[j + 1])][j + 1 := old(a[j])]
    ensures SortedRange(a, m, n) && Partitioned(a, m, n)
    ensures multiset(a[..n]) == multiset(old(a[..n])) && a[n..] == old(a[n..])
  {
    ghost var before := a[..n];
    a[j], a[j + 1] := a[j + 1], a[j];
    assert a[..n] == before[j := before[j + 1]][j + 1 := before[j]];
  }
}
