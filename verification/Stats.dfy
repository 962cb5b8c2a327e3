/** Order statistics of a list of numbers. */
module OrderStatistics {

  ghost predicate Sorted(s: seq<int>) {
    forall i, j | 0 <= i < j < |s| :: s[i] <= s[j]
  }

  ghost function Insert(x: int, s: seq<int>): seq<int> {
    if s == [] || x <= s[0] then [x] + s else [s[0]] + Insert(x, s[1..])
  }

  /** The sorted rearrangement of `s`. */
  ghost function SortedOf(s: seq<int>): seq<int> {
    if s == [] then [] else Insert(s[0], SortedOf(s[1..]))
  }

  ghost function CountAtMost(s: seq<int>, v: int): nat {
    if s == [] then 0 else (if s[0] <= v then 1 else 0) + CountAtMost(s[1..], v)
  }

  ghost function CountAtLeast(s: seq<int>, v: int): nat {
    if s == [] then 0 else (if s[0] >= v then 1 else 0) + CountAtLeast(s[1..], v)
  }

  lemma {:induction false} InsertElements(x: int, s: seq<int>)
    ensures multiset(Insert(x, s)) == multiset(s) + multiset{x}
    decreases |s|
  {
    if s != [] && x > s[0] {
      InsertElements(x, s[1..]);
      assert s == [s[0]] + s[1..];
    }
  }

  lemma LeastStays(least: int, x: int, s: seq<int>)
    requires least <= x && forall j | 0 <= j < |s| :: least <= s[j]
    ensures forall j | 0 <= j < |Insert(x, s)| :: least <= Insert(x, s)[j]
  {
    var t := Insert(x, s);
    InsertElements(x, s);
    forall j | 0 <= j < |t| ensures least <= t[j] {
      assert t[j] in multiset(t);
    }
  }

  lemma {:induction false} InsertSorts(x: int, s: seq<int>)
    requires Sorted(s)
    ensures Sorted(Insert(x, s))
    decreases |s|
  {
    if s != [] && x > s[0] {
      InsertSorts(x, s[1..]);
      LeastStays(s[0], x, s[1..]);
    }
  }

  lemma {:induction false} InsertCounts(x: int, s: seq<int>, v: int)
    ensures CountAtMost(Insert(x, s), v) == CountAtMost([x], v) + CountAtMost(s, v)
    ensures CountAtLeast(Insert(x, s), v) == CountAtLeast([x], v) + CountAtLeast(s, v)
    decreases |s|
  {
    if s == [] || x <= s[0] {
      assert ([x] + s)[1..] == s;
    } else {
      InsertCounts(x, s[1..], v);
      assert Insert(x, s)[1..] == Insert(x, s[1..]);
    }
  }

  lemma {:induction false} SortedOfRearranges(s: seq<int>)
    ensures Sorted(SortedOf(s)) && multiset(SortedOf(s)) == multiset(s) && |SortedOf(s)| == |s|
    decreases |s|
  {
    if s != [] {
      SortedOfRearranges(s[1..]);
      InsertSorts(s[0], SortedOf(s[1..]));
      InsertElements(s[0], SortedOf(s[1..]));
      assert s == [s[0]] + s[1..];
    }
    assert |multiset(SortedOf(s))| == |multiset(s)|;
  }

  lemma {:induction false} SortedOfCounts(s: seq<int>, v: int)
    ensures CountAtMost(SortedOf(s), v) == CountAtMost(s, v)
    ensures CountAtLeast(SortedOf(s), v) == CountAtLeast(s, v)
    decreases |s|
  {
    if s != [] {
      SortedOfCounts(s[1..], v);
      InsertCounts(s[0], SortedOf(s[1..]), v);
    }
  }

  lemma FirstIsLeast(s: seq<int>, v: int)
    requires Sorted(s) && v in multiset(s)
    ensures s != [] && s[0] <= v
  {
    assert v in s;
  }

  lemma Tail(s: seq<int>)
    requires s != [] && Sorted(s)
    ensures s[0] in multiset(s) && multiset(s[1..]) == multiset(s) - multiset{s[0]}
    ensures s == [s[0]] + s[1..] && Sorted(s[1..])
  {
    assert s == [s[0]] + s[1..];
  }

  lemma SameFirst(a: seq<int>, b: seq<int>)
    requires Sorted(a) && Sorted(b) && multiset(a) == multiset(b) && a != []
    ensures b != [] && a[0] == b[0]
  {
    assert a[0] in multiset(a);
    FirstIsLeast(b, a[0]);
    assert b[0] in multiset(b);
    FirstIsLeast(a, b[0]);
  }

  /** A list has only one sorted rearrangement. */
  lemma {:induction false} SortedUnique(a: seq<int>, b: seq<int>)
    requires Sorted(a) && Sorted(b) && multiset(a) == multiset(b)
    ensures a == b
    decreases |a|
  {
    if a == [] {
      assert |multiset(a)| == |multiset(b)|;
    } else {
      SameFirst(a, b);
      Tail(a);
      Tail(b);
      SortedUnique(a[1..], b[1..]);
    }
  }

  lemma {:induction false} CountSortedPrefix(s: seq<int>, i: nat, v: int)
    requires Sorted(s) && i < |s| && s[i] <= v
    ensures CountAtMost(s, v) >= i + 1
    decreases i
  {
    if i > 0 {
      assert s[0] <= s[i];
      CountSortedPrefix(s[1..], i - 1, v);
    }
  }

  lemma {:induction false} CountSortedSuffix(s: seq<int>, i: nat, v: int)
    requires Sorted(s) && i < |s| && s[i] >= v
    ensures CountAtLeast(s, v) >= |s| - i
    decreases |s|
  {
    if i > 0 {
      CountSortedSuffix(s[1..], i - 1, v);
    } else if |s| > 1 {
      assert s[0] <= s[1];
      CountSortedSuffix(s[1..], 0, v);
    }
  }

  /** The entry at position `i` of the sorted list splits the list itself as a percentile should. */
  lemma RankSplits(s: seq<int>, i: nat)
    requires i < |s|
    ensures |SortedOf(s)| == |s| && SortedOf(s)[i] in s
    ensures CountAtMost(s, SortedOf(s)[i]) >= i + 1
    ensures CountAtLeast(s, SortedOf(s)[i]) >= |s| - i
  {
    SortedOfRearranges(s);
    var t := SortedOf(s);
    var v := t[i];
    SortedOfCounts(s, v);
    CountSortedPrefix(t, i, v);
    CountSortedSuffix(t, i, v);
    assert v in multiset(t);
  }

  method MinIndex(a: array<int>, from: nat) returns (m: nat)
    requires from < a.Length
    ensures from <= m < a.Length
    ensures forall j | from <= j < a.Length :: a[m] <= a[j]
  {
    m := from;
    for k := from to a.Length
      invariant from <= m < a.Length
      invariant forall j | from <= j < k :: a[m] <= a[j]
    {
      if a[k] < a[m] {
        m := k;
      }
    }
  }

  method Swap(a: array<int>, i: nat, j: nat)
    requires i < a.Length && j < a.Length
    modifies a
    ensures a[i] == old(a[j]) && a[j] == old(a[i])
    ensures forall k | 0 <= k < a.Length && k != i && k != j :: a[k] == old(a[k])
    ensures multiset(a[..]) == multiset(old(a[..]))
  {
    a[i], a[j] := a[j], a[i];
  }

  /** Sorts in place. */
  method Sort(a: array<int>)
    modifies a
    ensures a[..] == SortedOf(old(a[..]))
  {
    for i := 0 to a.Length
      invariant Sorted(a[..i])
      invariant forall j, k | 0 <= j < i <= k < a.Length :: a[j] <= a[k]
      invariant multiset(a[..]) == multiset(old(a[..]))
    {
      var m := MinIndex(a, i);
      ghost var before := a[..i];
      Swap(a, i, m);
      assert a[..i] == before;
      assert a[..i + 1] == before + [a[i]];
    }
    assert a[..a.Length] == a[..];
    SortedOfRearranges(old(a[..]));
    SortedUnique(a[..], SortedOf(old(a[..])));
  }
}

/** Request counters and the sliding window of recent durations behind the metrics endpoint. */
module Stats {
  import opened Types
  import opened OrderStatistics

  const RING_CAP := 1024

  /** The ring: its slots, the next write position and the number of slots in use. */
  datatype Ring = Ring(slots: seq<int>, idx: nat, sz: nat)

  function EmptyRing(): Ring {
    Ring(seq(RING_CAP, i => 0), 0, 0)
  }

  predicate WellShaped(r: Ring) {
    |r.slots| == RING_CAP && r.idx < RING_CAP && r.sz <= RING_CAP
  }

  function Push(r: Ring, d: int): Ring
    requires WellShaped(r)
  {
    Ring(r.slots[r.idx := d], (r.idx + 1) % RING_CAP, if r.sz < RING_CAP then r.sz + 1 else r.sz)
  }

  function Window(r: Ring): seq<int>
    requires WellShaped(r)
  {
    r.slots[..r.sz]
  }

  ghost function Min(a: int, b: int): int {
    if a <= b then a else b
  }

  /** The index of the latest of `k` observations that falls on slot `j`. */
  ghost function Latest(j: int, k: nat): int {
    k - 1 - (k - 1 - j) % RING_CAP
  }

  /** The ring holds the tail of the history: slot `j` has the latest observation that falls on it. */
  ghost predicate Tracks(r: Ring, history: seq<int>) {
    && WellShaped(r)
    && r.sz == Min(|history|, RING_CAP)
    && r.idx == |history| % RING_CAP
    && forall j | 0 <= j < r.sz :: 0 <= Latest(j, |history|) < |history| && r.slots[j] == history[Latest(j, |history|)]
  }

  /** The latest index is the one index of its residue among the last `RING_CAP`. */
  lemma LatestIsLatest(j: nat, k: nat, i: int)
    requires j < RING_CAP && i < k && i % RING_CAP == j
    ensures i <= Latest(j, k) < k && Latest(j, k) % RING_CAP == j
    ensures k - i <= RING_CAP ==> i == Latest(j, k)
  {
    assert (k - 1 - i) % RING_CAP == (k - 1 - j) % RING_CAP;
  }

  lemma LatestStep(j: nat, k: nat)
    requires j < RING_CAP
    ensures Latest(j, k + 1) == if j == k % RING_CAP then k else Latest(j, k)
    ensures j < k ==> 0 <= Latest(j, k) < k
  {
    if j == k % RING_CAP {
      LatestIsLatest(j, k + 1, k);
    } else {
      var x := (k - 1 - j) % RING_CAP;
      assert (k - j) % RING_CAP == x + 1;
    }
    if j < k {
      LatestIsLatest(j, k, j);
    }
  }

  /** Observing keeps the ring in step with the history. */
  lemma PushTracks(r: Ring, history: seq<int>, d: int)
    requires Tracks(r, history)
    ensures Tracks(Push(r, d), history + [d])
  {
    var k := |history|;
    var s := Push(r, d);
    var longer := history + [d];
    assert s.idx == (k + 1) % RING_CAP;
    assert s.sz == Min(k + 1, RING_CAP);
    forall j | 0 <= j < s.sz
      ensures 0 <= Latest(j, k + 1) < k + 1 && s.slots[j] == longer[Latest(j, k + 1)]
    {
      LatestStep(j, k);
      if j != r.idx {
        assert j < r.sz;
        assert longer[Latest(j, k)] == history[Latest(j, k)];
      }
    }
  }

  /** While the ring is not full its write position is its size; slot `j` holds an observation whose
      index is `j` modulo the capacity, and no later observation has such an index. */
  lemma RingShape(r: Ring, history: seq<int>, j: nat, i: nat)
    requires Tracks(r, history) && j < r.sz && i < |history| && i % RING_CAP == j
    ensures r.sz < RING_CAP ==> r.idx == r.sz
    ensures i <= Latest(j, |history|)
    ensures r.slots[j] == history[Latest(j, |history|)] && Latest(j, |history|) % RING_CAP == j
  {
    LatestIsLatest(j, |history|, i);
  }

  /** The last 1024 durations, or all if there are no more. */
  ghost function Recent(history: seq<int>): seq<int> {
    if |history| <= 1024 then history else history[|history| - 1024..]
  }

  /** The window is a rotation of the most recent durations. */
  lemma WindowIsRecent(r: Ring, history: seq<int>)
    requires Tracks(r, history)
    ensures multiset(Window(r)) == multiset(Recent(history))
    ensures |Window(r)| == |Recent(history)| == if |history| < 1024 then |history| else 1024
  {
    var w := Recent(history);
    var k := |history|;
    if k <= RING_CAP {
      forall j: nat | j < k ensures Latest(j, k) == j {
        LatestIsLatest(j, k, j);
      }
      assert Window(r) == w;
    } else {
      var cut := RING_CAP - r.idx;
      forall j: nat | j < RING_CAP
        ensures r.slots[j] == (w[cut..] + w[..cut])[j]
      {
        LatestIsLatest(j, k, if j < r.idx then k - r.idx + j else k - r.idx + j - RING_CAP);
      }
      assert Window(r) == w[cut..] + w[..cut];
      assert w == w[..cut] + w[cut..];
    }
  }

  datatype Snapshot = Snapshot(
    total: int, rejected: int, inFlight: int, maxConcurrency: nat, queueDepth: nat, samples: nat,
    p50MS: int, p95MS: int, p99MS: int, maxMS: int)

  /** How a real becomes a floating-point number: in order, and with zero as it is. */
  ghost predicate IsRounding(round: real -> real) {
    && (forall x, y | x <= y :: round(x) <= round(y))
    && round(0.0) == 0.0
  }

  /** The index of a percentile; both `p` and the product are rounded. */
  function PercentileIndex(n: nat, p: real, round: real -> real): int {
    var i := round(n as real * round(p)).Floor;
    if i >= n then n - 1 else i
  }

  lemma PercentileIndexInRange(n: nat, p: real, q: real, round: real -> real)
    requires n > 0 && 0.0 <= p <= q && IsRounding(round)
    ensures 0 <= PercentileIndex(n, p, round) <= PercentileIndex(n, q, round) < n
  {
    assert round(0.0) <= round(p) <= round(q);
    MulMonotone(n as real, round(p), round(q));
    FloorInOrder(n as real * round(p), n as real * round(q), round);
  }

  lemma FloorInOrder(x: real, y: real, round: real -> real)
    requires 0.0 <= x <= y && IsRounding(round)
    ensures 0 <= round(x).Floor <= round(y).Floor
  {
    assert round(0.0) <= round(x) <= round(y);
  }

  lemma MulMonotone(x: real, p: real, q: real)
    requires x >= 0.0 && 0.0 <= p <= q
    ensures 0.0 <= x * p <= x * q
  {
    assert x * (q - p) >= 0.0;
  }

  /** What a snapshot reports from a window and counters that may have been read at different moments. */
  ghost function Report(window: seq<int>, total: int, rejected: int, inFlight: int, maxConc: nat, queue: nat, round: real -> real): Snapshot
    requires IsRounding(round)
  {
    var n := |window|;
    if n == 0 then Snapshot(total, rejected, inFlight, maxConc, queue, 0, 0, 0, 0, 0)
    else
      Snapshot(total, rejected, inFlight, maxConc, queue, n,
               PercentileMS(window, 0.50, round), PercentileMS(window, 0.95, round), PercentileMS(window, 0.99, round),
               RankMS(window, n - 1))
  }

  ghost function RankMS(window: seq<int>, i: nat): int
    requires i < |window|
  {
    RankSplits(window, i);
    Milliseconds(SortedOf(window)[i])
  }

  ghost function PercentileMS(window: seq<int>, p: real, round: real -> real): int
    requires |window| > 0 && 0.0 <= p && IsRounding(round)
  {
    PercentileIndexInRange(|window|, p, p, round);
    RankMS(window, PercentileIndex(|window|, p, round))
  }

  /** Reported percentiles come in order, also after truncation to milliseconds. */
  lemma PercentilesInOrder(window: seq<int>, total: int, rejected: int, inFlight: int, maxConc: nat, queue: nat,
                           round: real -> real)
    requires IsRounding(round)
    ensures var s := Report(window, total, rejected, inFlight, maxConc, queue, round);
            s.p50MS <= s.p95MS <= s.p99MS <= s.maxMS
  {
    var n := |window|;
    if n > 0 {
      PercentileIndexInRange(n, 0.50, 0.95, round);
      PercentileIndexInRange(n, 0.95, 0.99, round);
      RanksInOrder(window, PercentileIndex(n, 0.50, round), PercentileIndex(n, 0.95, round));
      RanksInOrder(window, PercentileIndex(n, 0.95, round), PercentileIndex(n, 0.99, round));
      RanksInOrder(window, PercentileIndex(n, 0.99, round), n - 1);
    }
  }

  /** `ms` is, in milliseconds, an entry of the window with at least `i + 1` entries at most it and at least
      `n - i` at least it. */
  ghost predicate IsRank(window: seq<int>, i: int, ms: int) {
    exists v | v in window ::
      Milliseconds(v) == ms && CountAtMost(window, v) >= i + 1 && CountAtLeast(window, v) >= |window| - i
  }

  /** The index that the `p`-th part of `n` entries rounds to, the last one at most. */
  ghost function Nth(n: nat, p: real, round: real -> real): int {
    Min(round(n as real * round(p)).Floor, n - 1)
  }

  /** What a snapshot reports: the counters and settings as given, the number of samples, the median, the
      95th and the 99th percentile by rank, and the longest duration. */
  lemma ReportExactly(window: seq<int>, total: int, rejected: int, inFlight: int, maxConc: nat, queue: nat, round: real -> real)
    requires IsRounding(round)
    ensures var s := Report(window, total, rejected, inFlight, maxConc, queue, round);
            && s.total == total && s.rejected == rejected && s.inFlight == inFlight
            && s.maxConcurrency == maxConc && s.queueDepth == queue && s.samples == |window|
            && (window == [] ==> s.p50MS == s.p95MS == s.p99MS == s.maxMS == 0)
            && (window != [] ==>
                  && IsRank(window, Nth(|window|, 0.50, round), s.p50MS)
                  && IsRank(window, Nth(|window|, 0.95, round), s.p95MS)
                  && IsRank(window, Nth(|window|, 0.99, round), s.p99MS)
                  && IsRank(window, |window| - 1, s.maxMS))
  {
    var n := |window|;
    if n > 0 {
      PercentileIndexInRange(n, 0.50, 0.95, round);
      PercentileIndexInRange(n, 0.95, 0.99, round);
      RankIsRank(window, PercentileIndex(n, 0.50, round));
      RankIsRank(window, PercentileIndex(n, 0.95, round));
      RankIsRank(window, PercentileIndex(n, 0.99, round));
      RankIsRank(window, n - 1);
    }
  }

  lemma RankIsRank(window: seq<int>, i: nat)
    requires i < |window|
    ensures IsRank(window, i, RankMS(window, i))
  {
    RankSplits(window, i);
  }

  lemma RanksInOrder(window: seq<int>, i: nat, j: nat)
    requires i <= j < |window|
    ensures RankMS(window, i) <= RankMS(window, j)
  {
    SortedOfRearranges(window);
  }

  class Metrics {
    var total: int
    var rejected: int
    var inFlight: int
    const ring: array<int>
    var ringIdx: nat
    var ringSz: nat
    /** Every duration ever observed, oldest first. */
    ghost var history: seq<int>

    ghost function RingState(): Ring
      reads this, ring
    {
      Ring(ring[..], ringIdx, ringSz)
    }

    ghost predicate Valid()
      reads this, ring
    {
      Tracks(RingState(), history)
    }

    constructor ()
      ensures Valid() && fresh(ring) && history == []
      ensures total == rejected == inFlight == 0
    {
      total, rejected, inFlight := 0, 0, 0;
      ring := new int[RING_CAP](_ => 0);
      ringIdx, ringSz, history := 0, 0, [];
    }

    method IncInFlight()
      modifies this`total, this`inFlight
      ensures total == old(total) + 1 && inFlight == old(inFlight) + 1
    {
      total := total + 1;
      inFlight := inFlight + 1;
    }

    method DecInFlight()
      modifies this`inFlight
      ensures inFlight == old(inFlight) - 1
    {
      inFlight := inFlight - 1;
    }

    method IncRejected()
      modifies this`rejected
      ensures rejected == old(rejected) + 1
    {
      rejected := rejected + 1;
    }

    /** Records one duration; the oldest one of a full ring is overwritten. */
    method Observe(d: int)
      requires Valid()
      modifies this`ringIdx, this`ringSz, this`history, ring
      ensures Valid() && history == old(history) + [d]
      ensures RingState() == Push(old(RingState()), d)
    {
      PushTracks(RingState(), history, d);
      ring[ringIdx] := d;
      ringIdx := (ringIdx + 1) % RING_CAP;
      if ringSz < RING_CAP {
        ringSz := ringSz + 1;
      }
      history := history + [d];
    }

    /** Copies the window, sorts the copy and reads the percentiles off it; the ring stays as it was. */
    method TakeSnapshot(maxConc: nat, queue: nat, round: real -> real) returns (out: Snapshot)
      requires Valid() && IsRounding(round)
      ensures out == Report(Window(RingState()), total, rejected, inFlight, maxConc, queue, round)
    {
      var n := ringSz;
      var cp := new int[n];
      for i := 0 to n
        invariant forall j | 0 <= j < i :: cp[j] == ring[j]
      {
        cp[i] := ring[i];
      }
      ghost var window := Window(RingState());
      assert cp[..] == window;
      out := Snapshot(total, rejected, inFlight, maxConc, queue, n, 0, 0, 0, 0);
      if n == 0 {
        return;
      }
      Sort(cp);
      SortedOfRearranges(window);
      PercentileIndexInRange(n, 0.50, 0.50, round);
      PercentileIndexInRange(n, 0.95, 0.95, round);
      PercentileIndexInRange(n, 0.99, 0.99, round);
      assert cp.Length == n && cp[..] == SortedOf(window);
      out := out.(p50MS := Milliseconds(cp[PercentileIndex(n, 0.50, round)]),
                  p95MS := Milliseconds(cp[PercentileIndex(n, 0.95, round)]),
                  p99MS := Milliseconds(cp[PercentileIndex(n, 0.99, round)]),
                  maxMS := Milliseconds(cp[n - 1]));
    }
  }
}
