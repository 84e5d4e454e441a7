/** Flagging stragglers in the records of one poll: the second half of `tail_and_parse` in nccl_monitor.py. */
module NcclStragglers {
  import opened Wrappers
  import opened Sorting
  import opened NcclRecords

  // ---------- What is flagged ----------

  /** A rank as a dictionary key, None if it cannot be hashed. */
  type Rank = Option<Key>

  /** Records that are annotated: their type is truthy and they have a rank. */
  predicate IsRanked(m: Record) { Truthy(m.collectiveType) && !m.rank.Null? }

  /** Records that are grouped by type. */
  predicate IsTimed(m: Record) { IsRanked(m) && m.durationUs.Some? }

  /** The (rank, duration) pairs of one collective type, in file order. */
  function Timings(records: seq<Record>, t: Key): seq<(Rank, real)> {
    if records == [] then []
    else
      var n := |records| - 1;
      var m := records[n];
      Timings(records[..n], t) +
      if IsTimed(m) && KeyOf(m.collectiveType) == Some(t) then [(KeyOf(m.rank), m.durationUs.value)] else []
  }

  function Durations(rd: seq<(Rank, real)>): seq<real> {
    seq(|rd|, i requires 0 <= i < |rd| => rd[i].1)
  }

  predicate RealLe(a: real, b: real) { a <= b }

  /** `statistics.median`. */
  function Median(ds: seq<real>): real
    requires ds != []
  {
    SortPermutes(ds, RealLe);
    var s := Sort(ds, RealLe);
    var n := |s|;
    if n % 2 == 1 then s[n / 2] else (s[n / 2 - 1] + s[n / 2]) / 2.0
  }

  predicate IsSlow(duration: real, median: real, thresholdUs: real) {
    duration - median > thresholdUs
  }

  /** The flag of a rank: that of its last timing. */
  function LastFlag(rd: seq<(Rank, real)>, rank: Rank, median: real, thresholdUs: real): Option<bool> {
    if rd == [] then None
    else
      var (r, d) := rd[|rd| - 1];
      if r == rank then Some(IsSlow(d, median, thresholdUs))
      else LastFlag(rd[..|rd| - 1], rank, median, thresholdUs)
  }

  /** The entry of `straggler_ranks` for a type and rank, if there is one. */
  function Flag(rd: seq<(Rank, real)>, rank: Rank, thresholdUs: real): Option<bool> {
    if |rd| < 2 then None else LastFlag(rd, rank, Median(Durations(rd)), thresholdUs)
  }

  function AnnotatedRecord(m: Record, records: seq<Record>, thresholdUs: real): Record {
    if IsRanked(m) && KeyOf(m.collectiveType).Some? then
      var flag := Flag(Timings(records, KeyOf(m.collectiveType).value), KeyOf(m.rank), thresholdUs);
      m.(isStraggler := Some(if flag == Some(true) then 1 else 0))
    else m
  }

  function Annotated(records: seq<Record>, thresholdUs: real): seq<Record> {
    seq(|records|, i requires 0 <= i < |records| => AnnotatedRecord(records[i], records, thresholdUs))
  }

  lemma TimingsNext(records: seq<Record>, k: nat, t: Key)
    requires k < |records|
    ensures var m := records[k];
            Timings(records[..k + 1], t) ==
            Timings(records[..k], t) +
            if IsTimed(m) && KeyOf(m.collectiveType) == Some(t) then [(KeyOf(m.rank), m.durationUs.value)] else []
  {
    assert records[..k + 1][..k] == records[..k];
  }

  /** The dictionary holds the timings of exactly the types that have any. */
  ghost predicate Grouped(durations: map<Key, seq<(Rank, real)>>, records: seq<Record>) {
    && (forall t :: t in durations <==> Timings(records, t) != [])
    && (forall t :: t in durations ==> durations[t] == Timings(records, t))
  }

  function AddTiming(durations: map<Key, seq<(Rank, real)>>, m: Record): map<Key, seq<(Rank, real)>> {
    if IsTimed(m) && KeyOf(m.collectiveType).Some? then
      var key := KeyOf(m.collectiveType).value;
      durations[key := (if key in durations then durations[key] else []) + [(KeyOf(m.rank), m.durationUs.value)]]
    else durations
  }

  lemma GroupedNext(durations: map<Key, seq<(Rank, real)>>, records: seq<Record>, k: nat)
    requires k < |records| && Grouped(durations, records[..k])
    ensures Grouped(AddTiming(durations, records[k]), records[..k + 1])
  {
    hide Timings, IsTimed, KeyOf;
    var after := AddTiming(durations, records[k]);
    forall t
      ensures t in after <==> Timings(records[..k + 1], t) != []
      ensures t in after ==> after[t] == Timings(records[..k + 1], t)
    {
      TimingsNext(records, k, t);
      assert Timings(records[..k], t) + [] == Timings(records[..k], t);
    }
  }

  /** Raises TypeError for a type that is no dictionary key. */
  method GroupDurations(records: seq<Record>) returns (r: Result<map<Key, seq<(Rank, real)>>, Raised>)
    ensures r.Err? ==> r == Err(TypeError) && HasUnhashable(records)
    ensures r.Ok? ==> Grouped(r.value, records)
  {
    hide Grouped, KeyOf, Truthy;
    var durations: map<Key, seq<(Rank, real)>> := map[];
    NothingGrouped();
    for k := 0 to |records|
      invariant Grouped(durations, records[..k])
    {
      GroupedNext(durations, records, k);
      var m := records[k];
      if Truthy(m.collectiveType) && !m.rank.Null? && m.durationUs.Some? {
        var key := KeyOf(m.collectiveType);
        if key.None? {
          assert Unhashable(records[k]);
          return Err(TypeError);
        }
        var known := if key.value in durations then durations[key.value] else [];
        durations := durations[key.value := known + [(KeyOf(m.rank), m.durationUs.value)]];
      }
    }
    assert records[..|records|] == records;
    return Ok(durations);
  }

  lemma NothingGrouped()
    ensures Grouped(map[], [])
  {
  }

  /** The dictionary holds the flag of exactly the pairs that have one. */
  ghost predicate HoldsFlags(flags: map<(Key, Rank), bool>, t: Key, rank: Rank, flag: Option<bool>) {
    ((t, rank) in flags <==> flag.Some?) && (flag.Some? ==> flags[(t, rank)] == flag.value)
  }

  /** Every entry of `straggler_ranks` is as specified. */
  ghost predicate HoldsAllFlags(flags: map<(Key, Rank), bool>, records: seq<Record>, thresholdUs: real) {
    forall t, rank :: HoldsFlags(flags, t, rank, Flag(Timings(records, t), rank, thresholdUs))
  }

  lemma {:induction false} UnhashableTiming(records: seq<Record>, t: Key, k: nat)
    requires k < |Timings(records, t)| && Timings(records, t)[k].0.None?
    ensures HasUnhashable(records)
  {
    var n := |records| - 1;
    if k < |Timings(records[..n], t)| {
      UnhashableTiming(records[..n], t, k);
      assert forall i :: 0 <= i < n ==> records[..n][i] == records[i];
    } else {
      assert Unhashable(records[n]);
    }
  }

  /** Raises TypeError for a rank that is no dictionary key. */
  method FlagRanks(records: seq<Record>, durations: map<Key, seq<(Rank, real)>>, thresholdUs: real)
    returns (r: Result<map<(Key, Rank), bool>, Raised>)
    requires Grouped(durations, records)
    ensures r.Err? ==> r == Err(TypeError) && HasUnhashable(records)
    ensures r.Ok? ==> HoldsAllFlags(r.value, records, thresholdUs)
  {
    hide Timings, Flag;
    var flags: map<(Key, Rank), bool> := map[];
    var todo := durations.Keys;
    NoFlagWithoutTimings(thresholdUs);
    while todo != {}
      invariant todo <= durations.Keys
      invariant forall t, rank :: t in todo ==> (t, rank) !in flags
      invariant forall t, rank :: t !in todo ==>
                  HoldsFlags(flags, t, rank, Flag(Timings(records, t), rank, thresholdUs))
      decreases |todo|
    {
      var ctype :| ctype in todo;
      var flagged := FlagType(flags, ctype, durations[ctype], thresholdUs);
      if flagged.None? {
        var k :| 0 <= k < |durations[ctype]| && durations[ctype][k].0.None?;
        UnhashableTiming(records, ctype, k);
        return Err(TypeError);
      }
      flags := flagged.value;
      todo := todo - {ctype};
    }
    return Ok(flags);
  }

  lemma NoFlagWithoutTimings(thresholdUs: real)
    ensures forall rank: Rank :: Flag([], rank, thresholdUs) == None
  {
  }

  /** The pass over one collective type; None if a rank cannot be hashed. */
  method FlagType(before: map<(Key, Rank), bool>, ctype: Key, rd: seq<(Rank, real)>, thresholdUs: real)
    returns (r: Option<map<(Key, Rank), bool>>)
    requires forall rank :: (ctype, rank) !in before
    ensures r.None? <==> |rd| >= 2 && exists k :: 0 <= k < |rd| && rd[k].0.None?
    ensures r.Some? ==> forall rank :: HoldsFlags(r.value, ctype, rank, Flag(rd, rank, thresholdUs))
    ensures r.Some? ==> forall t, rank :: t != ctype ==>
              ((t, rank) in r.value <==> (t, rank) in before)
              && ((t, rank) in r.value ==> r.value[(t, rank)] == before[(t, rank)])
  {
    var flags := before;
    if |rd| < 2 {
      return Some(flags);
    }
    var median := Median(Durations(rd));
    for k := 0 to |rd|
      invariant forall i :: 0 <= i < k ==> rd[i].0.Some?
      invariant forall rank :: HoldsFlags(flags, ctype, rank, LastFlag(rd[..k], rank, median, thresholdUs))
      invariant forall t, rank :: t != ctype ==>
                  ((t, rank) in flags <==> (t, rank) in before)
                  && ((t, rank) in flags ==> flags[(t, rank)] == before[(t, rank)])
    {
      assert rd[..k + 1][..k] == rd[..k];
      var (rank, dur) := rd[k];
      if rank.None? {
        return None;
      }
      flags := flags[(ctype, rank) := dur - median > thresholdUs];
    }
    assert rd[..|rd|] == rd;
    return Some(flags);
  }

  /** Raises TypeError exactly when some record it looks up has no key. */
  method Annotate(records: seq<Record>, thresholdUs: real, flags: map<(Key, Rank), bool>)
    returns (r: Result<seq<Record>, Raised>)
    requires HoldsAllFlags(flags, records, thresholdUs)
    ensures r.Err? <==> HasUnhashable(records)
    ensures r.Err? ==> r == Err(TypeError)
    ensures r.Ok? ==> r.value == Annotated(records, thresholdUs)
  {
    hide Timings, Flag, KeyOf, Truthy;
    var annotated := records;
    for k := 0 to |records|
      invariant |annotated| == |records|
      invariant forall i :: 0 <= i < k ==> !Unhashable(records[i])
      invariant forall i :: 0 <= i < k ==> annotated[i] == AnnotatedRecord(records[i], records, thresholdUs)
      invariant forall i :: k <= i < |records| ==> annotated[i] == records[i]
    {
      var m := annotated[k];
      if Truthy(m.collectiveType) && !m.rank.Null? {
        var ctype, rank := KeyOf(m.collectiveType), KeyOf(m.rank);
        if ctype.None? || rank.None? {
          assert Unhashable(records[k]);
          return Err(TypeError);
        }
        assert HoldsFlags(flags, ctype.value, rank, Flag(Timings(records, ctype.value), rank, thresholdUs));
        var isSt := (ctype.value, rank) in flags && flags[(ctype.value, rank)];
        annotated := annotated[k := m.(isStraggler := Some(if isSt then 1 else 0))];
      }
    }
    return Ok(annotated);
  }

  /** The part of `tail_and_parse` after reading. */
  method FindStragglers(records: seq<Record>, thresholdUs: real) returns (r: Result<seq<Record>, Raised>)
    ensures r.Err? <==> HasUnhashable(records)
    ensures r.Err? ==> r == Err(TypeError)
    ensures r.Ok? ==> r.value == Annotated(records, thresholdUs)
  {
    hide Annotated, Grouped, HasUnhashable, HoldsAllFlags;
    var durations := GroupDurations(records);
    if durations.Err? {
      return Err(TypeError);
    }
    var stragglers := FlagRanks(records, durations.value, thresholdUs);
    if stragglers.Err? {
      return Err(TypeError);
    }
    r := Annotate(records, thresholdUs, stragglers.value);
  }

  // ---------- At most half are flagged ----------

  lemma RealLeIsTotal()
    ensures TotalOrder(RealLe)
  {
  }

  function CountAbove(ds: seq<real>, x: real): nat {
    if ds == [] then 0 else (if ds[0] > x then 1 else 0) + CountAbove(ds[1..], x)
  }

  lemma {:induction false} CountAfterInsert(d: real, ds: seq<real>, x: real)
    ensures CountAbove(Insert(d, ds, RealLe), x) == CountAbove([d] + ds, x)
  {
    assert ([d] + ds)[1..] == ds;
    if ds != [] && !RealLe(d, ds[0]) {
      CountAfterInsert(d, ds[1..], x);
      assert ([d] + ds[1..])[1..] == ds[1..];
    }
  }

  lemma {:induction false} CountAfterSort(ds: seq<real>, x: real)
    ensures CountAbove(Sort(ds, RealLe), x) == CountAbove(ds, x)
  {
    if ds != [] {
      CountAfterSort(ds[1..], x);
      CountAfterInsert(ds[0], Sort(ds[1..], RealLe), x);
      assert ([ds[0]] + Sort(ds[1..], RealLe))[1..] == Sort(ds[1..], RealLe);
    }
  }

  /** Values up to index `k` that do not exceed `x` are not counted. */
  lemma {:induction false} CountSkips(ds: seq<real>, x: real, k: nat)
    requires k <= |ds| && forall i :: 0 <= i < k ==> ds[i] <= x
    ensures CountAbove(ds, x) <= |ds| - k
    decreases |ds|
  {
    if ds != [] {
      CountSkips(ds[1..], x, if k == 0 then 0 else k - 1);
    }
  }

  /** The lower half of a sorted sequence, its middle included, is not above the middle value. */
  lemma LowerHalf(s: seq<real>, median: real)
    requires s != [] && SortedBy(s, RealLe)
    requires median == if |s| % 2 == 1 then s[|s| / 2] else (s[|s| / 2 - 1] + s[|s| / 2]) / 2.0
    ensures forall i :: 0 <= i < |s| - |s| / 2 ==> s[i] <= median
  {
    var half := |s| / 2;
    var last := |s| - half - 1;
    assert |s| % 2 == 1 ==> last == half;
    assert |s| % 2 == 0 ==> last == half - 1;
    assert |s| % 2 == 0 ==> RealLe(s[half - 1], s[half]);
    forall i | 0 <= i <= last
      ensures s[i] <= median
    {
      assert i < last ==> RealLe(s[i], s[last]);
    }
  }

  lemma AtMostHalfAboveMedian(ds: seq<real>)
    requires ds != []
    ensures CountAbove(ds, Median(ds)) <= |ds| / 2
  {
    hide Sort, CountAbove, SortedBy, TotalOrder;
    var s := Sort(ds, RealLe);
    RealLeIsTotal();
    SortSorts(ds, RealLe);
    SortPermutes(ds, RealLe);
    LowerHalf(s, Median(ds));
    CountAfterSort(ds, Median(ds));
    CountSkips(s, Median(ds), |ds| - |ds| / 2);
  }

  // ---------- What a median is ----------

  function CountBelow(ds: seq<real>, x: real): nat {
    if ds == [] then 0 else (if ds[0] < x then 1 else 0) + CountBelow(ds[1..], x)
  }

  lemma {:induction false} BelowAfterInsert(d: real, ds: seq<real>, x: real)
    ensures CountBelow(Insert(d, ds, RealLe), x) == CountBelow([d] + ds, x)
  {
    assert ([d] + ds)[1..] == ds;
    if ds != [] && !RealLe(d, ds[0]) {
      BelowAfterInsert(d, ds[1..], x);
      assert ([d] + ds[1..])[1..] == ds[1..];
    }
  }

  lemma {:induction false} BelowAfterSort(ds: seq<real>, x: real)
    ensures CountBelow(Sort(ds, RealLe), x) == CountBelow(ds, x)
  {
    if ds != [] {
      BelowAfterSort(ds[1..], x);
      BelowAfterInsert(ds[0], Sort(ds[1..], RealLe), x);
      assert ([ds[0]] + Sort(ds[1..], RealLe))[1..] == Sort(ds[1..], RealLe);
    }
  }

  /** Values from index `k` on that are not less than `x` are not counted. */
  lemma {:induction false} BelowStops(ds: seq<real>, x: real, k: nat)
    requires k <= |ds| && forall i :: k <= i < |ds| ==> ds[i] >= x
    ensures CountBelow(ds, x) <= k
    decreases |ds|
  {
    if ds != [] {
      BelowStops(ds[1..], x, if k == 0 then 0 else k - 1);
    }
  }

  /** `v` is the value with `k` values before it in any ascending order of `ds`. */
  predicate IsOfRank(ds: seq<real>, v: real, k: nat) {
    v in ds && CountBelow(ds, v) <= k && CountAbove(ds, v) + k < |ds|
  }

  /** Sorting puts the value of each rank at its place. */
  lemma SortedIsByRank(ds: seq<real>, k: nat)
    requires k < |ds|
    ensures |Sort(ds, RealLe)| == |ds| && IsOfRank(ds, Sort(ds, RealLe)[k], k)
  {
    var s := Sort(ds, RealLe);
    RealLeIsTotal();
    SortSorts(ds, RealLe);
    SortPermutes(ds, RealLe);
    SameElements(ds, s);
    var v := s[k];
    forall i | 0 <= i < |s|
      ensures i <= k ==> s[i] <= v
      ensures k <= i ==> s[i] >= v
    {
      assert i < k ==> RealLe(s[i], v);
      assert k < i ==> RealLe(v, s[i]);
    }
    hide Sort;
    CountAfterSort(ds, v);
    BelowAfterSort(ds, v);
    CountSkips(s, v, k + 1);
    BelowStops(s, v, k);
    assert v in s;
  }

  lemma {:induction false} BelowAndNotAbove(ds: seq<real>, v: real, w: real)
    requires v < w
    ensures CountBelow(ds, w) + CountAbove(ds, v) >= |ds|
  {
    if ds != [] {
      BelowAndNotAbove(ds[1..], v, w);
    }
  }

  /** No two values have one rank. */
  lemma RankIsUnique(ds: seq<real>, v: real, w: real, k: nat)
    requires IsOfRank(ds, v, k) && IsOfRank(ds, w, k)
    ensures v == w
  {
    if v < w {
      BelowAndNotAbove(ds, v, w);
    } else if w < v {
      BelowAndNotAbove(ds, w, v);
    }
  }

  /** The median is the value of the middle rank, or halfway between the values of the two middle ranks. */
  lemma MedianIsInTheMiddle(ds: seq<real>) returns (lower: real, upper: real)
    requires ds != []
    ensures IsOfRank(ds, lower, (|ds| - 1) / 2) && IsOfRank(ds, upper, |ds| / 2)
    ensures 2.0 * Median(ds) == lower + upper
  {
    hide Sort, IsOfRank;
    var s, n := Sort(ds, RealLe), |ds|;
    SortedIsByRank(ds, (n - 1) / 2);
    SortedIsByRank(ds, n / 2);
    lower, upper := s[(n - 1) / 2], s[n / 2];
    assert n % 2 == 1 ==> (n - 1) / 2 == n / 2;
    assert n % 2 == 0 ==> (n - 1) / 2 == n / 2 - 1;
  }

  /** Two timings 0 and 2000001 have their median halfway, and the slower rank is a straggler at 1000 ms. */
  lemma SlowerOfTwoIsFlagged()
    ensures var rd := [(RankNumber(0), 0.0), (RankNumber(1), 2000001.0)];
            Flag(rd, RankNumber(1), 1000000.0) == Some(true) && Flag(rd, RankNumber(0), 1000000.0) == Some(false)
  {
    var rd := [(RankNumber(0), 0.0), (RankNumber(1), 2000001.0)];
    var ds := Durations(rd);
    assert ds == [0.0, 2000001.0];
    var last := ds[1..];
    assert last == [2000001.0] && |last[1..]| == 0;
    assert Sort(last, RealLe) == [2000001.0];
    assert Sort(ds, RealLe) == [0.0, 2000001.0];
    assert rd[..1] == [(RankNumber(0), 0.0)];
  }

  /** The ranks whose last timing is slow. */
  function SlowRanks(rd: seq<(Rank, real)>, median: real, thresholdUs: real): set<Rank> {
    if rd == [] then {}
    else
      var n := |rd| - 1;
      var before := SlowRanks(rd[..n], median, thresholdUs);
      if IsSlow(rd[n].1, median, thresholdUs) then before + {rd[n].0} else before - {rd[n].0}
  }

  lemma {:induction false} SlowRanksAreFlagged(rd: seq<(Rank, real)>, rank: Rank, median: real, thresholdUs: real)
    ensures rank in SlowRanks(rd, median, thresholdUs) <==> LastFlag(rd, rank, median, thresholdUs) == Some(true)
  {
    if rd != [] {
      SlowRanksAreFlagged(rd[..|rd| - 1], rank, median, thresholdUs);
    }
  }

  lemma {:induction false} CountAboveAppend(ds: seq<real>, d: real, x: real)
    ensures CountAbove(ds + [d], x) == CountAbove(ds, x) + (if d > x then 1 else 0)
  {
    if ds != [] {
      CountAboveAppend(ds[1..], d, x);
      assert (ds + [d])[1..] == ds[1..] + [d];
    }
  }

  lemma {:induction false} FewSlowRanks(rd: seq<(Rank, real)>, median: real, thresholdUs: real)
    requires thresholdUs >= 0.0
    ensures |SlowRanks(rd, median, thresholdUs)| <= CountAbove(Durations(rd), median)
  {
    if rd != [] {
      var n := |rd| - 1;
      FewSlowRanks(rd[..n], median, thresholdUs);
      assert Durations(rd) == Durations(rd[..n]) + [rd[n].1];
      CountAboveAppend(Durations(rd[..n]), rd[n].1, median);
    }
  }

  /** The ranks of a type that `straggler_ranks` maps to True. */
  function FlaggedRanks(records: seq<Record>, t: Key, thresholdUs: real): set<Rank> {
    var rd := Timings(records, t);
    if |rd| < 2 then {} else SlowRanks(rd, Median(Durations(rd)), thresholdUs)
  }

  /** Of a type with n timings at most n / 2 ranks are flagged, and none when n < 2. */
  lemma AtMostHalfAreFlagged(records: seq<Record>, t: Key, thresholdUs: real)
    requires thresholdUs >= 0.0
    ensures |FlaggedRanks(records, t, thresholdUs)| <= |Timings(records, t)| / 2
    ensures |Timings(records, t)| < 2 ==> FlaggedRanks(records, t, thresholdUs) == {}
    ensures forall rank :: rank in FlaggedRanks(records, t, thresholdUs) <==>
                           Flag(Timings(records, t), rank, thresholdUs) == Some(true)
  {
    var rd := Timings(records, t);
    if |rd| >= 2 {
      var median := Median(Durations(rd));
      FewSlowRanks(rd, median, thresholdUs);
      AtMostHalfAboveMedian(Durations(rd));
      forall rank {
        SlowRanksAreFlagged(rd, rank, median, thresholdUs);
      }
    }
  }

  // ---------- Any rank whose duration exceeds the median by the threshold ----------

  /** Timing `i` exceeds the median of its type by more than the threshold. */
  ghost predicate SlowTiming(rd: seq<(Rank, real)>, i: nat, thresholdUs: real)
    requires i < |rd|
  {
    rd[i].1 - Median(Durations(rd)) > thresholdUs
  }

  ghost predicate HasSlowTiming(rd: seq<(Rank, real)>, rank: Rank, thresholdUs: real) {
    exists i :: 0 <= i < |rd| && rd[i].0 == rank && SlowTiming(rd, i, thresholdUs)
  }

  /** Timing `i` is its rank's last. */
  ghost predicate LastOfRank(rd: seq<(Rank, real)>, i: nat)
    requires i < |rd|
  {
    forall k :: i < k < |rd| ==> rd[k].0 != rd[i].0
  }

  lemma {:induction false} LastFlagIsOfLast(rd: seq<(Rank, real)>, rank: Rank, median: real, thresholdUs: real)
    ensures LastFlag(rd, rank, median, thresholdUs) == Some(true) <==>
            exists i :: 0 <= i < |rd| && rd[i].0 == rank && LastOfRank(rd, i) && IsSlow(rd[i].1, median, thresholdUs)
  {
    if rd != [] {
      var n := |rd| - 1;
      LastFlagIsOfLast(rd[..n], rank, median, thresholdUs);
      assert LastOfRank(rd, n);
      if rd[n].0 != rank {
        forall i | 0 <= i < n && rd[i].0 == rank
          ensures LastOfRank(rd, i) <==> LastOfRank(rd[..n], i)
        {
          assert LastOfRank(rd[..n], i) ==> forall k :: i < k < n ==> rd[..n][k].0 != rank;
          assert LastOfRank(rd, i) ==> forall k :: i < k < n ==> rd[..n][k] == rd[k];
        }
      }
    }
  }

  /**
   * A rank is flagged exactly for having a slow timing, as documented, if and only if it has none
   * or there are two timings and its last one is slow.
   */
  lemma DocumentedFlagExactlyWhen(rd: seq<(Rank, real)>, rank: Rank, thresholdUs: real)
    ensures (Flag(rd, rank, thresholdUs) == Some(true) <==> HasSlowTiming(rd, rank, thresholdUs)) <==>
            || !HasSlowTiming(rd, rank, thresholdUs)
            || (|rd| >= 2 && exists i :: 0 <= i < |rd| && rd[i].0 == rank && LastOfRank(rd, i)
                                        && SlowTiming(rd, i, thresholdUs))
  {
    if |rd| >= 2 {
      LastFlagIsOfLast(rd, rank, Median(Durations(rd)), thresholdUs);
    }
  }

  function RankNumber(i: int): Rank { KeyOf(Int(i)) }

  /** Rank 0 has a slow timing, but its later fast one clears the flag. */
  lemma LaterTimingClearsFlag()
    ensures var rd := [(RankNumber(0), 900.0), (RankNumber(1), 1.0), (RankNumber(0), 1.0)];
            HasSlowTiming(rd, RankNumber(0), 100.0) && Flag(rd, RankNumber(0), 100.0) == Some(false)
  {
    var rd := [(RankNumber(0), 900.0), (RankNumber(1), 1.0), (RankNumber(0), 1.0)];
    var ds := Durations(rd);
    assert ds == [900.0, 1.0, 1.0] && ds[1..] == [1.0, 1.0] && ds[1..][1..] == [1.0];
    assert Sort([1.0], RealLe) == [1.0] by {
      assert [1.0][1..] == [];
    }
    assert Sort([1.0, 1.0], RealLe) == [1.0, 1.0];
    assert Insert(900.0, [1.0], RealLe) == [1.0, 900.0] by {
      assert [1.0][1..] == [];
    }
    assert [1.0, 1.0][1..] == [1.0];
    assert Sort(ds, RealLe) == [1.0, 1.0, 900.0];
    assert Median(ds) == 1.0;
    assert SlowTiming(rd, 0, 100.0);
    assert rd[2] == (RankNumber(0), 1.0);
  }

  // ---------- Only differences of durations matter ----------

  function Shift(ds: seq<real>, c: real): seq<real> {
    seq(|ds|, i requires 0 <= i < |ds| => ds[i] + c)
  }

  function ShiftTimings(rd: seq<(Rank, real)>, c: real): seq<(Rank, real)> {
    seq(|rd|, i requires 0 <= i < |rd| => (rd[i].0, rd[i].1 + c))
  }

  /** The same records, every duration longer by `c`. */
  function ShiftRecords(records: seq<Record>, c: real): seq<Record> {
    seq(|records|, i requires 0 <= i < |records| =>
      if records[i].durationUs.Some? then records[i].(durationUs := Some(records[i].durationUs.value + c))
      else records[i])
  }

  lemma {:induction false} InsertShifted(d: real, ds: seq<real>, c: real)
    ensures Insert(d + c, Shift(ds, c), RealLe) == Shift(Insert(d, ds, RealLe), c)
  {
    if ds != [] && !RealLe(d, ds[0]) {
      InsertShifted(d, ds[1..], c);
      assert Shift(ds, c)[1..] == Shift(ds[1..], c);
    }
  }

  lemma {:induction false} SortShifted(ds: seq<real>, c: real)
    ensures Sort(Shift(ds, c), RealLe) == Shift(Sort(ds, RealLe), c)
  {
    if ds != [] {
      assert Shift(ds, c)[1..] == Shift(ds[1..], c);
      SortShifted(ds[1..], c);
      InsertShifted(ds[0], Sort(ds[1..], RealLe), c);
    }
  }

  lemma MedianShifted(ds: seq<real>, c: real)
    requires ds != []
    ensures Median(Shift(ds, c)) == Median(ds) + c
  {
    SortShifted(ds, c);
    SortPermutes(ds, RealLe);
  }

  lemma {:induction false} TimingsShifted(records: seq<Record>, t: Key, c: real)
    ensures Timings(ShiftRecords(records, c), t) == ShiftTimings(Timings(records, t), c)
  {
    if records != [] {
      var n := |records| - 1;
      assert ShiftRecords(records, c)[..n] == ShiftRecords(records[..n], c);
      TimingsShifted(records[..n], t, c);
    }
  }

  lemma {:induction false} LastFlagShifted(rd: seq<(Rank, real)>, rank: Rank, median: real, thresholdUs: real, c: real)
    ensures LastFlag(ShiftTimings(rd, c), rank, median + c, thresholdUs) == LastFlag(rd, rank, median, thresholdUs)
  {
    if rd != [] {
      var n := |rd| - 1;
      assert ShiftTimings(rd, c)[..n] == ShiftTimings(rd[..n], c);
      LastFlagShifted(rd[..n], rank, median, thresholdUs, c);
    }
  }

  /** Adding one constant to all durations changes no flag. */
  lemma FlagsIgnoreCommonDelay(records: seq<Record>, t: Key, rank: Rank, thresholdUs: real, c: real)
    ensures Flag(Timings(ShiftRecords(records, c), t), rank, thresholdUs) ==
            Flag(Timings(records, t), rank, thresholdUs)
  {
    var rd := Timings(records, t);
    TimingsShifted(records, t, c);
    if |rd| >= 2 {
      assert Durations(ShiftTimings(rd, c)) == Shift(Durations(rd), c);
      MedianShifted(Durations(rd), c);
      LastFlagShifted(rd, rank, Median(Durations(rd)), thresholdUs, c);
    }
  }

  // ---------- What the records of a poll end up with ----------

  lemma TimingsAppend(records: seq<Record>, m: Record, t: Key)
    ensures Timings([], t) == []
    ensures Timings(records + [m], t) ==
            Timings(records, t) +
            if Truthy(m.collectiveType) && !m.rank.Null? && m.durationUs.Some? && KeyOf(m.collectiveType) == Some(t)
            then [(KeyOf(m.rank), m.durationUs.value)] else []
  {
    assert (records + [m])[..|records|] == records;
  }

  /**
   * Annotation marks exactly the records with a truthy type and a rank: with 1 if the type has two timings
   * and the rank's last one is slow, else with 0. Nothing else changes.
   */
  lemma MarkedExactlyWhen(records: seq<Record>, i: nat, thresholdUs: real)
    requires i < |records|
    ensures |Annotated(records, thresholdUs)| == |records|
    ensures var m, a := records[i], Annotated(records, thresholdUs)[i];
            && a.(isStraggler := None) == m.(isStraggler := None)
            && (if Truthy(m.collectiveType) && !m.rank.Null? && KeyOf(m.collectiveType).Some?
                then
                  var rd := Timings(records, KeyOf(m.collectiveType).value);
                  && a.isStraggler in {Some(0), Some(1)}
                  && (a.isStraggler == Some(1) <==>
                        |rd| >= 2 && exists k :: 0 <= k < |rd| && rd[k].0 == KeyOf(m.rank) && LastOfRank(rd, k)
                                                 && SlowTiming(rd, k, thresholdUs))
                else a.isStraggler == m.isStraggler)
  {
    hide Timings, Truthy, KeyOf, Median, LastFlag;
    var m := records[i];
    if IsRanked(m) && KeyOf(m.collectiveType).Some? {
      var rd := Timings(records, KeyOf(m.collectiveType).value);
      if |rd| >= 2 {
        LastFlagIsOfLast(rd, KeyOf(m.rank), Median(Durations(rd)), thresholdUs);
      }
    }
  }
}
