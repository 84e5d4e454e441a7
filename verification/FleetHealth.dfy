/** `FleetHealthTracker` of fleet_health.py: sliding windows as filters of the recorded history. */
module FleetHealth {
  import opened Wrappers

  /** (unix timestamp, value) */
  type Observation = (real, real)

  /** The arguments of one `observe` call and the time it read. */
  datatype Reading = Reading(
    now: real,
    xid: Option<int>,
    sbeTotal: Option<int>,
    dbeTotal: Option<int>,
    temperature: Option<real>,
    rowRemapAvail: Option<int>)

  // ---------- What a history says ----------

  predicate Stale(o: Observation, now: real, window: real) { now - o.0 > window }

  /** The observations no older than the window at `now`. */
  function Recent(s: seq<Observation>, now: real, window: real): seq<Observation> {
    if s == [] then []
    else
      var n := |s| - 1;
      Recent(s[..n], now, window) + if Stale(s[n], now, window) then [] else [s[n]]
  }

  predicate IsError(xid: Option<int>) { xid.Some? && xid.value != 0 }

  /** The error code last reported, if any. */
  function LastXid(h: seq<Reading>): Option<int> {
    if h == [] then None
    else if IsError(h[|h| - 1].xid) then h[|h| - 1].xid
    else LastXid(h[..|h| - 1])
  }

  /** One event for each report of an error code other than the one last reported. */
  function XidChanges(h: seq<Reading>): seq<Observation> {
    if h == [] then []
    else
      var n := |h| - 1;
      XidChanges(h[..n]) +
      if IsError(h[n].xid) && h[n].xid != LastXid(h[..n]) then [(h[n].now, h[n].xid.value as real)] else []
  }

  function SbeReadings(h: seq<Reading>): seq<Observation> {
    if h == [] then []
    else
      var n := |h| - 1;
      SbeReadings(h[..n]) + if h[n].sbeTotal.Some? then [(h[n].now, h[n].sbeTotal.value as real)] else []
  }

  function Temperatures(h: seq<Reading>): seq<Observation> {
    if h == [] then []
    else
      var n := |h| - 1;
      Temperatures(h[..n]) + if h[n].temperature.Some? then [(h[n].now, h[n].temperature.value)] else []
  }

  function LastDbe(h: seq<Reading>): int {
    if h == [] then 0
    else if h[|h| - 1].dbeTotal.Some? then h[|h| - 1].dbeTotal.value
    else LastDbe(h[..|h| - 1])
  }

  function LastRowRemap(h: seq<Reading>): Option<int> {
    if h == [] then None
    else if h[|h| - 1].rowRemapAvail.Some? then h[|h| - 1].rowRemapAvail
    else LastRowRemap(h[..|h| - 1])
  }

  /** Recent as of the last observation itself. */
  function RecentAtLast(s: seq<Observation>, window: real): seq<Observation> {
    if s == [] then [] else Recent(s, s[|s| - 1].0, window)
  }

  function RecentXids(h: seq<Reading>, window: real): seq<Observation> {
    if h == [] then [] else Recent(XidChanges(h), h[|h| - 1].now, window)
  }

  // ---------- Trimming a window ----------

  predicate Ascending(s: seq<Observation>) {
    forall i, j :: 0 <= i < j < |s| ==> s[i].0 <= s[j].0
  }

  predicate NoLaterThan(s: seq<Observation>, now: real) {
    forall i :: 0 <= i < |s| ==> s[i].0 <= now
  }

  lemma {:induction false} AllFresh(s: seq<Observation>, now: real, window: real)
    requires forall i :: 0 <= i < |s| ==> !Stale(s[i], now, window)
    ensures Recent(s, now, window) == s
  {
    if s != [] {
      AllFresh(s[..|s| - 1], now, window);
    }
  }

  lemma {:induction false} FirstStale(s: seq<Observation>, now: real, window: real)
    requires s != [] && Stale(s[0], now, window)
    ensures Recent(s, now, window) == Recent(s[1..], now, window)
  {
    var n := |s| - 1;
    if n > 0 {
      FirstStale(s[..n], now, window);
      assert s[1..][..n - 1] == s[..n][1..];
    } else {
      assert s[..0] == [];
    }
  }

  lemma {:induction false} RecentKeepsOrder(s: seq<Observation>, now: real, window: real, bound: real)
    requires Ascending(s) && NoLaterThan(s, bound)
    ensures Ascending(Recent(s, now, window)) && NoLaterThan(Recent(s, now, window), bound)
  {
    if s != [] {
      var n := |s| - 1;
      RecentKeepsOrder(s[..n], now, window, s[n].0);
    }
  }

  /** What is stale stays stale, so trimming early loses nothing that a later trim would keep. */
  lemma {:induction false} RecentOfRecent(s: seq<Observation>, t1: real, t2: real, window: real)
    requires t1 <= t2
    ensures Recent(Recent(s, t1, window), t2, window) == Recent(s, t2, window)
  {
    if s != [] {
      var n := |s| - 1;
      RecentOfRecent(s[..n], t1, t2, window);
      var before := Recent(s[..n], t1, window);
      RecentAppend(before, s[n], t2, window);
      assert before + [] == before;
    }
  }

  lemma RecentAppend(s: seq<Observation>, o: Observation, now: real, window: real)
    ensures Recent(s + [o], now, window) == Recent(s, now, window) + if now - o.0 > window then [] else [o]
  {
    assert (s + [o])[..|s|] == s;
  }

  /** What is kept of an ascending buffer is its end. */
  lemma {:induction false} KeptIsSuffix(s: seq<Observation>, now: real, window: real) returns (k: nat)
    requires Ascending(s)
    ensures k <= |s| && Recent(s, now, window) == s[k..]
    ensures forall i :: 0 <= i < |s| ==> (k <= i <==> now - s[i].0 <= window)
  {
    if s != [] && Stale(s[0], now, window) {
      FirstStale(s, now, window);
      var rest := KeptIsSuffix(s[1..], now, window);
      k := rest + 1;
      assert forall i :: 1 <= i < |s| ==> s[i] == s[1..][i - 1];
    } else {
      k := 0;
      AllFresh(s, now, window);
    }
  }

  /** `_trim`: popping from the left while the oldest is stale leaves the filter of an ascending buffer. */
  method Trim(buf: seq<Observation>, now: real, window: real) returns (r: seq<Observation>)
    requires Ascending(buf)
    ensures r == Recent(buf, now, window)
    ensures |r| <= |buf| && r == buf[|buf| - |r|..]
    ensures forall i :: 0 <= i < |buf| ==> (now - buf[i].0 <= window <==> |buf| - |r| <= i)
  {
    hide Recent;
    r := buf;
    while r != [] && now - r[0].0 > window
      invariant Ascending(r)
      invariant Recent(r, now, window) == Recent(buf, now, window)
      decreases |r|
    {
      FirstStale(r, now, window);
      r := r[1..];
    }
    ghost var none := KeptIsSuffix(r, now, window);
    ghost var k := KeptIsSuffix(buf, now, window);
    assert none == 0 && r[0..] == r;
  }

  /** The readings of a counter or thermometer kept are those no older than the window at its last reading. */
  lemma KeptAtLast(s: seq<Observation>, window: real) returns (k: nat)
    requires Ascending(s)
    ensures k <= |s| && RecentAtLast(s, window) == s[k..]
    ensures forall i :: 0 <= i < |s| ==> (k <= i <==> s[|s| - 1].0 - s[i].0 <= window)
  {
    if s != [] {
      k := KeptIsSuffix(s, s[|s| - 1].0, window);
    } else {
      k := 0;
    }
  }

  /** The XID events kept are those no older than the window at the last reading of any kind. */
  lemma KeptXidEvents(h: seq<Reading>, window: real) returns (k: nat)
    requires h != [] && Timed(h, h[|h| - 1].now)
    ensures k <= |XidChanges(h)| && RecentXids(h, window) == XidChanges(h)[k..]
    ensures forall i :: 0 <= i < |XidChanges(h)| ==>
              (k <= i <==> h[|h| - 1].now - XidChanges(h)[i].0 <= window)
  {
    SignalsAreTimed(h, h[|h| - 1].now);
    k := KeptIsSuffix(XidChanges(h), h[|h| - 1].now, window);
  }

  // ---------- Histories grow by one reading ----------

  ghost predicate Timed(h: seq<Reading>, clock: real) {
    && (forall i :: 0 <= i < |h| ==> h[i].now <= clock)
    && (forall i, j :: 0 <= i < j < |h| ==> h[i].now <= h[j].now)
  }

  lemma TimedAppend(s: seq<Observation>, new': seq<Observation>, now: real, clock: real)
    requires Ascending(s) && NoLaterThan(s, now) && now <= clock
    requires |new'| <= 1 && (new' != [] ==> new'[0].0 == now)
    ensures Ascending(s + new') && NoLaterThan(s + new', clock)
  {
  }

  lemma {:induction false} SignalsAreTimed(h: seq<Reading>, clock: real)
    requires Timed(h, clock)
    ensures Ascending(XidChanges(h)) && NoLaterThan(XidChanges(h), clock)
    ensures Ascending(SbeReadings(h)) && NoLaterThan(SbeReadings(h), clock)
    ensures Ascending(Temperatures(h)) && NoLaterThan(Temperatures(h), clock)
  {
    if h != [] {
      hide Ascending, NoLaterThan;
      var n := |h| - 1;
      var before, r := h[..n], h[n];
      SignalsAreTimed(before, r.now);
      TimedAppend(XidChanges(before), NewXids(before, r), r.now, clock);
      TimedAppend(SbeReadings(before), if r.sbeTotal.Some? then [(r.now, r.sbeTotal.value as real)] else [],
                  r.now, clock);
      TimedAppend(Temperatures(before), if r.temperature.Some? then [(r.now, r.temperature.value)] else [],
                  r.now, clock);
    } else {
    }
  }

  /** A window trimmed at its last observation, extended and trimmed at the new one. */
  lemma ExtendAtLast(s: seq<Observation>, o: Observation, window: real)
    requires Ascending(s) && NoLaterThan(s, o.0)
    ensures Ascending(RecentAtLast(s, window) + [o])
    ensures Recent(RecentAtLast(s, window) + [o], o.0, window) == RecentAtLast(s + [o], window)
  {
    RecentAppend(RecentAtLast(s, window), o, o.0, window);
    RecentAppend(s, o, o.0, window);
    if s != [] {
      RecentOfRecent(s, s[|s| - 1].0, o.0, window);
      RecentKeepsOrder(s, s[|s| - 1].0, window, o.0);
    }
  }

  /** The buffers and last values that a GPU's history calls for. */
  class GpuWindow {
    var xidEvents: seq<Observation>
    var sbeCounts: seq<Observation>
    var temperatures: seq<Observation>
    var lastXid: Option<int>
    var lastDbeTotal: int
    var lastRowRemapAvailable: Option<int>

    constructor ()
      ensures xidEvents == [] && sbeCounts == [] && temperatures == []
      ensures lastXid == None && lastDbeTotal == 0 && lastRowRemapAvailable == None
      ensures forall window :: Reflects([], window)
    {
      xidEvents, sbeCounts, temperatures := [], [], [];
      lastXid, lastDbeTotal, lastRowRemapAvailable := None, 0, None;
    }

    ghost predicate Reflects(h: seq<Reading>, window: real)
      reads this
    {
      && xidEvents == RecentXids(h, window)
      && sbeCounts == RecentAtLast(SbeReadings(h), window)
      && temperatures == RecentAtLast(Temperatures(h), window)
      && lastXid == LastXid(h)
      && lastDbeTotal == LastDbe(h)
      && lastRowRemapAvailable == LastRowRemap(h)
    }

    /** The body of `observe` on one GPU's window. */
    method Record(r: Reading, window: real, ghost h: seq<Reading>)
      requires Reflects(h, window) && Timed(h, r.now)
      modifies this
      ensures Reflects(h + [r], window)
    {
      hide Timed, Ascending, NoLaterThan, RecentXids, RecentAtLast, XidChanges, SbeReadings, Temperatures,
           LastXid, LastDbe, LastRowRemap;
      SignalsAreTimed(h, r.now);
      AppendReading(h, r);
      RecordXid(r, window, h);
      sbeCounts := Extend(sbeCounts, r.now, if r.sbeTotal.Some? then Some(r.sbeTotal.value as real) else None,
                          window, SbeReadings(h));
      if r.dbeTotal.Some? {
        lastDbeTotal := r.dbeTotal.value;
      }
      temperatures := Extend(temperatures, r.now, r.temperature, window, Temperatures(h));
      if r.rowRemapAvail.Some? {
        lastRowRemapAvailable := r.rowRemapAvail;
      }
    }

    /** The arithmetic of `compute`. */
    method Signals(p: PcieLink, window: real, ghost h: seq<Reading>, ghost clock: real)
      returns (r: Result<Metrics, ArithmeticError>)
      requires Reflects(h, window) && Timed(h, clock)
      ensures r.Err? <==> window == 0.0 && RecentXids(h, window) != []
      ensures r.Ok? ==>
                && r.value.healthScore == 100.0 - Penalties(h, p, window)
                && r.value.healthScore == 100.0 - Cost(r.value.pcieLinkDowntraining, r.value.eccSbeRate, LastDbe(h),
                                                       r.value.rowRemapAvailable, r.value.xidErrorRate,
                                                       r.value.thermalRampRate)
                && 0.0 <= r.value.healthScore <= 100.0
                && r.value == Metrics(
                     LastXid(h), XidRate(RecentXids(h, window), window), SbeRate(RecentAtLast(SbeReadings(h), window)),
                     if LastDbe(h) > 0 then Some(LastDbe(h)) else None, LastRowRemap(h), Downtraining(p),
                     ThermalRamp(RecentAtLast(Temperatures(h), window)), r.value.healthScore)
    {
      if xidEvents != [] && window == 0.0 {
        return Err(ZeroDivision);
      }
      PenaltiesFitTheScale(h, p, clock, window);
      var xidRate := XidRate(xidEvents, window);
      var sbeRate := SbeRate(sbeCounts);
      var thermalRamp := ThermalRamp(temperatures);
      var downtraining := Downtraining(p);
      hide *;
      var score := Score(downtraining, sbeRate, lastDbeTotal, lastRowRemapAvailable, xidRate, thermalRamp);
      r := Ok(Metrics(lastXid, xidRate, sbeRate, if lastDbeTotal > 0 then Some(lastDbeTotal) else None,
                      lastRowRemapAvailable, downtraining, thermalRamp, score));
    }

    /** The XID part: an event for a changed code; trimmed on every call. */
    method RecordXid(r: Reading, window: real, ghost h: seq<Reading>)
      requires xidEvents == RecentXids(h, window) && lastXid == LastXid(h) && Timed(h, r.now)
      modifies this`xidEvents, this`lastXid
      ensures xidEvents == RecentXids(h + [r], window) && lastXid == LastXid(h + [r])
    {
      hide Timed, Ascending, NoLaterThan, RecentXids, XidChanges, LastXid;
      AppendReading(h, r);
      ExtendXids(h, r, window);
      ghost var before := xidEvents;
      assert before + [] == before;
      if r.xid.Some? && r.xid.value != 0 {
        if r.xid != lastXid {
          xidEvents := xidEvents + [(r.now, r.xid.value as real)];
          lastXid := r.xid;
        }
      }
      assert xidEvents == before + NewXids(h, r);
      xidEvents := Trim(xidEvents, r.now, window);
    }
  }

  /** The SBE and temperature parts: a supplied value is appended and the buffer trimmed, else nothing happens. */
  method Extend(buf: seq<Observation>, now: real, value: Option<real>, window: real, ghost all: seq<Observation>)
    returns (r: seq<Observation>)
    requires buf == RecentAtLast(all, window) && Ascending(all) && NoLaterThan(all, now)
    ensures r == RecentAtLast(all + if value.Some? then [(now, value.value)] else [], window)
  {
    r := buf;
    if value.Some? {
      ExtendAtLast(all, (now, value.value), window);
      r := r + [(now, value.value)];
      r := Trim(r, now, window);
    } else {
      assert all + [] == all;
    }
  }

  lemma NoReadings()
    ensures XidChanges([]) == [] && SbeReadings([]) == [] && Temperatures([]) == []
    ensures LastXid([]).None? && LastRowRemap([]).None? && LastDbe([]) == 0
  {
  }

  /** A reading records an XID event exactly for an error code other than the last one reported. */
  lemma XidIsRecordedExactlyWhen(h: seq<Reading>, r: Reading)
    ensures var changed := r.xid.Some? && r.xid.value != 0 && r.xid != LastXid(h);
            XidChanges(h + [r]) == XidChanges(h) + if changed then [(r.now, r.xid.value as real)] else []
    ensures LastXid(h + [r]) == if r.xid.Some? && r.xid.value != 0 then r.xid else LastXid(h)
  {
    AppendReading(h, r);
  }

  /** What one more reading adds to each signal. */
  lemma AppendReading(h: seq<Reading>, r: Reading)
    ensures XidChanges(h + [r]) == XidChanges(h) + NewXids(h, r)
    ensures LastXid(h + [r]) == if IsError(r.xid) then r.xid else LastXid(h)
    ensures SbeReadings(h + [r]) ==
            SbeReadings(h) + if r.sbeTotal.Some? then [(r.now, r.sbeTotal.value as real)] else []
    ensures Temperatures(h + [r]) ==
            Temperatures(h) + if r.temperature.Some? then [(r.now, r.temperature.value)] else []
    ensures LastDbe(h + [r]) == if r.dbeTotal.Some? then r.dbeTotal.value else LastDbe(h)
    ensures LastRowRemap(h + [r]) == if r.rowRemapAvail.Some? then r.rowRemapAvail else LastRowRemap(h)
  {
    assert (h + [r])[..|h|] == h;
  }

  function NewXids(h: seq<Reading>, r: Reading): seq<Observation> {
    if IsError(r.xid) && r.xid != LastXid(h) then [(r.now, r.xid.value as real)] else []
  }

  /** Trimming what was trimmed before, with or without one more event, is trimming everything. */
  lemma ExtendTrimmed(
      events: seq<Observation>, kept: seq<Observation>, fresh': seq<Observation>, now: real, window: real)
    requires |fresh'| <= 1 && Recent(kept, now, window) == Recent(events, now, window)
    ensures Recent(kept + fresh', now, window) == Recent(events + fresh', now, window)
  {
    hide Recent, Stale;
    if fresh' == [] {
      assert kept + fresh' == kept && events + fresh' == events;
    } else {
      assert fresh' == [fresh'[0]];
      RecentAppend(kept, fresh'[0], now, window);
      RecentAppend(events, fresh'[0], now, window);
    }
  }

  /** The XID buffer before a call: ascending, and the same to trim now as all events so far. */
  lemma KeptXids(h: seq<Reading>, now: real, window: real)
    requires Timed(h, now)
    ensures Ascending(RecentXids(h, window)) && NoLaterThan(RecentXids(h, window), now)
    ensures Recent(RecentXids(h, window), now, window) == Recent(XidChanges(h), now, window)
  {
    SignalsAreTimed(h, now);
    hide Recent, Ascending, NoLaterThan;
    if h != [] {
      hide XidChanges;
      RecentOfRecent(XidChanges(h), h[|h| - 1].now, now, window);
      RecentKeepsOrder(XidChanges(h), h[|h| - 1].now, window, now);
    } else {
      NothingIsTimed(now);
      assert XidChanges(h) == [];
    }
  }

  lemma NothingIsTimed(now: real)
    ensures Ascending([]) && NoLaterThan([], now)
  {
  }

  lemma ExtendXids(h: seq<Reading>, r: Reading, window: real)
    requires Timed(h, r.now)
    ensures Ascending(RecentXids(h, window) + NewXids(h, r))
    ensures Recent(RecentXids(h, window) + NewXids(h, r), r.now, window) == RecentXids(h + [r], window)
  {
    hide Recent, XidChanges, Timed, NoLaterThan, Ascending;
    KeptXids(h, r.now, window);
    AppendReading(h, r);
    TimedAppend(RecentXids(h, window), NewXids(h, r), r.now, r.now);
    ExtendTrimmed(XidChanges(h), RecentXids(h, window), NewXids(h, r), r.now, window);
  }

  // ---------- Health signals ----------

  function Min(a: real, b: real): (r: real)
    ensures r <= a && r <= b && r in {a, b}
  {
    if b < a then b else a
  }

  function Max(a: real, b: real): (r: real)
    ensures r >= a && r >= b && r in {a, b}
  {
    if b > a then b else a
  }

  /** Events per hour over the window; dividing by an empty window raises. */
  function XidRate(events: seq<Observation>, window: real): Option<real>
    requires events != [] ==> window != 0.0
  {
    if events == [] then None else Some(|events| as real / (window / 3600.0))
  }

  /** Increments per hour between the oldest and the newest reading kept. */
  function SbeRate(s: seq<Observation>): Option<real> {
    if |s| < 2 then None
    else
      var elapsed := (s[|s| - 1].0 - s[0].0) / 3600.0;
      if elapsed > 0.0 then Some(Max(0.0, (s[|s| - 1].1 - s[0].1) / elapsed)) else None
  }

  /** Degrees per minute between the oldest and the newest reading kept. */
  function ThermalRamp(s: seq<Observation>): Option<real> {
    if |s| < 2 then None
    else
      var elapsed := (s[|s| - 1].0 - s[0].0) / 60.0;
      if elapsed > 0.0 then Some((s[|s| - 1].1 - s[0].1) / elapsed) else None
  }

  /** The link figures passed to `compute`; None where NVML gave nothing. */
  datatype PcieLink = PcieLink(
    genCurrent: Option<int>, genMax: Option<int>, widthCurrent: Option<int>, widthMax: Option<int>)

  function Downtraining(p: PcieLink): Option<int> {
    if p.genCurrent.None? || p.genMax.None? then None
    else
      var slower := p.genCurrent.value < p.genMax.value;
      var narrower := p.widthCurrent.Some? && p.widthMax.Some? && p.widthCurrent.value < p.widthMax.value;
      Some(if slower || narrower then 1 else 0)
  }

  datatype Metrics = Metrics(
    xidLastErrorCode: Option<int>,
    xidErrorRate: Option<real>,
    eccSbeRate: Option<real>,
    eccDbeTotal: Option<int>,
    rowRemapAvailable: Option<int>,
    pcieLinkDowntraining: Option<int>,
    thermalRampRate: Option<real>,
    healthScore: real)

  datatype ArithmeticError = ZeroDivision

  function SbeCost(sbe: Option<real>): real {
    if sbe.Some? then 20.0 * Min(1.0, sbe.value / 10.0) else 0.0
  }

  function XidCost(xid: Option<real>): real {
    if xid.Some? then 15.0 * Min(1.0, xid.value / 5.0) else 0.0
  }

  /** What the signals cost, out of 100. */
  function Cost(downtraining: Option<int>, sbe: Option<real>, dbe: int, remap: Option<int>,
                xid: Option<real>, ramp: Option<real>): real
  {
    (if downtraining == Some(1) then 10.0 else 0.0)
    + SbeCost(sbe)
    + (if dbe > 0 then 30.0 else 0.0)
    + (if remap == Some(0) then 15.0 else 0.0)
    + XidCost(xid)
    + (if ramp.Some? && ramp.value > 2.0 then 10.0 else 0.0)
  }

  /** The score of `compute`, deducted signal by signal. */
  method Score(downtraining: Option<int>, sbe: Option<real>, dbe: int, remap: Option<int>,
               xid: Option<real>, ramp: Option<real>) returns (score: real)
    ensures var cost := Cost(downtraining, sbe, dbe, remap, xid, ramp);
            score == if cost <= 100.0 then 100.0 - cost else 0.0
  {
    hide Min;
    score := 100.0;
    if downtraining == Some(1) {
      score := score - 10.0;
    }
    if sbe.Some? {
      score := score - 20.0 * Min(1.0, sbe.value / 10.0);
    }
    if dbe > 0 {
      score := score - 30.0;
    }
    if remap == Some(0) {
      score := score - 15.0;
    }
    if xid.Some? {
      score := score - 15.0 * Min(1.0, xid.value / 5.0);
    }
    if ramp.Some? && ramp.value > 2.0 {
      score := score - 10.0;
    }
    hide SbeCost, XidCost;
    score := Max(0.0, score);
  }

  /** Each signal's share of the cost, whatever the others are; without any signal there is no cost. */
  lemma SharesOfCost(downtraining: Option<int>, sbe: Option<real>, dbe: int, remap: Option<int>,
                     xid: Option<real>, ramp: Option<real>)
    ensures Cost(None, None, 0, None, None, None) == 0.0
    ensures Cost(downtraining, sbe, dbe, remap, xid, ramp) - Cost(None, sbe, dbe, remap, xid, ramp) ==
            if downtraining == Some(1) then 10.0 else 0.0
    ensures Cost(downtraining, sbe, dbe, remap, xid, ramp) - Cost(downtraining, None, dbe, remap, xid, ramp) ==
            if sbe.None? then 0.0 else if sbe.value <= 10.0 then 2.0 * sbe.value else 20.0
    ensures Cost(downtraining, sbe, dbe, remap, xid, ramp) - Cost(downtraining, sbe, 0, remap, xid, ramp) ==
            if dbe > 0 then 30.0 else 0.0
    ensures Cost(downtraining, sbe, dbe, remap, xid, ramp) - Cost(downtraining, sbe, dbe, None, xid, ramp) ==
            if remap == Some(0) then 15.0 else 0.0
    ensures Cost(downtraining, sbe, dbe, remap, xid, ramp) - Cost(downtraining, sbe, dbe, remap, None, ramp) ==
            if xid.None? then 0.0 else if xid.value <= 5.0 then 3.0 * xid.value else 15.0
    ensures Cost(downtraining, sbe, dbe, remap, xid, ramp) - Cost(downtraining, sbe, dbe, remap, xid, None) ==
            if ramp.Some? && ramp.value > 2.0 then 10.0 else 0.0
  {
    SbeShare(sbe);
    XidShare(xid);
    hide SbeCost, XidCost;
  }

  lemma SbeShare(sbe: Option<real>)
    ensures SbeCost(None) == 0.0
    ensures sbe.Some? ==> SbeCost(sbe) == if sbe.value <= 10.0 then 2.0 * sbe.value else 20.0
  {
  }

  lemma XidShare(xid: Option<real>)
    ensures XidCost(None) == 0.0
    ensures xid.Some? ==> XidCost(xid) == if xid.value <= 5.0 then 3.0 * xid.value else 15.0
  {
  }

  lemma DividedBack(a: real, b: real)
    requires b != 0.0
    ensures a / b * b == a
  {
  }

  /** The XID rate per hour, times the hours of the window, is the number of events. */
  lemma XidRateTimesHours(events: seq<Observation>, window: real)
    requires events != [] ==> window != 0.0
    ensures XidRate(events, window).Some? <==> events != []
    ensures events != [] ==> XidRate(events, window).value * window == 3600.0 * |events| as real
  {
    if events != [] {
      DividedBack(|events| as real, window / 3600.0);
    }
  }

  /** The SBE rate per hour, times the hours between the readings, is the increase, or 0 for a decrease. */
  lemma SbeRateTimesHours(s: seq<Observation>)
    ensures SbeRate(s).Some? <==> |s| >= 2 && s[|s| - 1].0 > s[0].0
    ensures SbeRate(s).Some? ==>
              SbeRate(s).value * (s[|s| - 1].0 - s[0].0) ==
              if s[|s| - 1].1 >= s[0].1 then 3600.0 * (s[|s| - 1].1 - s[0].1) else 0.0
  {
    if |s| >= 2 {
      var elapsed := (s[|s| - 1].0 - s[0].0) / 3600.0;
      var gain := s[|s| - 1].1 - s[0].1;
      if elapsed > 0.0 {
        DividedBack(gain, elapsed);
        QuotientSign(gain, elapsed);
      }
    }
  }

  lemma QuotientSign(a: real, b: real)
    requires b > 0.0
    ensures a / b >= 0.0 <==> a >= 0.0
  {
  }

  /** The ramp in degrees a minute, times the minutes between the readings, is the rise. */
  lemma RampTimesMinutes(s: seq<Observation>)
    ensures ThermalRamp(s).Some? <==> |s| >= 2 && s[|s| - 1].0 > s[0].0
    ensures ThermalRamp(s).Some? ==>
              ThermalRamp(s).value * (s[|s| - 1].0 - s[0].0) == 60.0 * (s[|s| - 1].1 - s[0].1)
  {
    if |s| >= 2 {
      var elapsed := (s[|s| - 1].0 - s[0].0) / 60.0;
      if elapsed > 0.0 {
        DividedBack(s[|s| - 1].1 - s[0].1, elapsed);
      }
    }
  }

  /** A link is judged when both generations are known, and by its width too when both widths are. */
  lemma DowntrainingExactlyWhen(p: PcieLink)
    ensures Downtraining(p).None? <==> p.genCurrent.None? || p.genMax.None?
    ensures Downtraining(p) == Some(1) <==>
            exists gen, genMax :: p.genCurrent == Some(gen) && p.genMax == Some(genMax)
              && (gen < genMax
                  || exists width, widthMax ::
                       p.widthCurrent == Some(width) && p.widthMax == Some(widthMax) && width < widthMax)
    ensures Downtraining(p) in {None, Some(0), Some(1)}
  {
  }

  /** The second signal is raised no less than the first. */
  predicate NoBetter(a: Option<real>, b: Option<real>) {
    a.Some? ==> b.Some? && a.value <= b.value
  }

  lemma CappedShareGrows(a: real, b: real, d: real)
    requires a <= b && 0.0 <= b && d > 0.0
    ensures Min(1.0, a / d) <= Min(1.0, b / d) && 0.0 <= Min(1.0, b / d)
  {
    assert b / d - a / d == (b - a) / d;
  }

  lemma SbeCostGrows(a: Option<real>, b: Option<real>)
    requires NoBetter(a, b) && (b.Some? ==> b.value >= 0.0)
    ensures SbeCost(a) <= SbeCost(b)
  {
    hide Min;
    if b.Some? {
      CappedShareGrows(if a.Some? then a.value else b.value, b.value, 10.0);
    }
  }

  lemma XidCostGrows(a: Option<real>, b: Option<real>)
    requires NoBetter(a, b) && (b.Some? ==> b.value >= 0.0)
    ensures XidCost(a) <= XidCost(b)
  {
    hide Min;
    if b.Some? {
      CappedShareGrows(if a.Some? then a.value else b.value, b.value, 5.0);
    }
  }

  lemma CostRanges(sbe: Option<real>, xid: Option<real>)
    requires (sbe.Some? ==> sbe.value >= 0.0) && (xid.Some? ==> xid.value > 0.0)
    ensures 0.0 <= SbeCost(sbe) <= 20.0 && (SbeCost(sbe) == 0.0 <==> sbe in {None, Some(0.0)})
    ensures 0.0 <= XidCost(xid) <= 15.0 && (XidCost(xid) == 0.0 <==> xid.None?)
  {
    if sbe.Some? {
      assert sbe.value / 10.0 >= 0.0 && (sbe.value / 10.0 == 0.0 <==> sbe.value == 0.0);
    }
    if xid.Some? {
      assert xid.value / 5.0 > 0.0;
    }
  }

  /** Worse signals never cost less. */
  lemma WorseSignalsCostMore(
      downtraining: Option<int>, sbe: Option<real>, dbe: int, remap: Option<int>, xid: Option<real>, ramp: Option<real>,
      downtraining': Option<int>, sbe': Option<real>, dbe': int, remap': Option<int>, xid': Option<real>,
      ramp': Option<real>)
    requires downtraining == Some(1) ==> downtraining' == Some(1)
    requires remap == Some(0) ==> remap' == Some(0)
    requires dbe <= dbe' && NoBetter(sbe, sbe') && NoBetter(xid, xid') && NoBetter(ramp, ramp')
    requires (sbe'.Some? ==> sbe'.value >= 0.0) && (xid'.Some? ==> xid'.value >= 0.0)
    ensures Cost(downtraining, sbe, dbe, remap, xid, ramp) <= Cost(downtraining', sbe', dbe', remap', xid', ramp')
  {
    hide SbeCost, XidCost;
    SbeCostGrows(sbe, sbe');
    XidCostGrows(xid, xid');
  }

  /** What a history and a link state cost. */
  function Penalties(h: seq<Reading>, p: PcieLink, window: real): real
    requires RecentXids(h, window) != [] ==> window != 0.0
  {
    Cost(Downtraining(p), SbeRate(RecentAtLast(SbeReadings(h), window)), LastDbe(h), LastRowRemap(h),
         XidRate(RecentXids(h, window), window), ThermalRamp(RecentAtLast(Temperatures(h), window)))
  }

  lemma {:induction false} NothingRecentInNegativeWindow(s: seq<Observation>, now: real, window: real)
    requires NoLaterThan(s, now) && window < 0.0
    ensures Recent(s, now, window) == []
  {
    if s != [] {
      NothingRecentInNegativeWindow(s[..|s| - 1], now, window);
    }
  }

  lemma KeptXidsNeedAWindow(h: seq<Reading>, clock: real, window: real)
    requires Timed(h, clock) && RecentXids(h, window) != []
    ensures window >= 0.0
  {
    SignalsAreTimed(h, h[|h| - 1].now);
    if window < 0.0 {
      NothingRecentInNegativeWindow(XidChanges(h), h[|h| - 1].now, window);
    }
  }

  lemma XidRateIsPositive(events: seq<Observation>, window: real)
    requires events != [] && window > 0.0
    ensures XidRate(events, window).value > 0.0
  {
    PositiveQuotient(|events| as real, window / 3600.0);
  }

  lemma RatesAreNotNegative(h: seq<Reading>, clock: real, window: real)
    requires Timed(h, clock) && (RecentXids(h, window) != [] ==> window != 0.0)
    ensures XidRate(RecentXids(h, window), window).Some? ==> XidRate(RecentXids(h, window), window).value > 0.0
    ensures SbeRate(RecentAtLast(SbeReadings(h), window)).Some? ==>
              SbeRate(RecentAtLast(SbeReadings(h), window)).value >= 0.0
  {
    hide RecentXids, RecentAtLast, SbeReadings, Timed;
    if RecentXids(h, window) != [] {
      KeptXidsNeedAWindow(h, clock, window);
      XidRateIsPositive(RecentXids(h, window), window);
    }
  }

  lemma PositiveQuotient(a: real, b: real)
    requires a > 0.0 && b > 0.0
    ensures a / b > 0.0
  {
  }

  /**
   * The penalties sum to at most 100, so the score's floor at 0 never changes it; and a score of
   * 100 means that no signal is raised.
   */
  lemma PenaltiesFitTheScale(h: seq<Reading>, p: PcieLink, clock: real, window: real)
    requires Timed(h, clock) && (RecentXids(h, window) != [] ==> window != 0.0)
    ensures 0.0 <= Penalties(h, p, window) <= 100.0
    ensures Penalties(h, p, window) == 0.0 <==>
            && Downtraining(p) != Some(1) && LastDbe(h) <= 0 && LastRowRemap(h) != Some(0)
            && RecentXids(h, window) == []
            && SbeRate(RecentAtLast(SbeReadings(h), window)) in {None, Some(0.0)}
            && (var ramp := ThermalRamp(RecentAtLast(Temperatures(h), window)); ramp.None? || ramp.value <= 2.0)
    ensures Max(0.0, 100.0 - Penalties(h, p, window)) == 100.0 - Penalties(h, p, window)
  {
    RatesAreNotNegative(h, clock, window);
    hide RecentXids, RecentAtLast, SbeReadings, Temperatures, LastDbe, LastRowRemap, Downtraining, SbeRate, ThermalRamp,
         Timed, SbeCost, XidCost;
    CostRanges(SbeRate(RecentAtLast(SbeReadings(h), window)), XidRate(RecentXids(h, window), window));
  }

  /** The tracker, with the history of every GPU it has been asked about. */
  class FleetHealthTracker {
    const window: real
    var gpus: map<int, GpuWindow>
    ghost var histories: map<int, seq<Reading>>
    ghost var clock: real

    /** Each GPU has its own window, and it is what the GPU's whole history calls for. */
    ghost predicate Valid()
      reads this, gpus.Values
    {
      && gpus.Keys == histories.Keys
      && (forall i, j :: i in gpus && j in gpus && i != j ==> gpus[i] != gpus[j])
      && (forall g :: g in gpus ==> Timed(histories[g], clock) && gpus[g].Reflects(histories[g], window))
    }

    constructor (windowSeconds: real, ghost start: real)
      ensures Valid() && window == windowSeconds && histories == map[] && clock == start
    {
      window := windowSeconds;
      gpus := map[];
      histories := map[];
      clock := start;
    }

    ghost function History(gpu: int): seq<Reading>
      reads this
    {
      if gpu in histories then histories[gpu] else []
    }

    /** `_get`: an unknown GPU gets an empty window. */
    method Get(gpu: int) returns (w: GpuWindow)
      requires Valid()
      modifies this`gpus, this`histories
      ensures Valid() && gpu in gpus && gpus[gpu] == w
      ensures histories == old(histories)[gpu := old(History(gpu))]
      ensures gpus == old(gpus)[gpu := w]
      ensures if gpu in old(gpus) then w == old(gpus)[gpu] && w in old(gpus).Values else fresh(w)
    {
      hide GpuWindow.Reflects;
      if gpu !in gpus {
        var empty := new GpuWindow();
        gpus := gpus[gpu := empty];
        histories := histories[gpu := []];
      }
      w := gpus[gpu];
    }

    /**
     * `observe` at a time that is not before any earlier one: the GPU's history grows by the
     * reading, every window still reflects its history, and no other window is touched.
     */
    method Observe(gpu: int, r: Reading)
      requires Valid() && clock <= r.now
      modifies this, gpus.Values
      ensures Valid() && clock == r.now
      ensures histories == old(histories)[gpu := old(History(gpu)) + [r]]
      ensures forall g :: g in old(gpus) ==> g in gpus && gpus[g] == old(gpus[g])
      ensures forall g :: g in old(gpus) && g != gpu ==> unchanged(old(gpus[g]))
    {
      hide GpuWindow.Reflects, Timed;
      var w := Get(gpu);
      RecordAt(gpu, w, r);
    }

    /** The rest of `observe`, once the GPU has its window. */
    method RecordAt(gpu: int, w: GpuWindow, r: Reading)
      requires Valid() && clock <= r.now && gpu in gpus && gpus[gpu] == w
      modifies this`histories, this`clock, w
      ensures Valid() && clock == r.now && histories == old(histories)[gpu := old(histories[gpu]) + [r]]
    {
      hide GpuWindow.Reflects, Timed;
      ghost var h := histories[gpu];
      forall g | g in gpus
        ensures Timed(histories[g], r.now) && Timed(histories[g] + [r], r.now)
      {
        TimePasses(histories[g], clock, r);
      }
      w.Record(r, window, h);
      assert forall g :: g in gpus && g != gpu ==> gpus[g] != w;
      histories := histories[gpu := h + [r]];
      clock := r.now;
    }

    /** `compute`: the signals of one GPU, from what its history leaves in its window. */
    method Compute(gpu: int, p: PcieLink) returns (r: Result<Metrics, ArithmeticError>)
      requires Valid()
      modifies this`gpus, this`histories
      ensures Valid() && histories == old(histories)[gpu := old(History(gpu))]
      ensures forall g :: g in old(gpus) ==> g in gpus && gpus[g] == old(gpus[g])
      ensures r.Err? <==> window == 0.0 && RecentXids(old(History(gpu)), window) != []
      ensures r.Ok? ==>
                var h := old(History(gpu));
                && r.value.healthScore == 100.0 - Penalties(h, p, window)
                && r.value.healthScore == 100.0 - Cost(r.value.pcieLinkDowntraining, r.value.eccSbeRate, LastDbe(h),
                                                       r.value.rowRemapAvailable, r.value.xidErrorRate,
                                                       r.value.thermalRampRate)
                && 0.0 <= r.value.healthScore <= 100.0
                && r.value.xidLastErrorCode == LastXid(h)
                && r.value.xidErrorRate == XidRate(RecentXids(h, window), window)
                && r.value.eccSbeRate == SbeRate(RecentAtLast(SbeReadings(h), window))
                && r.value.eccDbeTotal == (if LastDbe(h) > 0 then Some(LastDbe(h)) else None)
                && r.value.rowRemapAvailable == LastRowRemap(h)
                && r.value.pcieLinkDowntraining == Downtraining(p)
                && r.value.thermalRampRate == ThermalRamp(RecentAtLast(Temperatures(h), window))
    {
      hide GpuWindow.Reflects, Timed, RecentXids, RecentAtLast, XidRate, SbeRate, ThermalRamp, Downtraining, Penalties,
           LastXid, LastDbe, LastRowRemap;
      var w := Get(gpu);
      ghost var h := histories[gpu];
      r := w.Signals(p, window, h, clock);
    }
  }

  lemma TimePasses(h: seq<Reading>, clock: real, r: Reading)
    requires Timed(h, clock) && clock <= r.now
    ensures Timed(h, r.now) && Timed(h + [r], r.now)
  {
  }

  lemma {:induction false} KeptExactlyWhen(s: seq<Observation>, now: real, window: real)
    ensures Recent(s, now, window) != [] <==> exists i :: 0 <= i < |s| && !Stale(s[i], now, window)
  {
    if s != [] {
      hide Stale;
      var n := |s| - 1;
      KeptExactlyWhen(s[..n], now, window);
      assert forall i :: 0 <= i < n ==> s[..n][i] == s[i];
    }
  }

  /** In a window of length 0 an XID is kept exactly when one was recorded at the very time of the last reading. */
  lemma ZeroWindowKeepsExactlyWhen(h: seq<Reading>)
    requires h != [] && Timed(h, h[|h| - 1].now)
    ensures RecentXids(h, 0.0) != [] <==>
            exists i :: 0 <= i < |XidChanges(h)| && XidChanges(h)[i].0 == h[|h| - 1].now
  {
    hide XidChanges;
    var now := h[|h| - 1].now;
    SignalsAreTimed(h, now);
    KeptExactlyWhen(XidChanges(h), now, 0.0);
  }

  /** One XID in a window of length 0 is kept, so `compute` divides by zero. */
  lemma ZeroWindowDivides(now: real)
    ensures RecentXids([Reading(now, Some(79), None, None, None, None)], 0.0) == [(now, 79.0)]
  {
    var r := Reading(now, Some(79), None, None, None, None);
    NoReadings();
    XidIsRecordedExactlyWhen([], r);
    assert [] + [r] == [r];
    RecentAppend([], (now, 79.0), now, 0.0);
    hide XidChanges, LastXid;
    assert XidChanges([r]) == [(now, 79.0)];
    assert [] + [(now, 79.0)] == [(now, 79.0)];
  }
}
