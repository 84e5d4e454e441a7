/**
 * Rates and ratios from counter deltas in vllm_monitor.py, and the state that
 * cli/cost_monitor.py threads from one scrape to the next.
 */
module VllmCounters {
  import opened Wrappers

  datatype Sample = Sample(labels: map<string, string>, value: real)

  type Samples = map<string, seq<Sample>>

  datatype Outcome = Failed | Scraped(samples: Samples)

  datatype Counter =
    | PromptTokens | GenerationTokens | PrefixCacheHits | PrefixCacheQueries | SpecAccepted | SpecDraft
    | SpecDrafts | Preemptions | RequestSuccess | RequestStop | RequestLength | RequestAbort | CacheEvictions

  type CounterState = map<Counter, real>

  const COUNTER_KEYS := {
    PromptTokens, GenerationTokens, PrefixCacheHits, PrefixCacheQueries, SpecAccepted, SpecDraft, SpecDrafts,
    Preemptions, RequestSuccess, RequestStop, RequestLength, RequestAbort, CacheEvictions
  }

  /** The counters reported as a rate. */
  const RATED := {
    PromptTokens, GenerationTokens, CacheEvictions, Preemptions, RequestSuccess, RequestStop, RequestLength,
    RequestAbort
  }

  /** The fields of VllmMetrics that come from counters. */
  datatype VllmMetrics = VllmMetrics(
    promptTokensPerSec: Option<real>, generationTokensPerSec: Option<real>, cacheHitRate: Option<real>,
    cacheEvictionsPerSec: Option<real>, specDecodeAcceptanceRate: Option<real>, specDecodeEfficiency: Option<real>,
    preemptionsPerSec: Option<real>, requestsSuccessPerSec: Option<real>, requestsFinishedStopPerSec: Option<real>,
    requestsFinishedLengthPerSec: Option<real>, requestsFinishedAbortPerSec: Option<real>)

  const NO_METRICS := VllmMetrics(None, None, None, None, None, None, None, None, None, None, None)

  function RateOf(m: VllmMetrics, c: Counter): Option<real>
    requires c in RATED
  {
    match c
    case PromptTokens => m.promptTokensPerSec
    case GenerationTokens => m.generationTokensPerSec
    case CacheEvictions => m.cacheEvictionsPerSec
    case Preemptions => m.preemptionsPerSec
    case RequestSuccess => m.requestsSuccessPerSec
    case RequestStop => m.requestsFinishedStopPerSec
    case RequestLength => m.requestsFinishedLengthPerSec
    case RequestAbort => m.requestsFinishedAbortPerSec
  }

  lemma NoRates()
    ensures forall c :: c in RATED ==> RateOf(NO_METRICS, c) == None
  {
  }

  // ---------- Reading counters ----------

  function Get(samples: Samples, name: string): seq<Sample> {
    if name in samples then samples[name] else []
  }

  /** The first sample's value; `_read_counter` and `_read_gauge`. */
  function ReadFirst(samples: Samples, name: string): Option<real> {
    var found := Get(samples, name);
    if found == [] then None else Some(found[0].value)
  }

  function OrZero(value: Option<real>): real { if value.Some? then value.value else 0.0 }

  function GetCounter(state: CounterState, c: Counter): (r: Option<real>)
    ensures r.Some? <==> c in state
    ensures r.Some? ==> r.value == state[c]
  {
    if c in state then Some(state[c]) else None
  }

  function EmptyCounterState(): CounterState { map c | c in COUNTER_KEYS :: 0.0 }

  function Reason(s: Sample): string {
    if "finished_reason" in s.labels then s.labels["finished_reason"]
    else if "finish_reason" in s.labels then s.labels["finish_reason"]
    else ""
  }

  function SumOf(finished: seq<Sample>): real {
    if finished == [] then 0.0 else SumOf(finished[..|finished| - 1]) + finished[|finished| - 1].value
  }

  /** The value of the last sample with this reason. */
  function LastOf(finished: seq<Sample>, reason: string): real {
    if finished == [] then 0.0
    else if Reason(finished[|finished| - 1]) == reason then finished[|finished| - 1].value
    else LastOf(finished[..|finished| - 1], reason)
  }

  /** The counters that the success samples fill. */
  const FINISHED := {RequestSuccess, RequestStop, RequestLength, RequestAbort}

  const SUCCESS := "vllm:request_success_total"

  /** The value a successful scrape gives each counter; a counter the endpoint does not have reads 0. */
  function Reading(samples: Samples, c: Counter): real {
    match c
    case PromptTokens => OrZero(ReadFirst(samples, "vllm:prompt_tokens_total"))
    case GenerationTokens => OrZero(ReadFirst(samples, "vllm:generation_tokens_total"))
    case PrefixCacheHits => OrZero(ReadFirst(samples, "vllm:prefix_cache_hits_total"))
    case PrefixCacheQueries => OrZero(ReadFirst(samples, "vllm:prefix_cache_queries_total"))
    case CacheEvictions => OrZero(ReadFirst(samples, "vllm:prefix_cache_evictions_total"))
    case SpecAccepted => OrZero(ReadFirst(samples, "vllm:spec_decode_num_accepted_tokens_total"))
    case SpecDraft => OrZero(ReadFirst(samples, "vllm:spec_decode_num_draft_tokens_total"))
    case SpecDrafts => OrZero(ReadFirst(samples, "vllm:spec_decode_num_drafts"))
    case Preemptions => OrZero(ReadFirst(samples, "vllm:num_preemptions_total"))
    case RequestSuccess => SumOf(Get(samples, SUCCESS))
    case RequestStop => LastOf(Get(samples, SUCCESS), "stop")
    case RequestLength => LastOf(Get(samples, SUCCESS), "length")
    case RequestAbort => LastOf(Get(samples, SUCCESS), "abort")
  }

  function Readings(samples: Samples): CounterState { map c | c in COUNTER_KEYS :: Reading(samples, c) }

  method ReadCounters(samples: Samples) returns (cs: CounterState)
    ensures cs == Readings(samples)
  {
    hide SumOf, LastOf, Get, Reading, Readings;
    cs := ReadPlain(samples);
    cs := ReadFinished(Get(samples, SUCCESS), cs);
    FinishedReadings(samples);
    SameReadings(samples, cs);
  }

  /** The counter shows the first sample of the metric, 0 without one. */
  predicate Shows(samples: Samples, c: Counter, name: string) {
    Reading(samples, c) == if name in samples && samples[name] != [] then samples[name][0].value else 0.0
  }

  lemma ReadFirstExactlyWhen(samples: Samples, name: string)
    ensures ReadFirst(samples, name).Some? <==> name in samples && samples[name] != []
    ensures ReadFirst(samples, name).Some? ==> ReadFirst(samples, name).value == samples[name][0].value
  {
  }

  /** The metric behind each counter. */
  lemma MetricsBehindCounters(samples: Samples)
    ensures Shows(samples, PromptTokens, "vllm:prompt_tokens_total")
    ensures Shows(samples, GenerationTokens, "vllm:generation_tokens_total")
    ensures Shows(samples, PrefixCacheHits, "vllm:prefix_cache_hits_total")
    ensures Shows(samples, PrefixCacheQueries, "vllm:prefix_cache_queries_total")
    ensures Shows(samples, CacheEvictions, "vllm:prefix_cache_evictions_total")
    ensures Shows(samples, SpecAccepted, "vllm:spec_decode_num_accepted_tokens_total")
    ensures Shows(samples, SpecDraft, "vllm:spec_decode_num_draft_tokens_total")
    ensures Shows(samples, SpecDrafts, "vllm:spec_decode_num_drafts")
    ensures Shows(samples, Preemptions, "vllm:num_preemptions_total")
  {
    hide ReadFirst, SumOf, LastOf, Get;
    ReadFirstExactlyWhen(samples, "vllm:prompt_tokens_total");
    ReadFirstExactlyWhen(samples, "vllm:generation_tokens_total");
    ReadFirstExactlyWhen(samples, "vllm:prefix_cache_hits_total");
    ReadFirstExactlyWhen(samples, "vllm:prefix_cache_queries_total");
    ReadFirstExactlyWhen(samples, "vllm:prefix_cache_evictions_total");
    ReadFirstExactlyWhen(samples, "vllm:spec_decode_num_accepted_tokens_total");
    ReadFirstExactlyWhen(samples, "vllm:spec_decode_num_draft_tokens_total");
    ReadFirstExactlyWhen(samples, "vllm:spec_decode_num_drafts");
    ReadFirstExactlyWhen(samples, "vllm:num_preemptions_total");
  }

  /** The request counters come from the samples of one metric. */
  lemma MetricBehindRequests(samples: Samples, finished: seq<Sample>)
    ensures var all := samples["vllm:request_success_total" := finished];
            && Reading(all, RequestSuccess) == SumOf(finished)
            && Reading(all, RequestStop) == LastOf(finished, "stop")
            && Reading(all, RequestLength) == LastOf(finished, "length")
            && Reading(all, RequestAbort) == LastOf(finished, "abort")
    ensures "vllm:request_success_total" !in samples ==>
              forall c :: c in FINISHED ==> Reading(samples, c) == 0.0
  {
  }

  /** `finished_reason` goes before `finish_reason`; with neither the reason is empty. */
  lemma ReasonOfLabels(labels: map<string, string>, value: real, reason: string)
    ensures Reason(Sample(labels["finished_reason" := reason], value)) == reason
    ensures "finished_reason" !in labels ==> Reason(Sample(labels["finish_reason" := reason], value)) == reason
    ensures "finished_reason" !in labels && "finish_reason" !in labels ==> Reason(Sample(labels, value)) == ""
  {
    assert "finished_reason"[6] != "finish_reason"[6];
  }

  /** The last sample of a reason is the one that counts, and none counts 0. */
  lemma {:induction false} LastOfReason(finished: seq<Sample>, reason: string, i: nat)
    requires i < |finished| && Reason(finished[i]) == reason
    requires forall j :: i < j < |finished| ==> Reason(finished[j]) != reason
    ensures LastOf(finished, reason) == finished[i].value
  {
    hide Reason;
    if i < |finished| - 1 {
      LastOfReason(finished[..|finished| - 1], reason, i);
    }
  }

  lemma FinishedReadings(samples: Samples)
    ensures Reading(samples, RequestSuccess) == SumOf(Get(samples, SUCCESS))
    ensures Reading(samples, RequestStop) == LastOf(Get(samples, SUCCESS), "stop")
    ensures Reading(samples, RequestLength) == LastOf(Get(samples, SUCCESS), "length")
    ensures Reading(samples, RequestAbort) == LastOf(Get(samples, SUCCESS), "abort")
  {
  }

  lemma SameReadings(samples: Samples, cs: CounterState)
    requires cs.Keys == COUNTER_KEYS && forall c :: c in COUNTER_KEYS ==> cs[c] == Reading(samples, c)
    ensures cs == Readings(samples)
  {
    hide Reading;
  }

  /** The counters read one by one, with the rest still at 0. */
  method ReadPlain(samples: Samples) returns (cs: CounterState)
    ensures cs.Keys == COUNTER_KEYS && forall c :: c in FINISHED ==> cs[c] == 0.0
    ensures forall c :: c in COUNTER_KEYS - FINISHED ==> cs[c] == Reading(samples, c)
  {
    hide OrZero, ReadFirst, SumOf, LastOf, Get;
    cs := EmptyCounterState();
    cs := cs[PromptTokens := OrZero(ReadFirst(samples, "vllm:prompt_tokens_total"))];
    cs := cs[GenerationTokens := OrZero(ReadFirst(samples, "vllm:generation_tokens_total"))];
    cs := cs[PrefixCacheHits := OrZero(ReadFirst(samples, "vllm:prefix_cache_hits_total"))];
    cs := cs[PrefixCacheQueries := OrZero(ReadFirst(samples, "vllm:prefix_cache_queries_total"))];
    cs := cs[CacheEvictions := OrZero(ReadFirst(samples, "vllm:prefix_cache_evictions_total"))];
    cs := cs[SpecAccepted := OrZero(ReadFirst(samples, "vllm:spec_decode_num_accepted_tokens_total"))];
    cs := cs[SpecDraft := OrZero(ReadFirst(samples, "vllm:spec_decode_num_draft_tokens_total"))];
    cs := cs[SpecDrafts := OrZero(ReadFirst(samples, "vllm:spec_decode_num_drafts"))];
    cs := cs[Preemptions := OrZero(ReadFirst(samples, "vllm:num_preemptions_total"))];
  }

  lemma Append(finished: seq<Sample>, s: Sample)
    ensures SumOf(finished + [s]) == SumOf(finished) + s.value
    ensures forall reason ::
      LastOf(finished + [s], reason) == if Reason(s) == reason then s.value else LastOf(finished, reason)
  {
    assert (finished + [s])[..|finished|] == finished;
  }

  /** The loop over the finished requests' samples, one for each reason they finished. */
  method ReadFinished(finished: seq<Sample>, before: CounterState) returns (cs: CounterState)
    requires before.Keys == COUNTER_KEYS
    requires before[RequestSuccess] == before[RequestStop] == before[RequestLength] == before[RequestAbort] == 0.0
    ensures cs.Keys == COUNTER_KEYS && cs[RequestSuccess] == SumOf(finished)
    ensures cs[RequestStop] == LastOf(finished, "stop") && cs[RequestLength] == LastOf(finished, "length")
    ensures cs[RequestAbort] == LastOf(finished, "abort")
    ensures forall c :: c in COUNTER_KEYS - FINISHED ==> cs[c] == before[c]
  {
    cs := before;
    for i := 0 to |finished|
      invariant cs.Keys == COUNTER_KEYS && cs[RequestSuccess] == SumOf(finished[..i])
      invariant cs[RequestStop] == LastOf(finished[..i], "stop")
      invariant cs[RequestLength] == LastOf(finished[..i], "length")
      invariant cs[RequestAbort] == LastOf(finished[..i], "abort")
      invariant forall c :: c in COUNTER_KEYS - FINISHED ==> cs[c] == before[c]
    {
      hide SumOf, LastOf, Reason;
      assert finished[..i + 1] == finished[..i] + [finished[i]];
      Append(finished[..i], finished[i]);
      assert "stop" != "length" && "stop" != "abort" && "length" != "abort";
      var reason, value := Reason(finished[i]), finished[i].value;
      if reason == "stop" {
        cs := cs[RequestStop := value];
      } else if reason == "length" {
        cs := cs[RequestLength := value];
      } else if reason == "abort" {
        cs := cs[RequestAbort := value];
      }
      cs := cs[RequestSuccess := cs[RequestSuccess] + value];
    }
    assert finished[..|finished|] == finished;
  }

  ghost predicate HasReason(finished: seq<Sample>, reason: string) {
    exists j :: 0 <= j < |finished| && Reason(finished[j]) == reason
  }

  /** A sample the per-reason counters do not show: its reason is another, or comes again later. */
  ghost predicate Unattributed(finished: seq<Sample>, i: nat)
    requires i < |finished|
  {
    || Reason(finished[i]) !in {"stop", "length", "abort"}
    || HasReason(finished[i + 1..], Reason(finished[i]))
  }

  ghost function UnattributedSum(finished: seq<Sample>, from: nat): real
    requires from <= |finished|
    decreases |finished| - from
  {
    if from == |finished| then 0.0
    else (if Unattributed(finished, from) then finished[from].value else 0.0) + UnattributedSum(finished, from + 1)
  }

  lemma {:induction false} SumFromFront(finished: seq<Sample>)
    requires finished != []
    ensures SumOf(finished) == finished[0].value + SumOf(finished[1..])
  {
    var n := |finished| - 1;
    if n > 0 {
      SumFromFront(finished[..n]);
      assert finished[1..][..n - 1] == finished[..n][1..];
    }
  }

  lemma {:induction false} LastFromFront(finished: seq<Sample>, reason: string)
    requires finished != []
    ensures LastOf(finished, reason) ==
            if Reason(finished[0]) != reason || HasReason(finished[1..], reason) then LastOf(finished[1..], reason)
            else finished[0].value
  {
    hide Reason;
    var n := |finished| - 1;
    if n > 0 {
      assert finished[1..][n - 1] == finished[n];
      if Reason(finished[n]) != reason {
        LastFromFront(finished[..n], reason);
        assert finished[1..][..n - 1] == finished[..n][1..];
        assert forall j :: 0 <= j < n - 1 ==> finished[1..][j] == finished[..n][1..][j];
      }
    }
  }

  function ByReason(finished: seq<Sample>): real {
    LastOf(finished, "stop") + LastOf(finished, "length") + LastOf(finished, "abort")
  }

  lemma {:induction false} NoneLeft(finished: seq<Sample>, reason: string)
    requires !HasReason(finished, reason)
    ensures LastOf(finished, reason) == 0.0
  {
    if finished != [] {
      NoneLeft(finished[..|finished| - 1], reason);
    }
  }

  lemma {:induction false} SuffixByReason(finished: seq<Sample>, from: nat)
    requires from <= |finished|
    ensures SumOf(finished[from..]) == ByReason(finished[from..]) + UnattributedSum(finished, from)
    decreases |finished| - from
  {
    if from < |finished| {
      hide Reason, HasReason, LastOf;
      var rest := finished[from..];
      SuffixByReason(finished, from + 1);
      assert rest[1..] == finished[from + 1..];
      SumFromFront(rest);
      LastFromFront(rest, "stop");
      LastFromFront(rest, "length");
      LastFromFront(rest, "abort");
      if !Unattributed(finished, from) {
        NoneLeft(rest[1..], Reason(rest[0]));
      }
    }
  }

  /** The total is the per-reason counters plus what they do not show. */
  lemma ReasonsAddUp(samples: Samples)
    ensures var cs := Readings(samples);
      cs[RequestSuccess] ==
      cs[RequestStop] + cs[RequestLength] + cs[RequestAbort] + UnattributedSum(Get(samples, SUCCESS), 0)
  {
    var finished := Get(samples, SUCCESS);
    assert finished[0..] == finished;
    SuffixByReason(finished, 0);
  }

  lemma {:induction false} UnattributedSumIsZeroExactlyWhen(finished: seq<Sample>, from: nat)
    requires from <= |finished|
    requires forall i :: 0 <= i < |finished| ==> finished[i].value >= 0.0
    ensures UnattributedSum(finished, from) >= 0.0
    ensures UnattributedSum(finished, from) == 0.0 <==>
            forall i :: from <= i < |finished| && finished[i].value != 0.0 ==> !Unattributed(finished, i)
    decreases |finished| - from
  {
    hide Unattributed;
    if from < |finished| {
      UnattributedSumIsZeroExactlyWhen(finished, from + 1);
    }
  }

  /** The per-reason counters make up the total exactly when every non-zero sample is attributed. */
  lemma ReasonsMakeUpTheTotalExactlyWhen(samples: Samples)
    requires forall s :: s in Get(samples, SUCCESS) ==> s.value >= 0.0
    ensures var cs := Readings(samples);
      var finished := Get(samples, SUCCESS);
      cs[RequestSuccess] == cs[RequestStop] + cs[RequestLength] + cs[RequestAbort] <==>
      forall i :: 0 <= i < |finished| && finished[i].value != 0.0 ==>
        && Reason(finished[i]) in {"stop", "length", "abort"}
        && forall j :: i < j < |finished| ==> Reason(finished[j]) != Reason(finished[i])
  {
    ReasonsAddUp(samples);
    hide Readings, Reason, Get;
    var finished := Get(samples, SUCCESS);
    UnattributedSumIsZeroExactlyWhen(finished, 0);
    forall i | 0 <= i < |finished|
      ensures HasReason(finished[i + 1..], Reason(finished[i])) <==>
              exists j :: i < j < |finished| && Reason(finished[j]) == Reason(finished[i])
    {
      var rest := finished[i + 1..];
      assert forall k :: 0 <= k < |rest| ==> rest[k] == finished[i + 1 + k];
      assert forall j :: i < j < |finished| ==> finished[j] == rest[j - i - 1];
    }
  }

  // ---------- Rates and ratios ----------

  /** Whatever the counters do, a rate times the interval is what the counter gained. */
  function CounterRate(current: Option<real>, prev: Option<real>, interval: real): (r: Option<real>)
    ensures r.Some? <==> current.Some? && prev.Some? && interval > 0.0 && current.value >= prev.value
    ensures r.Some? ==> r.value * interval == current.value - prev.value
  {
    if current.None? || prev.None? || interval <= 0.0 then None
    else
      var delta := current.value - prev.value;
      if delta < 0.0 then None else Some(delta / interval)
  }

  /** A ratio is a fraction of the denominator's gain, at most all of it. */
  function CounterRatio(num: Option<real>, numPrev: Option<real>, den: Option<real>, denPrev: Option<real>):
    (r: Option<real>)
    ensures r.Some? <==>
            && num.Some? && numPrev.Some? && den.Some? && denPrev.Some?
            && den.value > denPrev.value && num.value >= numPrev.value
    ensures r.Some? ==> 0.0 <= r.value <= 1.0
    ensures r.Some? ==>
      var gained, of := num.value - numPrev.value, den.value - denPrev.value;
      r.value * of == if gained <= of then gained else of
  {
    if num.None? || numPrev.None? || den.None? || denPrev.None? then None
    else
      var numDelta := num.value - numPrev.value;
      var denDelta := den.value - denPrev.value;
      if denDelta <= 0.0 || numDelta < 0.0 then None
      else
        var q := numDelta / denDelta;
        assert q * denDelta == numDelta;
        Some(if q < 1.0 then q else 1.0)
  }

  /** What a counter stood at in a state; 0 when the state does not have it. */
  function StoodAt(state: CounterState, c: Counter): real { if c in state then state[c] else 0.0 }

  /** One plus the tokens accepted for each draft: beyond one, times the drafts, it is the tokens. */
  function Efficiency(cs: CounterState, prev: CounterState): (r: Option<real>)
    requires COUNTER_KEYS <= cs.Keys
    ensures r.Some? <==>
            cs[SpecDrafts] > StoodAt(prev, SpecDrafts) && cs[SpecAccepted] >= StoodAt(prev, SpecAccepted)
    ensures r.Some? ==>
              (r.value - 1.0) * (cs[SpecDrafts] - StoodAt(prev, SpecDrafts)) ==
              cs[SpecAccepted] - StoodAt(prev, SpecAccepted)
  {
    var accepted := cs[SpecAccepted] - OrZero(GetCounter(prev, SpecAccepted));
    var drafts := cs[SpecDrafts] - OrZero(GetCounter(prev, SpecDrafts));
    if drafts > 0.0 && accepted >= 0.0 then Some(1.0 + accepted / drafts) else None
  }

  /** The state that one scrape leaves. */
  function NextState(outcome: Outcome, prev: Option<CounterState>): CounterState {
    match outcome
    case Scraped(samples) => Readings(samples)
    case Failed => if prev.Some? && prev.value != map[] then prev.value else EmptyCounterState()
  }

  function RateAfter(outcome: Outcome, prev: Option<CounterState>, c: Counter, interval: real): Option<real> {
    if outcome.Failed? || prev.None? then None
    else CounterRate(Some(Reading(outcome.samples, c)), GetCounter(prev.value, c), interval)
  }

  function RatioAfter(samples: Samples, prev: CounterState, num: Counter, den: Counter): Option<real> {
    CounterRatio(Some(Reading(samples, num)), GetCounter(prev, num), Some(Reading(samples, den)), GetCounter(prev, den))
  }

  /** Each rate is in the field of its counter. */
  ghost predicate RatesInFields(m: VllmMetrics, cs: CounterState, before: CounterState, interval: real)
    requires cs.Keys == COUNTER_KEYS
  {
    && m.promptTokensPerSec == CounterRate(Some(cs[PromptTokens]), GetCounter(before, PromptTokens), interval)
    && m.generationTokensPerSec ==
       CounterRate(Some(cs[GenerationTokens]), GetCounter(before, GenerationTokens), interval)
    && m.cacheEvictionsPerSec == CounterRate(Some(cs[CacheEvictions]), GetCounter(before, CacheEvictions), interval)
    && m.preemptionsPerSec == CounterRate(Some(cs[Preemptions]), GetCounter(before, Preemptions), interval)
    && m.requestsSuccessPerSec == CounterRate(Some(cs[RequestSuccess]), GetCounter(before, RequestSuccess), interval)
    && m.requestsFinishedStopPerSec == CounterRate(Some(cs[RequestStop]), GetCounter(before, RequestStop), interval)
    && m.requestsFinishedLengthPerSec ==
       CounterRate(Some(cs[RequestLength]), GetCounter(before, RequestLength), interval)
    && m.requestsFinishedAbortPerSec == CounterRate(Some(cs[RequestAbort]), GetCounter(before, RequestAbort), interval)
  }

  method ScrapeVllm(outcome: Outcome, prev: Option<CounterState>, interval: real)
    returns (metrics: VllmMetrics, cs: CounterState)
    ensures cs == NextState(outcome, prev)
    ensures outcome.Failed? && prev.Some? && prev.value != map[] ==> cs == prev.value
    ensures outcome.Failed? && (prev.None? || prev.value == map[]) ==> cs.Keys == COUNTER_KEYS && cs.Values == {0.0}
    ensures forall c :: c in RATED ==> RateOf(metrics, c) == RateAfter(outcome, prev, c, interval)
    ensures outcome.Failed? || prev.None? ==> metrics == NO_METRICS
    ensures outcome.Scraped? && prev.Some? ==>
      && cs == Readings(outcome.samples) && RatesInFields(metrics, cs, prev.value, interval)
      && metrics.specDecodeAcceptanceRate == RatioAfter(outcome.samples, prev.value, SpecAccepted, SpecDraft)
      && metrics.specDecodeEfficiency == Efficiency(cs, prev.value)
      && metrics.cacheHitRate ==
         var ratio := RatioAfter(outcome.samples, prev.value, PrefixCacheHits, PrefixCacheQueries);
         if ratio.Some? then ratio else ReadFirst(outcome.samples, "vllm:gpu_prefix_cache_hit_rate")
  {
    hide Reading, ReadFirst, CounterRate, CounterRatio, GetCounter, Efficiency, RateOf;
    metrics := NO_METRICS;
    NoRates();
    if outcome.Failed? {
      cs := if prev.Some? && prev.value != map[] then prev.value else EmptyCounterState();
      return;
    }
    var samples := outcome.samples;
    cs := ReadCounters(samples);
    if prev.Some? {
      metrics := FillRates(samples, cs, prev.value, interval);
    }
  }

  /** The fields taken from counter deltas. */
  method FillRates(samples: Samples, cs: CounterState, before: CounterState, interval: real)
    returns (metrics: VllmMetrics)
    requires cs.Keys == COUNTER_KEYS
    ensures forall c :: c in RATED ==>
              RateOf(metrics, c) == CounterRate(Some(cs[c]), GetCounter(before, c), interval)
    ensures RatesInFields(metrics, cs, before, interval)
    ensures metrics.specDecodeEfficiency == Efficiency(cs, before)
    ensures metrics.specDecodeAcceptanceRate ==
            CounterRatio(Some(cs[SpecAccepted]), GetCounter(before, SpecAccepted),
                         Some(cs[SpecDraft]), GetCounter(before, SpecDraft))
    ensures metrics.cacheHitRate ==
            var ratio := CounterRatio(Some(cs[PrefixCacheHits]), GetCounter(before, PrefixCacheHits),
                                      Some(cs[PrefixCacheQueries]), GetCounter(before, PrefixCacheQueries));
            if ratio.Some? then ratio else ReadFirst(samples, "vllm:gpu_prefix_cache_hit_rate")
  {
    hide ReadFirst, CounterRate, CounterRatio, GetCounter, Efficiency;
    metrics := NO_METRICS;
    metrics := metrics.(
      promptTokensPerSec := CounterRate(Some(cs[PromptTokens]), GetCounter(before, PromptTokens), interval));
    metrics := metrics.(
      generationTokensPerSec :=
        CounterRate(Some(cs[GenerationTokens]), GetCounter(before, GenerationTokens), interval));
    metrics := metrics.(
      cacheHitRate :=
        CounterRatio(Some(cs[PrefixCacheHits]), GetCounter(before, PrefixCacheHits),
                     Some(cs[PrefixCacheQueries]), GetCounter(before, PrefixCacheQueries)));
    if metrics.cacheHitRate.None? {
      metrics := metrics.(cacheHitRate := ReadFirst(samples, "vllm:gpu_prefix_cache_hit_rate"));
    }
    metrics := metrics.(
      cacheEvictionsPerSec :=
        CounterRate(Some(cs[CacheEvictions]), GetCounter(before, CacheEvictions), interval));
    metrics := metrics.(
      specDecodeAcceptanceRate :=
        CounterRatio(Some(cs[SpecAccepted]), GetCounter(before, SpecAccepted),
                     Some(cs[SpecDraft]), GetCounter(before, SpecDraft)));
    metrics := metrics.(specDecodeEfficiency := Efficiency(cs, before));
    metrics := metrics.(
      preemptionsPerSec := CounterRate(Some(cs[Preemptions]), GetCounter(before, Preemptions), interval));
    metrics := metrics.(
      requestsSuccessPerSec :=
        CounterRate(Some(cs[RequestSuccess]), GetCounter(before, RequestSuccess), interval));
    metrics := metrics.(
      requestsFinishedStopPerSec :=
        CounterRate(Some(cs[RequestStop]), GetCounter(before, RequestStop), interval));
    metrics := metrics.(
      requestsFinishedLengthPerSec :=
        CounterRate(Some(cs[RequestLength]), GetCounter(before, RequestLength), interval));
    metrics := metrics.(
      requestsFinishedAbortPerSec :=
        CounterRate(Some(cs[RequestAbort]), GetCounter(before, RequestAbort), interval));
  }

  // ---------- Runs ----------

  /** The state after a run that begins with none. */
  function StateAfter(run: seq<Outcome>): Option<CounterState> {
    if run == [] then None else Some(NextState(run[|run| - 1], StateAfter(run[..|run| - 1])))
  }

  /** The values that successful scrapes read for a counter. */
  function Observed(run: seq<Outcome>, c: Counter): seq<real> {
    if run == [] then []
    else
      var n := |run| - 1;
      Observed(run[..n], c) + if run[n].Scraped? then [Reading(run[n].samples, c)] else []
  }

  /** The values the deltas are taken between: a first scrape that fails counts as a reading of 0. */
  function Compared(run: seq<Outcome>, c: Counter): seq<real> {
    if run != [] && run[0].Failed? then [0.0] + Observed(run, c) else Observed(run, c)
  }

  function Gain(values: seq<real>): real {
    if |values| < 2 then 0.0
    else
      var n := |values| - 1;
      Gain(values[..n]) + if values[n] >= values[n - 1] then values[n] - values[n - 1] else 0.0
  }

  function Drops(values: seq<real>): real {
    if |values| < 2 then 0.0
    else
      var n := |values| - 1;
      Drops(values[..n]) + if values[n] < values[n - 1] then values[n - 1] - values[n] else 0.0
  }

  /** Sum of rate times interval over the metrics emitted for a run; no rate counts as 0. */
  function Total(emitted: seq<VllmMetrics>, c: Counter, interval: real): real
    requires c in RATED
  {
    if emitted == [] then 0.0
    else
      var n := |emitted| - 1;
      var rate := RateOf(emitted[n], c);
      Total(emitted[..n], c, interval) + if rate.Some? then rate.value * interval else 0.0
  }

  /** The totals of the rates emitted for a run. */
  ghost predicate Accounted(run: seq<Outcome>, emitted: seq<VllmMetrics>, interval: real) {
    forall c :: c in RATED ==>
      Total(emitted, c, interval) == if interval > 0.0 then Gain(Compared(run, c)) else 0.0
  }

  /** The loop that threads the state through the scrapes. */
  method Monitor(run: seq<Outcome>, interval: real) returns (emitted: seq<VllmMetrics>, state: Option<CounterState>)
    ensures |emitted| == |run| && state == StateAfter(run)
    ensures Accounted(run, emitted, interval)
  {
    hide *;
    NothingAccounted(interval);
    emitted, state := [], None;
    for i := 0 to |run|
      invariant |emitted| == i && state == StateAfter(run[..i])
      invariant Accounted(run[..i], emitted, interval)
    {
      var metrics, next := ScrapeVllm(run[i], state, interval);
      AccountedStep(run[..i], emitted, run[i], metrics, interval);
      StateGrows(run[..i], run[i]);
      assert run[..i + 1] == run[..i] + [run[i]];
      emitted := emitted + [metrics];
      state := Some(next);
    }
    assert run[..|run|] == run;
  }

  lemma NothingAccounted(interval: real)
    ensures StateAfter([]) == None && Accounted([], [], interval)
  {
  }

  lemma AccountedStep(
      run: seq<Outcome>, emitted: seq<VllmMetrics>, outcome: Outcome, metrics: VllmMetrics, interval: real)
    requires Accounted(run, emitted, interval)
    requires forall c :: c in RATED ==> RateOf(metrics, c) == RateAfter(outcome, StateAfter(run), c, interval)
    ensures Accounted(run + [outcome], emitted + [metrics], interval)
  {
    hide Gain, Compared, Total, RateAfter, RateOf, StateAfter;
    forall c | c in RATED
      ensures Total(emitted + [metrics], c, interval) ==
              if interval > 0.0 then Gain(Compared(run + [outcome], c)) else 0.0
    {
      TotalGrows(emitted, metrics, c, interval);
      GainGrows(run, outcome, c, interval);
    }
  }

  lemma TotalGrows(emitted: seq<VllmMetrics>, metrics: VllmMetrics, c: Counter, interval: real)
    requires c in RATED
    ensures Total(emitted + [metrics], c, interval) ==
            Total(emitted, c, interval) +
            if RateOf(metrics, c).Some? then RateOf(metrics, c).value * interval else 0.0
  {
    assert (emitted + [metrics])[..|emitted|] == emitted;
  }

  lemma StateGrows(run: seq<Outcome>, outcome: Outcome)
    ensures StateAfter(run + [outcome]) == Some(NextState(outcome, StateAfter(run)))
  {
    assert (run + [outcome])[..|run|] == run;
  }

  lemma ComparedGrows(run: seq<Outcome>, outcome: Outcome, c: Counter)
    ensures Compared(run + [outcome], c) ==
            Compared(run, c) +
            if outcome.Scraped? then [Reading(outcome.samples, c)] else if run == [] then [0.0] else []
  {
    ObservedGrows(run, outcome, c);
    hide Reading, Observed;
    var all := run + [outcome];
    var more := if outcome.Scraped? then [Reading(outcome.samples, c)] else [];
    if run == [] {
      assert all[0] == outcome;
      assert Compared(all, c) == if outcome.Failed? then [0.0] else more;
    } else {
      assert all[0] == run[0];
      assert [0.0] + (Observed(run, c) + more) == [0.0] + Observed(run, c) + more;
    }
  }

  lemma ObservedGrows(run: seq<Outcome>, outcome: Outcome, c: Counter)
    ensures Observed(run + [outcome], c) ==
            Observed(run, c) + if outcome.Scraped? then [Reading(outcome.samples, c)] else []
    ensures Observed([], c) == []
  {
    hide Reading;
    assert (run + [outcome])[..|run|] == run;
  }

  /** The threaded state holds the value the next delta is taken from. */
  lemma {:induction false} StateIsLastCompared(run: seq<Outcome>, c: Counter)
    requires run != []
    ensures Compared(run, c) != [] && StateAfter(run).Some?
    ensures GetCounter(StateAfter(run).value, c) == Some(Compared(run, c)[|Compared(run, c)| - 1])
  {
    hide Reading, Compared, StateAfter;
    var n := |run| - 1;
    var before, outcome := run[..n], run[n];
    assert run == before + [outcome];
    assert c in COUNTER_KEYS;
    StateGrows(before, outcome);
    ComparedGrows(before, outcome, c);
    if n > 0 {
      StateIsLastCompared(before, c);
    } else {
      NoState();
    }
  }

  lemma NoState()
    ensures StateAfter([]) == None
    ensures forall c :: Compared([], c) == []
  {
  }

  lemma GainGrows(run: seq<Outcome>, outcome: Outcome, c: Counter, interval: real)
    requires c in RATED
    ensures var rate := RateAfter(outcome, StateAfter(run), c, interval);
      && (interval <= 0.0 ==> rate.None?)
      && (interval > 0.0 ==>
            Gain(Compared(run + [outcome], c)) ==
            Gain(Compared(run, c)) + if rate.Some? then rate.value * interval else 0.0)
  {
    hide Reading, Compared, StateAfter;
    ComparedGrows(run, outcome, c);
    NoState();
    if run != [] {
      StateIsLastCompared(run, c);
    }
    var was, now := Compared(run, c), Compared(run + [outcome], c);
    if outcome.Scraped? {
      assert now[..|was|] == was;
    } else {
      assert now == was || now == [0.0];
    }
  }

  lemma {:induction false} GainBalances(values: seq<real>)
    requires values != []
    ensures Gain(values) == values[|values| - 1] - values[0] + Drops(values)
    ensures Drops(values) >= 0.0
    ensures Drops(values) == 0.0 <==> NoResets(values)
  {
    if |values| > 1 {
      var n := |values| - 1;
      GainBalances(values[..n]);
      assert NoResets(values) <==> NoResets(values[..n]) && values[n - 1] <= values[n];
    }
  }

  ghost predicate NoResets(values: seq<real>) {
    forall i :: 0 < i < |values| ==> values[i - 1] <= values[i]
  }

  /**
   * Over any run the rates times the interval add up to the last state minus the first one plus the
   * drops at resets.
   */
  lemma TotalBalances(run: seq<Outcome>, emitted: seq<VllmMetrics>, c: Counter, interval: real)
    requires run != [] && interval > 0.0 && c in RATED && Accounted(run, emitted, interval)
    ensures StateAfter(run).Some? && c in StateAfter(run).value
    ensures StateAfter(run[..1]).Some? && c in StateAfter(run[..1]).value
    ensures Total(emitted, c, interval) ==
            StateAfter(run).value[c] - StateAfter(run[..1]).value[c] + Drops(Compared(run, c))
  {
    hide Drops, Gain, Compared, StateAfter, Total;
    StateIsLastCompared(run, c);
    StateIsLastCompared(run[..1], c);
    FirstCompared(run, c);
    GainBalances(Compared(run, c));
  }

  lemma {:induction false} FirstCompared(run: seq<Outcome>, c: Counter)
    requires run != []
    ensures Compared(run, c) != [] && |Compared(run[..1], c)| == 1
    ensures Compared(run, c)[0] == Compared(run[..1], c)[0]
  {
    hide Reading, Compared;
    var n := |run| - 1;
    NoState();
    assert run == run[..n] + [run[n]];
    ComparedGrows(run[..n], run[n], c);
    if n == 0 {
      assert run[..1] == run && run[..0] == [];
    } else {
      FirstCompared(run[..n], c);
      assert run[..n][..1] == run[..1];
    }
  }

  /**
   * The rates add up to what the endpoint's own successive readings gained exactly when the first
   * scrape succeeds, or nothing is ever read, or the first reading is not above the 0 that a failed
   * first scrape leaves as the state.
   */
  lemma TotalIsTheObservedGainExactlyWhen(run: seq<Outcome>, emitted: seq<VllmMetrics>, c: Counter, interval: real)
    requires interval > 0.0 && c in RATED && Accounted(run, emitted, interval)
    ensures Total(emitted, c, interval) == Gain(Observed(run, c)) <==>
            run == [] || run[0].Scraped? || Observed(run, c) == [] || Observed(run, c)[0] <= 0.0
  {
    hide Gain, Total;
    if run != [] && run[0].Failed? {
      LeadingZero(Observed(run, c));
    }
  }

  lemma {:induction false} LeadingZero(values: seq<real>)
    ensures Gain([0.0] + values) ==
            Gain(values) + if values != [] && values[0] > 0.0 then values[0] else 0.0
  {
    if |values| > 1 {
      var n := |values| - 1;
      LeadingZero(values[..n]);
      assert ([0.0] + values)[..n + 1] == [0.0] + values[..n];
    }
  }

  /** For a counter that never resets, that is what it gained from its first reading to its last. */
  lemma TotalIsTheIncreaseExactlyWhen(run: seq<Outcome>, emitted: seq<VllmMetrics>, c: Counter, interval: real)
    requires interval > 0.0 && c in RATED && Accounted(run, emitted, interval)
    requires Observed(run, c) != [] && NoResets(Observed(run, c)) && Observed(run, c)[0] >= 0.0
    ensures Total(emitted, c, interval) == Observed(run, c)[|Observed(run, c)| - 1] - Observed(run, c)[0] <==>
            run[0].Scraped? || Observed(run, c)[0] == 0.0
  {
    hide Gain, Drops, Total, Accounted;
    GainBalances(Observed(run, c));
    TotalIsTheObservedGainExactlyWhen(run, emitted, c, interval);
  }

  // ---------- Scrapes that lack a counter ----------

  /** The value of a counter in a successful scrape that has it. */
  function Carried(samples: Samples, c: Counter): Option<real> {
    var finished := Get(samples, SUCCESS);
    match c
    case PromptTokens => ReadFirst(samples, "vllm:prompt_tokens_total")
    case GenerationTokens => ReadFirst(samples, "vllm:generation_tokens_total")
    case PrefixCacheHits => ReadFirst(samples, "vllm:prefix_cache_hits_total")
    case PrefixCacheQueries => ReadFirst(samples, "vllm:prefix_cache_queries_total")
    case CacheEvictions => ReadFirst(samples, "vllm:prefix_cache_evictions_total")
    case SpecAccepted => ReadFirst(samples, "vllm:spec_decode_num_accepted_tokens_total")
    case SpecDraft => ReadFirst(samples, "vllm:spec_decode_num_draft_tokens_total")
    case SpecDrafts => ReadFirst(samples, "vllm:spec_decode_num_drafts")
    case Preemptions => ReadFirst(samples, "vllm:num_preemptions_total")
    case RequestSuccess => if finished == [] then None else Some(SumOf(finished))
    case RequestStop => LastWith(finished, "stop")
    case RequestLength => LastWith(finished, "length")
    case RequestAbort => LastWith(finished, "abort")
  }

  function LastWith(finished: seq<Sample>, reason: string): Option<real> {
    if finished == [] then None
    else if Reason(finished[|finished| - 1]) == reason then Some(finished[|finished| - 1].value)
    else LastWith(finished[..|finished| - 1], reason)
  }

  lemma {:induction false} LastOfIsLastWith(finished: seq<Sample>, reason: string)
    ensures LastOf(finished, reason) == OrZero(LastWith(finished, reason))
  {
    if finished != [] {
      LastOfIsLastWith(finished[..|finished| - 1], reason);
    }
  }

  lemma ReadingIsCarried(samples: Samples, c: Counter)
    ensures Reading(samples, c) == OrZero(Carried(samples, c))
  {
    hide LastOf, LastWith, ReadFirst, Get;
    LastOfIsLastWith(Get(samples, SUCCESS), "stop");
    LastOfIsLastWith(Get(samples, SUCCESS), "length");
    LastOfIsLastWith(Get(samples, SUCCESS), "abort");
  }

  /** What the deltas are taken between: None for a scrape without the counter and for a first scrape that fails. */
  function Traced(run: seq<Outcome>, c: Counter): seq<Option<real>> {
    if run == [] then []
    else
      var n := |run| - 1;
      Traced(run[..n], c) +
      if run[n].Scraped? then [Carried(run[n].samples, c)] else if n == 0 then [None] else []
  }

  function Zeroed(trace: seq<Option<real>>): seq<real> {
    seq(|trace|, i requires 0 <= i < |trace| => OrZero(trace[i]))
  }

  /** The readings of scrapes that have the counter. */
  function Present(trace: seq<Option<real>>): seq<real> {
    if trace == [] then []
    else
      var n := |trace| - 1;
      Present(trace[..n]) + if trace[n].Some? then [trace[n].value] else []
  }

  lemma {:induction false} ComparedIsZeroed(run: seq<Outcome>, c: Counter)
    ensures Compared(run, c) == Zeroed(Traced(run, c))
  {
    hide Compared, Reading, Carried;
    if run == [] {
      NoState();
    } else {
      var n := |run| - 1;
      var before := run[..n];
      ComparedIsZeroed(before, c);
      assert run == before + [run[n]];
      ComparedGrows(before, run[n], c);
      if run[n].Scraped? {
        ReadingIsCarried(run[n].samples, c);
      }
      assert Zeroed(Traced(before, c)) + [] == Zeroed(Traced(before, c));
    }
  }

  /**
   * What the reading at `i`, if it follows a gap, adds beyond its gain over the reading before the gap:
   * as much of it as that one had already counted, or all of it when there was none.
   */
  function Recounted(trace: seq<Option<real>>, i: nat): real
    requires i < |trace|
  {
    var before := Present(trace[..i]);
    if i == 0 || trace[i].None? || trace[i - 1].Some? then 0.0
    else if before == [] || before[|before| - 1] > trace[i].value then trace[i].value
    else before[|before| - 1]
  }

  function RecountedUpTo(trace: seq<Option<real>>, n: nat): real
    requires n <= |trace|
  {
    if n == 0 then 0.0 else RecountedUpTo(trace, n - 1) + Recounted(trace, n - 1)
  }

  ghost predicate NotNegative(trace: seq<Option<real>>) {
    forall i :: 0 <= i < |trace| && trace[i].Some? ==> trace[i].value >= 0.0
  }

  lemma {:induction false} LastPresent(trace: seq<Option<real>>)
    requires NotNegative(trace)
    ensures forall i :: 0 <= i < |Present(trace)| ==> Present(trace)[i] >= 0.0
    ensures trace != [] && trace[|trace| - 1].Some? ==>
              Present(trace) != [] && Present(trace)[|Present(trace)| - 1] == trace[|trace| - 1].value
  {
    if trace != [] {
      LastPresent(trace[..|trace| - 1]);
    }
  }

  lemma GainAppend(values: seq<real>, x: real)
    ensures Gain(values + [x]) ==
            Gain(values) +
            if values != [] && x >= values[|values| - 1] then x - values[|values| - 1] else 0.0
  {
    assert (values + [x])[..|values|] == values;
  }

  lemma {:induction false} RecountedInPrefix(trace: seq<Option<real>>, n: nat, k: nat)
    requires k <= n <= |trace|
    ensures RecountedUpTo(trace[..n], k) == RecountedUpTo(trace, k)
  {
    if k > 0 {
      RecountedInPrefix(trace, n, k - 1);
      assert trace[..n][..k - 1] == trace[..k - 1];
    }
  }

  lemma ZeroedAppend(trace: seq<Option<real>>, x: Option<real>)
    ensures Zeroed(trace + [x]) == Zeroed(trace) + [OrZero(x)]
    ensures Present(trace + [x]) == Present(trace) + if x.Some? then [x.value] else []
  {
    assert (trace + [x])[..|trace|] == trace;
  }

  lemma RecountedAppend(trace: seq<Option<real>>, x: Option<real>)
    ensures var all := trace + [x];
            RecountedUpTo(all, |all|) == RecountedUpTo(trace, |trace|) + Recounted(all, |trace|)
  {
    hide Recounted;
    RecountedInPrefix(trace + [x], |trace|, |trace|);
    assert (trace + [x])[..|trace|] == trace;
  }

  lemma LastZeroed(trace: seq<Option<real>>)
    requires trace != [] && NotNegative(trace)
    ensures Zeroed(trace) != [] && Zeroed(trace)[|trace| - 1] == OrZero(trace[|trace| - 1]) >= 0.0
    ensures |Zeroed(trace)| == |trace|
  {
  }

  /** How much one more reading gains on a sequence of readings. */
  function Step(values: seq<real>, x: real): real {
    if values != [] && x >= values[|values| - 1] then x - values[|values| - 1] else 0.0
  }

  lemma RecountedLast(trace: seq<Option<real>>, x: Option<real>)
    ensures var before := Present(trace);
            Recounted(trace + [x], |trace|) ==
            if trace == [] || x.None? || trace[|trace| - 1].Some? then 0.0
            else if before == [] || before[|before| - 1] > x.value then x.value
            else before[|before| - 1]
  {
    hide Present;
    var all := trace + [x];
    assert all[..|trace|] == trace && all[|trace|] == x;
    assert trace != [] ==> all[|trace| - 1] == trace[|trace| - 1];
  }

  lemma RecountedStep(trace: seq<Option<real>>, x: Option<real>)
    requires NotNegative(trace) && (x.Some? ==> x.value >= 0.0)
    ensures Step(Zeroed(trace), OrZero(x)) ==
            (if x.Some? then Step(Present(trace), x.value) else 0.0) + Recounted(trace + [x], |trace|)
  {
    hide Zeroed, Present, Recounted, NotNegative;
    LastPresent(trace);
    RecountedLast(trace, x);
    if trace == [] {
      NothingPresent();
    } else {
      LastZeroed(trace);
    }
  }

  /** One more reading. */
  lemma GapsRecountNext(trace: seq<Option<real>>, x: Option<real>)
    requires NotNegative(trace) && (x.Some? ==> x.value >= 0.0)
    ensures Gain(Zeroed(trace + [x])) - Gain(Zeroed(trace)) ==
            Gain(Present(trace + [x])) - Gain(Present(trace)) + Recounted(trace + [x], |trace|)
  {
    hide Gain, Present, Zeroed, Recounted;
    ZeroedAppend(trace, x);
    RecountedStep(trace, x);
    GainAppend(Zeroed(trace), OrZero(x));
    if x.Some? {
      GainAppend(Present(trace), x.value);
    } else {
      assert Present(trace) + [] == Present(trace);
    }
  }

  lemma NothingPresent()
    ensures Present([]) == [] && Zeroed([]) == []
  {
  }

  /** The gain with gaps read as 0 is the gain between the readings there are, and what is counted again. */
  lemma {:induction false} GapsRecount(trace: seq<Option<real>>)
    requires NotNegative(trace)
    ensures Gain(Zeroed(trace)) == Gain(Present(trace)) + RecountedUpTo(trace, |trace|)
  {
    if trace != [] {
      hide Gain, Zeroed, Present, Recounted, RecountedUpTo;
      var n := |trace| - 1;
      assert trace == trace[..n] + [trace[n]];
      GapsRecount(trace[..n]);
      GapsRecountNext(trace[..n], trace[n]);
      RecountedAppend(trace[..n], trace[n]);
    } else {
      assert Zeroed(trace) == [] && Present(trace) == [];
    }
  }

  lemma {:induction false} NothingRecountedExactlyWhen(trace: seq<Option<real>>, n: nat)
    requires NotNegative(trace) && n <= |trace|
    ensures RecountedUpTo(trace, n) >= 0.0
    ensures RecountedUpTo(trace, n) == 0.0 <==> forall i :: 0 <= i < n ==> Recounted(trace, i) == 0.0
  {
    hide Recounted;
    if n > 0 {
      NothingRecountedExactlyWhen(trace, n - 1);
      RecountedIsNotNegative(trace, n - 1);
    }
  }

  lemma RecountedIsNotNegative(trace: seq<Option<real>>, i: nat)
    requires NotNegative(trace) && i < |trace|
    ensures Recounted(trace, i) >= 0.0
  {
    LastPresent(trace[..i]);
  }

  /** A reading after a gap is harmless: it is 0, or the reading before the gap is. */
  predicate HarmlessAfterGap(trace: seq<Option<real>>, i: nat)
    requires i < |trace|
  {
    i > 0 && trace[i].Some? && trace[i - 1].None? ==>
      || trace[i].value == 0.0
      || (Present(trace[..i]) != [] && Present(trace[..i])[|Present(trace[..i])| - 1] == 0.0)
  }

  lemma HarmlessExactlyWhen(trace: seq<Option<real>>, i: nat)
    requires NotNegative(trace) && i < |trace|
    ensures Recounted(trace, i) == 0.0 <==> HarmlessAfterGap(trace, i)
  {
    LastPresent(trace[..i]);
  }

  /**
   * The rates add up to what the readings of the scrapes that have the counter gained exactly when
   * every reading that follows a failed first scrape or a scrape without the counter is 0, or the
   * reading before that gap is.
   */
  lemma TotalIsTheCarriedGainExactlyWhen(run: seq<Outcome>, emitted: seq<VllmMetrics>, c: Counter, interval: real)
    requires interval > 0.0 && c in RATED && Accounted(run, emitted, interval) && NotNegative(Traced(run, c))
    ensures Total(emitted, c, interval) == Gain(Present(Traced(run, c))) <==>
            forall i :: 0 <= i < |Traced(run, c)| ==> HarmlessAfterGap(Traced(run, c), i)
  {
    hide Gain, Total, Traced, Compared, Present, Recounted, RecountedUpTo, HarmlessAfterGap, NotNegative;
    var trace := Traced(run, c);
    ComparedIsZeroed(run, c);
    GapsRecount(trace);
    NothingRecountedExactlyWhen(trace, |trace|);
    forall i | 0 <= i < |trace|
      ensures Recounted(trace, i) == 0.0 <==> HarmlessAfterGap(trace, i)
    {
      HarmlessExactlyWhen(trace, i);
    }
  }

  /** Readings 100, none and 100: the counter gained nothing, and the rates add up to 100. */
  lemma GapCountsHistory()
    ensures var trace := [Some(100.0), None, Some(100.0)];
            Gain(Present(trace)) == 0.0 && Gain(Zeroed(trace)) == 100.0
  {
    var trace := [Some(100.0), None, Some(100.0)];
    hide Gain;
    var one, two := trace[..1], trace[..2];
    assert two[..1] == one == [Some(100.0)] && |one[..0]| == 0;
    assert Present(one[..0]) == [];
    assert Present(one) == [100.0];
    assert Present(two) == [100.0];
    assert Present(trace) == [100.0] + [100.0];
    assert Zeroed(trace) == [100.0] + [0.0] + [100.0];
    GainAppend([], 100.0);
    GainAppend([100.0], 100.0);
    GainAppend([100.0], 0.0);
    GainAppend([100.0] + [0.0], 100.0);
    assert [] + [100.0] == [100.0];
    NoGain();
  }

  lemma NoGain()
    ensures Gain([]) == 0.0
  {
  }

  // ---------- Inputs for which the sums do not come out ----------

  /** One counter at 100, seen for the first time after a failed scrape. */
  const LATE_START := [Failed, Scraped(map["vllm:prompt_tokens_total" := [Sample(map[], 100.0)]])]

  lemma LateReading()
    ensures LATE_START[1].Scraped? && Reading(LATE_START[1].samples, PromptTokens) == 100.0
  {
  }

  lemma FailedStartCountsHistory()
    ensures Gain(Observed(LATE_START, PromptTokens)) == 0.0
    ensures forall emitted :: Accounted(LATE_START, emitted, 10.0) ==> Total(emitted, PromptTokens, 10.0) == 100.0
  {
    hide Total, Reading;
    var run := LATE_START;
    LateReading();
    assert run[..1][..0] == [];
    assert Observed(run[..1], PromptTokens) == [];
    assert Observed(run, PromptTokens) == [100.0];
    assert Compared(run, PromptTokens) == [0.0, 100.0];
    assert [0.0, 100.0][..1] == [0.0];
  }

  /** Two engines that both report `stop`: the total is 3, the counter by reason 2. */
  lemma RepeatedReasonIsLost()
    ensures var stop := map["finished_reason" := "stop"];
            var finished := [Sample(stop, 1.0), Sample(stop, 2.0)];
            SumOf(finished) == 3.0 && LastOf(finished, "stop") == 2.0
  {
    var stop := map["finished_reason" := "stop"];
    var finished := [Sample(stop, 1.0), Sample(stop, 2.0)];
    Append([], finished[0]);
    Append([finished[0]], finished[1]);
    assert [] + [finished[0]] == [finished[0]] && [finished[0]] + [finished[1]] == finished;
    assert Reason(finished[1]) == "stop";
  }
}
