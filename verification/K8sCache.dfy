/** The cache in front of the pod mapping: `GetGPU2K8s` of k8shelper.go. */
module K8sCache {
  import opened Wrappers
  import opened GpuOrdinals

  type Mapping = map<string, Holder>

  const SECOND := 1_000_000_000

  datatype Config = Config(nodeName: string, cacheDuration: int)

  datatype Error = NoNodeName | ClientFailed(message: string) | ListFailed(message: string)

  /**
   * What one call meets: the clock in nanoseconds when it checks the expiry, when it sends its
   * query and when it stores the answer, the MY_NODE_NAME variable, and what the API server says of a
   * node.
   */
  datatype Call = Call(
    checked: int, started: int, stored: int, env: string, client: Result<(), string>,
    pods: string -> Result<seq<Pod>, string>)

  datatype State = State(data: Option<Mapping>, expiresAt: int)

  /** A Go int64. */
  function Wrap(n: int): (w: int)
    ensures -0x8000_0000_0000_0000 <= w < 0x8000_0000_0000_0000
    ensures exists k: int :: w == n + k * 0x1_0000_0000_0000_0000
  {
    assert (n + 0x8000_0000_0000_0000) % 0x1_0000_0000_0000_0000 - 0x8000_0000_0000_0000 ==
           n + -((n + 0x8000_0000_0000_0000) / 0x1_0000_0000_0000_0000) * 0x1_0000_0000_0000_0000;
    (n + 0x8000_0000_0000_0000) % 0x1_0000_0000_0000_0000 - 0x8000_0000_0000_0000
  }

  function Seconds(cfg: Config): int { if cfg.cacheDuration <= 0 then 60 else cfg.cacheDuration }

  /** `time.Duration(cacheDuration) * time.Second`, which wraps around beyond 292 years. */
  function Lifetime(cfg: Config): int { Wrap(Seconds(cfg) * SECOND) }

  predicate IsHit(s: State, call: Call) { call.checked < s.expiresAt && s.data.Some? }

  function NodeName(cfg: Config, call: Call): string { if cfg.nodeName == "" then call.env else cfg.nodeName }

  /** What the query of a call comes to. */
  function Fetch(cfg: Config, call: Call): Result<Mapping, Error> {
    if NodeName(cfg, call) == "" then Err(NoNodeName)
    else if call.client.Err? then Err(ClientFailed(call.client.error))
    else
      var pods := call.pods(NodeName(cfg, call));
      if pods.Err? then Err(ListFailed(pods.error)) else Ok(ByOrdinal(Holders(pods.value)))
  }

  /** The answer to a call and the state it leaves. */
  function Step(cfg: Config, s: State, call: Call): (Result<Mapping, Error>, State) {
    if IsHit(s, call) then (Ok(s.data.value), s)
    else
      var fetched := Fetch(cfg, call);
      (fetched, if fetched.Ok? then State(Some(fetched.value), call.stored + Lifetime(cfg)) else s)
  }

  class Cache {
    var data: Option<Mapping>
    var expiresAt: int

    function Current(): State
      reads this
    {
      State(data, expiresAt)
    }

    /** The zero time and no data. */
    constructor (zero: int)
      ensures Current() == State(None, zero)
    {
      data := None;
      expiresAt := zero;
    }

    method GetGPU2K8s(cfg: Config, call: Call) returns (r: Result<Mapping, Error>)
      modifies this
      ensures (r, Current()) == Step(cfg, old(Current()), call)
      ensures r.Err? ==> Current() == old(Current())
      ensures var name := if cfg.nodeName != "" then cfg.nodeName else call.env;
              if call.checked < old(expiresAt) && old(data).Some? then
                r == Ok(old(data).value) && Current() == old(Current())
              else if name == "" then r == Err(NoNodeName)
              else if call.client.Err? then r == Err(ClientFailed(call.client.error))
              else if call.pods(name).Err? then r == Err(ListFailed(call.pods(name).error))
              else
                && r == Ok(ByOrdinal(Holders(call.pods(name).value))) && data == Some(r.value)
                && expiresAt ==
                   call.stored + Wrap((if cfg.cacheDuration > 0 then cfg.cacheDuration else 60) * 1_000_000_000)
    {
      hide Holders, ByOrdinal, Wrap;
      if call.checked < expiresAt && data.Some? {
        return Ok(data.value);
      }
      var nodeName := cfg.nodeName;
      if nodeName == "" {
        nodeName := call.env;
      }
      if nodeName == "" {
        return Err(NoNodeName);
      }
      if call.client.Err? {
        return Err(ClientFailed(call.client.error));
      }
      var pods := call.pods(nodeName);
      if pods.Err? {
        return Err(ListFailed(pods.error));
      }
      var result := BuildGPU2K8s(pods.value);
      var cacheDuration := cfg.cacheDuration;
      if cacheDuration <= 0 {
        cacheDuration := 60;
      }
      data := Some(result);
      expiresAt := call.stored + Wrap(cacheDuration * SECOND);
      return Ok(result);
    }
  }

  // ---------- Runs ----------

  function StateAfter(cfg: Config, zero: int, calls: seq<Call>): State {
    if calls == [] then State(None, zero)
    else Step(cfg, StateAfter(cfg, zero, calls[..|calls| - 1]), calls[|calls| - 1]).1
  }

  function Answer(cfg: Config, zero: int, calls: seq<Call>, i: nat): Result<Mapping, Error>
    requires i < |calls|
  {
    Step(cfg, StateAfter(cfg, zero, calls[..i]), calls[i]).0
  }

  /** Call `i` queries the API server and stores what it answers. */
  predicate Fetches(cfg: Config, zero: int, calls: seq<Call>, i: nat)
    requires i < |calls|
  {
    !IsHit(StateAfter(cfg, zero, calls[..i]), calls[i]) && Fetch(cfg, calls[i]).Ok?
  }

  /** Call `k` is the last of the first `n` that fetches. */
  ghost predicate LastFetch(cfg: Config, zero: int, calls: seq<Call>, n: nat, k: int)
    requires n <= |calls|
  {
    0 <= k < n && Fetches(cfg, zero, calls, k) && forall j :: k < j < n ==> !Fetches(cfg, zero, calls, j)
  }

  lemma StateGrows(cfg: Config, zero: int, calls: seq<Call>, n: nat)
    requires n < |calls|
    ensures StateAfter(cfg, zero, calls[..n + 1]) ==
            if Fetches(cfg, zero, calls, n)
            then State(Some(Fetch(cfg, calls[n]).value), calls[n].stored + Lifetime(cfg))
            else StateAfter(cfg, zero, calls[..n])
  {
    hide Fetch, Lifetime;
    assert calls[..n + 1][..n] == calls[..n];
  }

  /** The state is what the last fetch stored. */
  lemma {:induction false} StateIsTheLastFetch(cfg: Config, zero: int, calls: seq<Call>, n: nat)
    requires n <= |calls|
    ensures StateAfter(cfg, zero, calls[..n]).data.None? ==>
              && StateAfter(cfg, zero, calls[..n]).expiresAt == zero
              && forall j :: 0 <= j < n ==> !Fetches(cfg, zero, calls, j)
    ensures StateAfter(cfg, zero, calls[..n]).data.Some? ==> exists k :: LastFetch(cfg, zero, calls, n, k)
    ensures forall k :: LastFetch(cfg, zero, calls, n, k) ==>
      StateAfter(cfg, zero, calls[..n]) == State(Some(Fetch(cfg, calls[k]).value), calls[k].stored + Lifetime(cfg))
  {
    hide Fetch, Lifetime, Fetches;
    if n > 0 {
      hide StateAfter;
      StateIsTheLastFetch(cfg, zero, calls, n - 1);
      StateGrows(cfg, zero, calls, n - 1);
      if Fetches(cfg, zero, calls, n - 1) {
        assert LastFetch(cfg, zero, calls, n, n - 1);
      } else {
        assert forall k :: LastFetch(cfg, zero, calls, n, k) <==> LastFetch(cfg, zero, calls, n - 1, k);
        if StateAfter(cfg, zero, calls[..n - 1]).data.Some? {
          var k :| LastFetch(cfg, zero, calls, n - 1, k);
          assert LastFetch(cfg, zero, calls, n, k);
        }
      }
    }
  }

  lemma LifetimeIsAtMost(cfg: Config)
    ensures Lifetime(cfg) <= Seconds(cfg) * SECOND
    ensures Lifetime(cfg) == Seconds(cfg) * SECOND <==> Seconds(cfg) <= 9_223_372_036
  {
  }

  /** Call `k` fetched the answer to call `i`, and that answer is still fresh. */
  ghost predicate IsSource(cfg: Config, zero: int, calls: seq<Call>, i: nat, k: nat)
    requires k <= i < |calls|
  {
    && Fetches(cfg, zero, calls, k)
    && (var asked := calls[k].pods(NodeName(cfg, calls[k]));
        asked.Ok? && Answer(cfg, zero, calls, i) == Ok(ByOrdinal(Holders(asked.value))))
    && (k < i ==>
          && LastFetch(cfg, zero, calls, i, k)
          && calls[i].checked < calls[k].stored + Seconds(cfg) * SECOND)
  }

  /**
   * Every successful answer is what some call fetched: this one, or the last one before it that
   * fetched, which stored it less than the cache duration before this call's expiry check.
   */
  lemma AnswersAreFresh(cfg: Config, zero: int, calls: seq<Call>, i: nat)
    requires i < |calls| && Answer(cfg, zero, calls, i).Ok?
    ensures exists k :: 0 <= k <= i && IsSource(cfg, zero, calls, i, k)
  {
    hide StateAfter, Lifetime, ByOrdinal, Holders;
    StateIsTheLastFetch(cfg, zero, calls, i);
    LifetimeIsAtMost(cfg);
    if IsHit(StateAfter(cfg, zero, calls[..i]), calls[i]) {
      var k :| LastFetch(cfg, zero, calls, i, k);
      assert IsSource(cfg, zero, calls, i, k);
    } else {
      assert IsSource(cfg, zero, calls, i, i);
    }
  }

  /** A failed call leaves the cache as it was. */
  lemma FailuresChangeNothing(cfg: Config, zero: int, calls: seq<Call>, i: nat)
    requires i < |calls| && Answer(cfg, zero, calls, i).Err?
    ensures StateAfter(cfg, zero, calls[..i + 1]) == StateAfter(cfg, zero, calls[..i])
  {
    StateGrows(cfg, zero, calls, i);
  }

  /** The clock does not go back, within a call or between calls. */
  ghost predicate Timed(calls: seq<Call>) {
    && (forall i :: 0 <= i < |calls| ==> calls[i].checked <= calls[i].started <= calls[i].stored)
    && (forall i, j :: 0 <= i < j < |calls| ==> calls[i].stored <= calls[j].checked)
  }

  /** Any two fetches of a run lie at least a cache duration apart. */
  ghost predicate Spaced(cfg: Config, zero: int, calls: seq<Call>) {
    forall k, i :: 0 <= k < i < |calls| && Fetches(cfg, zero, calls, k) && Fetches(cfg, zero, calls, i) ==>
      calls[i].started >= calls[k].stored + Seconds(cfg) * SECOND
  }

  lemma FetchesAreSpaced(cfg: Config, zero: int, calls: seq<Call>, k: nat, i: nat)
    requires Timed(calls) && k < i < |calls|
    requires Fetches(cfg, zero, calls, k) && Fetches(cfg, zero, calls, i)
    ensures calls[i].started >= calls[k].stored + Lifetime(cfg)
  {
    hide StateAfter, Lifetime, Fetch;
    StateIsTheLastFetch(cfg, zero, calls, i);
    var last := LastBefore(cfg, zero, calls, k, i);
  }

  /** Some fetch before `i`, no earlier than `k`, is the last one. */
  lemma LastBefore(cfg: Config, zero: int, calls: seq<Call>, k: nat, i: nat) returns (last: nat)
    requires k < i <= |calls| && Fetches(cfg, zero, calls, k)
    ensures k <= last && LastFetch(cfg, zero, calls, i, last)
  {
    hide Fetches;
    last := i - 1;
    while !Fetches(cfg, zero, calls, last)
      invariant k <= last < i
      invariant forall j :: last < j < i ==> !Fetches(cfg, zero, calls, j)
      decreases last
    {
      last := last - 1;
    }
  }

  /** A run of two calls that both fetch, as early as the lifetime allows. */
  function TwoFetches(cfg: Config): seq<Call> {
    var again := if Lifetime(cfg) < 0 then 0 else Lifetime(cfg);
    var empty := (node: string) => Ok([]);
    [Call(0, 0, 0, "node", Ok(()), empty), Call(again, again, again, "node", Ok(()), empty)]
  }

  /**
   * Every run keeps its fetches a cache duration apart exactly when that duration fits 64 bits of
   * nanoseconds.
   */
  lemma SpacedExactlyWhen(cfg: Config, zero: int)
    ensures (forall calls :: Timed(calls) ==> Spaced(cfg, zero, calls)) <==> Seconds(cfg) <= 9_223_372_036
  {
    LifetimeIsAtMost(cfg);
    if Seconds(cfg) <= 9_223_372_036 {
      forall calls: seq<Call> | Timed(calls)
        ensures Spaced(cfg, zero, calls)
      {
        forall k: nat, i: nat | k < i < |calls| && Fetches(cfg, zero, calls, k) && Fetches(cfg, zero, calls, i)
          ensures calls[i].started >= calls[k].stored + Seconds(cfg) * SECOND
        {
          FetchesAreSpaced(cfg, zero, calls, k, i);
        }
      }
    } else {
      TooEarly(cfg, zero);
    }
  }

  lemma TooEarly(cfg: Config, zero: int)
    requires Seconds(cfg) > 9_223_372_036
    ensures Timed(TwoFetches(cfg)) && !Spaced(cfg, zero, TwoFetches(cfg))
  {
    var calls := TwoFetches(cfg);
    LifetimeIsAtMost(cfg);
    assert calls[..0] == [];
    assert calls[..1][..0] == [];
    assert Fetch(cfg, calls[0]).Ok? && Fetch(cfg, calls[1]).Ok?;
    StateGrows(cfg, zero, calls, 0);
    assert Fetches(cfg, zero, calls, 0);
    assert Fetches(cfg, zero, calls, 1);
  }

  /**
   * A call is answered from the cache exactly when an earlier call fetched and the last such call
   * stored its answer less than a lifetime before.
   */
  lemma HitsExactlyWhen(cfg: Config, zero: int, calls: seq<Call>, i: nat)
    requires i < |calls|
    ensures IsHit(StateAfter(cfg, zero, calls[..i]), calls[i]) <==>
            exists k :: LastFetch(cfg, zero, calls, i, k) && calls[i].checked < calls[k].stored + Lifetime(cfg)
  {
    hide StateAfter, Lifetime, Fetch, Fetches;
    StateIsTheLastFetch(cfg, zero, calls, i);
  }
}
