/**
 * Which pod holds which GPU: the ordinal loop of `buildGPU2K8s` in k8shelper.go, container by
 * container, and the one of `get_gpu_k8s_mapping` in k8s_gpu_map.py, pod by pod.
 */
module GpuOrdinals {
  import opened Wrappers
  import opened Text

  const GPU_RESOURCE_KEYS :=
    ["nvidia.com/gpu", "amd.com/gpu", "habana.ai/gaudi", "habana.ai/gaudi2", "habana.ai/gaudi3"]
  const GPU_RESOURCE_TYPES := ["nvidia.com/gpu", "amd.com/gpu"]

  /** A limit is None when `int` does not take it. */
  datatype Container = Container(name: string, requests: map<string, int>, limits: map<string, Option<int>>)

  /** What K8sMetadata holds for all GPUs of a pod: labels after the filter, owners after resolution. */
  datatype PodMetadata = PodMetadata(
    nodeName: string, labels: map<string, string>, jobName: string, statefulSetName: string, deploymentName: string,
    customOwnerKind: string, customOwnerName: string, cloudZone: string, cloudRegion: string)

  datatype Pod = Pod(namespace: string, name: string, metadata: PodMetadata, containers: seq<Container>)

  type PodId = (string, string)

  function Id(pod: Pod): PodId { (pod.namespace, pod.name) }

  /** K8sMetadata. */
  datatype Holder = Holder(pod: PodId, container: string, metadata: PodMetadata)

  function NonNegative(n: int): nat { if n < 0 then 0 else n }

  function Repeat<T>(x: T, n: nat): seq<T> { seq(n, i => x) }

  // ---------- Counting units ----------

  function SumRequests(keys: seq<string>, requests: map<string, int>): int {
    if keys == [] then 0
    else
      var k := keys[|keys| - 1];
      SumRequests(keys[..|keys| - 1], requests) + if k in requests then requests[k] else 0
  }

  function SumLimits(keys: seq<string>, limits: map<string, Option<int>>): int {
    if keys == [] then 0
    else
      var k := keys[|keys| - 1];
      SumLimits(keys[..|keys| - 1], limits) + if k in limits && limits[k].Some? then limits[k].value else 0
  }

  /** `gpuRequestCount`. */
  function RequestCount(c: Container): int { SumRequests(GPU_RESOURCE_KEYS, c.requests) }

  method GpuRequestCount(c: Container) returns (total: int)
    ensures total == RequestCount(c)
  {
    total := 0;
    for i := 0 to |GPU_RESOURCE_KEYS|
      invariant total == SumRequests(GPU_RESOURCE_KEYS[..i], c.requests)
    {
      assert GPU_RESOURCE_KEYS[..i + 1][..i] == GPU_RESOURCE_KEYS[..i];
      if GPU_RESOURCE_KEYS[i] in c.requests {
        total := total + c.requests[GPU_RESOURCE_KEYS[i]];
      }
    }
    assert GPU_RESOURCE_KEYS[..|GPU_RESOURCE_KEYS|] == GPU_RESOURCE_KEYS;
  }

  function Requested(c: Container, k: string): int { if k in c.requests then c.requests[k] else 0 }

  /** The limit of a key, 0 where it is absent or no integer. */
  function Limited(c: Container, k: string): int {
    if k in c.limits && c.limits[k].Some? then c.limits[k].value else 0
  }

  lemma SumRequestsLast(keys: seq<string>, k: string, c: Container)
    ensures SumRequests([], c.requests) == 0
    ensures SumRequests(keys + [k], c.requests) == SumRequests(keys, c.requests) + Requested(c, k)
  {
    assert (keys + [k])[..|keys|] == keys;
  }

  lemma SumLimitsLast(keys: seq<string>, k: string, c: Container)
    ensures SumLimits([], c.limits) == 0
    ensures SumLimits(keys + [k], c.limits) == SumLimits(keys, c.limits) + Limited(c, k)
  {
    assert (keys + [k])[..|keys|] == keys;
  }

  /** The kinds of accelerators that each side counts. */
  lemma CountedKinds(c: Container)
    ensures RequestCount(c) ==
            Requested(c, "nvidia.com/gpu") + Requested(c, "amd.com/gpu") + Requested(c, "habana.ai/gaudi")
            + Requested(c, "habana.ai/gaudi2") + Requested(c, "habana.ai/gaudi3")
    ensures SumLimits(GPU_RESOURCE_TYPES, c.limits) == Limited(c, "nvidia.com/gpu") + Limited(c, "amd.com/gpu")
  {
    hide SumRequests, SumLimits, Requested, Limited;
    var one := [] + ["nvidia.com/gpu"];
    var two := one + ["amd.com/gpu"];
    var three := two + ["habana.ai/gaudi"];
    var four := three + ["habana.ai/gaudi2"];
    SumRequestsLast([], "nvidia.com/gpu", c);
    SumRequestsLast(one, "amd.com/gpu", c);
    SumRequestsLast(two, "habana.ai/gaudi", c);
    SumRequestsLast(three, "habana.ai/gaudi2", c);
    SumRequestsLast(four, "habana.ai/gaudi3", c);
    SumLimitsLast([], "nvidia.com/gpu", c);
    SumLimitsLast(one, "amd.com/gpu", c);
    assert four + ["habana.ai/gaudi3"] == GPU_RESOURCE_KEYS && two == GPU_RESOURCE_TYPES;
  }

  /** The ordinals a pod's containers take in the Go loop. */
  function GoTotal(cs: seq<Container>): nat {
    if cs == [] then 0 else GoTotal(cs[..|cs| - 1]) + NonNegative(RequestCount(cs[|cs| - 1]))
  }

  /** `gpu_count` of a pod in the Python loop. */
  function PyTotal(cs: seq<Container>): int {
    if cs == [] then 0 else PyTotal(cs[..|cs| - 1]) + SumLimits(GPU_RESOURCE_TYPES, cs[|cs| - 1].limits)
  }

  // ---------- The Go loop ----------

  /** The holder of each ordinal among one pod's containers. */
  function HoldersIn(pod: Pod, cs: seq<Container>): seq<Holder> {
    if cs == [] then []
    else
      var c := cs[|cs| - 1];
      HoldersIn(pod, cs[..|cs| - 1]) + Repeat(Holder(Id(pod), c.name, pod.metadata), NonNegative(RequestCount(c)))
  }

  /** The holder of each ordinal. */
  function Holders(pods: seq<Pod>): seq<Holder> {
    if pods == [] then []
    else Holders(pods[..|pods| - 1]) + HoldersIn(pods[|pods| - 1], pods[|pods| - 1].containers)
  }

  /** The map from ordinals as strings. */
  function ByOrdinal(holders: seq<Holder>): map<string, Holder> {
    if holders == [] then map[]
    else ByOrdinal(holders[..|holders| - 1])[Numeral(|holders| - 1) := holders[|holders| - 1]]
  }

  lemma ByOrdinalAppend(holders: seq<Holder>, h: Holder)
    ensures ByOrdinal(holders + [h]) == ByOrdinal(holders)[Numeral(|holders|) := h]
  {
    assert (holders + [h])[..|holders|] == holders;
  }

  method BuildGPU2K8s(pods: seq<Pod>) returns (result: map<string, Holder>)
    ensures result == ByOrdinal(Holders(pods))
  {
    result := map[];
    var gpuOrdinal := 0;
    for i := 0 to |pods|
      invariant gpuOrdinal == |Holders(pods[..i])| && result == ByOrdinal(Holders(pods[..i]))
    {
      var pod := pods[i];
      assert pods[..i + 1][..i] == pods[..i];
      result, gpuOrdinal := AddPod(pod, result, gpuOrdinal, Holders(pods[..i]));
    }
    assert pods[..|pods|] == pods;
  }

  lemma RepeatNothing()
    ensures forall h: Holder :: Repeat(h, 0) == []
  {
  }

  /** The loop over one pod's containers. */
  method AddPod(pod: Pod, before: map<string, Holder>, start: nat, ghost known: seq<Holder>)
    returns (result: map<string, Holder>, gpuOrdinal: nat)
    requires start == |known| && before == ByOrdinal(known)
    ensures result == ByOrdinal(known + HoldersIn(pod, pod.containers))
    ensures gpuOrdinal == |known + HoldersIn(pod, pod.containers)|
  {
    hide ByOrdinal, RequestCount, Repeat;
    result, gpuOrdinal := before, start;
    RepeatNothing();
    var cs := pod.containers;
    assert known + [] == known;
    for j := 0 to |cs|
      invariant gpuOrdinal == |known + HoldersIn(pod, cs[..j])|
      invariant result == ByOrdinal(known + HoldersIn(pod, cs[..j]))
    {
      assert cs[..j + 1][..j] == cs[..j];
      var gpuCount := GpuRequestCount(cs[j]);
      ghost var sofar := known + HoldersIn(pod, cs[..j]);
      var meta := Holder(Id(pod), cs[j].name, pod.metadata);
      assert sofar + [] == sofar;
      if gpuCount != 0 {
        result, gpuOrdinal := AddUnits(meta, gpuCount, result, gpuOrdinal, sofar);
      }
      assert sofar + Repeat(meta, NonNegative(gpuCount)) == known + HoldersIn(pod, cs[..j + 1]);
    }
    assert cs[..|cs|] == cs;
  }

  /** The loop over one container's units. */
  method AddUnits(meta: Holder, gpuCount: int, before: map<string, Holder>, start: nat, ghost known: seq<Holder>)
    returns (result: map<string, Holder>, gpuOrdinal: nat)
    requires start == |known| && before == ByOrdinal(known)
    ensures result == ByOrdinal(known + Repeat(meta, NonNegative(gpuCount)))
    ensures gpuOrdinal == |known + Repeat(meta, NonNegative(gpuCount))|
  {
    hide ByOrdinal;
    result, gpuOrdinal := before, start;
    assert known + Repeat(meta, 0) == known;
    var j := 0;
    while j < gpuCount
      invariant 0 <= j <= NonNegative(gpuCount) && gpuOrdinal == start + j
      invariant result == ByOrdinal(known + Repeat(meta, j))
    {
      var now, next := known + Repeat(meta, j), known + Repeat(meta, j + 1);
      ByOrdinalAppend(now, meta);
      assert now + [meta] == next;
      result := result[Numeral(gpuOrdinal) := meta];
      gpuOrdinal := gpuOrdinal + 1;
      j := j + 1;
    }
  }

  function Ordinals(total: nat): set<string> { set i | 0 <= i < total :: Numeral(i) }

  /** The keys are exactly the numerals of 0, 1, ..., total - 1. */
  lemma {:induction false} OrdinalsAreDense(holders: seq<Holder>)
    ensures ByOrdinal(holders).Keys == Ordinals(|holders|)
  {
    hide Numeral;
    if holders != [] {
      var n := |holders| - 1;
      OrdinalsAreDense(holders[..n]);
      assert ByOrdinal(holders).Keys == ByOrdinal(holders[..n]).Keys + {Numeral(n)};
      assert Ordinals(n + 1) == Ordinals(n) + {Numeral(n)};
    }
  }

  lemma {:induction false} OrdinalHolder(holders: seq<Holder>, i: nat)
    requires i < |holders|
    ensures Numeral(i) in ByOrdinal(holders) && ByOrdinal(holders)[Numeral(i)] == holders[i]
  {
    var n := |holders| - 1;
    if i < n {
      OrdinalHolder(holders[..n], i);
      if Numeral(i) == Numeral(n) {
        NumeralIsInjective(i, n);
      }
    }
  }

  /** Where the block of container `j` of pod `p` begins. */
  function BlockStart(pods: seq<Pod>, p: nat, j: nat): nat
    requires p < |pods| && j < |pods[p].containers|
  {
    |Holders(pods[..p])| + |HoldersIn(pods[p], pods[p].containers[..j])|
  }

  lemma {:induction false} HoldersPrefix(pods: seq<Pod>, p: nat)
    requires p <= |pods|
    ensures Holders(pods[..p]) <= Holders(pods)
  {
    if p == |pods| {
      assert pods[..p] == pods;
    } else {
      HoldersPrefix(pods[..|pods| - 1], p);
      assert pods[..|pods| - 1][..p] == pods[..p];
    }
  }

  lemma {:induction false} HoldersInPrefix(pod: Pod, cs: seq<Container>, j: nat)
    requires j <= |cs|
    ensures HoldersIn(pod, cs[..j]) <= HoldersIn(pod, cs)
  {
    if j == |cs| {
      assert cs[..j] == cs;
    } else {
      HoldersInPrefix(pod, cs[..|cs| - 1], j);
      assert cs[..|cs| - 1][..j] == cs[..j];
    }
  }

  /** Each container owns one contiguous block, as long as its request. */
  lemma ContainerOwnsBlock(pods: seq<Pod>, p: nat, j: nat, i: nat)
    requires p < |pods| && j < |pods[p].containers|
    requires BlockStart(pods, p, j) <= i < BlockStart(pods, p, j) + NonNegative(RequestCount(pods[p].containers[j]))
    ensures i < |Holders(pods)|
    ensures Holders(pods)[i] ==
            Holder((pods[p].namespace, pods[p].name), pods[p].containers[j].name, pods[p].metadata)
  {
    var cs := pods[p].containers;
    HoldersPrefix(pods, p + 1);
    HoldersInPrefix(pods[p], cs, j + 1);
    assert pods[..p + 1][..p] == pods[..p];
    assert cs[..j + 1][..j] == cs[..j];
  }

  /** The block of the container after is the next one: blocks do not overlap and leave no gap. */
  lemma BlocksFollowEachOther(pods: seq<Pod>, p: nat, j: nat)
    requires p < |pods| && j < |pods[p].containers|
    ensures BlockStart(pods, p, j) + NonNegative(RequestCount(pods[p].containers[j])) ==
            if j + 1 < |pods[p].containers| then BlockStart(pods, p, j + 1) else |Holders(pods[..p + 1])|
    ensures j == 0 ==> BlockStart(pods, p, j) == |Holders(pods[..p])|
    ensures p == 0 ==> |Holders(pods[..p])| == 0
  {
    var cs := pods[p].containers;
    assert cs[..j + 1][..j] == cs[..j];
    assert pods[..p + 1][..p] == pods[..p];
    if j + 1 == |cs| {
      assert cs[..j + 1] == cs;
    }
  }

  // ---------- The Python loop ----------

  /** The map and the next ordinal after the pods; a negative count moves the ordinal back. */
  function PyFold(pods: seq<Pod>): (map<int, PodId>, int) {
    if pods == [] then (map[], 0)
    else
      var pod := pods[|pods| - 1];
      var (before, ordinal) := PyFold(pods[..|pods| - 1]);
      var count := PyTotal(pod.containers);
      (Assign(before, ordinal, NonNegative(count), Id(pod)), ordinal + count)
  }

  /** `for i in range(n): m[start + i] = x`. */
  function Assign(m: map<int, PodId>, start: int, n: nat, x: PodId): map<int, PodId> {
    if n == 0 then m else Assign(m, start, n - 1, x)[start + n - 1 := x]
  }

  lemma {:induction false} AssignedEntries(m: map<int, PodId>, start: int, n: nat, x: PodId, i: int)
    ensures i in Assign(m, start, n, x) <==> i in m || start <= i < start + n
    ensures i in Assign(m, start, n, x) ==> Assign(m, start, n, x)[i] == if start <= i < start + n then x else m[i]
  {
    if n > 0 {
      AssignedEntries(m, start, n - 1, x, i);
    }
  }

  /** One more pod takes the ordinals from the next one on, as many as its limits; a negative sum moves it back. */
  lemma PodTakesItsRun(pods: seq<Pod>, pod: Pod, i: int)
    ensures PyFold([]) == (map[], 0)
    ensures var (before, ordinal), (after, next), count := PyFold(pods), PyFold(pods + [pod]), PyTotal(pod.containers);
            && next == ordinal + count
            && (i in after <==> i in before || ordinal <= i < ordinal + count)
            && (i in after ==>
                  after[i] == if ordinal <= i < ordinal + count then (pod.namespace, pod.name) else before[i])
  {
    hide PyTotal, Assign;
    assert (pods + [pod])[..|pods|] == pods;
    AssignedEntries(PyFold(pods).0, PyFold(pods).1, NonNegative(PyTotal(pod.containers)), Id(pod), i);
  }

  lemma TotalsOfOneMore(cs: seq<Container>, c: Container)
    ensures GoTotal([]) == PyTotal([]) == 0
    ensures GoTotal(cs + [c]) == GoTotal(cs) + if RequestCount(c) > 0 then RequestCount(c) else 0
    ensures PyTotal(cs + [c]) == PyTotal(cs) + SumLimits(GPU_RESOURCE_TYPES, c.limits)
  {
    hide RequestCount, SumLimits;
    assert (cs + [c])[..|cs|] == cs;
  }

  method GetGpuK8sMapping(pods: seq<Pod>) returns (result: map<int, PodId>)
    ensures result == PyFold(pods).0
  {
    result := map[];
    var ordinal := 0;
    for k := 0 to |pods|
      invariant (result, ordinal) == PyFold(pods[..k])
    {
      assert pods[..k + 1][..k] == pods[..k];
      var pod := pods[k];
      var gpuCount := CountLimits(pod.containers);
      if gpuCount != 0 {
        ghost var before := result;
        var i := 0;
        while i < gpuCount
          invariant 0 <= i <= NonNegative(gpuCount)
          invariant result == Assign(before, ordinal, i, Id(pod))
        {
          result := result[ordinal + i := Id(pod)];
          i := i + 1;
        }
        ordinal := ordinal + gpuCount;
      }
    }
    assert pods[..|pods|] == pods;
  }

  /** The count over one pod's containers; a limit that is no integer is skipped. */
  method CountLimits(cs: seq<Container>) returns (gpuCount: int)
    ensures gpuCount == PyTotal(cs)
  {
    gpuCount := 0;
    for j := 0 to |cs|
      invariant gpuCount == PyTotal(cs[..j])
    {
      assert cs[..j + 1][..j] == cs[..j];
      ghost var before := gpuCount;
      var limits := cs[j].limits;
      for r := 0 to |GPU_RESOURCE_TYPES|
        invariant gpuCount == before + SumLimits(GPU_RESOURCE_TYPES[..r], limits)
      {
        assert GPU_RESOURCE_TYPES[..r + 1][..r] == GPU_RESOURCE_TYPES[..r];
        var rtype := GPU_RESOURCE_TYPES[r];
        if rtype in limits && limits[rtype].Some? {
          gpuCount := gpuCount + limits[rtype].value;
        }
      }
      assert GPU_RESOURCE_TYPES[..|GPU_RESOURCE_TYPES|] == GPU_RESOURCE_TYPES;
    }
    assert cs[..|cs|] == cs;
  }

  // ---------- Agreement ----------

  /** The pod of each ordinal when every pod takes as many as `total` says. */
  function PodRuns(pods: seq<Pod>, total: Pod -> nat): seq<PodId> {
    if pods == [] then []
    else
      var pod := pods[|pods| - 1];
      PodRuns(pods[..|pods| - 1], total) + Repeat(Id(pod), total(pod))
  }

  function GoUnits(pod: Pod): nat { GoTotal(pod.containers) }

  function PyUnits(pod: Pod): nat { NonNegative(PyTotal(pod.containers)) }

  function PodsOf(holders: seq<Holder>): seq<PodId> {
    seq(|holders|, i requires 0 <= i < |holders| => holders[i].pod)
  }

  lemma {:induction false} PodsOfHoldersIn(pod: Pod, cs: seq<Container>)
    ensures PodsOf(HoldersIn(pod, cs)) == Repeat(Id(pod), GoTotal(cs))
  {
    if cs != [] {
      var c := cs[|cs| - 1];
      PodsOfHoldersIn(pod, cs[..|cs| - 1]);
      assert PodsOf(HoldersIn(pod, cs)) ==
             PodsOf(HoldersIn(pod, cs[..|cs| - 1])) + Repeat(Id(pod), NonNegative(RequestCount(c)));
    }
  }

  lemma {:induction false} GoRuns(pods: seq<Pod>)
    ensures PodsOf(Holders(pods)) == PodRuns(pods, GoUnits)
  {
    if pods != [] {
      var n := |pods| - 1;
      GoRuns(pods[..n]);
      PodsOfHoldersIn(pods[n], pods[n].containers);
      assert PodsOf(Holders(pods)) ==
             PodsOf(Holders(pods[..n])) + PodsOf(HoldersIn(pods[n], pods[n].containers));
    }
  }

  ghost predicate IsArray(m: map<int, PodId>, s: seq<PodId>) {
    && (forall i :: i in m <==> 0 <= i < |s|)
    && (forall i :: 0 <= i < |s| ==> m[i] == s[i])
  }

  lemma {:induction false} AssignExtends(m: map<int, PodId>, s: seq<PodId>, n: nat, x: PodId)
    requires IsArray(m, s)
    ensures IsArray(Assign(m, |s|, n, x), s + Repeat(x, n))
  {
    if n > 0 {
      AssignExtends(m, s, n - 1, x);
    }
  }

  /** Without negative counts the Python map is the array of its pods' runs. */
  lemma {:induction false} PyRuns(pods: seq<Pod>)
    requires forall i :: 0 <= i < |pods| ==> PyTotal(pods[i].containers) >= 0
    ensures IsArray(PyFold(pods).0, PodRuns(pods, PyUnits)) && PyFold(pods).1 == |PodRuns(pods, PyUnits)|
  {
    if pods != [] {
      var n := |pods| - 1;
      PyRuns(pods[..n]);
      AssignExtends(PyFold(pods[..n]).0, PodRuns(pods[..n], PyUnits), PyUnits(pods[n]), Id(pods[n]));
    }
  }

  /** Every ordinal has the same pod in both maps, or is in neither. */
  ghost predicate MapsAgree(go: map<string, Holder>, py: map<int, PodId>) {
    && (forall i: nat :: Numeral(i) in go <==> i in py)
    && (forall i: nat :: i in py && Numeral(i) in go ==> go[Numeral(i)].pod == py[i])
  }

  lemma MapsAgreeWhenRunsDo(holders: seq<Holder>, py: map<int, PodId>, s: seq<PodId>)
    requires IsArray(py, s)
    ensures MapsAgree(ByOrdinal(holders), py) <==> PodsOf(holders) == s
  {
    var go := ByOrdinal(holders);
    forall i: nat
      ensures Numeral(i) in go <==> i < |holders|
      ensures i < |holders| ==> Numeral(i) in go && go[Numeral(i)] == holders[i]
    {
      OrdinalsAreDense(holders);
      assert Numeral(i) in go <==> Numeral(i) in Ordinals(|holders|);
      if i < |holders| {
        OrdinalHolder(holders, i);
      } else if k :| 0 <= k < |holders| && Numeral(i) == Numeral(k) {
        NumeralIsInjective(i, k);
      }
    }
    if MapsAgree(go, py) {
      assert |holders| == |s| by {
        assert Numeral(|s|) in go <==> |s| in py;
        assert Numeral(|holders|) in go <==> |holders| in py;
      }
      forall i | 0 <= i < |s|
        ensures PodsOf(holders)[i] == s[i]
      {
        assert i in py;
      }
    }
  }

  ghost predicate DistinctPods(pods: seq<Pod>) {
    forall i, j :: 0 <= i < j < |pods| ==> Id(pods[i]) != Id(pods[j])
  }

  lemma {:induction false} RepeatCount<T>(x: T, n: nat, y: T)
    ensures multiset(Repeat(x, n))[y] == if x == y then n else 0
  {
    if n > 0 {
      RepeatCount(x, n - 1, y);
      assert Repeat(x, n) == Repeat(x, n - 1) + [x];
    }
  }

  lemma {:induction false} RunCount(pods: seq<Pod>, total: Pod -> nat, id: PodId)
    requires DistinctPods(pods)
    ensures (forall i :: 0 <= i < |pods| ==> Id(pods[i]) != id) ==> multiset(PodRuns(pods, total))[id] == 0
    ensures forall i :: 0 <= i < |pods| && Id(pods[i]) == id ==> multiset(PodRuns(pods, total))[id] == total(pods[i])
  {
    if pods != [] {
      var n := |pods| - 1;
      hide Repeat;
      RunCount(pods[..n], total, id);
      RepeatCount(Id(pods[n]), total(pods[n]), id);
      assert forall i :: 0 <= i < n ==> pods[..n][i] == pods[i];
    }
  }

  lemma {:induction false} SameTotalsSameRuns(pods: seq<Pod>, f: Pod -> nat, g: Pod -> nat)
    requires forall i :: 0 <= i < |pods| ==> f(pods[i]) == g(pods[i])
    ensures PodRuns(pods, f) == PodRuns(pods, g)
  {
    if pods != [] {
      SameTotalsSameRuns(pods[..|pods| - 1], f, g);
    }
  }

  /** In every pod the Go code counts as many units as the Python code. */
  ghost predicate SameTotals(pods: seq<Pod>) {
    forall i :: 0 <= i < |pods| ==> GoTotal(pods[i].containers) == PyTotal(pods[i].containers)
  }

  lemma SameRunsExactlyWhen(pods: seq<Pod>)
    requires DistinctPods(pods)
    requires forall i :: 0 <= i < |pods| ==> PyTotal(pods[i].containers) >= 0
    ensures PodRuns(pods, GoUnits) == PodRuns(pods, PyUnits) <==> SameTotals(pods)
  {
    hide PodRuns, GoTotal, PyTotal, DistinctPods;
    if PodRuns(pods, GoUnits) == PodRuns(pods, PyUnits) {
      forall i | 0 <= i < |pods|
        ensures GoTotal(pods[i].containers) == PyTotal(pods[i].containers)
      {
        RunCount(pods, GoUnits, Id(pods[i]));
        RunCount(pods, PyUnits, Id(pods[i]));
        assert GoUnits(pods[i]) == PyUnits(pods[i]);
      }
    }
    if SameTotals(pods) {
      forall i | 0 <= i < |pods|
        ensures GoUnits(pods[i]) == PyUnits(pods[i])
      {
        assert GoTotal(pods[i].containers) == PyTotal(pods[i].containers);
      }
      SameTotalsSameRuns(pods, GoUnits, PyUnits);
    }
  }

  /**
   * The two mappings agree on every ordinal exactly when each pod's units are counted alike: its
   * requests over the five keys of the Go code, its limits over the two of the Python code.
   */
  lemma MappingsAgreeExactlyWhen(pods: seq<Pod>)
    requires DistinctPods(pods)
    requires forall i :: 0 <= i < |pods| ==> PyTotal(pods[i].containers) >= 0
    ensures MapsAgree(ByOrdinal(Holders(pods)), PyFold(pods).0) <==> SameTotals(pods)
  {
    hide *;
    GoRuns(pods);
    PyRuns(pods);
    MapsAgreeWhenRunsDo(Holders(pods), PyFold(pods).0, PodRuns(pods, PyUnits));
    SameRunsExactlyWhen(pods);
  }

  /** Requests equal to limits, never negative, and of the two common kinds only. */
  ghost predicate Mirrored(c: Container) {
    && (forall k :: k in c.requests <==> k in c.limits)
    && (forall k :: k in c.requests ==> c.limits[k] == Some(c.requests[k]) && c.requests[k] >= 0)
    && (forall k :: k in c.requests && k in GPU_RESOURCE_KEYS ==> k in GPU_RESOURCE_TYPES)
  }

  lemma MirroredCounts(c: Container)
    requires Mirrored(c)
    ensures RequestCount(c) == SumLimits(GPU_RESOURCE_TYPES, c.limits) >= 0
  {
    var ks := GPU_RESOURCE_KEYS;
    assert ks[..4][..3] == ks[..3] && ks[..3][..2] == GPU_RESOURCE_TYPES;
    assert ks[2] in ks && ks[3] in ks && ks[4] in ks;
    assert GPU_RESOURCE_TYPES[..1][..0] == [];
    assert SumRequests(ks, c.requests) == SumRequests(ks[..4], c.requests);
    assert SumRequests(ks[..4], c.requests) == SumRequests(ks[..3], c.requests);
    assert SumRequests(ks[..3], c.requests) == SumRequests(GPU_RESOURCE_TYPES, c.requests);
    SumsAgree(GPU_RESOURCE_TYPES, c);
  }

  lemma {:induction false} SumsAgree(keys: seq<string>, c: Container)
    requires Mirrored(c)
    ensures SumRequests(keys, c.requests) == SumLimits(keys, c.limits) >= 0
  {
    if keys != [] {
      SumsAgree(keys[..|keys| - 1], c);
    }
  }

  lemma {:induction false} MirroredTotals(cs: seq<Container>)
    requires forall j :: 0 <= j < |cs| ==> Mirrored(cs[j])
    ensures GoTotal(cs) == PyTotal(cs)
  {
    if cs != [] {
      MirroredTotals(cs[..|cs| - 1]);
      MirroredCounts(cs[|cs| - 1]);
    }
  }

  /** With mirrored containers the two mappings agree, whatever the pods are called. */
  lemma MirroredMappingsAgree(pods: seq<Pod>)
    requires forall i, j :: 0 <= i < |pods| && 0 <= j < |pods[i].containers| ==> Mirrored(pods[i].containers[j])
    ensures MapsAgree(ByOrdinal(Holders(pods)), PyFold(pods).0)
  {
    forall i | 0 <= i < |pods|
      ensures GoTotal(pods[i].containers) == PyTotal(pods[i].containers)
    {
      MirroredTotals(pods[i].containers);
    }
    GoRuns(pods);
    PyRuns(pods);
    SameTotalsSameRuns(pods, GoUnits, PyUnits);
    MapsAgreeWhenRunsDo(Holders(pods), PyFold(pods).0, PodRuns(pods, PyUnits));
  }

  /** A pod with one Gaudi accelerator: the Go code counts it, the Python code does not. */
  function GaudiPod(metadata: PodMetadata): Pod {
    Pod("ns", "trainer", metadata,
        [Container("main", map["habana.ai/gaudi" := 1], map["habana.ai/gaudi" := Some(1)])])
  }

  lemma GaudiRequests(metadata: PodMetadata)
    ensures RequestCount(GaudiPod(metadata).containers[0]) == 1
    ensures SumLimits(GPU_RESOURCE_TYPES, GaudiPod(metadata).containers[0].limits) == 0
  {
    var c := GaudiPod(metadata).containers[0];
    var ks := GPU_RESOURCE_KEYS;
    assert ks[..4][..3] == ks[..3] && ks[..3][..2] == ks[..2] && ks[..2][..1] == ks[..1] && ks[..1][..0] == [];
    assert SumRequests(ks[..1], c.requests) == 0;
    assert SumRequests(ks[..2], c.requests) == 0;
    assert SumRequests(ks[..3], c.requests) == 1;
    assert SumRequests(ks[..4], c.requests) == 1;
    var ts := GPU_RESOURCE_TYPES;
    assert ts[..1][..0] == [];
    assert SumLimits(ts[..1], c.limits) == 0;
  }

  lemma GaudiPodsDisagree(metadata: PodMetadata)
    ensures !MapsAgree(ByOrdinal(Holders([GaudiPod(metadata)])), PyFold([GaudiPod(metadata)]).0)
  {
    hide MapsAgree, ByOrdinal, Holders, PyFold, RequestCount, SumLimits;
    var cs := GaudiPod(metadata).containers;
    GaudiRequests(metadata);
    assert cs[..0] == [];
    assert GoTotal(cs) == 1 && PyTotal(cs) == 0;
    MappingsAgreeExactlyWhen([GaudiPod(metadata)]);
    assert !SameTotals([GaudiPod(metadata)]) by {
      assert [GaudiPod(metadata)][0] == GaudiPod(metadata);
    }
  }
}
