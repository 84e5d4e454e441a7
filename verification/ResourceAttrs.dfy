/**
 * What `_flatten_resource_attrs` of otel.py makes of any nested dictionary: lists, None and entries called
 * `name` are values like others.
 */
module ResourceAttrs {
  import opened Wrappers
  import opened Text
  import opened Flattening
  import opened FlatteningWays

  /** Down this way through dictionaries, the value `w`, which is no dictionary, is stored under `q`. */
  ghost predicate Stores(d: seq<Entry>, prefix: string, way: Way, q: string, w: Value)
    decreases |way|
  {
    && way != [] && way[0] < |d|
    && var Entry(k, v) := d[way[0]];
       if v.Dict? then Stores(v.entries, if prefix == "" then k else prefix + "." + k, way[1..], q, w)
       else |way| == 1 && w == v && q == if prefix == "" then k else prefix + "." + k
  }

  ghost predicate LastStores(d: seq<Entry>, prefix: string, way: Way, q: string, w: Value) {
    Stores(d, prefix, way, q, w) && forall other, x :: Stores(d, prefix, other, q, x) ==> !Later(other, way)
  }

  lemma AttrsNext(d: seq<Entry>, prefix: string)
    requires d != []
    ensures FlattenAttrs(d, prefix) ==
            var before, Entry(k, v) := FlattenAttrs(d[..|d| - 1], prefix), d[|d| - 1];
            if v.Dict? then before + FlattenAttrs(v.entries, Dot(prefix, k)) else before[Dot(prefix, k) := v]
  {
  }

  lemma StoresBefore(d: seq<Entry>, prefix: string, way: Way, q: string, w: Value)
    requires d != [] && way != [] && way[0] < |d| - 1
    ensures Stores(d, prefix, way, q, w) <==> Stores(d[..|d| - 1], prefix, way, q, w)
  {
  }

  lemma {:induction false} StoredIsThere(d: seq<Entry>, prefix: string, way: Way, q: string, w: Value)
    requires Stores(d, prefix, way, q, w)
    ensures q in FlattenAttrs(d, prefix)
    decreases |way|, |d|
  {
    hide FlattenAttrs;
    var n := |d| - 1;
    AttrsNext(d, prefix);
    if way[0] < n {
      StoresBefore(d, prefix, way, q, w);
      StoredIsThere(d[..n], prefix, way, q, w);
    } else if d[n].value.Dict? {
      StoredIsThere(d[n].value.entries, Dot(prefix, d[n].key), way[1..], q, w);
    }
  }

  lemma NoAttrs(prefix: string)
    ensures FlattenAttrs([], prefix) == map[]
  {
  }

  /** Whatever is there was stored, and nothing under its key later. */
  lemma {:induction false} ThereIsStored(d: seq<Entry>, prefix: string, q: string) returns (way: Way)
    requires q in FlattenAttrs(d, prefix)
    ensures LastStores(d, prefix, way, q, FlattenAttrs(d, prefix)[q])
    decreases d
  {
    hide FlattenAttrs;
    if d == [] {
      NoAttrs(prefix);
    }
    var n := |d| - 1;
    AttrsNext(d, prefix);
    var Entry(k, v) := d[n];
    if v.Dict? && q in FlattenAttrs(v.entries, Dot(prefix, k)) {
      var rest := ThereIsStored(v.entries, Dot(prefix, k), q);
      way := [n] + rest;
      assert way[1..] == rest;
      assert forall other, x :: Stores(d, prefix, other, q, x) && other[0] == n ==>
          Stores(v.entries, Dot(prefix, k), other[1..], q, x);
    } else if !v.Dict? && q == Dot(prefix, k) {
      way := [n];
      LaterThanOneStep(n);
    } else {
      way := ThereIsStored(d[..n], prefix, q);
      StoresBefore(d, prefix, way, q, FlattenAttrs(d, prefix)[q]);
      forall other, x | Stores(d, prefix, other, q, x)
        ensures !Later(other, way)
      {
        if other[0] < n {
          StoresBefore(d, prefix, other, q, x);
        } else if v.Dict? {
          StoredIsThere(v.entries, Dot(prefix, k), other[1..], q, x);
        }
      }
    }
  }

  lemma {:induction false} OneStoresLater(
      d: seq<Entry>, prefix: string, a: Way, b: Way, q: string, w: Value, x: Value)
    requires Stores(d, prefix, a, q, w) && Stores(d, prefix, b, q, x)
    ensures Later(a, b) || Later(b, a) || w == x
    decreases |a|
  {
    var Entry(k, v) := d[a[0]];
    if a[0] == b[0] && v.Dict? {
      OneStoresLater(v.entries, Dot(prefix, k), a[1..], b[1..], q, w, x);
    }
  }

  /** For any dictionary: a key is there if it is stored, with what is stored last. */
  lemma AttrsExactlyWhen(d: seq<Entry>, prefix: string, q: string, w: Value)
    ensures q in FlattenAttrs(d, prefix) && FlattenAttrs(d, prefix)[q] == w <==>
            exists way :: LastStores(d, prefix, way, q, w)
  {
    hide FlattenAttrs, Stores;
    if q in FlattenAttrs(d, prefix) {
      var way := ThereIsStored(d, prefix, q);
      if other :| LastStores(d, prefix, other, q, w) {
        OneStoresLater(d, prefix, way, other, q, FlattenAttrs(d, prefix)[q], w);
      }
    }
    if way :| LastStores(d, prefix, way, q, w) {
      StoredIsThere(d, prefix, way, q, w);
    }
  }

  // ---------- Keys without dots ----------

  /** Keys are non-empty, free of dots and distinct in a dictionary. */
  ghost predicate PlainKeys(d: seq<Entry>)
    decreases d
  {
    && (forall i :: 0 <= i < |d| ==>
          && d[i].key != "" && '.' !in d[i].key
          && (d[i].value.Dict? ==> PlainKeys(d[i].value.entries)))
    && (forall i, j :: 0 <= i < j < |d| ==> d[i].key != d[j].key)
  }

  /** The path of keys through dictionaries leads to a value that is no dictionary. */
  ghost predicate LeadsTo(d: seq<Entry>, path: seq<string>, w: Value)
    decreases |path|
  {
    && path != []
    && exists i :: 0 <= i < |d| && d[i].key == path[0]
                   && if d[i].value.Dict? then LeadsTo(d[i].value.entries, path[1..], w)
                      else |path| == 1 && d[i].value == w
  }

  /** The keys along a way. */
  lemma {:induction false} PathOfWay(d: seq<Entry>, prefix: string, way: Way, q: string, w: Value)
    returns (path: seq<string>)
    requires PlainKeys(d) && Stores(d, prefix, way, q, w)
    ensures LeadsTo(d, path, w) && q == Dotted(prefix, path)
    decreases |way|
  {
    var Entry(k, v) := d[way[0]];
    if v.Dict? {
      var rest := PathOfWay(v.entries, Dot(prefix, k), way[1..], q, w);
      path := [k] + rest;
      assert path[1..] == rest;
    } else {
      path := [k];
      assert Dotted(Dot(prefix, k), path[1..]) == Dot(prefix, k);
    }
  }

  lemma {:induction false} WayOfPath(d: seq<Entry>, prefix: string, path: seq<string>, w: Value) returns (way: Way)
    requires LeadsTo(d, path, w)
    ensures Stores(d, prefix, way, Dotted(prefix, path), w)
    decreases |path|
  {
    var i :| 0 <= i < |d| && d[i].key == path[0]
             && if d[i].value.Dict? then LeadsTo(d[i].value.entries, path[1..], w)
                else |path| == 1 && d[i].value == w;
    if d[i].value.Dict? {
      var rest := WayOfPath(d[i].value.entries, Dot(prefix, path[0]), path[1..], w);
      way := [i] + rest;
      assert way[1..] == rest;
    } else {
      way := [i];
      assert Dotted(Dot(prefix, path[0]), path[1..]) == Dot(prefix, path[0]);
    }
  }

  lemma {:induction false} PathIsPlain(d: seq<Entry>, path: seq<string>, w: Value)
    requires PlainKeys(d) && LeadsTo(d, path, w)
    ensures forall i :: 0 <= i < |path| ==> path[i] != "" && '.' !in path[i]
    decreases |path|
  {
    var i :| 0 <= i < |d| && d[i].key == path[0]
             && if d[i].value.Dict? then LeadsTo(d[i].value.entries, path[1..], w)
                else |path| == 1 && d[i].value == w;
    if d[i].value.Dict? {
      PathIsPlain(d[i].value.entries, path[1..], w);
    }
  }

  lemma {:induction false} PathHasOneEnd(d: seq<Entry>, path: seq<string>, w: Value, x: Value)
    requires PlainKeys(d) && LeadsTo(d, path, w) && LeadsTo(d, path, x)
    ensures w == x
    decreases |path|
  {
    var i :| 0 <= i < |d| && d[i].key == path[0]
             && if d[i].value.Dict? then LeadsTo(d[i].value.entries, path[1..], w)
                else |path| == 1 && d[i].value == w;
    if d[i].value.Dict? {
      PathHasOneEnd(d[i].value.entries, path[1..], w, x);
    }
  }

  lemma JoinedOnce(a: seq<string>, b: seq<string>)
    requires a != [] && b != [] && Join(a, '.') == Join(b, '.')
    requires forall i :: 0 <= i < |a| ==> '.' !in a[i]
    requires forall i :: 0 <= i < |b| ==> '.' !in b[i]
    ensures a == b
  {
    SplitJoin(a, '.');
    SplitJoin(b, '.');
  }

  /**
   * A key is there with a value exactly when the value is at the end of a path through dictionaries, is
   * no dictionary, and the key is the path with dots between.
   */
  lemma AttrsKeepLeaves(d: seq<Entry>, q: string, w: Value)
    requires PlainKeys(d)
    ensures q in FlattenAttrs(d, "") && FlattenAttrs(d, "")[q] == w <==>
            exists path :: LeadsTo(d, path, w) && Join(path, '.') == q
  {
    hide FlattenAttrs, Stores, LeadsTo, PlainKeys;
    if q in FlattenAttrs(d, "") {
      var way := ThereIsStored(d, "", q);
      var path := PathOfWay(d, "", way, q, FlattenAttrs(d, "")[q]);
      PathIsJoined(d, path, FlattenAttrs(d, "")[q]);
    }
    if path :| LeadsTo(d, path, w) && Join(path, '.') == q {
      PathIsJoined(d, path, w);
      var way := WayOfPath(d, "", path, w);
      StoredIsThere(d, "", way, q, w);
      var last := ThereIsStored(d, "", q);
      var other := PathOfWay(d, "", last, q, FlattenAttrs(d, "")[q]);
      PathIsJoined(d, other, FlattenAttrs(d, "")[q]);
      JoinedOnce(path, other);
      PathHasOneEnd(d, path, w, FlattenAttrs(d, "")[q]);
    }
  }

  lemma PathIsJoined(d: seq<Entry>, path: seq<string>, w: Value)
    requires PlainKeys(d) && LeadsTo(d, path, w)
    ensures path != [] && Dotted("", path) == Join(path, '.')
    ensures forall i :: 0 <= i < |path| ==> '.' !in path[i]
  {
    PathIsPlain(d, path, w);
    DottedFromTop(path);
  }
}
