/**
 * The two flatteners of nested values to dotted keys: `asdict_recursive` with
 * `flatten_dict_factory` of dataclass_utils.py, and `_flatten_resource_attrs` of otel.py.
 */
module Flattening {
  import opened Wrappers
  import opened Text

  /** A str, int, float or bool: its type and what `str` makes of it. */
  datatype Scalar = Scalar(kind: nat, text: string)

  /** Dictionaries keep the order of their entries. */
  datatype Value =
    | Null
    | Leaf(s: Scalar)
    | Dict(entries: seq<Entry>)
    | List(items: seq<Value>)

  datatype Entry = Entry(key: string, value: Value)

  type Flat = map<string, Scalar>

  /** `asdict_recursive` returns a flat dictionary, or a scalar as it is. */
  datatype Flattened = Base(s: Scalar) | Keys(m: Flat)

  /** `f"{key}.{k}" if key else str(k)`. */
  function Dot(key: string, k: string): string {
    if key == "" then k else key + "." + k
  }

  predicate HasName(v: Value) {
    v.Dict? && exists i :: 0 <= i < |v.entries| && v.entries[i].key == "name"
  }

  /** `str` of a `name` entry. */
  function NameText(v: Value): string {
    match v
    case Leaf(s) => s.text
    case Null => "None"
    case _ => ""
  }

  /** The key of a dictionary after the `name` rule. */
  function NamedKey(entries: seq<Entry>, key: string): string {
    if entries == [] then key
    else if entries[0].key == "name" then key + "." + NameText(entries[0].value)
    else NamedKey(entries[1..], key)
  }

  /** The key of a list item: no index for an item with a name. */
  function ItemKey(key: string, i: nat, item: Value): string {
    if HasName(item) then key else key + "." + Numeral(i)
  }

  /** `results.update(...)` or `results[key] = ...`. */
  function Store(results: Flat, key: string, r: Flattened): Flat {
    if r.Keys? then results + r.m else results[key := r.s]
  }

  function Flatten(v: Value, key: string): Flattened
    requires !v.Null?
    decreases v
  {
    match v
    case Leaf(s) => Base(s)
    case Dict(entries) => Keys(FlattenEntries(entries, NamedKey(entries, key)))
    case List(items) => Keys(FlattenItems(items, key))
  }

  function FlattenEntries(entries: seq<Entry>, key: string): Flat
    decreases entries
  {
    if entries == [] then map[]
    else
      var n := |entries| - 1;
      var Entry(k, v) := entries[n];
      var before := FlattenEntries(entries[..n], key);
      if k == "name" || v.Null? then before else Store(before, Dot(key, k), Flatten(v, Dot(key, k)))
  }

  function FlattenItems(items: seq<Value>, key: string): Flat
    decreases items
  {
    if items == [] then map[]
    else
      var n := |items| - 1;
      var v := items[n];
      var before := FlattenItems(items[..n], key);
      if v.Null? then before else Store(before, ItemKey(key, n, v), Flatten(v, ItemKey(key, n, v)))
  }

  /** `flatten_dict_factory`. */
  function FlattenPairs(pairs: seq<Entry>): Flat {
    if pairs == [] then map[]
    else
      var n := |pairs| - 1;
      var Entry(k, v) := pairs[n];
      var before := FlattenPairs(pairs[..n]);
      if v.Null? then before else Store(before, k, Flatten(v, k))
  }

  /** `_flatten_resource_attrs`: lists and None are leaves here. */
  function FlattenAttrs(d: seq<Entry>, prefix: string): map<string, Value>
    decreases d
  {
    if d == [] then map[]
    else
      var n := |d| - 1;
      var Entry(k, v) := d[n];
      var before := FlattenAttrs(d[..n], prefix);
      if v.Dict? then before + FlattenAttrs(v.entries, Dot(prefix, k)) else before[Dot(prefix, k) := v]
  }

  // ---------- The loops of the source ----------

  method AsDictRecursive(obj: Value, key: string) returns (r: Flattened)
    requires !obj.Null?
    ensures r == Flatten(obj, key)
    decreases obj, 0
  {
    match obj {
      case Leaf(s) =>
        r := Base(s);
      case Dict(entries) =>
        var results := AsDictEntries(entries, NamedKey(entries, key));
        r := Keys(results);
      case List(items) =>
        var results := AsDictItems(items, key);
        r := Keys(results);
    }
  }

  lemma NoEntries(key: string)
    ensures FlattenEntries([], key) == map[]
  {
  }

  lemma FlattenNext(entries: seq<Entry>, i: nat, key: string)
    requires i < |entries|
    ensures FlattenEntries(entries[..i + 1], key) ==
            var before, e := FlattenEntries(entries[..i], key), entries[i];
            if e.key == "name" || e.value.Null? then before
            else Store(before, Dot(key, e.key), Flatten(e.value, Dot(key, e.key)))
  {
    assert entries[..i + 1][..i] == entries[..i];
  }

  /** The dictionary branch of `asdict_recursive`, below the key that the `name` rule gives. */
  method AsDictEntries(entries: seq<Entry>, key: string) returns (results: Flat)
    ensures results == FlattenEntries(entries, key)
    decreases entries, 1
  {
    hide Flatten, Store, FlattenEntries;
    results := map[];
    NoEntries(key);
    for i := 0 to |entries|
      invariant results == FlattenEntries(entries[..i], key)
    {
      FlattenNext(entries, i, key);
      var Entry(k, value) := entries[i];
      if k != "name" && !value.Null? {
        var newKey := Dot(key, k);
        var flatResult := AsDictRecursive(value, newKey);
        results := Store(results, newKey, flatResult);
      }
    }
    assert entries[..|entries|] == entries;
  }

  /** Its list branch. */
  method AsDictItems(items: seq<Value>, key: string) returns (results: Flat)
    ensures results == FlattenItems(items, key)
    decreases items, 1
  {
    results := map[];
    for i := 0 to |items|
      invariant results == FlattenItems(items[..i], key)
    {
      assert items[..i + 1][..i] == items[..i];
      var value := items[i];
      if !value.Null? {
        var newKey := ItemKey(key, i, value);
        var flatResult := AsDictRecursive(value, newKey);
        results := Store(results, newKey, flatResult);
      }
    }
    assert items[..|items|] == items;
  }

  method FlattenDictFactory(pairs: seq<Entry>) returns (results: Flat)
    ensures results == FlattenPairs(pairs)
  {
    results := map[];
    for i := 0 to |pairs|
      invariant results == FlattenPairs(pairs[..i])
    {
      assert pairs[..i + 1][..i] == pairs[..i];
      var Entry(key, value) := pairs[i];
      if !value.Null? {
        var flatResult := AsDictRecursive(value, key);
        results := Store(results, key, flatResult);
      }
    }
    assert pairs[..|pairs|] == pairs;
  }

  method FlattenResourceAttrs(d: seq<Entry>, prefix: string) returns (result: map<string, Value>)
    ensures result == FlattenAttrs(d, prefix)
    decreases d
  {
    result := map[];
    for i := 0 to |d|
      invariant result == FlattenAttrs(d[..i], prefix)
    {
      assert d[..i + 1][..i] == d[..i];
      var Entry(k, v) := d[i];
      var key := Dot(prefix, k);
      if v.Dict? {
        var inner := FlattenResourceAttrs(v.entries, key);
        result := result + inner;
      } else {
        result := result[key := v];
      }
    }
    assert d[..|d|] == d;
  }

  // ---------- Trees without names, and their leaves ----------

  predicate GoodKey(k: string) { k != "" && '.' !in k && k != "name" }

  /** Keys are non-empty, free of dots, distinct in a dictionary, and none is `name`. */
  ghost predicate GoodTree(v: Value)
    decreases v
  {
    match v
    case Null => true
    case Leaf(_) => true
    case Dict(entries) => GoodEntries(entries)
    case List(items) => forall i :: 0 <= i < |items| ==> GoodTree(items[i])
  }

  ghost predicate GoodEntries(entries: seq<Entry>)
    decreases entries
  {
    && (forall i :: 0 <= i < |entries| ==> GoodKey(entries[i].key) && GoodTree(entries[i].value))
    && (forall i, j :: 0 <= i < j < |entries| ==> entries[i].key != entries[j].key)
  }

  /** A list is a dictionary from indices. */
  function Numbered(items: seq<Value>): seq<Entry> {
    seq(|items|, i requires 0 <= i < |items| => Entry(Numeral(i), items[i]))
  }

  function Children(v: Value): seq<Entry> {
    if v.Dict? then v.entries else if v.List? then Numbered(v.items) else []
  }

  function Find(entries: seq<Entry>, k: string): Option<Value> {
    if entries == [] then None
    else if entries[|entries| - 1].key == k then Some(entries[|entries| - 1].value)
    else Find(entries[..|entries| - 1], k)
  }

  /** The scalar at the end of a path of field names and indices. */
  function LeafAt(v: Value, path: seq<string>): Option<Scalar>
    decreases |path|
  {
    if path == [] then if v.Leaf? then Some(v.s) else None
    else
      var c := Find(Children(v), path[0]);
      if c.None? then None else LeafAt(c.value, path[1..])
  }

  /** The dotted key of a path below a key. */
  function Dotted(key: string, path: seq<string>): string
    decreases |path|
  {
    if path == [] then key else Dotted(Dot(key, path[0]), path[1..])
  }

  /** What the first `n` children of a node contribute. */
  function Part(v: Value, n: nat, key: string): Flat
    requires n <= |Children(v)|
  {
    FlattenEntries(Children(v)[..n], key)
  }

  lemma NumeralIsGood(i: nat)
    ensures GoodKey(Numeral(i))
  {
    assert Numeral(i)[0] in Numeral(i);
  }

  lemma GoodChildren(v: Value)
    requires GoodTree(v)
    ensures forall i :: 0 <= i < |Children(v)| ==>
              GoodKey(Children(v)[i].key) && GoodTree(Children(v)[i].value)
    ensures forall i, j :: 0 <= i < j < |Children(v)| ==> Children(v)[i].key != Children(v)[j].key
  {
    if v.List? {
      forall i | 0 <= i < |v.items|
        ensures GoodKey(Children(v)[i].key)
      {
        NumeralIsGood(i);
      }
      forall i, j | 0 <= i < j < |v.items|
        ensures Children(v)[i].key != Children(v)[j].key
      {
        if Numeral(i) == Numeral(j) {
          NumeralIsInjective(i, j);
        }
      }
    }
  }

  lemma GoodIsNameFree(v: Value)
    requires GoodTree(v)
    ensures !HasName(v)
  {
  }

  lemma {:induction false} KeyIsKept(entries: seq<Entry>, key: string)
    requires forall i :: 0 <= i < |entries| ==> entries[i].key != "name"
    ensures NamedKey(entries, key) == key
  {
    if entries != [] {
      KeyIsKept(entries[1..], key);
    }
  }

  lemma {:induction false} ItemsAsEntries(items: seq<Value>, key: string)
    requires key != "" && forall i :: 0 <= i < |items| ==> GoodTree(items[i])
    ensures FlattenItems(items, key) == FlattenEntries(Numbered(items), key)
  {
    if items != [] {
      var n := |items| - 1;
      ItemsAsEntries(items[..n], key);
      assert Numbered(items)[..n] == Numbered(items[..n]);
      GoodIsNameFree(items[n]);
      NumeralIsGood(n);
      assert Numbered(items)[n] == Entry(Numeral(n), items[n]);
      assert ItemKey(key, n, items[n]) == Dot(key, Numeral(n));
    }
  }

  /** Flattening a node is flattening its children under its key. */
  lemma FlattenNode(v: Value, key: string)
    requires GoodTree(v) && (v.Dict? || (v.List? && key != ""))
    ensures Flatten(v, key) == Keys(Part(v, |Children(v)|, key))
  {
    assert Children(v)[..|Children(v)|] == Children(v);
    if v.Dict? {
      KeyIsKept(v.entries, key);
    } else {
      ItemsAsEntries(v.items, key);
    }
  }

  lemma PartNothing(v: Value, key: string)
    ensures Part(v, 0, key) == map[]
  {
    assert Children(v)[..0] == [];
  }

  /** The contribution of child `n`, after those before it. */
  lemma PartNext(v: Value, n: nat, key: string)
    requires GoodTree(v) && n < |Children(v)|
    ensures var c := Children(v)[n];
            Part(v, n + 1, key) == if c.value.Null? then Part(v, n, key)
                                   else Store(Part(v, n, key), Dot(key, c.key), Flatten(c.value, Dot(key, c.key)))
  {
    hide FlattenEntries, Flatten, Store, GoodTree, Children;
    GoodChildren(v);
    FlattenNext(Children(v), n, key);
  }

  lemma {:induction false} FindDistinct(entries: seq<Entry>, i: nat)
    requires i < |entries|
    requires forall j, k :: 0 <= j < k < |entries| ==> entries[j].key != entries[k].key
    ensures Find(entries, entries[i].key) == Some(entries[i].value)
  {
    if i < |entries| - 1 {
      FindDistinct(entries[..|entries| - 1], i);
    }
  }

  lemma {:induction false} FindGivesIndex(entries: seq<Entry>, k: string) returns (i: nat)
    requires Find(entries, k).Some?
    ensures i < |entries| && entries[i].key == k && Find(entries, k) == Some(entries[i].value)
  {
    if entries[|entries| - 1].key == k {
      i := |entries| - 1;
    } else {
      i := FindGivesIndex(entries[..|entries| - 1], k);
    }
  }

  // ---------- Where keys can lie ----------

  /** `q` is the key `a`, or a dotted extension of it. */
  predicate Under(q: string, a: string) {
    q == a || a + "." <= q
  }

  /** The first component of `q` after the prefix of `key`. */
  function Component(q: string, key: string): string {
    var skip := if key == "" then 0 else |key| + 1;
    if |q| < skip then "" else q[skip..][..Until(q[skip..], '.')]
  }

  lemma ComponentOf(q: string, key: string, a: string)
    requires '.' !in a && Under(q, Dot(key, a))
    ensures Component(q, key) == a
  {
    var skip := if key == "" then 0 else |key| + 1;
    assert Dot(key, a)[skip..] == a;
    var t := q[skip..];
    assert t[..|a|] == a;
    UntilIsFirst(t, '.', |a|);
  }

  lemma {:induction false} DottedIsUnder(key: string, path: seq<string>)
    requires key != "" && forall i :: 0 <= i < |path| ==> path[i] != ""
    ensures Under(Dotted(key, path), key)
    decreases |path|
  {
    if path != [] {
      DottedIsUnder(Dot(key, path[0]), path[1..]);
    }
  }

  lemma {:induction false} PathIsGood(v: Value, path: seq<string>)
    requires GoodTree(v) && LeafAt(v, path).Some?
    ensures forall i :: 0 <= i < |path| ==> GoodKey(path[i])
    decreases |path|
  {
    if path != [] {
      var i := FindGivesIndex(Children(v), path[0]);
      GoodChildren(v);
      PathIsGood(Children(v)[i].value, path[1..]);
    }
  }

  /** Every key a node contributes lies under the key of one of its children. */
  lemma {:induction false} PartKeys(v: Value, n: nat, key: string, q: string)
    requires GoodTree(v) && n <= |Children(v)| && q in Part(v, n, key)
    ensures exists i :: 0 <= i < n && Under(q, Dot(key, Children(v)[i].key))
    decreases v, n
  {
    hide Part, Flatten, GoodTree, Under, Dot;
    PartNothing(v, key);
    PartNext(v, n - 1, key);
    if q in Part(v, n - 1, key) {
      PartKeys(v, n - 1, key, q);
    } else {
      ChildKeys(v, n - 1, key, q);
    }
  }

  /** The same for the contribution of one child. */
  lemma {:induction false} ChildKeys(v: Value, i: nat, key: string, q: string)
    requires GoodTree(v) && i < |Children(v)| && !Children(v)[i].value.Null?
    requires q in Store(map[], Dot(key, Children(v)[i].key),
                        Flatten(Children(v)[i].value, Dot(key, Children(v)[i].key)))
    ensures Under(q, Dot(key, Children(v)[i].key))
    decreases v, i
  {
    var c := Children(v)[i];
    var below := Dot(key, c.key);
    GoodChildren(v);
    if !c.value.Leaf? {
      FlattenNode(c.value, below);
      PartKeys(c.value, |Children(c.value)|, below, q);
    }
  }

  // ---------- Distinct leaves, distinct keys ----------

  lemma PathEndsAtLeaf(v: Value, p: seq<string>)
    requires LeafAt(v, p).Some?
    ensures p == [] <==> v.Leaf?
  {
  }

  lemma FirstStep(v: Value, p: seq<string>, key: string)
    requires GoodTree(v) && LeafAt(v, p).Some? && p != []
    ensures Component(Dotted(key, p), key) == p[0]
  {
    PathIsGood(v, p);
    DottedIsUnder(Dot(key, p[0]), p[1..]);
    ComponentOf(Dotted(key, p), key, p[0]);
  }

  /** The child a path goes through, with what is left of the path. */
  lemma StepInto(v: Value, p: seq<string>) returns (c: Value)
    requires GoodTree(v) && LeafAt(v, p).Some? && p != []
    ensures Find(Children(v), p[0]) == Some(c) && c < v && GoodTree(c) && LeafAt(c, p[1..]) == LeafAt(v, p)
    ensures p[0] != ""
  {
    var i := FindGivesIndex(Children(v), p[0]);
    GoodChildren(v);
    c := Children(v)[i].value;
  }

  /** Two leaf paths with one dotted key are one path. */
  lemma {:induction false} PathsAreDistinct(v: Value, p: seq<string>, q: seq<string>, key: string)
    requires GoodTree(v)
    requires LeafAt(v, p).Some? && LeafAt(v, q).Some? && Dotted(key, p) == Dotted(key, q)
    ensures p == q
    decreases |p|
  {
    PathEndsAtLeaf(v, p);
    PathEndsAtLeaf(v, q);
    if p != [] {
      FirstStep(v, p, key);
      FirstStep(v, q, key);
      var c := StepInto(v, p);
      var d := StepInto(v, q);
      PathsAreDistinct(c, p[1..], q[1..], Dot(key, p[0]));
      assert p == [p[0]] + p[1..] && q == [q[0]] + q[1..];
    }
  }

  /** Every leaf keeps its value under its dotted key. */
  lemma {:induction false} LeafIsKept(v: Value, n: nat, key: string, path: seq<string>, i: nat)
    requires GoodTree(v) && (v.Dict? || (v.List? && key != ""))
    requires path != [] && LeafAt(v, path).Some?
    requires i < n <= |Children(v)| && Children(v)[i].key == path[0]
    ensures Dotted(key, path) in Part(v, n, key)
    ensures Part(v, n, key)[Dotted(key, path)] == LeafAt(v, path).value
    decreases v, n
  {
    hide Part, FlattenEntries, FlattenItems, GoodTree, GoodEntries, Find, Under;
    GoodChildren(v);
    FindDistinct(Children(v), i);
    PartNext(v, n - 1, key);
    PathIsGood(v, path);
    if i == n - 1 {
      var c := Children(v)[i].value;
      if path[1..] != [] {
        var j := FindGivesIndex(Children(c), path[1]);
        FlattenNode(c, Dot(key, path[0]));
        LeafIsKept(c, |Children(c)|, Dot(key, path[0]), path[1..], j);
      }
    } else {
      LeafIsKept(v, n - 1, key, path, i);
      DottedIsUnder(Dot(key, path[0]), path[1..]);
      LaterChildKeepsKey(v, n - 1, key, Dotted(key, path), path[0]);
    }
  }

  /** Storing a child's contribution does not touch a key that lies under another child. */
  lemma LaterChildKeepsKey(v: Value, n: nat, key: string, q: string, a: string)
    requires GoodTree(v) && n < |Children(v)| && Children(v)[n].key != a && GoodKey(a)
    requires Under(q, Dot(key, a)) && q in Part(v, n, key)
    ensures q in Part(v, n + 1, key) && Part(v, n + 1, key)[q] == Part(v, n, key)[q]
  {
    PartNext(v, n, key);
    GoodChildren(v);
    var c := Children(v)[n];
    if !c.value.Null? {
      var below := Dot(key, c.key);
      if q in Store(map[], below, Flatten(c.value, below)) {
        ChildKeys(v, n, key, q);
        ComponentOf(q, key, a);
        ComponentOf(q, key, c.key);
      }
    }
  }

  /** A leaf path of a child, extended to its parent. */
  lemma PrependStep(v: Value, i: nat, key: string, rest: seq<string>) returns (path: seq<string>)
    requires GoodTree(v) && i < |Children(v)| && LeafAt(Children(v)[i].value, rest).Some?
    ensures path != [] && Dotted(key, path) == Dotted(Dot(key, Children(v)[i].key), rest)
    ensures LeafAt(v, path) == LeafAt(Children(v)[i].value, rest)
  {
    path := [Children(v)[i].key] + rest;
    assert path[1..] == rest;
    GoodChildren(v);
    FindDistinct(Children(v), i);
  }

  lemma StoredKey(before: Flat, key: string, r: Flattened, q: string)
    requires q in Store(before, key, r)
    ensures if q in Store(map[], key, r) then Store(before, key, r)[q] == Store(map[], key, r)[q]
            else q in before && Store(before, key, r)[q] == before[q]
  {
  }

  /** Every key of the result is the dotted key of a leaf, with its value. */
  lemma {:induction false} KeyHasLeaf(v: Value, n: nat, key: string, q: string) returns (path: seq<string>)
    requires GoodTree(v) && (v.Dict? || (v.List? && key != ""))
    requires n <= |Children(v)| && q in Part(v, n, key)
    ensures path != [] && Dotted(key, path) == q && LeafAt(v, path) == Some(Part(v, n, key)[q])
    decreases v, n
  {
    var c := Children(v)[n - 1];
    var below := Dot(key, c.key);
    PartNext(v, n - 1, key);
    if c.value.Null? {
      path := KeyHasLeaf(v, n - 1, key, q);
    } else {
      StoredKey(Part(v, n - 1, key), below, Flatten(c.value, below), q);
      if q in Store(map[], below, Flatten(c.value, below)) {
        var rest := ChildKeyHasLeaf(v, n - 1, below, q);
        path := PrependStep(v, n - 1, key, rest);
      } else {
        path := KeyHasLeaf(v, n - 1, key, q);
      }
    }
  }

  lemma {:induction false} ChildKeyHasLeaf(v: Value, i: nat, below: string, q: string) returns (path: seq<string>)
    requires GoodTree(v) && i < |Children(v)| && !Children(v)[i].value.Null? && below != ""
    requires q in Store(map[], below, Flatten(Children(v)[i].value, below))
    ensures Dotted(below, path) == q
    ensures LeafAt(Children(v)[i].value, path) == Some(Store(map[], below, Flatten(Children(v)[i].value, below))[q])
    decreases v, i
  {
    var c := Children(v)[i].value;
    GoodChildren(v);
    if c.Leaf? {
      path := [];
    } else {
      FlattenNode(c, below);
      path := KeyHasLeaf(c, |Children(c)|, below, q);
    }
  }

  lemma {:induction false} PairsAreEntries(pairs: seq<Entry>)
    requires forall i :: 0 <= i < |pairs| ==> pairs[i].key != "name"
    ensures FlattenPairs(pairs) == FlattenEntries(pairs, "")
  {
    if pairs != [] {
      PairsAreEntries(pairs[..|pairs| - 1]);
    }
  }

  lemma {:induction false} DottedIsJoined(key: string, path: seq<string>)
    requires key != ""
    ensures Dotted(key, path) == Join([key] + path, '.')
    decreases |path|
  {
    if path != [] {
      DottedIsJoined(key + "." + path[0], path[1..]);
      JoinFirstTwo(key, path[0], path[1..]);
      assert [key] + path == [key, path[0]] + path[1..];
    }
  }

  lemma JoinFirstTwo(a: string, b: string, rest: seq<string>)
    ensures Join([a, b] + rest, '.') == Join([a + "." + b] + rest, '.')
  {
    assert ([a, b] + rest)[1..] == [b] + rest;
    assert ([a + "." + b] + rest)[1..] == rest;
    assert ([b] + rest)[1..] == rest;
  }

  lemma DottedFromTop(path: seq<string>)
    requires path != [] && path[0] != ""
    ensures Dotted("", path) == Join(path, '.')
  {
    DottedIsJoined(path[0], path[1..]);
    assert [path[0]] + path[1..] == path;
  }

  /** `flatten_dict_factory` keeps exactly the leaves that are not None, each under its own dotted key. */
  lemma FlatteningKeepsLeaves(pairs: seq<Entry>, q: string, s: Scalar)
    requires GoodEntries(pairs)
    ensures q in FlattenPairs(pairs) && FlattenPairs(pairs)[q] == s <==>
            exists path :: path != [] && Join(path, '.') == q && LeafAt(Dict(pairs), path) == Some(s)
  {
    var v, n := Dict(pairs), |pairs|;
    PairsAreEntries(pairs);
    assert Part(v, n, "") == FlattenPairs(pairs) by {
      assert pairs[..n] == pairs;
    }
    if q in FlattenPairs(pairs) {
      var path := KeyHasLeaf(v, n, "", q);
      PathIsGood(v, path);
      DottedFromTop(path);
    }
    if path :| path != [] && Join(path, '.') == q && LeafAt(v, path) == Some(s) {
      PathIsGood(v, path);
      DottedFromTop(path);
      var i := FindGivesIndex(pairs, path[0]);
      LeafIsKept(v, n, "", path, i);
    }
  }

  // ---------- Flattening subtrees first ----------

  /** `m'` is `m` with `prefix` and a dot put before every key. */
  ghost predicate Prefixed(m: Flat, prefix: string, m': Flat) {
    && (forall k :: k in m ==> prefix + "." + k in m' && m'[prefix + "." + k] == m[k])
    && (forall q :: q in m' ==> prefix + "." <= q && q[|prefix| + 1..] in m)
  }

  lemma PrefixedIsUnique(m: Flat, prefix: string, a: Flat, b: Flat)
    requires Prefixed(m, prefix, a) && Prefixed(m, prefix, b)
    ensures a == b
  {
    forall q | q in a || q in b
      ensures q in a && q in b && a[q] == b[q]
    {
      assert q == prefix + "." + q[|prefix| + 1..];
    }
  }

  lemma PrefixedStore(m: Flat, m': Flat, prefix: string, k: string, r: Flattened, r': Flattened)
    requires Prefixed(m, prefix, m')
    requires if r.Base? then r' == r else r'.Keys? && Prefixed(r.m, prefix, r'.m)
    ensures Prefixed(Store(m, k, r), prefix, Store(m', prefix + "." + k, r'))
  {
    var s, s' := Store(m, k, r), Store(m', prefix + "." + k, r');
    forall j | j in s
      ensures prefix + "." + j in s' && s'[prefix + "." + j] == s[j]
    {
      assert (prefix + "." + j)[|prefix| + 1..] == j;
    }
    forall q | q in s'
      ensures prefix + "." <= q && q[|prefix| + 1..] in s
    {
      assert (prefix + "." + k)[|prefix| + 1..] == k;
    }
  }

  lemma NothingPrefixed(prefix: string)
    ensures Prefixed(map[], prefix, map[])
  {
  }

  function Nest(prefix: string, key: string): string {
    if key == "" then prefix else prefix + "." + key
  }

  lemma NestDot(prefix: string, key: string, k: string)
    requires prefix != ""
    ensures Dot(Nest(prefix, key), k) == prefix + "." + Dot(key, k)
    ensures Dot(key, k) != "" ==> Nest(prefix, Dot(key, k)) == prefix + "." + Dot(key, k)
  {
    if key != "" {
      assert prefix + "." + key + "." + k == prefix + "." + (key + "." + k);
    }
  }

  /** Putting a prefix before the key puts it before every resulting key. */
  lemma {:induction false} PartPrefixed(v: Value, n: nat, prefix: string, key: string)
    requires GoodTree(v) && (v.Dict? || (v.List? && key != "")) && prefix != "" && n <= |Children(v)|
    ensures Prefixed(Part(v, n, key), prefix, Part(v, n, Nest(prefix, key)))
    decreases v, n
  {
    hide Part, Flatten, GoodTree, Prefixed, Nest;
    PartNothing(v, key);
    PartNothing(v, Nest(prefix, key));
    NothingPrefixed(prefix);
    if n > 0 {
      var c := Children(v)[n - 1];
      PartPrefixed(v, n - 1, prefix, key);
      PartNext(v, n - 1, key);
      PartNext(v, n - 1, Nest(prefix, key));
      if !c.value.Null? {
        ChildPrefixed(v, n - 1, prefix, key);
        NestDot(prefix, key, c.key);
        PrefixedStore(Part(v, n - 1, key), Part(v, n - 1, Nest(prefix, key)), prefix, Dot(key, c.key),
                      Flatten(c.value, Dot(key, c.key)), Flatten(c.value, prefix + "." + Dot(key, c.key)));
      }
    }
  }

  lemma {:induction false} ChildPrefixed(v: Value, i: nat, prefix: string, key: string)
    requires GoodTree(v) && prefix != "" && i < |Children(v)| && !Children(v)[i].value.Null?
    ensures var below := Dot(key, Children(v)[i].key);
            var r, r' := Flatten(Children(v)[i].value, below), Flatten(Children(v)[i].value, prefix + "." + below);
            if r.Base? then r' == r else r'.Keys? && Prefixed(r.m, prefix, r'.m)
    decreases v, i
  {
    var c := Children(v)[i];
    var below := Dot(key, c.key);
    GoodChildren(v);
    if !c.value.Leaf? {
      PartPrefixed(c.value, |Children(c.value)|, prefix, below);
      FlattenNode(c.value, below);
      FlattenNode(c.value, prefix + "." + below);
    }
  }

  /** A flat dictionary listed in some order, as `asdict` hands it on. */
  function FromList(fl: seq<(string, Scalar)>): Flat {
    if fl == [] then map[] else FromList(fl[..|fl| - 1])[fl[|fl| - 1].0 := fl[|fl| - 1].1]
  }

  function AsEntries(fl: seq<(string, Scalar)>): seq<Entry> {
    seq(|fl|, i requires 0 <= i < |fl| => Entry(fl[i].0, Leaf(fl[i].1)))
  }

  lemma FlatDictNext(fl: seq<(string, Scalar)>, prefix: string)
    requires prefix != "" && fl != [] && fl[|fl| - 1].0 != "name"
    ensures var n := |fl| - 1;
            FlattenEntries(AsEntries(fl), prefix) ==
            Store(FlattenEntries(AsEntries(fl[..n]), prefix), prefix + "." + fl[n].0, Base(fl[n].1))
  {
    assert AsEntries(fl)[..|fl| - 1] == AsEntries(fl[..|fl| - 1]);
  }

  lemma {:induction false} FlatDictPrefixed(fl: seq<(string, Scalar)>, prefix: string)
    requires prefix != "" && forall i :: 0 <= i < |fl| ==> fl[i].0 != "name"
    ensures Prefixed(FromList(fl), prefix, FlattenEntries(AsEntries(fl), prefix))
  {
    if fl != [] {
      var n := |fl| - 1;
      FlatDictPrefixed(fl[..n], prefix);
      FlatDictNext(fl, prefix);
      PrefixedStore(FromList(fl[..n]), FlattenEntries(AsEntries(fl[..n]), prefix), prefix, fl[n].0,
                    Base(fl[n].1), Base(fl[n].1));
    }
  }

  lemma {:induction false} ListedKeys(fl: seq<(string, Scalar)>, i: nat)
    requires i < |fl|
    ensures fl[i].0 in FromList(fl)
  {
    if i < |fl| - 1 {
      ListedKeys(fl[..|fl| - 1], i);
    }
  }

  lemma NameIsNoKey(pairs: seq<Entry>)
    requires GoodEntries(pairs)
    ensures "name" !in FlattenPairs(pairs)
  {
    PairsAreEntries(pairs);
    assert pairs[..|pairs|] == pairs;
    assert "name"[..4] == "name";
    UntilIsFirst("name", '.', 4);
    if "name" in FlattenPairs(pairs) {
      PartKeys(Dict(pairs), |pairs|, "", "name");
      var i :| 0 <= i < |pairs| && Under("name", Dot("", pairs[i].key));
      ComponentOf("name", "", pairs[i].key);
    }
  }

  /**
   * Flattening a nested dictionary's fields first, and then the flat dictionary under the outer
   * key, gives the same as flattening it in place.
   */
  lemma SubtreesFirst(pairs: seq<Entry>, fl: seq<(string, Scalar)>, key: string)
    requires GoodEntries(pairs) && key != "" && FromList(fl) == FlattenPairs(pairs)
    ensures Flatten(Dict(AsEntries(fl)), key) == Flatten(Dict(pairs), key)
  {
    forall i | 0 <= i < |fl|
      ensures fl[i].0 != "name"
    {
      ListedKeys(fl, i);
      NameIsNoKey(pairs);
    }
    FlatDictPrefixed(fl, key);
    KeyIsKept(AsEntries(fl), key);
    FlattenNode(Dict(pairs), key);
    PairsAreEntries(pairs);
    PartPrefixed(Dict(pairs), |pairs|, key, "");
    assert pairs[..|pairs|] == pairs;
    PrefixedIsUnique(FlattenPairs(pairs), key, FlattenEntries(AsEntries(fl), key), FlattenEntries(pairs, key));
  }

  // ---------- The two flatteners ----------

  /** Dictionaries of dictionaries and scalars only, no entry called `name`. */
  ghost predicate DictsOnly(entries: seq<Entry>)
    decreases entries
  {
    forall i :: 0 <= i < |entries| ==>
      && entries[i].key != "name"
      && (entries[i].value.Leaf? || (entries[i].value.Dict? && DictsOnly(entries[i].value.entries)))
  }

  /** The same keys and scalars. */
  ghost predicate SameLeaves(f: Flat, g: map<string, Value>) {
    f.Keys == g.Keys && forall q :: q in f ==> g[q] == Leaf(f[q])
  }

  lemma {:induction false} FlattenersAgree(entries: seq<Entry>, key: string)
    requires DictsOnly(entries)
    ensures SameLeaves(FlattenEntries(entries, key), FlattenAttrs(entries, key))
    decreases entries
  {
    if entries != [] {
      var n := |entries| - 1;
      FlattenersAgree(entries[..n], key);
      var c := entries[n];
      if c.value.Dict? {
        FlattenersAgree(c.value.entries, Dot(key, c.key));
        KeyIsKept(c.value.entries, Dot(key, c.key));
      }
    }
  }
}
