/**
 * What the two flatteners make of any nested value, whatever its keys: a key is there if some way down
 * writes it, with the value written last.
 */
module FlatteningWays {
  import opened Wrappers
  import opened Text
  import opened Flattening

  /** A way down a value: the position of an entry or item at each step. */
  type Way = seq<nat>

  /** The way `a` is taken after the way `b`. */
  ghost predicate Later(a: Way, b: Way) {
    a != [] && b != [] && (a[0] > b[0] || (a[0] == b[0] && Later(a[1..], b[1..])))
  }

  lemma {:induction false} NotLaterThanItself(a: Way)
    ensures !Later(a, a)
  {
    if a != [] {
      NotLaterThanItself(a[1..]);
    }
  }

  lemma LaterThanOneStep(n: nat)
    ensures forall a: Way :: Later(a, [n]) ==> a[0] > n
  {
    assert [n][1..] == [];
  }

  // ---------- The name rule ----------

  /** A `name` becomes a component of the key of its dictionary. */
  lemma {:induction false} NameExtendsKey(entries: seq<Entry>, i: nat, key: string)
    requires i < |entries| && entries[i].key == "name" && forall j :: 0 <= j < i ==> entries[j].key != "name"
    ensures entries[i].value.Leaf? ==> NamedKey(entries, key) == key + "." + entries[i].value.s.text
    ensures entries[i].value.Null? ==> NamedKey(entries, key) == key + ".None"
  {
    if i > 0 {
      NameExtendsKey(entries[1..], i - 1, key);
    }
  }

  /** An item that has a name gets no index. */
  lemma NamedItemHasNoIndex(key: string, i: nat, item: Value)
    ensures item.Dict? && (exists j :: 0 <= j < |item.entries| && item.entries[j].key == "name")
            <==> ItemKey(key, i, item) == key
    ensures ItemKey(key, i, item) != key ==> ItemKey(key, i, item) == key + "." + Numeral(i)
  {
    if !HasName(item) {
      assert |key + "." + Numeral(i)| > |key|;
    }
  }

  // ---------- asdict_recursive and flatten_dict_factory ----------

  /** Down this way, from a value under a key, the scalar `s` is written under the key `q`. */
  ghost predicate Writes(v: Value, key: string, way: Way, q: string, s: Scalar)
    decreases |way|
  {
    if way == [] then v == Leaf(s) && q == key
    else
      match v
      case Dict(entries) =>
        && way[0] < |entries| && entries[way[0]].key != "name"
        && Writes(entries[way[0]].value, Dot(NamedKey(entries, key), entries[way[0]].key), way[1..], q, s)
      case List(items) =>
        && way[0] < |items|
        && Writes(items[way[0]], ItemKey(key, way[0], items[way[0]]), way[1..], q, s)
      case _ => false
  }

  /** The same from a list of pairs: nothing is put before their keys, and `name` is a key like others. */
  ghost predicate PairWrites(pairs: seq<Entry>, way: Way, q: string, s: Scalar) {
    && way != [] && way[0] < |pairs|
    && Writes(pairs[way[0]].value, pairs[way[0]].key, way[1..], q, s)
  }

  ghost predicate LastWrites(pairs: seq<Entry>, way: Way, q: string, s: Scalar) {
    PairWrites(pairs, way, q, s) && forall other, t :: PairWrites(pairs, other, q, t) ==> !Later(other, way)
  }

  /** The children of a node under their keys; a `name` writes nothing. */
  function Below(v: Value, key: string): seq<Entry> {
    match v
    case Dict(entries) =>
      seq(|entries|, i requires 0 <= i < |entries| =>
        Entry(Dot(NamedKey(entries, key), entries[i].key), if entries[i].key == "name" then Null else entries[i].value))
    case List(items) =>
      seq(|items|, i requires 0 <= i < |items| => Entry(ItemKey(key, i, items[i]), items[i]))
    case _ => []
  }

  lemma WritesBelow(v: Value, key: string, way: Way, q: string, s: Scalar)
    requires way != []
    ensures Writes(v, key, way, q, s) <==> PairWrites(Below(v, key), way, q, s)
  {
  }

  lemma {:induction false} EntriesAreBelow(entries: seq<Entry>, n: nat, key: string)
    requires n <= |entries|
    ensures FlattenEntries(entries[..n], NamedKey(entries, key)) == FlattenPairs(Below(Dict(entries), key)[..n])
  {
    if n > 0 {
      EntriesAreBelow(entries, n - 1, key);
      FlattenNext(entries, n - 1, NamedKey(entries, key));
      assert Below(Dict(entries), key)[..n][..n - 1] == Below(Dict(entries), key)[..n - 1];
    }
  }

  lemma {:induction false} ItemsAreBelow(items: seq<Value>, n: nat, key: string)
    requires n <= |items|
    ensures FlattenItems(items[..n], key) == FlattenPairs(Below(List(items), key)[..n])
  {
    if n > 0 {
      ItemsAreBelow(items, n - 1, key);
      assert items[..n][..n - 1] == items[..n - 1];
      assert Below(List(items), key)[..n][..n - 1] == Below(List(items), key)[..n - 1];
    }
  }

  lemma FlattenIsBelow(v: Value, key: string)
    requires v.Dict? || v.List?
    ensures Flatten(v, key) == Keys(FlattenPairs(Below(v, key)))
  {
    assert Below(v, key)[..|Below(v, key)|] == Below(v, key);
    if v.Dict? {
      EntriesAreBelow(v.entries, |v.entries|, key);
      assert v.entries[..|v.entries|] == v.entries;
    } else {
      ItemsAreBelow(v.items, |v.items|, key);
      assert v.items[..|v.items|] == v.items;
    }
  }

  /** What one pair contributes. */
  function Share(e: Entry): Flat {
    if e.value.Null? then map[] else Store(map[], e.key, Flatten(e.value, e.key))
  }

  lemma PairsNext(pairs: seq<Entry>)
    requires pairs != []
    ensures FlattenPairs(pairs) == FlattenPairs(pairs[..|pairs| - 1]) + Share(pairs[|pairs| - 1])
  {
  }

  /** Whatever some way writes is there. */
  lemma {:induction false} WrittenIsThere(pairs: seq<Entry>, way: Way, q: string, s: Scalar)
    requires PairWrites(pairs, way, q, s)
    ensures q in FlattenPairs(pairs)
    decreases |way|, |pairs|
  {
    hide FlattenPairs, Share, Writes;
    var n := |pairs| - 1;
    PairsNext(pairs);
    if way[0] < n {
      WrittenIsThere(pairs[..n], way, q, s);
    } else {
      WrittenIsShared(pairs[n], way[1..], q, s);
    }
  }

  lemma {:induction false} WrittenIsShared(e: Entry, way: Way, q: string, s: Scalar)
    requires Writes(e.value, e.key, way, q, s)
    ensures q in Share(e)
    decreases |way| + 1, 0
  {
    if way != [] {
      WritesBelow(e.value, e.key, way, q, s);
      FlattenIsBelow(e.value, e.key);
      WrittenIsThere(Below(e.value, e.key), way, q, s);
    }
  }

  ghost predicate ValuesWithin(pairs: seq<Entry>, bound: Value) {
    forall i :: 0 <= i < |pairs| ==> pairs[i].value.Null? || pairs[i].value < bound
  }

  lemma BelowIsWithin(v: Value, key: string)
    ensures ValuesWithin(Below(v, key), v)
  {
  }

  /** Whatever is there was written, and nothing of its key later. */
  lemma {:induction false} ThereIsWritten(pairs: seq<Entry>, q: string, bound: Value) returns (way: Way)
    requires ValuesWithin(pairs, bound) && q in FlattenPairs(pairs)
    ensures LastWrites(pairs, way, q, FlattenPairs(pairs)[q])
    decreases bound, |pairs|
  {
    hide Share, Writes, FlattenPairs;
    if pairs == [] {
      NothingFlat();
    }
    var n := |pairs| - 1;
    PairsNext(pairs);
    NothingIsShared(pairs[n]);
    if q in Share(pairs[n]) {
      var rest := SharedIsWritten(pairs[n], q);
      way := [n] + rest;
      assert way[1..] == rest;
    } else {
      way := ThereIsWritten(pairs[..n], q, bound);
      forall other, t | PairWrites(pairs, other, q, t)
        ensures !Later(other, way)
      {
        if other[0] == n {
          WrittenIsShared(pairs[n], other[1..], q, t);
        } else {
          assert PairWrites(pairs[..n], other, q, t);
        }
      }
    }
  }

  lemma NothingIsShared(e: Entry)
    ensures e.value.Null? ==> Share(e) == map[]
  {
  }

  lemma NothingFlat()
    ensures FlattenPairs([]) == map[]
  {
  }

  lemma {:induction false} SharedIsWritten(e: Entry, q: string) returns (way: Way)
    requires q in Share(e)
    ensures Writes(e.value, e.key, way, q, Share(e)[q])
    ensures forall other, t :: Writes(e.value, e.key, other, q, t) ==> !Later(other, way)
    decreases e.value, |Below(e.value, e.key)| + 1
  {
    if e.value.Leaf? {
      way := [];
    } else {
      FlattenIsBelow(e.value, e.key);
      BelowIsWithin(e.value, e.key);
      way := ThereIsWritten(Below(e.value, e.key), q, e.value);
      forall other, t | Writes(e.value, e.key, other, q, t)
        ensures !Later(other, way)
      {
        if other != [] {
          WritesBelow(e.value, e.key, other, q, t);
        }
      }
      WritesBelow(e.value, e.key, way, q, Share(e)[q]);
    }
  }

  /** Of two ways that write, one is taken after the other. */
  lemma {:induction false} OneIsLater(v: Value, key: string, a: Way, b: Way, q: string, s: Scalar, t: Scalar)
    requires Writes(v, key, a, q, s) && Writes(v, key, b, q, t)
    ensures Later(a, b) || Later(b, a) || s == t
    decreases |a|
  {
    if a != [] && b != [] && a[0] == b[0] {
      WritesBelow(v, key, a, q, s);
      WritesBelow(v, key, b, q, t);
      var e := Below(v, key)[a[0]];
      OneIsLater(e.value, e.key, a[1..], b[1..], q, s, t);
    }
  }

  lemma LastIsUnique(pairs: seq<Entry>, a: Way, b: Way, q: string, s: Scalar, t: Scalar)
    requires LastWrites(pairs, a, q, s) && LastWrites(pairs, b, q, t)
    ensures s == t
  {
    if a[0] == b[0] {
      OneIsLater(pairs[a[0]].value, pairs[a[0]].key, a[1..], b[1..], q, s, t);
    }
  }

  /** `flatten_dict_factory`, for any pairs: a key is there if it is written, with what is written last. */
  lemma FlatExactlyWhen(pairs: seq<Entry>, q: string, s: Scalar)
    ensures q in FlattenPairs(pairs) && FlattenPairs(pairs)[q] == s <==> exists way :: LastWrites(pairs, way, q, s)
    ensures q in FlattenPairs(pairs) <==> exists way, t :: PairWrites(pairs, way, q, t)
  {
    hide FlattenPairs, PairWrites;
    if q in FlattenPairs(pairs) {
      var way := ThereIsWritten(pairs, q, Dict(pairs));
      if w :| LastWrites(pairs, w, q, s) {
        LastIsUnique(pairs, way, w, q, FlattenPairs(pairs)[q], s);
      }
    }
    if way, t :| PairWrites(pairs, way, q, t) {
      WrittenIsThere(pairs, way, q, t);
    }
  }
}
