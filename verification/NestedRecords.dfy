/**
 * `dataclasses.asdict` with `flatten_dict_factory` as its dictionary factory: every nested dataclass
 * is flattened before the one that holds it.
 */
module NestedRecords {
  import opened Flattening

  /** A value that may hold dataclass instances. */
  datatype Node =
    | Nothing
    | Atom(s: Scalar)
    | Instance(fields: seq<Field>)
    | Table(fields: seq<Field>)
    | Items(items: seq<Node>)

  datatype Field = Field(name: string, node: Node)

  /** The same data with dictionaries for the instances. */
  function Plain(n: Node): Value
    decreases n
  {
    match n
    case Nothing => Null
    case Atom(s) => Leaf(s)
    case Instance(fields) => Dict(PlainFields(fields))
    case Table(fields) => Dict(PlainFields(fields))
    case Items(items) => List(PlainItems(items))
  }

  function PlainFields(fields: seq<Field>): (entries: seq<Entry>)
    ensures |entries| == |fields|
    decreases fields
  {
    if fields == [] then []
    else
      var n := |fields| - 1;
      PlainFields(fields[..n]) + [Entry(fields[n].name, Plain(fields[n].node))]
  }

  function PlainItems(items: seq<Node>): (values: seq<Value>)
    ensures |values| == |items|
    decreases items
  {
    if items == [] then []
    else
      var n := |items| - 1;
      PlainItems(items[..n]) + [Plain(items[n])]
  }

  /** The order in which a flat dictionary holds its entries. */
  type Order = Flat -> seq<(string, Scalar)>

  ghost predicate Lists(order: Order) { forall m :: FromList(order(m)) == m }

  /** What `asdict` makes of a value: an instance becomes the flat dictionary of its converted fields. */
  function AsDict(n: Node, order: Order): Value
    decreases n
  {
    match n
    case Nothing => Null
    case Atom(s) => Leaf(s)
    case Instance(fields) => Dict(AsEntries(order(FlattenPairs(AsDictFields(fields, order)))))
    case Table(fields) => Dict(AsDictFields(fields, order))
    case Items(items) => List(AsDictItems(items, order))
  }

  function AsDictFields(fields: seq<Field>, order: Order): (entries: seq<Entry>)
    ensures |entries| == |fields|
    ensures forall i :: 0 <= i < |fields| ==> entries[i].key == fields[i].name
    decreases fields
  {
    if fields == [] then []
    else
      var n := |fields| - 1;
      AsDictFields(fields[..n], order) + [Entry(fields[n].name, AsDict(fields[n].node, order))]
  }

  function AsDictItems(items: seq<Node>, order: Order): (values: seq<Value>)
    ensures |values| == |items|
    decreases items
  {
    if items == [] then []
    else
      var n := |items| - 1;
      AsDictItems(items[..n], order) + [AsDict(items[n], order)]
  }

  lemma {:induction false} FieldsPrefix(fields: seq<Field>)
    requires fields != [] && GoodEntries(PlainFields(fields))
    ensures GoodEntries(PlainFields(fields[..|fields| - 1]))
    ensures GoodKey(fields[|fields| - 1].name) && GoodTree(Plain(fields[|fields| - 1].node))
  {
    var all, n := PlainFields(fields), |fields| - 1;
    assert forall i :: 0 <= i < n ==> PlainFields(fields[..n])[i] == all[i];
    assert all[n] == Entry(fields[n].name, Plain(fields[n].node));
  }

  lemma {:induction false} FieldNamesAreGood(fields: seq<Field>)
    requires GoodEntries(PlainFields(fields))
    ensures forall i :: 0 <= i < |fields| ==> GoodKey(fields[i].name)
  {
    if fields != [] {
      FieldsPrefix(fields);
      FieldNamesAreGood(fields[..|fields| - 1]);
    }
  }

  lemma FlattenLast(entries: seq<Entry>, e: Entry, key: string)
    ensures FlattenEntries(entries + [e], key) ==
            var before := FlattenEntries(entries, key);
            if e.key == "name" || e.value.Null? then before
            else Store(before, Dot(key, e.key), Flatten(e.value, Dot(key, e.key)))
  {
    assert (entries + [e])[..|entries|] == entries;
  }

  /** Field by field, converting first makes no difference. */
  lemma {:induction false} FieldsAgree(fields: seq<Field>, order: Order, key: string)
    requires GoodEntries(PlainFields(fields)) && Lists(order)
    ensures FlattenEntries(AsDictFields(fields, order), key) == FlattenEntries(PlainFields(fields), key)
    decreases fields
  {
    hide FlattenEntries, Flatten, GoodEntries;
    if fields != [] {
      var n := |fields| - 1;
      FieldsPrefix(fields);
      FieldsAgree(fields[..n], order, key);
      FlattenLast(PlainFields(fields[..n]), Entry(fields[n].name, Plain(fields[n].node)), key);
      FlattenLast(AsDictFields(fields[..n], order), Entry(fields[n].name, AsDict(fields[n].node, order)), key);
      if !fields[n].node.Nothing? {
        NodeAgrees(fields[n].node, order, Dot(key, fields[n].name));
      }
    }
  }

  lemma {:induction false} ItemsPrefix(items: seq<Node>)
    requires items != [] && GoodTree(List(PlainItems(items)))
    ensures GoodTree(List(PlainItems(items[..|items| - 1]))) && GoodTree(Plain(items[|items| - 1]))
  {
    var all, n := PlainItems(items), |items| - 1;
    assert forall i :: 0 <= i < n ==> PlainItems(items[..n])[i] == all[i];
    assert all[n] == Plain(items[n]);
  }

  lemma {:induction false} ItemsAgree(items: seq<Node>, order: Order, key: string)
    requires GoodTree(List(PlainItems(items))) && Lists(order) && key != ""
    ensures FlattenItems(AsDictItems(items, order), key) == FlattenItems(PlainItems(items), key)
    decreases items
  {
    if items != [] {
      var n := |items| - 1;
      ItemsPrefix(items);
      ItemsAgree(items[..n], order, key);
      if !items[n].Nothing? {
        GoodIsNameFree(Plain(items[n]));
        NodeAgrees(items[n], order, ItemKey(key, n, Plain(items[n])));
      }
    }
  }

  /** The keys of an instance that has been flattened. */
  lemma FlatInstance(fields: seq<Field>, order: Order, key: string)
    requires GoodEntries(PlainFields(fields)) && Lists(order) && key != ""
    requires FlattenEntries(AsDictFields(fields, order), "") == FlattenEntries(PlainFields(fields), "")
    ensures Flatten(AsDict(Instance(fields), order), key) == Flatten(Dict(PlainFields(fields)), key)
    ensures !HasName(AsDict(Instance(fields), order))
  {
    var pairs := PlainFields(fields);
    var flat := FlattenPairs(AsDictFields(fields, order));
    var fl := order(flat);
    FieldNamesAreGood(fields);
    PairsAreEntries(AsDictFields(fields, order));
    PairsAreEntries(pairs);
    assert FromList(fl) == flat;
    NameIsNoKey(pairs);
    forall i | 0 <= i < |fl|
      ensures fl[i].0 != "name"
    {
      ListedKeys(fl, i);
    }
    SubtreesFirst(pairs, fl, key);
  }

  lemma {:induction false} NodeAgrees(n: Node, order: Order, key: string)
    requires GoodTree(Plain(n)) && Lists(order) && key != "" && !n.Nothing?
    ensures Flatten(AsDict(n, order), key) == Flatten(Plain(n), key)
    ensures !HasName(AsDict(n, order))
    decreases n
  {
    match n
    case Atom(_) =>
    case Instance(fields) =>
      FieldsAgree(fields, order, "");
      FlatInstance(fields, order, key);
    case Table(fields) =>
      FieldsAgree(fields, order, key);
      FieldNamesAreGood(fields);
      KeyIsKept(AsDictFields(fields, order), key);
      KeyIsKept(PlainFields(fields), key);
    case Items(items) =>
      ItemsAgree(items, order, key);
  }

  /**
   * Flattening from the inside out, as `asdict` does, gives the map that flattening the whole tree
   * at once gives, in whatever order the dictionaries in between hold their entries.
   */
  lemma InsideOutIsAtOnce(fields: seq<Field>, order: Order)
    requires GoodEntries(PlainFields(fields)) && Lists(order)
    ensures FlattenPairs(AsDictFields(fields, order)) == FlattenPairs(PlainFields(fields))
  {
    FieldsAgree(fields, order, "");
    FieldNamesAreGood(fields);
    PairsAreEntries(AsDictFields(fields, order));
    PairsAreEntries(PlainFields(fields));
  }
}
