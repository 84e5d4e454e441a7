/** `max_fields` of dataclass_utils.py: the per-field maximum of two dataclass instances. */
module MaxFields {
  import opened Wrappers

  datatype Error = TypeError

  /** A field's value: None, a number, a string, a dictionary or a list of numbers; elements may be None. */
  datatype Field =
    | Null
    | Num(n: real)
    | Str(s: string)
    | Table(t: map<string, Option<real>>)
    | Row(r: seq<Option<real>>)

  datatype Class = Class(name: string, arity: nat)

  datatype Record = Record(cls: string, fields: seq<Field>)

  /** `isinstance(r, cls)`. */
  predicate IsInstance(r: Record, c: Class) { r.cls == c.name }

  /** Instances of a class have its fields. */
  predicate WellFormed(r: Record, c: Class) { IsInstance(r, c) ==> |r.fields| == c.arity }

  function Max(a: real, b: real): (r: real)
    ensures r >= a && r >= b && r in {a, b}
  {
    if b > a then b else a
  }

  /** `a < b` on strings: by code point, and a proper prefix is less. */
  predicate Precedes(a: string, b: string) {
    b != "" && (a == "" || a[0] < b[0] || (a[0] == b[0] && Precedes(a[1..], b[1..])))
  }

  function MaxString(a: string, b: string): string { if Precedes(a, b) then b else a }

  /** Of two strings one precedes the other, or they are equal. */
  lemma {:induction false} PrecedesIsTotal(a: string, b: string)
    ensures a == b || Precedes(a, b) || Precedes(b, a)
    ensures !(Precedes(a, b) && Precedes(b, a)) && !Precedes(a, a)
  {
    if a != "" && b != "" {
      PrecedesIsTotal(a[1..], b[1..]);
      assert a == [a[0]] + a[1..] && b == [b[0]] + b[1..];
    } else if a != "" {
      PrecedesItself(a);
    }
  }

  lemma {:induction false} PrecedesItself(a: string)
    ensures !Precedes(a, a)
  {
    if a != "" {
      PrecedesItself(a[1..]);
    }
  }

  lemma {:induction false} PrecedesIsTransitive(a: string, b: string, c: string)
    requires Precedes(a, b) && Precedes(b, c)
    ensures Precedes(a, c)
    decreases |a|
  {
    if a != "" && a[0] == b[0] == c[0] {
      PrecedesIsTransitive(a[1..], b[1..], c[1..]);
    }
  }

  /** The order is by the first character that differs, and a proper prefix goes first. */
  lemma {:induction false} PrecedesExactlyWhen(a: string, b: string)
    ensures Precedes(a, b) <==>
            exists i :: 0 <= i <= |a| && i < |b| && a[..i] == b[..i] && (i == |a| || a[i] < b[i])
  {
    if a != "" && b != "" {
      PrecedesExactlyWhen(a[1..], b[1..]);
      if a[0] == b[0] {
        if i :| 0 <= i <= |a[1..]| && i < |b[1..]| && a[1..][..i] == b[1..][..i]
                && (i == |a[1..]| || a[1..][i] < b[1..][i]) {
          assert a[..i + 1] == [a[0]] + a[1..][..i] && b[..i + 1] == [b[0]] + b[1..][..i];
        }
        if i :| 0 <= i <= |a| && i < |b| && a[..i] == b[..i] && (i == |a| || a[i] < b[i]) {
          assert a[1..][..i - 1] == a[..i][1..] && b[1..][..i - 1] == b[..i][1..];
        }
      } else {
        assert a[..0] == b[..0];
        assert forall i :: 0 < i <= |a| && i < |b| ==> a[..i][0] == a[0] && b[..i][0] == b[0];
      }
    } else if b != "" {
      assert a[..0] == b[..0];
    }
  }

  lemma StringsCommute(a: string, b: string)
    ensures MaxString(a, b) == MaxString(b, a)
  {
    hide Precedes;
    PrecedesIsTotal(a, b);
  }

  /** The maximum is at most `z` exactly when both strings are. */
  lemma JoinOfStrings(a: string, b: string, z: string)
    ensures !Precedes(z, MaxString(a, b)) <==> !Precedes(z, a) && !Precedes(z, b)
  {
    hide Precedes;
    PrecedesIsTotal(a, b);
    PrecedesIsTotal(z, a);
    PrecedesIsTotal(z, b);
    if Precedes(a, b) && Precedes(z, a) {
      PrecedesIsTransitive(z, a, b);
    }
    if Precedes(b, a) && Precedes(z, b) {
      PrecedesIsTransitive(z, b, a);
    }
  }

  lemma StringsAssociate(a: string, b: string, c: string)
    ensures MaxString(MaxString(a, b), c) == MaxString(a, MaxString(b, c))
  {
    hide Precedes;
    var l, r := MaxString(MaxString(a, b), c), MaxString(a, MaxString(b, c));
    JoinOfStrings(MaxString(a, b), c, r);
    JoinOfStrings(a, b, r);
    JoinOfStrings(a, MaxString(b, c), l);
    JoinOfStrings(b, c, l);
    JoinOfStrings(MaxString(a, b), c, l);
    JoinOfStrings(a, b, l);
    JoinOfStrings(a, MaxString(b, c), r);
    JoinOfStrings(b, c, r);
    PrecedesIsTotal(l, r);
    PrecedesIsTotal(l, l);
    PrecedesIsTotal(r, r);
  }

  function MaxOption(a: Option<real>, b: Option<real>): Option<real> {
    if a.None? then b else if b.None? then a else Some(Max(a.value, b.value))
  }

  function MaxRows(a: seq<Option<real>>, b: seq<Option<real>>): seq<Option<real>>
    requires |a| == |b|
  {
    seq(|a|, i requires 0 <= i < |a| => MaxOption(a[i], b[i]))
  }

  /** Keys of the left, and those of the right that are not None. */
  function MergedKeys(a: map<string, Option<real>>, b: map<string, Option<real>>): set<string> {
    a.Keys + set k | k in b && b[k].Some?
  }

  function Lookup(m: map<string, Option<real>>, k: string): Option<Option<real>> {
    if k in m then Some(m[k]) else None
  }

  /** What one key of the right does to that key of the left. */
  function MergeEntry(a: Option<Option<real>>, b: Option<Option<real>>): Option<Option<real>> {
    if b.None? || b.value.None? then a
    else if a.None? then b
    else Some(MaxOption(a.value, b.value))
  }

  function MaxTables(a: map<string, Option<real>>, b: map<string, Option<real>>): (m: map<string, Option<real>>)
    ensures forall k :: Lookup(m, k) == MergeEntry(Lookup(a, k), Lookup(b, k))
  {
    map k | k in MergedKeys(a, b) :: MergeEntry(Lookup(a, k), Lookup(b, k)).value
  }

  lemma SameTable(a: map<string, Option<real>>, b: map<string, Option<real>>)
    requires forall k :: Lookup(a, k) == Lookup(b, k)
    ensures a == b
  {
    forall k
      ensures k in a <==> k in b
      ensures k in a ==> a[k] == b[k]
    {
      assert Lookup(a, k) == Lookup(b, k);
    }
    assert a.Keys == b.Keys;
  }

  function MaxField(a: Field, b: Field): Result<Field, Error> {
    if a.Null? then Ok(b)
    else if b.Null? then Ok(a)
    else if a.Table? && b.Table? then Ok(Table(MaxTables(a.t, b.t)))
    else if a.Row? && b.Row? then Ok(Row(if |a.r| == |b.r| then MaxRows(a.r, b.r) else b.r))
    else if a.Num? && b.Num? then Ok(Num(Max(a.n, b.n)))
    else if a.Str? && b.Str? then Ok(Str(MaxString(a.s, b.s)))
    else Err(TypeError)
  }

  function MaxAll(a: seq<Field>, b: seq<Field>): Result<seq<Field>, Error>
    requires |a| == |b|
  {
    if a == [] then Ok([])
    else
      var n := |a| - 1;
      var before := MaxAll(a[..n], b[..n]);
      if before.Err? || MaxField(a[n], b[n]).Err? then Err(TypeError)
      else Ok(before.value + [MaxField(a[n], b[n]).value])
  }

  /** The operator `max_fields(cls)`. */
  function MaxRecord(c: Class, a: Record, b: Record): Result<Record, Error> {
    if !IsInstance(a, c) || !IsInstance(b, c) || |a.fields| != |b.fields| then Err(TypeError)
    else
      var fields := MaxAll(a.fields, b.fields);
      if fields.Err? then Err(TypeError) else Ok(Record(c.name, fields.value))
  }

  // ---------- The loops of the source ----------

  method MergeDicts(left: map<string, Option<real>>, right: map<string, Option<real>>)
    returns (merged: map<string, Option<real>>)
    ensures merged == MaxTables(left, right)
    ensures forall k :: k in merged <==> k in left || (k in right && right[k].Some?)
    ensures forall k :: k in merged ==>
              merged[k] == if k !in right || right[k].None? then left[k]
                           else if k !in left || left[k].None? then right[k]
                           else Some(Max(left[k].value, right[k].value))
  {
    hide Max, MaxTables;
    merged := left;
    var todo := right.Keys;
    while todo != {}
      invariant todo <= right.Keys
      invariant forall k :: Lookup(merged, k) ==
                  if k in todo then Lookup(left, k) else MergeEntry(Lookup(left, k), Lookup(right, k))
      decreases |todo|
    {
      var k :| k in todo;
      var v := right[k];
      assert Lookup(merged, k) == Lookup(left, k) && Lookup(right, k) == Some(v);
      if k in merged && merged[k].Some? && v.Some? {
        merged := merged[k := Some(Max(merged[k].value, v.value))];
      } else if v.Some? {
        merged := merged[k := v];
      }
      todo := todo - {k};
    }
    SameTable(merged, MaxTables(left, right));
    MergedEntries(left, right);
  }

  lemma MergedEntries(a: map<string, Option<real>>, b: map<string, Option<real>>)
    ensures forall k :: k in MaxTables(a, b) <==> k in a || (k in b && b[k].Some?)
    ensures forall k :: k in MaxTables(a, b) ==>
              MaxTables(a, b)[k] == if k !in b || b[k].None? then a[k]
                                    else if k !in a || a[k].None? then b[k]
                                    else Some(Max(a[k].value, b[k].value))
  {
    hide Max;
    var m := MaxTables(a, b);
    forall k
      ensures k in m <==> k in a || (k in b && b[k].Some?)
      ensures k in m ==> Some(m[k]) == MergeEntry(Lookup(a, k), Lookup(b, k))
    {
      assert Lookup(m, k) == MergeEntry(Lookup(a, k), Lookup(b, k));
    }
  }

  method MergeLists(left: seq<Option<real>>, right: seq<Option<real>>) returns (merged: seq<Option<real>>)
    requires |left| == |right|
    ensures merged == MaxRows(left, right) && |merged| == |left|
    ensures forall i :: 0 <= i < |left| ==>
              merged[i] == if left[i].None? then right[i] else if right[i].None? then left[i]
                           else Some(Max(left[i].value, right[i].value))
  {
    merged := [];
    for i := 0 to |left|
      invariant merged == MaxRows(left, right)[..i]
    {
      var li, ri := left[i], right[i];
      if li.None? {
        merged := merged + [ri];
      } else if ri.None? {
        merged := merged + [li];
      } else {
        merged := merged + [Some(Max(li.value, ri.value))];
      }
    }
  }

  /** The body of the loop of `op` for one field. */
  method MergeField(a: Field, b: Field) returns (r: Result<Field, Error>)
    ensures r == MaxField(a, b)
    ensures r.Err? <==> !Comparable(a, b)
  {
    hide MaxTables, MaxRows;
    if a.Null? {
      return Ok(b);
    } else if b.Null? {
      return Ok(a);
    } else if a.Table? && b.Table? {
      var merged := MergeDicts(a.t, b.t);
      return Ok(Table(merged));
    } else if a.Row? && b.Row? {
      if |a.r| != |b.r| {
        return Ok(b);
      }
      var merged := MergeLists(a.r, b.r);
      return Ok(Row(merged));
    } else if a.Num? && b.Num? {
      return Ok(Num(Max(a.n, b.n)));
    } else if a.Str? && b.Str? {
      return Ok(Str(MaxString(a.s, b.s)));
    } else {
      return Err(TypeError);
    }
  }

  method Op(c: Class, left: Record, right: Record) returns (r: Result<Record, Error>)
    requires WellFormed(left, c) && WellFormed(right, c)
    ensures r == MaxRecord(c, left, right)
    ensures r.Err? <==>
            || left.cls != c.name || right.cls != c.name
            || exists i :: 0 <= i < c.arity && !Comparable(left.fields[i], right.fields[i])
    ensures r.Ok? ==>
              && r.value.cls == c.name && |r.value.fields| == c.arity
              && forall i :: 0 <= i < c.arity ==> MaxField(left.fields[i], right.fields[i]) == Ok(r.value.fields[i])
  {
    if !IsInstance(left, c) {
      return Err(TypeError);
    }
    if !IsInstance(right, c) {
      return Err(TypeError);
    }
    hide Comparable, MaxField;
    var a, b := left.fields, right.fields;
    MaxAllExactlyWhen(a, b);
    var kwargs: seq<Field> := [];
    for i := 0 to c.arity
      invariant MaxAll(a[..i], b[..i]) == Ok(kwargs)
    {
      assert a[..i + 1][..i] == a[..i] && b[..i + 1][..i] == b[..i];
      var merged := MergeField(a[i], b[i]);
      if merged.Err? {
        MaxAllFails(a, b, i);
        return Err(TypeError);
      }
      kwargs := kwargs + [merged.value];
    }
    assert a[..c.arity] == a && b[..c.arity] == b;
    return Ok(Record(c.name, kwargs));
  }

  lemma FieldRaisesExactlyWhen(a: Field, b: Field)
    ensures MaxField(a, b).Err? <==> !Comparable(a, b)
  {
  }

  /** None gives way, numbers and strings give the greater one, and lists of different lengths the right one. */
  lemma MaxOfKinds(a: Field, b: Field)
    ensures a.Null? ==> MaxField(a, b) == Ok(b)
    ensures b.Null? ==> MaxField(a, b) == Ok(a)
    ensures a.Num? && b.Num? ==> MaxField(a, b) == Ok(if a.n <= b.n then b else a)
    ensures a.Str? && b.Str? ==> MaxField(a, b) == Ok(if Precedes(a.s, b.s) then b else a)
    ensures a.Row? && b.Row? && |a.r| != |b.r| ==> MaxField(a, b) == Ok(b)
    ensures a.Row? && b.Row? && |a.r| == |b.r| ==> MaxField(a, b) == Ok(Row(MaxRows(a.r, b.r)))
    ensures a.Table? && b.Table? ==> MaxField(a, b) == Ok(Table(MaxTables(a.t, b.t)))
  {
    hide MaxTables, Precedes, MaxRows;
  }

  lemma {:induction false} MaxAllExactlyWhen(a: seq<Field>, b: seq<Field>)
    requires |a| == |b|
    ensures MaxAll(a, b).Err? <==> exists i :: 0 <= i < |a| && !Comparable(a[i], b[i])
    ensures MaxAll(a, b).Ok? ==>
              && |MaxAll(a, b).value| == |a|
              && forall i :: 0 <= i < |a| ==> MaxField(a[i], b[i]) == Ok(MaxAll(a, b).value[i])
  {
    if a != [] {
      hide MaxField, Comparable;
      var n := |a| - 1;
      MaxAllExactlyWhen(a[..n], b[..n]);
      FieldRaisesExactlyWhen(a[n], b[n]);
      assert forall i :: 0 <= i < n ==> a[..n][i] == a[i] && b[..n][i] == b[i];
    }
  }

  lemma {:induction false} MaxAllFails(a: seq<Field>, b: seq<Field>, i: nat)
    requires |a| == |b| && i < |a| && MaxField(a[i], b[i]).Err?
    ensures MaxAll(a, b) == Err(TypeError)
  {
    if i < |a| - 1 {
      MaxAllFails(a[..|a| - 1], b[..|a| - 1], i);
    }
  }

  // ---------- Where the operator is commutative and associative ----------

  /** Either is None, or both are of one kind: no TypeError. */
  predicate Comparable(a: Field, b: Field) {
    a.Null? || b.Null? || (a.Num? && b.Num?) || (a.Str? && b.Str?) || (a.Table? && b.Table?) || (a.Row? && b.Row?)
  }

  /** Every key that one dictionary maps to None is a key of the other. */
  predicate NoneKeysShared(a: map<string, Option<real>>, b: map<string, Option<real>>) {
    && (forall k :: k in a && a[k].None? ==> k in b)
    && (forall k :: k in b && b[k].None? ==> k in a)
  }

  /** Order matters exactly for lists of different lengths and for unshared None keys. */
  lemma CommutesExactlyWhen(a: Field, b: Field)
    requires Comparable(a, b)
    ensures MaxField(a, b) == MaxField(b, a) <==>
            && (a.Row? && b.Row? ==> |a.r| == |b.r|)
            && (a.Table? && b.Table? ==> NoneKeysShared(a.t, b.t))
  {
    if a.Row? && b.Row? && |a.r| == |b.r| {
      assert MaxRows(a.r, b.r) == MaxRows(b.r, a.r);
    } else if a.Table? && b.Table? {
      TablesCommuteExactlyWhen(a.t, b.t);
    } else if a.Str? && b.Str? {
      StringsCommute(a.s, b.s);
    }
  }

  lemma TablesCommuteExactlyWhen(a: map<string, Option<real>>, b: map<string, Option<real>>)
    ensures MaxTables(a, b) == MaxTables(b, a) <==> NoneKeysShared(a, b)
  {
    var m, m' := MaxTables(a, b), MaxTables(b, a);
    if NoneKeysShared(a, b) {
      SameTable(m, m');
    } else if k :| k in a && a[k].None? && k !in b {
      assert Lookup(m, k) == Some(None) && Lookup(m', k) == None;
    } else if k :| k in b && b[k].None? && k !in a {
      assert Lookup(m, k) == None && Lookup(m', k) == Some(None);
    }
  }

  lemma TablesAssociate(a: map<string, Option<real>>, b: map<string, Option<real>>, c: map<string, Option<real>>)
    ensures MaxTables(MaxTables(a, b), c) == MaxTables(a, MaxTables(b, c))
  {
    SameTable(MaxTables(MaxTables(a, b), c), MaxTables(a, MaxTables(b, c)));
  }

  /** Three values of one kind, or None. */
  predicate AllComparable(a: Field, b: Field, c: Field) {
    Comparable(a, b) && Comparable(b, c) && Comparable(a, c)
  }

  /**
   * Grouping matters exactly when the middle list has another length than the last while the
   * outer two have one length and the first exceeds the last somewhere.
   */
  lemma AssociatesExactlyWhen(a: Field, b: Field, c: Field)
    requires AllComparable(a, b, c)
    ensures MaxField(a, b).Ok? && MaxField(b, c).Ok?
    ensures MaxField(MaxField(a, b).value, c) == MaxField(a, MaxField(b, c).value) <==>
            !(a.Row? && b.Row? && c.Row? && |b.r| != |c.r| && |a.r| == |c.r|
              && exists i :: 0 <= i < |a.r| && a.r[i].Some? && (c.r[i].None? || a.r[i].value > c.r[i].value))
  {
    if a.Table? && b.Table? && c.Table? {
      TablesAssociate(a.t, b.t, c.t);
    } else if a.Row? && b.Row? && c.Row? {
      RowsAssociateExactlyWhen(a.r, b.r, c.r);
    } else if a.Str? && b.Str? && c.Str? {
      StringsAssociate(a.s, b.s, c.s);
    }
  }

  lemma RowsAssociateExactlyWhen(a: seq<Option<real>>, b: seq<Option<real>>, c: seq<Option<real>>)
    ensures MaxField(MaxField(Row(a), Row(b)).value, Row(c)) == MaxField(Row(a), MaxField(Row(b), Row(c)).value) <==>
            !(|b| != |c| && |a| == |c|
              && exists i :: 0 <= i < |a| && a[i].Some? && (c[i].None? || a[i].value > c[i].value))
  {
    if |b| == |c| {
      if |a| == |b| {
        assert MaxRows(MaxRows(a, b), c) == MaxRows(a, MaxRows(b, c));
      }
    } else if |a| == |c| {
      if i :| 0 <= i < |a| && a[i].Some? && (c[i].None? || a[i].value > c[i].value) {
        assert MaxRows(a, c)[i] != c[i];
      } else {
        assert MaxRows(a, c) == c;
      }
    }
  }

  // ---------- Inputs for which the order or the grouping matters ----------

  lemma ListLengthsBreakOrder()
    ensures MaxField(Row([Some(1.0)]), Row([])) == Ok(Row([]))
    ensures MaxField(Row([]), Row([Some(1.0)])) == Ok(Row([Some(1.0)]))
  {
  }

  lemma NoneKeyBreaksOrder()
    ensures MaxField(Table(map["k" := None]), Table(map[])) != MaxField(Table(map[]), Table(map["k" := None]))
  {
    var a: map<string, Option<real>> := map["k" := None];
    CommutesExactlyWhen(Table(a), Table(map[]));
    assert "k" in a && a["k"].None?;
  }

  /** The peak 2 is lost when the odd list is merged in first. */
  lemma OddListBreaksGrouping()
    ensures var a, b, c := Row([Some(2.0)]), Row([]), Row([Some(1.0)]);
            && MaxField(a, b) == Ok(b) && MaxField(b, c) == Ok(c)
            && MaxField(b, c) == Ok(Row([Some(1.0)]))
            && MaxField(a, c) == Ok(Row([Some(2.0)]))
  {
    assert MaxRows([Some(2.0)], [Some(1.0)]) == [Some(2.0)];
  }
}
