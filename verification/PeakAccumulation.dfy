/** Accumulating with `max_fields`: the result is a least upper bound, whatever the order. */
module PeakAccumulation {
  import opened Wrappers
  import opened MaxFields
  import opened Accumulate

  /** What a field holds when it is not None: one kind, and for lists one length. */
  datatype Shape = NumShape | StrShape | TableShape | RowShape(n: nat)

  /** Dictionaries hold no None; list elements may. */
  predicate Fits(sh: Shape, f: Field) {
    match f
    case Null => true
    case Num(_) => sh.NumShape?
    case Str(_) => sh.StrShape?
    case Table(t) => sh.TableShape? && forall k :: k in t ==> t[k].Some?
    case Row(r) => sh.RowShape? && |r| == sh.n
  }

  predicate BelowOption(a: Option<real>, b: Option<real>) {
    a.None? || (b.Some? && a.value <= b.value)
  }

  /** The order on field values: None is lowest, dictionaries and lists are compared entry by entry. */
  predicate Below(a: Field, b: Field) {
    || a.Null?
    || (a.Num? && b.Num? && a.n <= b.n)
    || (a.Str? && b.Str? && !Precedes(b.s, a.s))
    || (a.Table? && b.Table? && forall k :: k in a.t ==> k in b.t && BelowOption(a.t[k], b.t[k]))
    || (a.Row? && b.Row? && |a.r| == |b.r| && forall i :: 0 <= i < |a.r| ==> BelowOption(a.r[i], b.r[i]))
  }

  lemma BelowIsAntisymmetric(sh: Shape, a: Field, b: Field)
    requires Fits(sh, a) && Fits(sh, b) && Below(a, b) && Below(b, a)
    ensures a == b
  {
    if a.Table? {
      assert a.t.Keys == b.t.Keys;
    } else if a.Str? {
      PrecedesIsTotal(a.s, b.s);
    }
  }

  lemma JoinOfOptions(a: Option<real>, b: Option<real>, z: Option<real>)
    ensures BelowOption(MaxOption(a, b), z) <==> BelowOption(a, z) && BelowOption(b, z)
  {
  }

  lemma JoinOfRows(a: Field, b: Field, z: Field)
    requires a.Row? && b.Row? && z.Row? && |a.r| == |b.r| == |z.r|
    ensures Below(Row(MaxRows(a.r, b.r)), z) <==> Below(a, z) && Below(b, z)
  {
    forall i | 0 <= i < |a.r|
      ensures BelowOption(MaxRows(a.r, b.r)[i], z.r[i]) <==> BelowOption(a.r[i], z.r[i]) && BelowOption(b.r[i], z.r[i])
    {
      JoinOfOptions(a.r[i], b.r[i], z.r[i]);
    }
  }

  predicate EntryBelow(a: Option<Option<real>>, z: Option<Option<real>>) {
    a.None? || (z.Some? && BelowOption(a.value, z.value))
  }

  lemma BelowByEntries(a: Field, z: Field)
    requires a.Table? && z.Table?
    ensures Below(a, z) <==> forall k :: EntryBelow(Lookup(a.t, k), Lookup(z.t, k))
  {
    if Below(a, z) {
    } else {
      var k :| k in a.t && !(k in z.t && BelowOption(a.t[k], z.t[k]));
      assert !EntryBelow(Lookup(a.t, k), Lookup(z.t, k));
    }
  }

  lemma JoinOfTables(a: Field, b: Field, z: Field)
    requires a.Table? && b.Table? && z.Table?
    requires Fits(TableShape, a) && Fits(TableShape, b)
    ensures Fits(TableShape, Table(MaxTables(a.t, b.t)))
    ensures Below(Table(MaxTables(a.t, b.t)), z) <==> Below(a, z) && Below(b, z)
  {
    var m := MaxTables(a.t, b.t);
    forall k
      ensures EntryBelow(Lookup(m, k), Lookup(z.t, k)) <==>
              EntryBelow(Lookup(a.t, k), Lookup(z.t, k)) && EntryBelow(Lookup(b.t, k), Lookup(z.t, k))
      ensures k in m ==> m[k].Some?
    {
      assert Lookup(m, k) == MergeEntry(Lookup(a.t, k), Lookup(b.t, k));
    }
    BelowByEntries(Table(m), z);
    BelowByEntries(a, z);
    BelowByEntries(b, z);
  }

  /** On values of one shape the maximum exists and is the least upper bound. */
  lemma JoinOfFields(sh: Shape, a: Field, b: Field, z: Field)
    requires Fits(sh, a) && Fits(sh, b) && Fits(sh, z)
    ensures MaxField(a, b).Ok? && Fits(sh, MaxField(a, b).value)
    ensures Below(MaxField(a, b).value, z) <==> Below(a, z) && Below(b, z)
  {
    if a.Table? && b.Table? {
      JoinOfTables(a, b, if z.Table? then z else a);
    } else if a.Row? && b.Row? && z.Row? {
      JoinOfRows(a, b, z);
    } else if a.Str? && b.Str? && z.Str? {
      JoinOfStrings(a.s, b.s, z.s);
    }
  }

  // ---------- Records ----------

  /** An instance of the class whose fields have the given shapes. */
  predicate Shaped(c: Class, shapes: seq<Shape>, r: Record) {
    && IsInstance(r, c) && |r.fields| == |shapes|
    && forall i :: 0 <= i < |shapes| ==> Fits(shapes[i], r.fields[i])
  }

  predicate RecordBelow(a: Record, b: Record) {
    |a.fields| == |b.fields| && forall i :: 0 <= i < |a.fields| ==> Below(a.fields[i], b.fields[i])
  }

  lemma RecordBelowIsAntisymmetric(c: Class, shapes: seq<Shape>, a: Record, b: Record)
    requires Shaped(c, shapes, a) && Shaped(c, shapes, b) && RecordBelow(a, b) && RecordBelow(b, a)
    ensures a == b
  {
    forall i | 0 <= i < |shapes|
      ensures a.fields[i] == b.fields[i]
    {
      BelowIsAntisymmetric(shapes[i], a.fields[i], b.fields[i]);
    }
  }

  lemma BelowItself(c: Class, shapes: seq<Shape>, a: Record)
    requires Shaped(c, shapes, a)
    ensures RecordBelow(a, a)
  {
    forall i | 0 <= i < |a.fields| && a.fields[i].Str?
      ensures !Precedes(a.fields[i].s, a.fields[i].s)
    {
      PrecedesItself(a.fields[i].s);
    }
  }

  lemma {:induction false} MaxAllPointwise(a: seq<Field>, b: seq<Field>)
    requires |a| == |b| && forall i :: 0 <= i < |a| ==> MaxField(a[i], b[i]).Ok?
    ensures MaxAll(a, b).Ok? && |MaxAll(a, b).value| == |a|
    ensures forall i :: 0 <= i < |a| ==> MaxAll(a, b).value[i] == MaxField(a[i], b[i]).value
  {
    if a != [] {
      MaxAllPointwise(a[..|a| - 1], b[..|a| - 1]);
    }
  }

  lemma JoinOfRecords(c: Class, shapes: seq<Shape>, a: Record, b: Record, z: Record)
    requires Shaped(c, shapes, a) && Shaped(c, shapes, b) && Shaped(c, shapes, z)
    ensures MaxRecord(c, a, b).Ok? && Shaped(c, shapes, MaxRecord(c, a, b).value)
    ensures RecordBelow(MaxRecord(c, a, b).value, z) <==> RecordBelow(a, z) && RecordBelow(b, z)
  {
    forall i | 0 <= i < |shapes|
      ensures MaxField(a.fields[i], b.fields[i]).Ok?
      ensures Fits(shapes[i], MaxField(a.fields[i], b.fields[i]).value)
      ensures Below(MaxField(a.fields[i], b.fields[i]).value, z.fields[i]) <==>
              Below(a.fields[i], z.fields[i]) && Below(b.fields[i], z.fields[i])
    {
      JoinOfFields(shapes[i], a.fields[i], b.fields[i], z.fields[i]);
    }
    MaxAllPointwise(a.fields, b.fields);
  }

  // ---------- Accumulation ----------

  function Operator(c: Class): (Record, Record) -> Result<Record, MaxFields.Error> {
    (a: Record, b: Record) => MaxRecord(c, a, b)
  }

  function Peak(c: Class, samples: seq<Record>): Option<Record> {
    Accumulated(Operator(c), None, samples)
  }

  ghost predicate AllShaped(c: Class, shapes: seq<Shape>, samples: seq<Record>) {
    forall i :: 0 <= i < |samples| ==> Shaped(c, shapes, samples[i])
  }

  /** The accumulated record is the least upper bound of the samples. */
  lemma {:induction false} PeakIsLeastUpperBound(c: Class, shapes: seq<Shape>, samples: seq<Record>, z: Record)
    requires AllShaped(c, shapes, samples) && Shaped(c, shapes, z) && samples != []
    ensures Peak(c, samples).Some? && Shaped(c, shapes, Peak(c, samples).value)
    ensures RecordBelow(Peak(c, samples).value, z) <==>
            forall i :: 0 <= i < |samples| ==> RecordBelow(samples[i], z)
  {
    var n := |samples| - 1;
    if n > 0 {
      PeakIsLeastUpperBound(c, shapes, samples[..n], z);
      var before := Peak(c, samples[..n]).value;
      JoinOfRecords(c, shapes, before, samples[n], z);
      assert Peak(c, samples).value == MaxRecord(c, before, samples[n]).value;
      assert forall i :: 0 <= i < n ==> samples[..n][i] == samples[i];
    } else {
      assert samples[..n] == [] && Peak(c, samples[..n]) == None;
      assert Peak(c, samples) == Some(samples[0]);
    }
  }

  /** Only which samples occur matters: not their order, and not how often each is told. */
  lemma PeakDependsOnlyOnSamples(c: Class, shapes: seq<Shape>, a: seq<Record>, b: seq<Record>)
    requires AllShaped(c, shapes, a) && AllShaped(c, shapes, b) && a != [] && b != []
    requires forall x :: x in a <==> x in b
    ensures Peak(c, a) == Peak(c, b)
  {
    PeakIsLeastUpperBound(c, shapes, a, a[0]);
    PeakIsLeastUpperBound(c, shapes, b, a[0]);
    PeakBelow(c, shapes, a, b);
    PeakBelow(c, shapes, b, a);
    RecordBelowIsAntisymmetric(c, shapes, Peak(c, a).value, Peak(c, b).value);
  }

  lemma PeakBelow(c: Class, shapes: seq<Shape>, a: seq<Record>, b: seq<Record>)
    requires AllShaped(c, shapes, a) && AllShaped(c, shapes, b) && a != [] && b != []
    requires forall x :: x in a ==> x in b
    ensures Peak(c, a).Some? && Peak(c, b).Some? && RecordBelow(Peak(c, a).value, Peak(c, b).value)
  {
    PeakIsLeastUpperBound(c, shapes, b, b[0]);
    var z := Peak(c, b).value;
    PeakIsLeastUpperBound(c, shapes, b, z);
    PeakIsLeastUpperBound(c, shapes, a, z);
    BelowItself(c, shapes, z);
    forall i | 0 <= i < |a|
      ensures RecordBelow(a[i], z)
    {
      assert a[i] in b;
      var j :| 0 <= j < |b| && b[j] == a[i];
    }
  }

  /** Accumulating two halves apart and joining them gives what accumulating all of it gives. */
  lemma PeakOfHalves(c: Class, shapes: seq<Shape>, a: seq<Record>, b: seq<Record>)
    requires AllShaped(c, shapes, a) && AllShaped(c, shapes, b) && a != [] && b != []
    ensures Peak(c, a).Some? && Peak(c, b).Some?
    ensures MaxRecord(c, Peak(c, a).value, Peak(c, b).value).Ok?
    ensures Peak(c, a + b) == Some(MaxRecord(c, Peak(c, a).value, Peak(c, b).value).value)
  {
    PeakIsLeastUpperBound(c, shapes, a, a[0]);
    PeakIsLeastUpperBound(c, shapes, b, a[0]);
    PeakIsLeastUpperBound(c, shapes, a + b, a[0]);
    var p, q, whole := Peak(c, a).value, Peak(c, b).value, Peak(c, a + b).value;
    JoinOfRecords(c, shapes, p, q, whole);
    var joined := MaxRecord(c, p, q).value;
    PeakOfConcat(c, shapes, a, b, whole);
    PeakOfConcat(c, shapes, a, b, joined);
    JoinOfRecords(c, shapes, p, q, joined);
    BelowItself(c, shapes, whole);
    BelowItself(c, shapes, joined);
    RecordBelowIsAntisymmetric(c, shapes, whole, joined);
  }

  lemma PeakOfConcat(c: Class, shapes: seq<Shape>, a: seq<Record>, b: seq<Record>, z: Record)
    requires AllShaped(c, shapes, a) && AllShaped(c, shapes, b) && a != [] && b != [] && Shaped(c, shapes, z)
    ensures Peak(c, a).Some? && Peak(c, b).Some? && Peak(c, a + b).Some?
    ensures RecordBelow(Peak(c, a + b).value, z) <==>
            RecordBelow(Peak(c, a).value, z) && RecordBelow(Peak(c, b).value, z)
  {
    PeakIsLeastUpperBound(c, shapes, a, z);
    PeakIsLeastUpperBound(c, shapes, b, z);
    PeakIsLeastUpperBound(c, shapes, a + b, z);
    assert forall i :: 0 <= i < |a| ==> (a + b)[i] == a[i];
    assert forall i :: 0 <= i < |b| ==> (a + b)[|a| + i] == b[i];
  }
}
