/** Reading the lines of the NCCL log: `_parse_record` and the reading loop of nccl_monitor.py. */
module NcclRecords {
  import opened Wrappers
  import opened Text

  datatype Json =
    | Null
    | Bool(b: bool)
    | Int(i: int)
    | Float(x: real)
    | Str(s: string)
    | List(items: seq<Json>)
    | Object(fields: map<string, Json>)

  /**
   * What `json.loads` makes of a text.  Numerals of too many digits and nesting that is too deep raise
   * errors other than JSONDecodeError.
   */
  datatype Decoded = NotJson | BeyondLimits | Value(v: Json)

  /** The conversions that are left open: `json.loads`, and `float` of a string (None is its ValueError). */
  datatype Builtins = Builtins(loads: string -> Decoded, float: string -> Option<real>)

  datatype Raised = LimitError | AttributeError | OverflowError | TypeError

  /** The fields of `NCCLCollectiveMetrics` that `_parse_record` and the annotation fill, unchecked. */
  datatype Record = Record(
    collectiveType: Json,
    rank: Json,
    messageSizeBytes: Option<real>,
    bandwidthBytesPerSec: Option<real>,
    busBandwidthBytesPerSec: Option<real>,
    durationUs: Option<real>,
    isStraggler: Option<int>)

  // ---------- Python's view of a value ----------

  predicate Truthy(v: Json) {
    match v
    case Null => false
    case Bool(b) => b
    case Int(i) => i != 0
    case Float(x) => x != 0.0
    case Str(s) => s != ""
    case List(items) => items != []
    case Object(fields) => fields != map[]
  }

  /** What dictionaries compare: True, 1 and 1.0 are one key. */
  datatype Key = NoneKey | NumberKey(x: real) | TextKey(s: string)

  /** None for what cannot be hashed. */
  function KeyOf(v: Json): Option<Key> {
    match v
    case Null => Some(NoneKey)
    case Bool(b) => Some(NumberKey(if b then 1.0 else 0.0))
    case Int(i) => Some(NumberKey(i as real))
    case Float(x) => Some(NumberKey(x))
    case Str(s) => Some(TextKey(s))
    case List(_) => None
    case Object(_) => None
  }

  /** 2 to the power 240. */
  const TWO_240: nat := 0x1000000000000000000000000000000000000000000000000000000000000

  /** The least integer that rounds beyond the largest double: (2^54 - 1) * 2^970. */
  const FLOAT_LIMIT: int := 0x3F_FFFF_FFFF_FFFF * 0x400 * TWO_240 * TWO_240 * TWO_240 * TWO_240

  // ---------- _parse_record ----------

  /** A field that is absent, converted, or for which `float` raises. */
  datatype Conversion =
    | Absent
    | Converted(x: real)
    | Refused      // TypeError or ValueError, which is caught
    | Overflowed   // OverflowError, which is not

  function ToFloat(v: Json, py: Builtins): Conversion {
    match v
    case Null => Refused
    case Bool(b) => Converted(if b then 1.0 else 0.0)
    case Int(i) => if -FLOAT_LIMIT < i < FLOAT_LIMIT then Converted(i as real) else Overflowed
    case Float(x) => Converted(x)
    case Str(s) => if py.float(s).Some? then Converted(py.float(s).value) else Refused
    case List(_) => Refused
    case Object(_) => Refused
  }

  function ConvertField(obj: map<string, Json>, key: string, factor: real, py: Builtins): Conversion {
    if key !in obj then Absent
    else
      var c := ToFloat(obj[key], py);
      if c.Converted? then Converted(c.x * factor) else c
  }

  /** The four conversions in the order in which they are made. */
  function Conversions(obj: map<string, Json>, py: Builtins): (cs: seq<Conversion>)
    ensures |cs| == 4
  {
    [ ConvertField(obj, "size", 1.0, py),
      ConvertField(obj, "alg_bw", 1_000_000_000.0, py),
      ConvertField(obj, "bus_bw", 1_000_000_000.0, py),
      if "time_us" in obj then ConvertField(obj, "time_us", 1.0, py) else ConvertField(obj, "time_ms", 1000.0, py) ]
  }

  /** The first conversion that raises decides. */
  function FirstFailure(cs: seq<Conversion>): Option<Conversion> {
    if cs == [] then None
    else if cs[0].Refused? || cs[0].Overflowed? then Some(cs[0])
    else FirstFailure(cs[1..])
  }

  function Number(c: Conversion): Option<real> { if c.Converted? then Some(c.x) else None }

  function GetField(obj: map<string, Json>, key: string): Json { if key in obj then obj[key] else Null }

  datatype Parsed = Skipped | Overflows | Parsed(m: Record)

  function ParseRecord(obj: map<string, Json>, py: Builtins): Parsed {
    var cs := Conversions(obj, py);
    var failure := FirstFailure(cs);
    if failure == Some(Refused) then Skipped
    else if failure.Some? then Overflows
    else
      var named := GetField(obj, "collective");
      Parsed(Record(if Truthy(named) then named else GetField(obj, "type"), GetField(obj, "rank"),
                    Number(cs[0]), Number(cs[1]), Number(cs[2]), Number(cs[3]), None))
  }

  lemma {:induction false} FirstFailureIs(cs: seq<Conversion>, c: Conversion)
    requires c.Refused? || c.Overflowed?
    ensures FirstFailure(cs) == Some(c) <==>
            exists i :: 0 <= i < |cs| && cs[i] == c && forall j :: 0 <= j < i ==> cs[j].Absent? || cs[j].Converted?
  {
    if cs != [] {
      FirstFailureIs(cs[1..], c);
      if cs[0].Absent? || cs[0].Converted? {
        if i :| 0 <= i < |cs[1..]| && cs[1..][i] == c
                && forall j :: 0 <= j < i ==> cs[1..][j].Absent? || cs[1..][j].Converted? {
          assert cs[i + 1] == c;
          assert forall j :: 0 < j < i + 1 ==> cs[j] == cs[1..][j - 1];
        }
        if i :| 0 <= i < |cs| && cs[i] == c && forall j :: 0 <= j < i ==> cs[j].Absent? || cs[j].Converted? {
          assert i > 0 && cs[1..][i - 1] == c;
          assert forall j :: 0 <= j < i - 1 ==> cs[1..][j] == cs[j + 1];
        }
      }
    }
  }

  /** A record overflows exactly when one of its numbers is beyond a double and none before it is refused. */
  lemma OverflowsExactlyWhen(obj: map<string, Json>, py: Builtins)
    ensures ParseRecord(obj, py).Overflows? <==>
            exists i :: 0 <= i < 4 && Conversions(obj, py)[i].Overflowed?
                        && forall j :: 0 <= j < i ==> !Conversions(obj, py)[j].Refused?
  {
    hide ConvertField, Conversions, FirstFailure;
    var cs := Conversions(obj, py);
    FirstFailureIs(cs, Overflowed);
    FirstFailureIs(cs, Refused);
    FailureKinds(cs);
    if i :| 0 <= i < 4 && cs[i].Overflowed? && forall j :: 0 <= j < i ==> !cs[j].Refused? {
      FirstOverflow(cs, i);
    }
  }

  lemma {:induction false} FailureKinds(cs: seq<Conversion>)
    ensures FirstFailure(cs).Some? ==> FirstFailure(cs).value.Refused? || FirstFailure(cs).value.Overflowed?
  {
    if cs != [] {
      FailureKinds(cs[1..]);
    }
  }

  /** An overflow with no refusal before it: the first overflow is the first failure. */
  lemma {:induction false} FirstOverflow(cs: seq<Conversion>, i: nat)
    requires i < |cs| && cs[i].Overflowed? && forall j :: 0 <= j < i ==> !cs[j].Refused?
    ensures FirstFailure(cs) == Some(Overflowed)
  {
    if !cs[0].Overflowed? {
      FirstOverflow(cs[1..], i - 1);
    }
  }

  // ---------- Lines that make a poll raise ----------

  /** A record that the grouping or the annotation cannot use as a dictionary key. */
  predicate Unhashable(m: Record) {
    Truthy(m.collectiveType) && !m.rank.Null? && (KeyOf(m.collectiveType).None? || KeyOf(m.rank).None?)
  }

  ghost predicate HasUnhashable(records: seq<Record>) {
    exists i :: 0 <= i < |records| && Unhashable(records[i])
  }

  /** Values for which reading the line raises: no object, or a number beyond a double. */
  predicate StopsReading(v: Json, py: Builtins) {
    !v.Object? || ParseRecord(v.fields, py).Overflows?
  }

  /** Values that read well, but then cannot be grouped or annotated. */
  predicate StopsFlagging(v: Json, py: Builtins) {
    v.Object? && ParseRecord(v.fields, py).Parsed? && Unhashable(ParseRecord(v.fields, py).m)
  }

  predicate IsUnreadable(line: string, py: Builtins) {
    && Strip(line) != ""
    && var d := py.loads(Strip(line));
       d.BeyondLimits? || (d.Value? && StopsReading(d.v, py))
  }

  /** A line that makes every poll raise which reads it. */
  predicate IsPoison(line: string, py: Builtins) {
    || IsUnreadable(line, py)
    || (Strip(line) != "" && py.loads(Strip(line)).Value? && StopsFlagging(py.loads(Strip(line)).v, py))
  }

  ghost predicate HasUnreadable(lines: seq<string>, py: Builtins) {
    exists i :: 0 <= i < |lines| && IsUnreadable(lines[i], py)
  }

  ghost predicate HasPoison(lines: seq<string>, py: Builtins) {
    exists i :: 0 <= i < |lines| && IsPoison(lines[i], py)
  }

  // ---------- The reading loop ----------

  /** The lines of a text; a last one without a line feed counts. */
  function FileLines(s: string): seq<string>
    decreases |s|
  {
    if s == [] then []
    else
      var i := Until(s, '\n');
      if i == |s| then [s] else [s[..i]] + FileLines(s[i + 1..])
  }

  function LoadValue(v: Json, py: Builtins): Result<seq<Record>, Raised> {
    if !v.Object? then Err(AttributeError)
    else
      match ParseRecord(v.fields, py)
      case Skipped => Ok([])
      case Overflows => Err(OverflowError)
      case Parsed(m) => Ok([m])
  }

  function LoadLine(line: string, py: Builtins): Result<seq<Record>, Raised> {
    if Strip(line) == "" then Ok([])
    else
      match py.loads(Strip(line))
      case NotJson => Ok([])
      case BeyondLimits => Err(LimitError)
      case Value(v) => LoadValue(v, py)
  }

  /** The records of the lines, or what the first line raises that does. */
  function LoadLines(lines: seq<string>, py: Builtins): Result<seq<Record>, Raised> {
    if lines == [] then Ok([])
    else
      var n := |lines| - 1;
      var before := LoadLines(lines[..n], py);
      if before.Err? then before
      else
        var last := LoadLine(lines[n], py);
        if last.Err? then last else Ok(before.value + last.value)
  }

  function LoadText(s: string, py: Builtins): Result<seq<Record>, Raised> {
    LoadLines(FileLines(s), py)
  }

  method ReadRecords(text: string, py: Builtins) returns (r: Result<seq<Record>, Raised>)
    ensures r == LoadText(text, py)
  {
    hide Strip, ParseRecord, FileLines;
    var lines := FileLines(text);
    var records: seq<Record> := [];
    for k := 0 to |lines|
      invariant LoadLines(lines[..k], py) == Ok(records)
    {
      assert lines[..k + 1][..k] == lines[..k];
      ghost var before := records;
      var line := Strip(lines[k]);
      if line != "" {
        var decoded := py.loads(line);
        if decoded.BeyondLimits? || (decoded.Value? && LoadValue(decoded.v, py).Err?) {
          FirstErrorStays(lines, k, py);
          return if decoded.BeyondLimits? then Err(LimitError) else LoadValue(decoded.v, py);
        }
        if decoded.Value? {
          records := records + LoadValue(decoded.v, py).value;
        }
      }
      assert LoadLine(lines[k], py).Ok?;
      assert before + LoadLine(lines[k], py).value == records;
    }
    assert lines[..|lines|] == lines;
    return Ok(records);
  }

  lemma {:induction false} FirstErrorStays(lines: seq<string>, k: nat, py: Builtins)
    requires k < |lines| && LoadLines(lines[..k], py).Ok? && LoadLine(lines[k], py).Err?
    ensures LoadLines(lines, py) == LoadLine(lines[k], py)
  {
    hide LoadLine;
    if k == |lines| - 1 {
    } else {
      var n := |lines| - 1;
      assert lines[..n][..k] == lines[..k];
      FirstErrorStays(lines[..n], k, py);
    }
  }

  /** Reading raises exactly when some line cannot be read. */
  lemma {:induction false} ReadingRaisesExactlyWhen(lines: seq<string>, py: Builtins)
    ensures LoadLines(lines, py).Err? <==> HasUnreadable(lines, py)
  {
    if lines != [] {
      hide Strip, ParseRecord;
      var n := |lines| - 1;
      ReadingRaisesExactlyWhen(lines[..n], py);
      assert forall i :: 0 <= i < n ==> lines[..n][i] == lines[i];
      assert IsUnreadable(lines[n], py) <==> LoadLine(lines[n], py).Err?;
    }
  }

  lemma UnhashableConcat(a: seq<Record>, b: seq<Record>)
    ensures HasUnhashable(a + b) <==> HasUnhashable(a) || HasUnhashable(b)
  {
    hide Unhashable;
    assert forall i :: 0 <= i < |a| ==> (a + b)[i] == a[i];
    assert forall i :: 0 <= i < |b| ==> (a + b)[|a| + i] == b[i];
  }

  lemma PoisonConcat(a: seq<string>, b: seq<string>, py: Builtins)
    ensures HasPoison(a + b, py) <==> HasPoison(a, py) || HasPoison(b, py)
  {
    hide IsPoison;
    assert forall i :: 0 <= i < |a| ==> (a + b)[i] == a[i];
    assert forall i :: 0 <= i < |b| ==> (a + b)[|a| + i] == b[i];
  }

  lemma LineIsPoison(line: string, py: Builtins)
    ensures IsPoison(line, py) <==> LoadLine(line, py).Err? || HasUnhashable(LoadLine(line, py).value)
    ensures HasPoison([line], py) <==> IsPoison(line, py)
  {
    hide Strip, ParseRecord, Unhashable;
    assert [line][0] == line;
    var d := py.loads(Strip(line));
    if d.Value? && LoadValue(d.v, py).Ok? && LoadValue(d.v, py).value != [] {
      var m := ParseRecord(d.v.fields, py).m;
      assert LoadValue(d.v, py).value == [m] && [m][0] == m;
    }
  }

  /** Reading raises or leaves a record that cannot be hashed exactly when some line is poison. */
  lemma {:induction false} RaisesExactlyWhen(lines: seq<string>, py: Builtins)
    ensures LoadLines(lines, py).Err? || HasUnhashable(LoadLines(lines, py).value) <==> HasPoison(lines, py)
  {
    if lines != [] {
      hide LoadLine, IsPoison, HasPoison, HasUnhashable;
      var n := |lines| - 1;
      RaisesExactlyWhen(lines[..n], py);
      LineIsPoison(lines[n], py);
      assert lines == lines[..n] + [lines[n]];
      PoisonConcat(lines[..n], [lines[n]], py);
      if LoadLines(lines[..n], py).Ok? && LoadLine(lines[n], py).Ok? {
        UnhashableConcat(LoadLines(lines[..n], py).value, LoadLine(lines[n], py).value);
      }
    }
  }

  // ---------- Lines that are poison ----------

  lemma NumberStopsReading(py: Builtins)
    ensures StopsReading(Int(7), py)
  {
  }

  /** `{"collective": ["AllReduce"], "rank": 0, "time_us": 1}` reads well but cannot be grouped. */
  lemma ListTypeStopsFlagging(py: Builtins)
    ensures StopsFlagging(
              Object(map["collective" := List([Str("AllReduce")]), "rank" := Int(0), "time_us" := Int(1)]), py)
  {
    var obj := map["collective" := List([Str("AllReduce")]), "rank" := Int(0), "time_us" := Int(1)];
    SmallInteger(1, py);
    NoFailure(obj, py);
  }

  /** `{"type": "AllReduce", "rank": [0]}` cannot be annotated. */
  lemma ListRankStopsFlagging(py: Builtins)
    ensures StopsFlagging(Object(map["type" := Str("AllReduce"), "rank" := List([Int(0)])]), py)
  {
    var obj := map["type" := Str("AllReduce"), "rank" := List([Int(0)])];
    NoFailure(obj, py);
  }

  /** `{"size": n}` with an integer beyond the largest double raises OverflowError. */
  lemma HugeSizeStopsReading(n: int, py: Builtins)
    requires n >= FLOAT_LIMIT
    ensures StopsReading(Object(map["size" := Int(n)]), py)
  {
    var obj := map["size" := Int(n)];
    OverflowsExactlyWhen(obj, py);
    assert Conversions(obj, py)[0].Overflowed?;
  }

  /** An empty list as type is as good as none. */
  lemma EmptyListIsHarmless(py: Builtins)
    ensures !StopsFlagging(Object(map["collective" := List([]), "rank" := Int(0)]), py)
  {
  }

  lemma SmallInteger(i: int, py: Builtins)
    requires -1 <= i <= 1
    ensures ToFloat(Int(i), py) == Converted(i as real)
  {
  }

  lemma NoFailure(obj: map<string, Json>, py: Builtins)
    requires forall i :: 0 <= i < 4 ==> Conversions(obj, py)[i].Absent? || Conversions(obj, py)[i].Converted?
    ensures ParseRecord(obj, py).Parsed?
  {
    FirstFailureIs(Conversions(obj, py), Refused);
    FirstFailureIs(Conversions(obj, py), Overflowed);
    FailureKinds(Conversions(obj, py));
  }

  // ---------- What the fields of a record are ----------

  lemma FalsyExactlyWhen(v: Json)
    ensures !Truthy(v) <==>
            v in {Null, Bool(false), Int(0), Float(0.0), Str(""), List([]), Object(map[])}
  {
  }

  /** A value as a number, as dictionaries compare it. */
  function NumericValue(v: Json): Option<real> {
    match v
    case Bool(b) => Some(if b then 1.0 else 0.0)
    case Int(i) => Some(i as real)
    case Float(x) => Some(x)
    case _ => None
  }

  /** Two values are one key exactly when they are equal strings, both None, or equal numbers of any kind. */
  lemma SameKeyExactlyWhen(v: Json, w: Json)
    ensures KeyOf(v).None? <==> v.List? || v.Object?
    ensures KeyOf(v).Some? && KeyOf(v) == KeyOf(w) <==>
            || (v == w && (v.Null? || v.Str?))
            || (NumericValue(v).Some? && NumericValue(v) == NumericValue(w))
  {
  }

  /** `float` of a JSON value: numbers, truth values and the strings that it reads. */
  lemma ConvertsExactlyWhen(v: Json, py: Builtins, x: real)
    ensures ToFloat(v, py) == Converted(x) <==>
            || (v == Bool(true) && x == 1.0)
            || (v == Bool(false) && x == 0.0)
            || (v.Int? && -FLOAT_LIMIT < v.i < FLOAT_LIMIT && x == v.i as real)
            || v == Float(x)
            || (v.Str? && py.float(v.s) == Some(x))
    ensures ToFloat(v, py).Overflowed? <==> v.Int? && !(-FLOAT_LIMIT < v.i < FLOAT_LIMIT)
    ensures !ToFloat(v, py).Absent?
  {
    hide FLOAT_LIMIT;
  }

  /** The conversion is that of the value under the key, if there is one. */
  predicate ConvertsKey(c: Conversion, obj: map<string, Json>, key: string, py: Builtins) {
    if key !in obj then c.Absent?
    else
      && (c.Refused? <==> ToFloat(obj[key], py).Refused?)
      && (c.Overflowed? <==> ToFloat(obj[key], py).Overflowed?)
      && !c.Absent?
  }

  /** The keys in the order of their conversions. */
  lemma ConversionsInOrder(obj: map<string, Json>, py: Builtins)
    ensures ConvertsKey(Conversions(obj, py)[0], obj, "size", py)
    ensures ConvertsKey(Conversions(obj, py)[1], obj, "alg_bw", py)
    ensures ConvertsKey(Conversions(obj, py)[2], obj, "bus_bw", py)
    ensures ConvertsKey(Conversions(obj, py)[3], obj, if "time_us" in obj then "time_us" else "time_ms", py)
  {
    hide ToFloat;
    KindIsKept(obj, "size", 1.0, py);
    KindIsKept(obj, "alg_bw", 1_000_000_000.0, py);
    KindIsKept(obj, "bus_bw", 1_000_000_000.0, py);
    KindIsKept(obj, "time_us", 1.0, py);
    KindIsKept(obj, "time_ms", 1000.0, py);
    hide ConvertField, ConvertsKey;
  }

  lemma KindIsKept(obj: map<string, Json>, key: string, factor: real, py: Builtins)
    ensures ConvertsKey(ConvertField(obj, key, factor, py), obj, key, py)
  {
    hide FLOAT_LIMIT;
  }

  /** The field holds the number under the key, times the factor, or None without the key. */
  predicate Scaled(field: Option<real>, obj: map<string, Json>, key: string, factor: real, py: Builtins) {
    if key !in obj then field.None?
    else
      var c := ToFloat(obj[key], py);
      c.Converted? && field == Some(c.x * factor)
  }

  /** A parsed record: bytes, GB/s as bytes per second, and microseconds or milliseconds as microseconds. */
  lemma ParsedFields(obj: map<string, Json>, py: Builtins)
    requires ParseRecord(obj, py).Parsed?
    ensures var m := ParseRecord(obj, py).m;
            && Scaled(m.messageSizeBytes, obj, "size", 1.0, py)
            && Scaled(m.bandwidthBytesPerSec, obj, "alg_bw", 1_000_000_000.0, py)
            && Scaled(m.busBandwidthBytesPerSec, obj, "bus_bw", 1_000_000_000.0, py)
            && (if "time_us" in obj then Scaled(m.durationUs, obj, "time_us", 1.0, py)
                else Scaled(m.durationUs, obj, "time_ms", 1000.0, py))
            && m.rank == (if "rank" in obj then obj["rank"] else Null)
            && m.collectiveType ==
               (if "collective" in obj && Truthy(obj["collective"]) then obj["collective"]
                else if "type" in obj then obj["type"] else Null)
            && m.isStraggler.None?
  {
    hide ToFloat, Truthy;
    assert !Truthy(Null) by {
      FalsyExactlyWhen(Null);
    }
    var cs := Conversions(obj, py);
    AllConvert(cs);
    FieldIsScaled(obj, "size", 1.0, py);
    FieldIsScaled(obj, "alg_bw", 1_000_000_000.0, py);
    FieldIsScaled(obj, "bus_bw", 1_000_000_000.0, py);
    FieldIsScaled(obj, "time_us", 1.0, py);
    FieldIsScaled(obj, "time_ms", 1000.0, py);
    hide ConvertField, Scaled, FirstFailure;
  }

  lemma FieldIsScaled(obj: map<string, Json>, key: string, factor: real, py: Builtins)
    ensures var c := ConvertField(obj, key, factor, py);
            c.Absent? || c.Converted? ==> Scaled(Number(c), obj, key, factor, py)
  {
    hide FLOAT_LIMIT;
  }

  lemma {:induction false} AllConvert(cs: seq<Conversion>)
    ensures FirstFailure(cs).None? <==> forall i :: 0 <= i < |cs| ==> cs[i].Absent? || cs[i].Converted?
  {
    if cs != [] {
      AllConvert(cs[1..]);
      assert forall i :: 0 < i < |cs| ==> cs[i] == cs[1..][i - 1];
    }
  }

  /** The outcome of a record: parsed if everything converts, and else the first number that does not decides. */
  lemma ParsedExactlyWhen(obj: map<string, Json>, py: Builtins)
    ensures ParseRecord(obj, py).Parsed? <==>
            forall i :: 0 <= i < 4 ==> Conversions(obj, py)[i].Absent? || Conversions(obj, py)[i].Converted?
    ensures ParseRecord(obj, py).Skipped? <==>
            exists i :: 0 <= i < 4 && Conversions(obj, py)[i].Refused?
                        && forall j :: 0 <= j < i ==> !Conversions(obj, py)[j].Overflowed?
  {
    hide Conversions, FirstFailure;
    var cs := Conversions(obj, py);
    AllConvert(cs);
    FirstFailureIs(cs, Refused);
    FirstFailureIs(cs, Overflowed);
    FailureKinds(cs);
    if i :| 0 <= i < 4 && cs[i].Refused? && forall j :: 0 <= j < i ==> !cs[j].Overflowed? {
      FirstRefusal(cs, i);
    }
  }

  lemma {:induction false} FirstRefusal(cs: seq<Conversion>, i: nat)
    requires i < |cs| && cs[i].Refused? && forall j :: 0 <= j < i ==> !cs[j].Overflowed?
    ensures FirstFailure(cs) == Some(Refused)
  {
    if !cs[0].Refused? {
      FirstRefusal(cs[1..], i - 1);
    }
  }

  /** A line gives the record of its JSON object, nothing if it is blank, malformed or skipped, or raises. */
  lemma LineExactlyWhen(line: string, py: Builtins)
    ensures var s, r := Strip(line), LoadLine(line, py);
            && (forall m :: r == Ok([m]) <==>
                  && s != ""
                  && exists fields :: py.loads(s) == Value(Object(fields)) && ParseRecord(fields, py) == Parsed(m))
            && (r == Ok([]) <==>
                  || s == "" || py.loads(s).NotJson?
                  || exists fields :: py.loads(s) == Value(Object(fields)) && ParseRecord(fields, py) == Skipped)
            && (r == Err(LimitError) <==> s != "" && py.loads(s).BeyondLimits?)
            && (r == Err(AttributeError) <==> s != "" && py.loads(s).Value? && !py.loads(s).v.Object?)
            && (r == Err(OverflowError) <==>
                  && s != ""
                  && exists fields :: py.loads(s) == Value(Object(fields)) && ParseRecord(fields, py) == Overflows)
  {
    hide Strip, ParseRecord;
  }

  /** A last line needs no line feed. */
  lemma LastLineIsALine(l: string)
    requires '\n' !in l
    ensures FileLines(l) == if l == "" then [] else [l]
  {
    if l != "" {
      UntilIsFirst(l, '\n', |l|);
    }
  }

  function Pow2(n: nat): nat { if n == 0 then 1 else 2 * Pow2(n - 1) }

  lemma {:induction false} Pow2Adds(m: nat, n: nat)
    ensures Pow2(m + n) == Pow2(m) * Pow2(n)
  {
    if m > 0 {
      Pow2Adds(m - 1, n);
      assert Pow2(m + n) == 2 * (Pow2(m - 1) * Pow2(n));
    }
  }

  lemma SmallPowers()
    ensures Pow2(10) == 0x400 && Pow2(54) == 0x40_0000_0000_0000 && Pow2(60) == 0x1000_0000_0000_0000
  {
    assert Pow2(4) == 16 && Pow2(6) == 64;
    assert Pow2(10) == 16 * Pow2(6);
    hide Pow2;
    Pow2Adds(10, 10);
    Pow2Adds(20, 20);
    Pow2Adds(40, 10);
    Pow2Adds(50, 4);
    Pow2Adds(54, 6);
  }

  /** The least integer that no double stands for: 2^1024 less half of the last step before it. */
  lemma FloatLimitIs()
    ensures FLOAT_LIMIT == Pow2(1024) - Pow2(970)
  {
    hide Pow2;
    SmallPowers();
    Pow2Adds(60, 60);
    Pow2Adds(120, 120);
    Pow2Adds(240, 240);
    Pow2Adds(480, 480);
    Pow2Adds(10, 960);
    Pow2Adds(54, 970);
  }
}
