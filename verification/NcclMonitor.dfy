/** `tail_and_parse` of nccl_monitor.py and the loop of cli/nccl_monitor.py: following an append-only log. */
module NcclMonitor {
  import opened Wrappers
  import opened Text
  import opened NcclRecords
  import opened NcclStragglers

  /** `MissingOrUnreadable` covers an absent path and an OSError. */
  datatype File = MissingOrUnreadable | Readable(text: string)

  // ---------- One poll ----------

  /** What is left to read from a position, which may lie past the end. */
  function Rest(text: string, position: nat): string {
    if position < |text| then text[position..] else []
  }

  /** The position after reading everything. */
  function EndPosition(text: string, position: nat): nat {
    if position < |text| then |text| else position
  }

  /** The records before annotation, and the new position; reading raises before flagging does. */
  ghost function Tail(file: File, position: nat, py: Builtins): Result<(seq<Record>, nat), Raised> {
    if file.MissingOrUnreadable? then Ok(([], position))
    else
      var records := LoadText(Rest(file.text, position), py);
      if records.Err? then Err(records.error)
      else if HasUnhashable(records.value) then Err(TypeError)
      else Ok((records.value, EndPosition(file.text, position)))
  }

  /** The records of a poll, annotated. */
  ghost function AnnotatedTail(file: File, position: nat, thresholdUs: real, py: Builtins):
    Result<(seq<Record>, nat), Raised>
  {
    var tail := Tail(file, position, py);
    if tail.Err? then tail else Ok((Annotated(tail.value.0, thresholdUs), tail.value.1))
  }

  method TailAndParse(file: File, position: nat, thresholdMs: real, py: Builtins)
    returns (r: Result<(seq<Record>, nat), Raised>)
    ensures r == AnnotatedTail(file, position, thresholdMs * 1000.0, py)
    ensures r.Err? <==> file.Readable? && HasPoison(FileLines(Rest(file.text, position)), py)
    ensures file.MissingOrUnreadable? ==> r == Ok(([], position))
    ensures file.Readable? && r.Ok? ==> r.value.1 == if position < |file.text| then |file.text| else position
    ensures file.Readable? && position >= |file.text| ==> r == Ok(([], position))
  {
    NothingLeft(file, position, py);
    hide LoadLines, FileLines, HasPoison, Rest, AnnotatedRecord;
    assert Annotated([], thresholdMs * 1000.0) == [];
    if file.MissingOrUnreadable? {
      return Ok(([], position));
    }
    RaisesExactlyWhen(FileLines(Rest(file.text, position)), py);
    var loaded := ReadRecords(Rest(file.text, position), py);
    if loaded.Err? {
      return Err(loaded.error);
    }
    var records, newPosition := loaded.value, EndPosition(file.text, position);
    if records == [] {
      return Ok(([], newPosition));
    }
    var annotated := FindStragglers(records, thresholdMs * 1000.0);
    if annotated.Err? {
      return Err(TypeError);
    }
    return Ok((annotated.value, newPosition));
  }

  lemma NothingLeft(file: File, position: nat, py: Builtins)
    ensures file.Readable? && position >= |file.text| ==> LoadText(Rest(file.text, position), py) == Ok([])
    ensures file.Readable? && position < |file.text| ==> Rest(file.text, position) == file.text[position..]
  {
  }

  /** One line with a list as type fails the whole poll, good records before it included. */
  lemma PoisonLineLosesPoll(record: string, line: string, m: Record, py: Builtins)
    requires '\n' !in record && '\n' !in line
    requires LoadLine(record, py) == Ok([m]) && !Unhashable(m) && Strip(line) != ""
    requires py.loads(Strip(line)) ==
             Value(Object(map["collective" := List([Str("AllReduce")]), "rank" := Int(0), "time_us" := Int(1)]))
    ensures Tail(Readable(record + "\n"), 0, py) == Ok(([m], |record| + 1))
    ensures Tail(Readable(record + "\n" + (line + "\n")), 0, py).Err?
  {
    hide FileLines, LoadLines, LoadLine, Strip, Unhashable, HasUnhashable, HasPoison;
    var one, two := record + "\n", record + "\n" + (line + "\n");
    LinesOfTwo(record, line);
    assert one[0..] == one && two[0..] == two;
    OneGoodLine(record, m, py);
    PoisonAfter(record, line, py);
    RaisesExactlyWhen([record, line], py);
  }

  lemma LinesOfTwo(record: string, line: string)
    requires '\n' !in record && '\n' !in line
    ensures FileLines(record + "\n") == [record]
    ensures FileLines(record + "\n" + (line + "\n")) == [record, line]
  {
    hide FileLines;
    LineThenRest(record, "");
    LineThenRest(record, line + "\n");
    LineThenRest(line, "");
    NoLines();
    assert record + "\n" + "" == record + "\n" && line + "\n" + "" == line + "\n";
  }

  lemma OneGoodLine(record: string, m: Record, py: Builtins)
    requires LoadLine(record, py) == Ok([m]) && !Unhashable(m)
    ensures LoadLines([record], py) == Ok([m]) && !HasUnhashable([m])
  {
    hide LoadLine, Unhashable;
    assert [record][..0] == [] && [] + [m] == [m];
    assert LoadLines([], py) == Ok([]);
    assert [m][0] == m;
  }

  lemma PoisonAfter(record: string, line: string, py: Builtins)
    requires Strip(line) != ""
    requires py.loads(Strip(line)) ==
             Value(Object(map["collective" := List([Str("AllReduce")]), "rank" := Int(0), "time_us" := Int(1)]))
    ensures HasPoison([record, line], py)
  {
    hide Strip, StopsFlagging, IsUnreadable;
    ListTypeStopsFlagging(py);
    assert IsPoison([record, line][1], py);
  }

  lemma NoLines()
    ensures FileLines("") == []
  {
  }

  lemma LineThenRest(line: string, rest: string)
    requires '\n' !in line
    ensures FileLines(line + "\n" + rest) == [line] + FileLines(rest)
  {
    var s := line + "\n" + rest;
    assert s[..|line|] == line && s[|line| + 1..] == rest && s[|line|] == '\n';
    UntilIsFirst(s, '\n', |line|);
  }

  // ---------- Following the log ----------

  /** Whole lines: nothing, or a text that ends with a line feed. */
  predicate WholeLines(s: string) { s == "" || s[|s| - 1] == '\n' }

  lemma {:induction false} LinesOfConcat(a: string, b: string)
    requires WholeLines(a)
    ensures FileLines(a + b) == FileLines(a) + FileLines(b)
    decreases |a|
  {
    hide Until;
    if a == [] {
      assert a + b == b;
    } else {
      var i := Until(a, '\n');
      assert i < |a| && (a + b)[..i] == a[..i];
      UntilIsFirst(a + b, '\n', i);
      assert (a + b)[i + 1..] == a[i + 1..] + b;
      LinesOfConcat(a[i + 1..], b);
    }
  }

  lemma {:induction false} LoadOfConcat(a: seq<string>, b: seq<string>, py: Builtins)
    requires LoadLines(a, py).Ok?
    ensures LoadLines(b, py).Err? ==> LoadLines(a + b, py) == LoadLines(b, py)
    ensures LoadLines(b, py).Ok? ==> LoadLines(a + b, py) == Ok(LoadLines(a, py).value + LoadLines(b, py).value)
  {
    hide LoadLine;
    if b == [] {
      assert a + b == a;
      assert LoadLines(a, py).value + [] == LoadLines(a, py).value;
    } else {
      var n := |b| - 1;
      LoadOfConcat(a, b[..n], py);
      assert (a + b)[..|a| + n] == a + b[..n] && (a + b)[|a| + n] == b[n];
      if LoadLines(b, py).Ok? {
        var x, y, z := LoadLines(a, py).value, LoadLines(b[..n], py).value, LoadLine(b[n], py).value;
        assert (x + y) + z == x + (y + z);
      }
    }
  }

  /** Reading a text of whole lines and then more is reading both together. */
  lemma TextOfConcat(a: string, b: string, py: Builtins)
    requires WholeLines(a) && LoadText(a, py).Ok?
    ensures LoadText(b, py).Err? ==> LoadText(a + b, py) == LoadText(b, py)
    ensures LoadText(b, py).Ok? ==> LoadText(a + b, py) == Ok(LoadText(a, py).value + LoadText(b, py).value)
    ensures HasPoison(FileLines(a + b), py) <==> HasPoison(FileLines(a), py) || HasPoison(FileLines(b), py)
  {
    hide FileLines, LoadLines, HasPoison;
    LinesOfConcat(a, b);
    LoadOfConcat(FileLines(a), FileLines(b), py);
    PoisonConcat(FileLines(a), FileLines(b), py);
  }

  /** The writer appends, or the monitor polls; a poll may find the file unreadable. */
  datatype Event = Append(text: string) | Poll(readable: bool)

  /** The log, the position kept between polls, and the records emitted so far, before annotation. */
  datatype Follower = Follower(log: string, position: nat, emitted: seq<Record>)

  ghost function Step(f: Follower, e: Event, py: Builtins): Result<Follower, Raised> {
    match e
    case Append(text) => Ok(f.(log := f.log + text))
    case Poll(readable) =>
      var r := Tail(if readable then Readable(f.log) else MissingOrUnreadable, f.position, py);
      if r.Err? then Err(r.error)
      else Ok(f.(position := r.value.1, emitted := f.emitted + r.value.0))
  }

  ghost function Follow(f: Follower, events: seq<Event>, py: Builtins): Result<Follower, Raised> {
    if events == [] then Ok(f)
    else
      var n := |events| - 1;
      var before := Follow(f, events[..n], py);
      if before.Err? then before else Step(before.value, events[n], py)
  }

  /** What has been emitted is one reading of everything before the position. */
  ghost predicate InStep(f: Follower, py: Builtins) {
    && f.position <= |f.log| && WholeLines(f.log) && WholeLines(f.log[..f.position])
    && LoadText(f.log[..f.position], py) == Ok(f.emitted) && !HasUnhashable(f.emitted)
  }

  /** A poll of a readable log consumes all of it, unless some line of the log is poison. */
  lemma PollReadsOn(f: Follower, py: Builtins)
    requires InStep(f, py)
    ensures Tail(Readable(f.log), f.position, py).Err? <==> HasPoison(FileLines(f.log), py)
    ensures Tail(Readable(f.log), f.position, py).Ok? ==>
              var (records, position) := Tail(Readable(f.log), f.position, py).value;
              && position == |f.log|
              && LoadText(f.log, py) == Ok(f.emitted + records)
              && !HasUnhashable(f.emitted + records)
  {
    hide LoadLines, FileLines, HasPoison, HasUnhashable;
    var before, after := f.log[..f.position], Rest(f.log, f.position);
    assert f.log == before + after;
    TextOfConcat(before, after, py);
    RaisesExactlyWhen(FileLines(before), py);
    RaisesExactlyWhen(FileLines(after), py);
    if LoadText(after, py).Ok? {
      UnhashableConcat(f.emitted, LoadText(after, py).value);
    }
  }

  lemma StepKeepsInStep(f: Follower, e: Event, py: Builtins)
    requires InStep(f, py) && (e.Append? ==> WholeLines(e.text)) && Step(f, e, py).Ok?
    ensures InStep(Step(f, e, py).value, py)
  {
    hide LoadText;
    var g := Step(f, e, py).value;
    match e
    case Append(text) =>
      assert g.log[..g.position] == f.log[..f.position];
    case Poll(readable) =>
      if readable {
        PollReadsOn(f, py);
        assert f.log[..|f.log|] == f.log;
      } else {
        assert f.emitted + [] == f.emitted;
      }
  }

  /**
   * Over any run of whole-line appends and polls, the records emitted are one reading of the text
   * consumed: no line is lost and none is read twice.
   */
  lemma {:induction false} NothingLostOrReadTwice(events: seq<Event>, py: Builtins)
    requires forall i :: 0 <= i < |events| && events[i].Append? ==> WholeLines(events[i].text)
    requires Follow(Follower("", 0, []), events, py).Ok?
    ensures InStep(Follow(Follower("", 0, []), events, py).value, py)
  {
    var start := Follower("", 0, []);
    if events == [] {
      assert start.log[..0] == "";
    } else {
      var n := |events| - 1;
      NothingLostOrReadTwice(events[..n], py);
      StepKeepsInStep(Follow(start, events[..n], py).value, events[n], py);
    }
  }

  lemma FollowNext(f: Follower, events: seq<Event>, e: Event, py: Builtins)
    requires Follow(f, events, py).Ok?
    ensures Follow(f, events + [e], py) == Step(Follow(f, events, py).value, e, py)
  {
    assert (events + [e])[..|events|] == events;
  }

  /** One more poll catches up with the log, unless some line of the log is poison. */
  lemma FinalPollCatchesUp(events: seq<Event>, py: Builtins)
    requires forall i :: 0 <= i < |events| && events[i].Append? ==> WholeLines(events[i].text)
    requires Follow(Follower("", 0, []), events, py).Ok?
    ensures var f := Follow(Follower("", 0, []), events, py).value;
            var polled := Follow(Follower("", 0, []), events + [Poll(true)], py);
            && (polled.Err? <==> HasPoison(FileLines(f.log), py))
            && (polled.Ok? ==> LoadText(f.log, py) == Ok(polled.value.emitted) && polled.value.position == |f.log|)
  {
    hide LoadLines, FileLines, HasPoison, Follow, InStep;
    var start := Follower("", 0, []);
    NothingLostOrReadTwice(events, py);
    FollowNext(start, events, Poll(true), py);
    PollReadsOn(Follow(start, events, py).value, py);
    RaisesExactlyWhen(FileLines(Follow(start, events, py).value.log), py);
  }

  /** Everything the writer has appended. */
  function Written(events: seq<Event>): string {
    if events == [] then ""
    else
      var n := |events| - 1;
      Written(events[..n]) + if events[n].Append? then events[n].text else ""
  }

  lemma {:induction false} LogIsWritten(events: seq<Event>, py: Builtins)
    requires Follow(Follower("", 0, []), events, py).Ok?
    ensures Follow(Follower("", 0, []), events, py).value.log == Written(events)
  {
    hide Tail;
    if events != [] {
      var n := |events| - 1;
      LogIsWritten(events[..n], py);
      assert Written(events[..n]) + "" == Written(events[..n]);
    }
  }

  /** Event `n` is a poll of a log in which some line is poison. */
  ghost predicate PollsPoison(events: seq<Event>, n: nat, py: Builtins)
    requires n < |events|
  {
    events[n] == Poll(true) && HasPoison(FileLines(Written(events[..n])), py)
  }

  /** The monitor dies exactly when it polls a log in which some line is poison. */
  lemma {:induction false} RunRaisesExactlyWhen(events: seq<Event>, py: Builtins)
    requires forall i :: 0 <= i < |events| && events[i].Append? ==> WholeLines(events[i].text)
    ensures Follow(Follower("", 0, []), events, py).Err? <==>
            exists n :: 0 <= n < |events| && PollsPoison(events, n, py)
  {
    if events != [] {
      hide Follow, PollsPoison, WholeLines;
      var n, before := |events| - 1, events[..|events| - 1];
      RunRaisesExactlyWhen(before, py);
      PollsPoisonInPrefix(events, py);
      LastEventRaises(events, py);
      if k :| 0 <= k < n && PollsPoison(before, k, py) {
        assert PollsPoison(events, k, py);
      }
    } else {
      assert Follow(Follower("", 0, []), events, py) == Ok(Follower("", 0, []));
    }
  }

  lemma PollsPoisonInPrefix(events: seq<Event>, py: Builtins)
    requires events != []
    ensures forall k :: 0 <= k < |events| - 1 ==>
              (PollsPoison(events, k, py) <==> PollsPoison(events[..|events| - 1], k, py))
  {
    hide Written, HasPoison, FileLines;
    var before := events[..|events| - 1];
    forall k | 0 <= k < |events| - 1
      ensures PollsPoison(events, k, py) <==> PollsPoison(before, k, py)
    {
      assert events[..k] == before[..k] && events[k] == before[k];
    }
  }

  lemma LastEventRaises(events: seq<Event>, py: Builtins)
    requires events != []
    requires forall i :: 0 <= i < |events| && events[i].Append? ==> WholeLines(events[i].text)
    ensures var n := |events| - 1;
            var before := Follow(Follower("", 0, []), events[..n], py);
            Follow(Follower("", 0, []), events, py).Err? <==> before.Err? || PollsPoison(events, n, py)
  {
    var n, start := |events| - 1, Follower("", 0, []);
    var before := Follow(start, events[..n], py);
    if before.Ok? {
      hide Written, HasPoison, LoadLines, FileLines, Tail, Rest, InStep;
      NothingLostOrReadTwice(events[..n], py);
      LogIsWritten(events[..n], py);
      PollReadsOn(before.value, py);
      RaisesExactlyWhen(FileLines(before.value.log), py);
      assert Tail(MissingOrUnreadable, before.value.position, py) == Ok(([], before.value.position)) by {
        UnreadableTail(before.value.position, py);
      }
    }
  }

  lemma UnreadableTail(position: nat, py: Builtins)
    ensures Tail(MissingOrUnreadable, position, py) == Ok(([], position))
  {
  }

  lemma OneLine(line: string, py: Builtins)
    requires '\n' !in line && LoadLine("", py) == Ok([])
    ensures LoadText(line, py) == LoadLine(line, py) && LoadText(line + "\n", py) == LoadLine(line, py)
  {
    hide LoadLine;
    LastLineIsALine(line);
    LineThenRest(line, "");
    NoLines();
    assert line + "\n" + "" == line + "\n";
    assert LoadLines([], py) == Ok([]);
    assert [line][..0] == [];
    if LoadLine(line, py).Ok? {
      assert [] + LoadLine(line, py).value == LoadLine(line, py).value;
    }
  }

  /** Appending and then polling what is there since the last poll. */
  lemma AppendAndPoll(
      f: Follower, events: seq<Event>, g: Follower, text: string, records: seq<Record>, py: Builtins)
    requires Follow(f, events, py) == Ok(g) && g.position < |g.log + text|
    requires LoadText((g.log + text)[g.position..], py) == Ok(records) && !HasUnhashable(records)
    ensures Follow(f, events + [Append(text), Poll(true)], py) ==
            Ok(Follower(g.log + text, |g.log + text|, g.emitted + records))
  {
    hide Follow, LoadText, HasUnhashable;
    FollowNext(f, events, Append(text), py);
    FollowNext(f, events + [Append(text)], Poll(true), py);
    assert events + [Append(text)] + [Poll(true)] == events + [Append(text), Poll(true)];
  }

  /** A line polled when it is half written is lost, though the log as it ends up holds its record. */
  lemma HalfLineIsLost(a: string, b: string, m: Record, py: Builtins)
    requires '\n' !in a && '\n' !in b && a != ""
    requires LoadLine(a, py) == Ok([]) && LoadLine(b, py) == Ok([]) && LoadLine(a + b, py) == Ok([m])
    ensures LoadText(a + (b + "\n"), py) == Ok([m])
    ensures Follow(Follower("", 0, []), [Append(a), Poll(true)] + [Append(b + "\n"), Poll(true)], py) ==
            Ok(Follower(a + (b + "\n"), |a + (b + "\n")|, []))
  {
    hide *;
    BlankLine(py);
    OneLine(a, py);
    OneLine(b, py);
    OneLine(a + b, py);
    assert a + b + "\n" == a + (b + "\n");
    NothingUnhashable();
    var start, none: seq<Record> := Follower("", 0, []), [];
    FollowNothing(start, py);
    assert none + none == none;
    assert ("" + a)[0..] == a == "" + a && [] + [Append(a), Poll(true)] == [Append(a), Poll(true)];
    AppendAndPoll(start, [], start, a, [], py);
    assert (a + (b + "\n"))[|a|..] == b + "\n";
    AppendAndPoll(start, [Append(a), Poll(true)], Follower(a, |a|, []), b + "\n", [], py);
  }

  lemma BlankLine(py: Builtins)
    ensures LoadLine("", py) == Ok([])
  {
  }

  lemma NothingUnhashable()
    ensures !HasUnhashable([])
  {
  }

  lemma FollowNothing(f: Follower, py: Builtins)
    ensures Follow(f, [], py) == Ok(f)
  {
  }
}
