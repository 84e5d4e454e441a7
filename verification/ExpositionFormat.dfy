/**
 * The text that a Prometheus client exposes, and what `parse` of prometheus.py makes of it: when a
 * sample comes back as it went.
 */
module ExpositionFormat {
  import opened Wrappers
  import opened Text
  import opened PrometheusText

  // ---------- Escapes ----------

  /** How the format writes a character of a label value. */
  function EscapeChar(c: char): string {
    if c == '\\' then "\\\\" else if c == '"' then "\\\"" else if c == '\n' then "\\n" else [c]
  }

  function Escape(value: string): string {
    if value == "" then "" else EscapeChar(value[0]) + Escape(value[1..])
  }

  function EscapeLabels(ls: seq<(string, string)>): seq<(string, string)> {
    seq(|ls|, i requires 0 <= i < |ls| => (ls[i].0, Escape(ls[i].1)))
  }

  function EscapeLine(l: Line): Line {
    if l.Data? then Data(l.indent, l.m.(labels := EscapeLabels(l.m.labels))) else l
  }

  function EscapeLines(ls: seq<Line>): seq<Line> {
    seq(|ls|, i requires 0 <= i < |ls| => EscapeLine(ls[i]))
  }

  /** The text a Prometheus client exposes for the samples. */
  function Exposition(ls: seq<Line>): string { RenderText(EscapeLines(ls)) }

  /** A metric that the format can name, with a number and any label values. */
  ghost predicate Exposable<V(!new)>(m: Metric, float: string -> Option<V>) {
    && GoodFrame(m) && float(m.token).Some?
    && (forall i :: 0 <= i < |m.labels| ==> m.labels[i].0 != "" && AllOf(m.labels[i].0, IsWord))
    && (forall i, j :: 0 <= i < j < |m.labels| ==> m.labels[i].0 != m.labels[j].0)
  }

  ghost predicate AllExposable<V(!new)>(ls: seq<Line>, float: string -> Option<V>) {
    forall i :: 0 <= i < |ls| ==> match ls[i]
                                  case Data(indent, m) =>
                                    AllOf(indent, IsSpace) && IsUnbroken(indent) && Exposable(m, float)
                                  case Noise(_) => GoodLine(ls[i])
  }

  /** The characters that come back as they went. */
  predicate CleanChar(c: char) { ValueChar(c) && c != '\\' }

  ghost predicate CleanMetric(m: Metric) {
    forall i :: 0 <= i < |m.labels| ==> AllOf(m.labels[i].1, CleanChar)
  }

  ghost predicate PlainMetric(m: Metric) {
    forall i :: 0 <= i < |m.labels| ==> AllOf(m.labels[i].1, ValueChar)
  }

  predicate IsEscaped(c: char) { c == '\\' || c == '"' || c == '\n' }

  /** Escaping lengthens a value exactly when it escapes something. */
  lemma {:induction false} EscapeLengthens(value: string)
    ensures |Escape(value)| >= |value|
    ensures |Escape(value)| == |value| <==> AllOf(value, c => !IsEscaped(c))
    ensures AllOf(value, c => !IsEscaped(c)) ==> Escape(value) == value
  {
    if value != "" {
      EscapeLengthens(value[1..]);
      assert value == [value[0]] + value[1..];
      assert AllOf(value, c => !IsEscaped(c)) <==> !IsEscaped(value[0]) && AllOf(value[1..], c => !IsEscaped(c)) by {
        assert forall i :: 0 < i < |value| ==> value[i] == value[1..][i - 1];
      }
    }
  }

  lemma {:induction false} EscapeOfPlainIsPlain(value: string)
    requires AllOf(value, ValueChar)
    ensures AllOf(Escape(value), ValueChar)
  {
    if value != "" {
      EscapeOfPlainIsPlain(value[1..]);
    }
  }

  lemma EscapeOfCleanIsSame(m: Metric)
    requires CleanMetric(m)
    ensures EscapeLabels(m.labels) == m.labels
  {
    forall i | 0 <= i < |m.labels|
      ensures Escape(m.labels[i].1) == m.labels[i].1
    {
      EscapeLengthens(m.labels[i].1);
    }
  }

  // ---------- No label value that parse returns holds a quote, a brace or a line break ----------

  lemma {:induction false} SplitLinesHoldNoBreak(s: string)
    ensures forall i :: 0 <= i < |SplitLines(s)| ==> AllOf(SplitLines(s)[i], c => !IsLineBreak(c))
    decreases |s|
  {
    if s != [] {
      var i := Run(s, c => !IsLineBreak(c));
      if i == |s| {
        assert s[..i] == s;
      } else {
        var width := if s[i] == '\r' && i + 1 < |s| && s[i + 1] == '\n' then 2 else 1;
        SplitLinesHoldNoBreak(s[i + width..]);
      }
    }
  }

  lemma {:induction false} StripHoldsNoBreak(s: string)
    requires AllOf(s, c => !IsLineBreak(c))
    ensures AllOf(Strip(s), c => !IsLineBreak(c))
  {
    if s != [] {
      if IsSpace(s[0]) {
        StripHoldsNoBreak(s[1..]);
      } else if IsSpace(s[|s| - 1]) {
        StripHoldsNoBreak(s[..|s| - 1]);
      }
    }
  }

  /** What the braces of a line can hold. */
  predicate LabelTextChar(c: char) { c != '}' && !IsLineBreak(c) }

  lemma SuffixKeeps(s: string, i: nat, p: char -> bool)
    requires i <= |s| && AllOf(s, p)
    ensures AllOf(s[i..], p)
  {
  }

  lemma QuotedIsPlain(s: string)
    requires AllOf(s, LabelTextChar)
    ensures AllOf(s[..Until(s, '"')], ValueChar)
  {
    var v := Until(s, '"');
    assert forall k :: 0 <= k < v ==> s[..v][k] == s[k];
  }

  lemma {:induction false} FoundValuesArePlain(s: string)
    requires AllOf(s, LabelTextChar)
    ensures forall i :: 0 <= i < |FindLabels(s)| ==> AllOf(FindLabels(s)[i].1, ValueChar)
    decreases |s|
  {
    hide AllOf, Run, Until;
    if s != [] {
      var w := Run(s, IsWord);
      if w > 0 && w + 1 < |s| && s[w] == '=' && s[w + 1] == '"' && Until(s[w + 2..], '"') < |s| - (w + 2) {
        var body := s[w + 2..];
        var v := Until(body, '"');
        SuffixKeeps(s, w + 2, LabelTextChar);
        QuotedIsPlain(body);
        SuffixKeeps(body, v + 1, LabelTextChar);
        FoundValuesArePlain(body[v + 1..]);
        assert FindLabels(s) == [(s[..w], body[..v])] + FindLabels(body[v + 1..]);
      } else {
        SuffixKeeps(s, 1, LabelTextChar);
        FoundValuesArePlain(s[1..]);
        assert FindLabels(s) == FindLabels(s[1..]);
      }
    }
  }

  ghost predicate PlainLabels(labels: Labels) {
    forall k :: k in labels ==> AllOf(labels[k], ValueChar)
  }

  lemma {:induction false} DictOfPlainIsPlain(pairs: seq<(string, string)>)
    requires forall i :: 0 <= i < |pairs| ==> AllOf(pairs[i].1, ValueChar)
    ensures PlainLabels(ToDict(pairs))
  {
    if pairs != [] {
      DictOfPlainIsPlain(pairs[..|pairs| - 1]);
    }
  }

  lemma ParsedLineIsPlain<V>(line: string, float: string -> Option<V>)
    requires AllOf(line, c => !IsLineBreak(c))
    ensures ParseLine(line, float).Some? ==> PlainLabels(ParseLine(line, float).value.1.0)
  {
    hide FindLabels, ToDict, PlainLabels;
    var labels := if MatchLabeled(line).Some? then MatchLabeled(line).value.1 else "";
    LabelTextOfLine(line);
    FoundValuesArePlain(labels);
    DictOfPlainIsPlain(FindLabels(labels));
  }

  lemma LabelTextOfLine(line: string)
    requires AllOf(line, c => !IsLineBreak(c))
    ensures MatchLabeled(line).Some? ==> AllOf(MatchLabeled(line).value.1, LabelTextChar)
    ensures MatchLabeled(line).None? && MatchPlain(line).Some? ==> MatchPlain(line).value.1 == ""
  {
    hide Token;
    if MatchLabeled(line).Some? {
      var n := NameLength(line);
      var rest := line[n + 1..];
      var j := Until(rest, '}');
      forall k | 0 <= k < j
        ensures rest[..j][k] != '}' && !IsLineBreak(rest[..j][k])
      {
        assert rest[k] == line[n + 1 + k];
      }
    }
  }

  ghost predicate PlainSamples<V>(samples: MetricSamples<V>) {
    forall name, i :: name in samples && 0 <= i < |samples[name]| ==> PlainLabels(samples[name][i].0)
  }

  lemma {:induction false} ParsedSamplesArePlain<V>(lines: seq<string>, float: string -> Option<V>)
    requires forall i :: 0 <= i < |lines| ==> AllOf(lines[i], c => !IsLineBreak(c))
    ensures PlainSamples(ParseLines(lines, float))
  {
    if lines != [] {
      hide PlainLabels, ParseLine, Strip;
      var n := |lines| - 1;
      ParsedSamplesArePlain(lines[..n], float);
      StripHoldsNoBreak(lines[n]);
      ParsedLineIsPlain(Strip(lines[n]), float);
    }
  }

  // ---------- The round trip, exactly ----------

  lemma {:induction false} DictOfDistinct(pairs: seq<(string, string)>, i: nat)
    requires i < |pairs| && forall j, k :: 0 <= j < k < |pairs| ==> pairs[j].0 != pairs[k].0
    ensures pairs[i].0 in ToDict(pairs) && ToDict(pairs)[pairs[i].0] == pairs[i].1
  {
    if i < |pairs| - 1 {
      DictOfDistinct(pairs[..|pairs| - 1], i);
    }
  }

  /** Every sample is among those collected under its name. */
  lemma {:induction false} CollectHolds<V(!new)>(ls: seq<Line>, i: nat, float: string -> Option<V>)
    requires i < |ls| && ls[i].Data? && float(ls[i].m.token).Some?
    ensures ls[i].m.name in Collect(ls, float)
    ensures exists j :: 0 <= j < |Collect(ls, float)[ls[i].m.name]|
                        && Collect(ls, float)[ls[i].m.name][j].0 == ToDict(ls[i].m.labels)
  {
    var n, name := |ls| - 1, ls[i].m.name;
    hide ToDict;
    if i < n {
      CollectHolds(ls[..n], i, float);
      var before := Collect(ls[..n], float)[name];
      var j :| 0 <= j < |before| && before[j].0 == ToDict(ls[i].m.labels);
      assert Collect(ls, float)[name][j] == before[j];
    } else {
      var after := Collect(ls, float)[name];
      assert after[|after| - 1].0 == ToDict(ls[i].m.labels);
    }
  }

  lemma CollectedPlainMetric<V(!new)>(ls: seq<Line>, i: nat, float: string -> Option<V>)
    requires i < |ls| && ls[i].Data? && Exposable(ls[i].m, float) && PlainSamples(Collect(ls, float))
    ensures PlainMetric(ls[i].m)
  {
    CollectHolds(ls, i, float);
    hide Collect, ToDict;
    var labels := ls[i].m.labels;
    forall k | 0 <= k < |labels|
      ensures AllOf(labels[k].1, ValueChar)
    {
      DictOfDistinct(labels, k);
    }
  }

  lemma EscapedLinesAreGood<V(!new)>(ls: seq<Line>, float: string -> Option<V>)
    requires AllExposable(ls, float)
    requires forall i :: 0 <= i < |ls| && ls[i].Data? ==> PlainMetric(ls[i].m)
    ensures forall i :: 0 <= i < |ls| ==> GoodLine(EscapeLines(ls)[i])
  {
    forall i | 0 <= i < |ls|
      ensures GoodLine(EscapeLines(ls)[i])
    {
      if ls[i].Data? {
        var labels := ls[i].m.labels;
        forall k | 0 <= k < |labels|
          ensures GoodPair(EscapeLabels(labels)[k])
        {
          EscapeOfPlainIsPlain(labels[k].1);
        }
      }
    }
  }

  /** Lines that collect alike hold the same labels, line by line. */
  lemma {:induction false} SameCollectionSameLabels<V(!new)>(
      ls: seq<Line>, ms: seq<Line>, i: nat, float: string -> Option<V>)
    requires |ls| == |ms| && forall k :: 0 <= k < |ls| ==> SameShape(ls[k], ms[k])
    requires forall name :: Named(ls, float, name) == Named(ms, float, name)
    requires i < |ls| && ls[i].Data? && float(ls[i].m.token).Some?
    ensures ms[i].Data? && ToDict(ls[i].m.labels) == ToDict(ms[i].m.labels)
  {
    hide ToDict;
    var n := |ls| - 1;
    forall name
      ensures Named(ls[..n], float, name) == Named(ms[..n], float, name)
    {
      NamedBefore(ls, ms, float, name);
    }
    if i < n {
      SameCollectionSameLabels(ls[..n], ms[..n], i, float);
    } else {
      var a, b := Named(ls, float, ls[n].m.name), Named(ms, float, ls[n].m.name);
      assert a[|a| - 1].0 == ToDict(ls[n].m.labels) && b[|b| - 1].0 == ToDict(ms[n].m.labels);
    }
  }

  /** The same name and number, or both no sample. */
  predicate SameShape(l: Line, m: Line) {
    if l.Data? then m.Data? && l.m.name == m.m.name && l.m.token == m.m.token else m.Noise?
  }

  lemma NamedBefore<V(!new)>(ls: seq<Line>, ms: seq<Line>, float: string -> Option<V>, name: string)
    requires |ls| == |ms| && ls != [] && SameShape(ls[|ls| - 1], ms[|ls| - 1])
    requires Named(ls, float, name) == Named(ms, float, name)
    ensures Named(ls[..|ls| - 1], float, name) == Named(ms[..|ls| - 1], float, name)
  {
    hide ToDict;
    var n := |ls| - 1;
    var a, b := Named(ls, float, name), Named(ms, float, name);
    if ls[n].Data? && ls[n].m.name == name && float(ls[n].m.token).Some? {
      assert a[..|a| - 1] == Named(ls[..n], float, name) && b[..|b| - 1] == Named(ms[..n], float, name);
    } else {
      assert a == Named(ls[..n], float, name) + [] && b == Named(ms[..n], float, name) + [];
      assert a == Named(ls[..n], float, name) && b == Named(ms[..n], float, name);
    }
  }

  lemma NamedOfCollection<V(!new)>(ls: seq<Line>, ms: seq<Line>, float: string -> Option<V>)
    requires Collect(ls, float) == Collect(ms, float)
    ensures forall name :: Named(ls, float, name) == Named(ms, float, name)
  {
    hide Collect, Named;
    forall name
      ensures Named(ls, float, name) == Named(ms, float, name)
    {
      CollectIsByName(ls, float, name);
      CollectIsByName(ms, float, name);
    }
  }

  lemma UnescapedIsClean(m: Metric)
    requires PlainMetric(m) && ToDict(m.labels) == ToDict(EscapeLabels(m.labels))
    requires forall j, k :: 0 <= j < k < |m.labels| ==> m.labels[j].0 != m.labels[k].0
    ensures CleanMetric(m)
  {
    hide ToDict, Escape;
    forall i | 0 <= i < |m.labels|
      ensures AllOf(m.labels[i].1, CleanChar)
    {
      DictOfDistinct(m.labels, i);
      DictOfDistinct(EscapeLabels(m.labels), i);
      assert Escape(m.labels[i].1) == m.labels[i].1;
      EscapeLengthens(m.labels[i].1);
    }
  }

  /** What comes back is what went only if all label values are clean. */
  lemma RoundTripNeedsClean<V(!new)>(ls: seq<Line>, float: string -> Option<V>, i: nat)
    requires AllExposable(ls, float) && i < |ls| && ls[i].Data?
    requires ParseLines(SplitLines(Exposition(ls)), float) == Collect(ls, float)
    ensures CleanMetric(ls[i].m)
  {
    hide ParseLines, SplitLines, RenderText, Collect, Named, ToDict, GoodMetric, Exposable, EscapeLabels, PlainMetric,
         CleanMetric;
    SplitLinesHoldNoBreak(Exposition(ls));
    ParsedSamplesArePlain(SplitLines(Exposition(ls)), float);
    forall k | 0 <= k < |ls| && ls[k].Data?
      ensures PlainMetric(ls[k].m)
    {
      CollectedPlainMetric(ls, k, float);
    }
    EscapedLinesAreGood(ls, float);
    TextRoundTrip(EscapeLines(ls), float);
    NamedOfCollection(ls, EscapeLines(ls), float);
    ExposableHasNumber(ls[i].m, float);
    SameCollectionSameLabels(ls, EscapeLines(ls), i, float);
    UnescapedIsClean(ls[i].m);
  }

  lemma ExposableHasNumber<V(!new)>(m: Metric, float: string -> Option<V>)
    requires Exposable(m, float)
    ensures float(m.token).Some?
    ensures forall j, k :: 0 <= j < k < |m.labels| ==> m.labels[j].0 != m.labels[k].0
  {
  }

  /**
   * Parsing what a client exposes returns every sample under its name, in order, with its labels,
   * exactly when no label value holds a quote, a backslash, a closing brace or a line break.
   */
  lemma RoundTripExactlyWhen<V(!new)>(ls: seq<Line>, float: string -> Option<V>)
    requires AllExposable(ls, float)
    ensures ParseLines(SplitLines(Exposition(ls)), float) == Collect(ls, float) <==>
            forall i :: 0 <= i < |ls| && ls[i].Data? ==> CleanMetric(ls[i].m)
  {
    if ParseLines(SplitLines(Exposition(ls)), float) == Collect(ls, float) {
      forall i | 0 <= i < |ls| && ls[i].Data?
        ensures CleanMetric(ls[i].m)
      {
        RoundTripNeedsClean(ls, float, i);
      }
    }
    if forall i :: 0 <= i < |ls| && ls[i].Data? ==> CleanMetric(ls[i].m) {
      CleanRoundTrip(ls, float);
    }
  }

  lemma CleanRoundTrip<V(!new)>(ls: seq<Line>, float: string -> Option<V>)
    requires AllExposable(ls, float) && forall i :: 0 <= i < |ls| && ls[i].Data? ==> CleanMetric(ls[i].m)
    ensures ParseLines(SplitLines(Exposition(ls)), float) == Collect(ls, float)
  {
    hide ParseLines, SplitLines, RenderText, Collect, Escape;
    forall i | 0 <= i < |ls|
      ensures EscapeLine(ls[i]) == ls[i] && GoodLine(ls[i])
    {
      if ls[i].Data? {
        EscapeOfCleanIsSame(ls[i].m);
      }
    }
    assert EscapeLines(ls) == ls;
    TextRoundTrip(ls, float);
  }

  lemma NoTokenWithoutSpace(s: string)
    requires s != "" && !IsSpace(s[0])
    ensures Token(s).None?
  {
  }

  /** A brace that is not followed by a space, as inside a label value, loses the line. */
  lemma BraceLosesLine<V>(name: string, ls: string, rest: string, float: string -> Option<V>)
    requires IsName(name) && '}' !in ls
    requires rest != "" && !IsSpace(rest[0])
    ensures ParseLine(name + ("{" + (ls + ("}" + rest))), float).None?
  {
    hide Token, FindLabels, ToDict;
    var line := name + ("{" + (ls + ("}" + rest)));
    NameOf(name, "{" + (ls + ("}" + rest)));
    UntilCut(ls, '}', rest);
    assert line[|name| + 1..] == ls + ("}" + rest);
    assert line[|name|..] == "{" + (ls + ("}" + rest));
    NoTokenWithoutSpace(rest);
    NoTokenWithoutSpace(line[|name|..]);
  }

  lemma BraceLosesSample<V>(float: string -> Option<V>)
    ensures ParseLine("m" + ("{" + ("k=\"" + ("}" + "\"} 1"))), float).None?
  {
    hide ParseLine;
    BraceLosesLine("m", "k=\"", "\"} 1", float);
  }
}
