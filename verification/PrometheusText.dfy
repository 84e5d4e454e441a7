/** `parse` of prometheus.py: the text exposition format, its regular expressions spelled out. */
module PrometheusText {
  import opened Wrappers
  import opened Text

  type Labels = map<string, string>
  type Sample<V> = (Labels, V)
  type MetricSamples<V> = map<string, seq<Sample<V>>>

  // ---------- Character classes ----------

  predicate NotSpace(c: char) { !IsSpace(c) }

  predicate IsLetter(c: char) { 'a' <= c <= 'z' || 'A' <= c <= 'Z' }

  predicate IsNameStart(c: char) { IsLetter(c) || c == '_' || c == ':' }

  predicate IsNameChar(c: char) { IsNameStart(c) || IsDigit(c) }

  /** `\w`, on ASCII. */
  predicate IsWord(c: char) { IsLetter(c) || IsDigit(c) || c == '_' }

  /** The classes by code point: letters, digits, the underscore and the colon. */
  lemma NameCharacters(c: char)
    ensures var n := c as int;
            IsWord(c) <==> 48 <= n <= 57 || 65 <= n <= 90 || 97 <= n <= 122 || n == 95
    ensures IsNameStart(c) <==> (IsWord(c) && !IsDigit(c)) || c as int == 58
    ensures IsNameChar(c) <==> IsWord(c) || c as int == 58
  {
  }

  predicate AllOf(s: string, p: char -> bool) {
    forall i :: 0 <= i < |s| ==> p(s[i])
  }

  /** The length of the longest prefix within a class: what a greedy `+` or `*` takes. */
  function Run(s: string, p: char -> bool): (n: nat)
    ensures n <= |s| && AllOf(s[..n], p) && (n < |s| ==> !p(s[n]))
  {
    if s == [] || !p(s[0]) then 0
    else
      var n := 1 + Run(s[1..], p);
      assert s[..n] == [s[0]] + s[1..][..n - 1];
      n
  }

  lemma {:induction false} RunExact(a: string, b: string, p: char -> bool)
    requires AllOf(a, p) && (b != [] ==> !p(b[0]))
    ensures Run(a + b, p) == |a|
  {
    if a == [] {
      assert a + b == b;
    } else {
      assert (a + b)[1..] == a[1..] + b;
      RunExact(a[1..], b, p);
    }
  }

  // ---------- str.splitlines ----------

  function SplitLines(s: string): seq<string>
    decreases |s|
  {
    if s == [] then []
    else
      var i := Run(s, c => !IsLineBreak(c));
      if i == |s| then [s]
      else
        var width := if s[i] == '\r' && i + 1 < |s| && s[i + 1] == '\n' then 2 else 1;
        [s[..i]] + SplitLines(s[i + width..])
  }

  // ---------- The regular expressions ----------

  /** `[a-zA-Z_:][a-zA-Z0-9_:]*` at the start: the length of the match, 0 if there is none. */
  function NameLength(line: string): (n: nat)
    ensures n <= |line|
  {
    if line == [] || !IsNameStart(line[0]) then 0 else 1 + Run(line[1..], IsNameChar)
  }

  /** `\s+(\S+)` at the start: the group. */
  function Token(s: string): Option<string> {
    var sp := Run(s, IsSpace);
    var n := Run(s[sp..], NotSpace);
    if sp == 0 || n == 0 then None else Some(s[sp..][..n])
  }

  /** `^(name)\{([^}]*)\}\s+(\S+)`. */
  function MatchLabeled(line: string): Option<(string, string, string)> {
    var n := NameLength(line);
    if n == 0 || n == |line| || line[n] != '{' then None
    else
      var rest := line[n + 1..];
      var j := Until(rest, '}');
      if j == |rest| || Token(rest[j + 1..]).None? then None
      else Some((line[..n], rest[..j], Token(rest[j + 1..]).value))
  }

  /** `^(name)\s+(\S+)`, with the empty label string the code then uses. */
  function MatchPlain(line: string): Option<(string, string, string)> {
    var n := NameLength(line);
    if n == 0 || Token(line[n..]).None? then None
    else Some((line[..n], "", Token(line[n..]).value))
  }

  /** All matches of `(\w+)="([^"]*)"`, left to right without overlap. */
  function FindLabels(s: string): seq<(string, string)>
    decreases |s|
  {
    if s == [] then []
    else
      var w := Run(s, IsWord);
      if w > 0 && w + 1 < |s| && s[w] == '=' && s[w + 1] == '"' && Until(s[w + 2..], '"') < |s| - (w + 2) then
        var v := Until(s[w + 2..], '"');
        [(s[..w], s[w + 2..][..v])] + FindLabels(s[w + 2..][v + 1..])
      else FindLabels(s[1..])
  }

  /** The dictionary of a list of pairs: a later pair replaces an earlier one of its key. */
  function ToDict(pairs: seq<(string, string)>): Labels {
    if pairs == [] then map[]
    else ToDict(pairs[..|pairs| - 1])[pairs[|pairs| - 1].0 := pairs[|pairs| - 1].1]
  }

  // ---------- parse ----------

  /** The sample on a stripped line, if there is one. */
  function ParseLine<V>(line: string, float: string -> Option<V>): Option<(string, Sample<V>)> {
    if line == "" || line[0] == '#' then None
    else
      var m := if MatchLabeled(line).Some? then MatchLabeled(line) else MatchPlain(line);
      if m.None? || float(m.value.2).None? then None
      else Some((m.value.0, (ToDict(FindLabels(m.value.1)), float(m.value.2).value)))
  }

  function Add<V>(samples: MetricSamples<V>, entry: Option<(string, Sample<V>)>): MetricSamples<V> {
    if entry.None? then samples
    else
      var (name, s) := entry.value;
      samples[name := (if name in samples then samples[name] else []) + [s]]
  }

  function ParseLines<V>(lines: seq<string>, float: string -> Option<V>): MetricSamples<V> {
    if lines == [] then map[]
    else
      var n := |lines| - 1;
      Add(ParseLines(lines[..n], float), ParseLine(Strip(lines[n]), float))
  }

  /** The inner loop of `parse`, filling the label dictionary. */
  method ReadLabels(labelsStr: string) returns (labels: Labels)
    ensures labels == ToDict(FindLabels(labelsStr))
  {
    labels := map[];
    if labelsStr != "" {
      var matches := FindLabels(labelsStr);
      for i := 0 to |matches|
        invariant labels == ToDict(matches[..i])
      {
        assert matches[..i + 1][..i] == matches[..i];
        labels := labels[matches[i].0 := matches[i].1];
      }
      assert matches[..|matches|] == matches;
    }
  }

  /** The body of the loop of `parse` for one stripped line; None is its `continue`. */
  method ReadLine<V>(line: string, float: string -> Option<V>) returns (entry: Option<(string, Sample<V>)>)
    ensures entry == ParseLine(line, float)
  {
    if line == "" || line[0] == '#' {
      return None;
    }
    var m := MatchLabeled(line);
    if m.None? {
      m := MatchPlain(line);
      if m.None? {
        return None;
      }
    }
    var (name, labelsStr, valueStr) := m.value;
    var value := float(valueStr);
    if value.None? {
      return None;
    }
    var labels := ReadLabels(labelsStr);
    return Some((name, (labels, value.value)));
  }

  /** `setdefault(name, []).append(...)`, when the line holds a sample. */
  method AddLine<V>(samples: MetricSamples<V>, line: string, float: string -> Option<V>)
    returns (result: MetricSamples<V>)
    ensures result == Add(samples, ParseLine(line, float))
    ensures ParseLine(line, float).None? ==> result == samples
    ensures ParseLine(line, float).Some? ==>
              var (name, sample) := ParseLine(line, float).value;
              && result.Keys == samples.Keys + {name}
              && (forall other :: other in samples && other != name ==> result[other] == samples[other])
              && result[name] != [] && result[name][|result[name]| - 1] == sample
              && result[name][..|result[name]| - 1] == if name in samples then samples[name] else []
  {
    hide ParseLine;
    var entry := ReadLine(line, float);
    if entry.None? {
      return samples;
    }
    var (name, sample) := entry.value;
    var known := if name in samples then samples[name] else [];
    result := samples[name := known + [sample]];
  }

  lemma ParseLinesNext<V>(lines: seq<string>, k: nat, float: string -> Option<V>)
    requires k < |lines|
    ensures ParseLines(lines[..k + 1], float) == Add(ParseLines(lines[..k], float), ParseLine(Strip(lines[k]), float))
  {
    assert lines[..k + 1][..k] == lines[..k];
  }

  method Parse<V>(text: string, float: string -> Option<V>) returns (result: MetricSamples<V>)
    ensures result == ParseLines(SplitLines(text), float)
  {
    result := map[];
    var lines := SplitLines(text);
    for k := 0 to |lines|
      invariant result == ParseLines(lines[..k], float)
    {
      ParseLinesNext(lines, k, float);
      result := AddLine(result, Strip(lines[k]), float);
    }
    assert lines[..|lines|] == lines;
  }

  // ---------- Rendering ----------

  /**
   * A sample to print. Its value is an opaque token, after white space; what follows the value may be
   * a timestamp.
   */
  datatype Metric = Metric(name: string, labels: seq<(string, string)>, gap: string, token: string, tail: string)

  /** A line of a text: an indented sample, or a comment or blank line. */
  datatype Line = Data(indent: string, m: Metric) | Noise(text: string)

  function RenderPair(p: (string, string)): string {
    p.0 + "=\"" + p.1 + "\""
  }

  function RenderLabels(ls: seq<(string, string)>): string {
    if ls == [] then []
    else if |ls| == 1 then RenderPair(ls[0])
    else RenderPair(ls[0]) + "," + RenderLabels(ls[1..])
  }

  /** A metric up to its value. */
  function RenderCore(m: Metric): string {
    m.name + (if m.labels == [] then [] else "{" + RenderLabels(m.labels) + "}") + m.gap + m.token
  }

  function RenderLine(l: Line): string {
    if l.Data? then l.indent + RenderCore(l.m) + l.m.tail else l.text
  }

  function Lines(ls: seq<Line>): seq<string> {
    seq(|ls|, i requires 0 <= i < |ls| => RenderLine(ls[i]))
  }

  function RenderText(ls: seq<Line>): string {
    if ls == [] then [] else RenderLine(ls[0]) + "\n" + RenderText(ls[1..])
  }

  predicate ValueChar(c: char) { c != '"' && c != '}' && !IsLineBreak(c) }

  predicate GoodPair(p: (string, string)) {
    p.0 != "" && AllOf(p.0, IsWord) && AllOf(p.1, ValueChar)
  }

  predicate IsPair(key: string, value: string) { key != "" && AllOf(key, IsWord) && '"' !in value }

  predicate IsName(s: string) { s != "" && IsNameStart(s[0]) && AllOf(s, IsNameChar) }

  predicate IsGap(s: string) { s != "" && AllOf(s, IsSpace) }

  predicate IsToken(s: string) { s != "" && AllOf(s, NotSpace) }

  predicate IsTail(s: string) { s == "" || IsSpace(s[0]) }

  predicate IsUnbroken(s: string) { AllOf(s, c => !IsLineBreak(c)) }

  /** Text that the format allows around the labels of a sample. */
  predicate GoodFrame(m: Metric) {
    && IsName(m.name)
    && IsGap(m.gap) && IsUnbroken(m.gap)
    && IsToken(m.token)
    && IsTail(m.tail) && IsUnbroken(m.tail)
  }

  ghost predicate GoodMetric(m: Metric) {
    GoodFrame(m) && forall i :: 0 <= i < |m.labels| ==> GoodPair(m.labels[i])
  }

  ghost predicate GoodLine(l: Line) {
    match l
    case Data(indent, m) => AllOf(indent, IsSpace) && IsUnbroken(indent) && GoodMetric(m)
    case Noise(t) => IsUnbroken(t) && IsNoise(t)
  }

  /** The samples of the lines, each under its name and in order. */
  function Collect<V>(ls: seq<Line>, float: string -> Option<V>): MetricSamples<V> {
    if ls == [] then map[]
    else
      var n := |ls| - 1;
      Add(Collect(ls[..n], float),
          if ls[n].Noise? || float(ls[n].m.token).None? then None
          else Some((ls[n].m.name, (ToDict(ls[n].m.labels), float(ls[n].m.token).value))))
  }

  // ---------- Round trip ----------

  lemma CutBehind(l: string, t: string, k: nat)
    requires k <= |t|
    ensures (l + t)[..|l|] == l && (l + t)[|l| + k..] == t[k..]
    ensures forall j :: 0 <= j < |t| ==> (l + t)[|l| + j] == t[j]
  {
  }

  /** The text before a character that it does not hold, and the text after it. */
  lemma UntilCut(a: string, c: char, b: string)
    requires c !in a
    ensures Until(a + ([c] + b), c) == |a| && (a + ([c] + b))[..|a|] == a && (a + ([c] + b))[|a| + 1..] == b
  {
    CutBehind(a, [c] + b, 1);
    assert ([c] + b)[1..] == b && ([c] + b)[0] == c;
    UntilIsFirst(a + ([c] + b), c, |a|);
  }

  /** A string that starts with a pair, cut as the expression cuts it. */
  lemma CutPair(key: string, value: string, rest: string, s: string)
    requires IsPair(key, value) && s == key + ("=\"" + (value + ("\"" + rest)))
    ensures Run(s, IsWord) == |key| && |key| + 2 <= |s| && s[..|key|] == key
    ensures s[|key|] == '=' && s[|key| + 1] == '"' && s[|key| + 2..] == value + ("\"" + rest)
  {
    RunExact(key, "=\"" + (value + ("\"" + rest)), IsWord);
  }

  lemma FindFirst(key: string, value: string, rest: string, s: string)
    requires IsPair(key, value) && s == key + ("=\"" + (value + ("\"" + rest)))
    ensures FindLabels(s) == [(key, value)] + FindLabels(rest)
  {
    CutPair(key, value, rest, s);
    UntilCut(value, '"', rest);
    var w, body := |key|, value + ("\"" + rest);
    assert FindLabels(s) == [(s[..w], s[w + 2..][..|value|])] + FindLabels(s[w + 2..][|value| + 1..]);
  }

  lemma RegroupPair(a: string, b: string, c: string, d: string, e: string)
    ensures a + b + c + d + e == a + (b + (c + (d + e)))
  {
  }

  lemma FindPair(p: (string, string), rest: string)
    requires GoodPair(p)
    ensures FindLabels(RenderPair(p) + rest) == [p] + FindLabels(rest)
  {
    RegroupPair(p.0, "=\"", p.1, "\"", rest);
    FindFirst(p.0, p.1, rest, RenderPair(p) + rest);
  }

  lemma FindAfterComma(s: string)
    ensures FindLabels("," + s) == FindLabels(s)
  {
    assert ("," + s)[1..] == s;
  }

  lemma {:induction false} LabelsRoundTrip(ls: seq<(string, string)>)
    requires forall i :: 0 <= i < |ls| ==> GoodPair(ls[i])
    ensures FindLabels(RenderLabels(ls)) == ls
  {
    if |ls| == 1 {
      FindPair(ls[0], []);
      assert RenderPair(ls[0]) + [] == RenderPair(ls[0]);
    } else if |ls| > 1 {
      var rest := RenderLabels(ls[1..]);
      LabelsRoundTrip(ls[1..]);
      FindAfterComma(rest);
      FindPair(ls[0], "," + rest);
      RegroupComma(RenderPair(ls[0]), rest);
    }
  }

  lemma RegroupComma(a: string, b: string)
    ensures a + "," + b == a + ("," + b)
  {
  }

  lemma {:induction false} RenderLabelsChars(ls: seq<(string, string)>)
    requires forall i :: 0 <= i < |ls| ==> GoodPair(ls[i])
    ensures '}' !in RenderLabels(ls) && IsUnbroken(RenderLabels(ls))
  {
    if ls != [] {
      RenderLabelsChars(ls[1..]);
    }
  }

  // ---------- The lines that the expressions match ----------

  /** A name, labels in braces, white space, the value, and nothing or white space and any text. */
  ghost predicate LabeledForm(line: string, name: string, ls: string, gap: string, token: string, tail: string) {
    && IsName(name) && '}' !in ls && IsGap(gap) && IsToken(token) && IsTail(tail)
    && line == name + ("{" + (ls + ("}" + (gap + (token + tail)))))
  }

  ghost predicate PlainForm(line: string, name: string, gap: string, token: string, tail: string) {
    && IsName(name) && IsGap(gap) && IsToken(token) && IsTail(tail)
    && line == name + (gap + (token + tail))
  }

  lemma TokenOf(gap: string, token: string, tail: string)
    requires IsGap(gap) && IsToken(token) && IsTail(tail)
    ensures Token(gap + (token + tail)) == Some(token)
  {
    var s := gap + (token + tail);
    RunExact(gap, token + tail, IsSpace);
    assert s[|gap|..] == token + tail;
    RunExact(token, tail, NotSpace);
    assert (token + tail)[..|token|] == token;
  }

  lemma CutToken(s: string) returns (gap: string, tail: string)
    requires Token(s).Some?
    ensures IsGap(gap) && IsToken(Token(s).value) && IsTail(tail) && s == gap + (Token(s).value + tail)
  {
    var sp := Run(s, IsSpace);
    gap := s[..sp];
    tail := s[sp..][Run(s[sp..], NotSpace)..];
    assert s == gap + s[sp..] && s[sp..] == Token(s).value + tail;
  }

  lemma NameOf(name: string, rest: string)
    requires IsName(name) && rest != [] && !IsNameChar(rest[0])
    ensures NameLength(name + rest) == |name| && (name + rest)[..|name|] == name && (name + rest)[|name|..] == rest
  {
    assert (name + rest)[1..] == name[1..] + rest;
    RunExact(name[1..], rest, IsNameChar);
  }

  lemma CutName(line: string)
    requires NameLength(line) > 0
    ensures IsName(line[..NameLength(line)])
  {
    var n := NameLength(line);
    assert line[..n] == [line[0]] + line[1..][..n - 1];
  }

  lemma BraceIsNoNameChar(rest: string)
    ensures "{" + rest != [] && ("{" + rest)[0] == '{' && !IsNameChar('{') && ("{" + rest)[1..] == rest
  {
  }

  lemma GapIsNoNameChar(gap: string, rest: string)
    requires IsGap(gap)
    ensures gap + rest != [] && !IsNameChar((gap + rest)[0]) && (gap + rest)[0] != '{'
  {
  }

  lemma LabeledFormMatches(line: string, name: string, ls: string, gap: string, token: string, tail: string)
    requires LabeledForm(line, name, ls, gap, token, tail)
    ensures MatchLabeled(line) == Some((name, ls, token))
  {
    hide Token, NameLength, AllOf, IsToken, IsTail;
    var value := gap + (token + tail);
    var rest := ls + ("}" + value);
    BraceIsNoNameChar(rest);
    NameOf(name, "{" + rest);
    TokenOf(gap, token, tail);
    UntilCut(ls, '}', value);
    assert line[|name| + 1..] == rest && line[|name|] == '{';
  }

  lemma CutAt(s: string, i: nat, c: char)
    requires i < |s| && s[i] == c
    ensures s == s[..i] + ([c] + s[i + 1..])
  {
  }

  lemma CutBraces(line: string, n: nat, j: nat)
    requires n < |line| && line[n] == '{' && j < |line[n + 1..]| && line[n + 1..][j] == '}'
    ensures var rest := line[n + 1..];
            line == line[..n] + ("{" + (rest[..j] + ("}" + rest[j + 1..])))
  {
    var rest := line[n + 1..];
    CutAt(rest, j, '}');
    CutAt(line, n, '{');
  }

  lemma MatchedIsLabeledForm(line: string) returns (gap: string, tail: string)
    requires MatchLabeled(line).Some?
    ensures var m := MatchLabeled(line).value; LabeledForm(line, m.0, m.1, gap, m.2, tail)
  {
    hide Token, NameLength, IsName, IsGap, IsToken, IsTail;
    var n := NameLength(line);
    var rest := line[n + 1..];
    var j := Until(rest, '}');
    assert '}' !in rest[..j];
    CutName(line);
    gap, tail := CutToken(rest[j + 1..]);
    CutBraces(line, n, j);
  }

  lemma PlainFormMatches(line: string, name: string, gap: string, token: string, tail: string)
    requires PlainForm(line, name, gap, token, tail)
    ensures MatchLabeled(line).None? && MatchPlain(line) == Some((name, "", token))
  {
    hide Token, NameLength, AllOf, IsToken, IsTail;
    GapIsNoNameChar(gap, token + tail);
    NameOf(name, gap + (token + tail));
    TokenOf(gap, token, tail);
    assert line[|name|] == (gap + (token + tail))[0];
  }

  lemma MatchedIsPlainForm(line: string) returns (gap: string, tail: string)
    requires MatchPlain(line).Some?
    ensures var m := MatchPlain(line).value; m.1 == "" && PlainForm(line, m.0, gap, m.2, tail)
  {
    hide Token, NameLength, IsName, IsGap, IsToken, IsTail;
    var n := NameLength(line);
    CutName(line);
    gap, tail := CutToken(line[n..]);
    assert line == line[..n] + line[n..];
  }

  /** Some way to read the line has this name, this text of labels and this value. */
  ghost predicate Reads(line: string, name: string, ls: string, token: string) {
    exists gap, tail :: LabeledForm(line, name, ls, gap, token, tail)
                        || (ls == "" && PlainForm(line, name, gap, token, tail))
  }

  lemma MatchesExactlyWhen(line: string, name: string, ls: string, token: string)
    ensures Reads(line, name, ls, token) <==>
            (if MatchLabeled(line).Some? then MatchLabeled(line) else MatchPlain(line)) == Some((name, ls, token))
  {
    hide MatchLabeled, MatchPlain, LabeledForm, PlainForm;
    if Reads(line, name, ls, token) {
      var gap, tail :| LabeledForm(line, name, ls, gap, token, tail)
                       || (ls == "" && PlainForm(line, name, gap, token, tail));
      if LabeledForm(line, name, ls, gap, token, tail) {
        LabeledFormMatches(line, name, ls, gap, token, tail);
      } else {
        PlainFormMatches(line, name, gap, token, tail);
      }
    }
    if MatchLabeled(line).Some? {
      var gap, tail := MatchedIsLabeledForm(line);
    } else if MatchPlain(line).Some? {
      var gap, tail := MatchedIsPlainForm(line);
    }
  }

  lemma ReadsNoComment(line: string, name: string, ls: string, token: string)
    requires Reads(line, name, ls, token)
    ensures line != "" && line[0] == name[0] && line[0] != '#'
  {
    var gap, tail :| LabeledForm(line, name, ls, gap, token, tail)
                     || (ls == "" && PlainForm(line, name, gap, token, tail));
  }

  /**
   * A stripped line gives a sample exactly when it is a name, labels in braces or none, white space and
   * a token that is a number, at the end or followed by white space and anything.
   */
  lemma SampleExactlyWhen<V(!new)>(line: string, float: string -> Option<V>, name: string, sample: Sample<V>)
    ensures ParseLine(line, float) == Some((name, sample)) <==>
            exists ls, token :: Reads(line, name, ls, token) && float(token) == Some(sample.1)
                                && ToDict(FindLabels(ls)) == sample.0
  {
    hide MatchLabeled, MatchPlain, Reads, ToDict, FindLabels;
    if ParseLine(line, float) == Some((name, sample)) {
      var m := if MatchLabeled(line).Some? then MatchLabeled(line) else MatchPlain(line);
      MatchesExactlyWhen(line, m.value.0, m.value.1, m.value.2);
      assert Reads(line, name, m.value.1, m.value.2);
    }
    if ls, token :| Reads(line, name, ls, token) && float(token) == Some(sample.1)
                    && ToDict(FindLabels(ls)) == sample.0 {
      MatchesExactlyWhen(line, name, ls, token);
      ReadsNoComment(line, name, ls, token);
    }
  }

  // ---------- The pairs that the expression finds ----------

  /** A match of the expression for a pair starts here. */
  ghost predicate PairAt(s: string, i: nat, key: string, value: string) {
    IsPair(key, value) && i <= |s| && key + ("=\"" + (value + "\"")) <= s[i..]
  }

  lemma PairHereIsFound(s: string, key: string, value: string)
    requires PairAt(s, 0, key, value)
    ensures FindLabels(s) == [(key, value)] + FindLabels(s[|key| + |value| + 3..])
  {
    var rest := s[|key| + |value| + 3..];
    assert s[0..] == s;
    assert s == key + ("=\"" + (value + "\"")) + rest;
    assert s == key + ("=\"" + (value + ("\"" + rest)));
    FindFirst(key, value, rest, s);
  }

  lemma NoPairHereMovesOn(s: string)
    requires s != [] && forall key, value :: !PairAt(s, 0, key, value)
    ensures FindLabels(s) == FindLabels(s[1..])
  {
    var w := Run(s, IsWord);
    if w > 0 && w + 1 < |s| && s[w] == '=' && s[w + 1] == '"' && Until(s[w + 2..], '"') < |s| - (w + 2) {
      var v := Until(s[w + 2..], '"');
      FoundPairIsThere(s, w, v);
      assert PairAt(s, 0, s[..w], s[w + 2..][..v]);
    }
  }

  lemma FoundPairIsThere(s: string, w: nat, v: nat)
    requires 0 < w && w + 2 + v < |s| && AllOf(s[..w], IsWord) && s[w] == '=' && s[w + 1] == '"'
    requires '"' !in s[w + 2..][..v] && s[w + 2 + v] == '"'
    ensures PairAt(s, 0, s[..w], s[w + 2..][..v])
  {
    assert s[0..] == s;
    assert s[..w + v + 3] == s[..w] + ("=\"" + (s[w + 2..][..v] + "\""));
  }

  lemma PairFurtherOn(s: string, i: nat, key: string, value: string)
    requires s != []
    ensures PairAt(s[1..], i, key, value) <==> PairAt(s, i + 1, key, value)
  {
    if i < |s| {
      assert s[1..][i..] == s[i + 1..];
    }
  }

  /** The leftmost match is found first, and the search goes on after it. */
  lemma {:induction false} LeftmostPairIsFound(s: string, i: nat, key: string, value: string)
    requires PairAt(s, i, key, value)
    requires forall j: nat, k, v :: j < i ==> !PairAt(s, j, k, v)
    ensures i + |key| + |value| + 3 <= |s|
    ensures FindLabels(s) == [(key, value)] + FindLabels(s[i + |key| + |value| + 3..])
  {
    hide FindLabels;
    if i == 0 {
      PairHereIsFound(s, key, value);
    } else {
      NoPairHereMovesOn(s);
      PairFurtherOn(s, i - 1, key, value);
      forall j: nat, k, v | j < i - 1
        ensures !PairAt(s[1..], j, k, v)
      {
        PairFurtherOn(s, j, k, v);
      }
      LeftmostPairIsFound(s[1..], i - 1, key, value);
      assert s[1..][i - 1 + |key| + |value| + 3..] == s[i + |key| + |value| + 3..];
    }
  }

  lemma {:induction false} NothingFoundWithoutPair(s: string)
    requires forall i: nat, k, v :: !PairAt(s, i, k, v)
    ensures FindLabels(s) == []
  {
    if s != [] {
      NoPairHereMovesOn(s);
      forall i: nat, k, v
        ensures !PairAt(s[1..], i, k, v)
      {
        PairFurtherOn(s, i, k, v);
      }
      NothingFoundWithoutPair(s[1..]);
    }
  }

  /** The last pair of a key is the one that the dictionary holds. */
  lemma {:induction false} LastPairWins(pairs: seq<(string, string)>, i: nat)
    requires i < |pairs| && forall j :: i < j < |pairs| ==> pairs[j].0 != pairs[i].0
    ensures pairs[i].0 in ToDict(pairs) && ToDict(pairs)[pairs[i].0] == pairs[i].1
  {
    if i < |pairs| - 1 {
      LastPairWins(pairs[..|pairs| - 1], i);
    }
  }

  lemma {:induction false} OnlyKeysOfPairs(pairs: seq<(string, string)>, key: string)
    requires forall i :: 0 <= i < |pairs| ==> pairs[i].0 != key
    ensures key !in ToDict(pairs)
  {
    if pairs != [] {
      OnlyKeysOfPairs(pairs[..|pairs| - 1], key);
    }
  }

  // ---------- Rendered lines ----------

  lemma MatchRendered(m: Metric, tail: string)
    requires GoodMetric(m) && IsTail(tail)
    ensures m.labels == [] ==> PlainForm(RenderCore(m) + tail, m.name, m.gap, m.token, tail)
    ensures m.labels != [] ==>
              LabeledForm(RenderCore(m) + tail, m.name, RenderLabels(m.labels), m.gap, m.token, tail)
  {
    hide IsName, IsGap, IsToken, IsTail, GoodPair, RenderLabels;
    if m.labels == [] {
      assert m.name + [] + m.gap + m.token + tail == m.name + (m.gap + (m.token + tail));
    } else {
      RenderLabelsChars(m.labels);
      RegroupBraces(m.name, "{", RenderLabels(m.labels), "}", m.gap, m.token, tail);
    }
  }

  lemma RegroupBraces(a: string, b: string, c: string, d: string, e: string, f: string, g: string)
    ensures a + (b + c + d) + e + f + g == a + (b + (c + (d + (e + (f + g)))))
  {
  }

  lemma RenderedCoreIsClean(m: Metric)
    requires GoodMetric(m)
    ensures IsUnbroken(RenderCore(m)) && RenderCore(m) != ""
    ensures !IsSpace(RenderCore(m)[0]) && !IsSpace(RenderCore(m)[|RenderCore(m)| - 1])
  {
    RenderLabelsChars(m.labels);
    var core := RenderCore(m);
    hide IsTail, GoodPair;
    assert core[0] == m.name[0];
    assert core[|core| - 1] == m.token[|m.token| - 1];
  }

  lemma DropFirst(a: string, b: string, c: string)
    requires a != ""
    ensures (a + b + c)[1..] == a[1..] + b + c && (a + b + c)[0] == a[0]
  {
  }

  lemma DropLast(a: string, b: string, c: string)
    requires c != ""
    ensures var s := a + b + c; s[..|s| - 1] == a + b + c[..|c| - 1] && s[|s| - 1] == c[|c| - 1]
  {
  }

  /** Stripping leaves a text that starts and ends with no white space, and some of what is after it. */
  lemma {:induction false} StripKeepsCore(a: string, core: string, b: string) returns (tail: string)
    requires AllOf(a, IsSpace) && core != "" && !IsSpace(core[0]) && !IsSpace(core[|core| - 1]) && IsTail(b)
    ensures Strip(a + core + b) == core + tail && IsTail(tail)
    decreases |a| + |b|
  {
    hide IsSpace;
    if a != "" {
      DropFirst(a, core, b);
      tail := StripKeepsCore(a[1..], core, b);
    } else if b != "" && IsSpace(b[|b| - 1]) {
      DropLast(a, core, b);
      assert (a + core + b)[0] == core[0];
      tail := StripKeepsCore(a, core, b[..|b| - 1]);
    } else {
      tail := b;
      assert a + core + b == core + tail;
    }
  }

  lemma {:induction false} StripIsExact(a: string, core: string, b: string)
    requires AllOf(a, IsSpace) && AllOf(b, IsSpace)
    requires core != "" ==> !IsSpace(core[0]) && !IsSpace(core[|core| - 1])
    ensures Strip(a + core + b) == core
    decreases |a| + |b|
  {
    hide IsSpace;
    if a != "" {
      DropFirst(a, core, b);
      StripIsExact(a[1..], core, b);
    } else if b != "" && core == "" {
      assert a + core + b == b && a + core + b[1..] == b[1..];
      StripIsExact(a, core, b[1..]);
    } else if b != "" {
      DropLast(a, core, b);
      assert (a + core + b)[0] == core[0];
      StripIsExact(a, core, b[..|b| - 1]);
    } else {
      assert a + core + b == core;
    }
  }

  lemma SplitFirst(l: string, rest: string)
    requires AllOf(l, c => !IsLineBreak(c))
    ensures SplitLines(l + "\n" + rest) == [l] + SplitLines(rest)
  {
    var s := l + "\n" + rest;
    assert s == l + ("\n" + rest);
    RunExact(l, "\n" + rest, c => !IsLineBreak(c));
    assert s[..|l|] == l && s[|l| + 1..] == rest;
  }

  lemma RenderedLineHoldsNoBreak(l: Line)
    requires GoodLine(l)
    ensures AllOf(RenderLine(l), c => !IsLineBreak(c))
  {
    if l.Data? {
      RenderedCoreIsClean(l.m);
    }
  }

  lemma {:induction false} TextSplitsIntoLines(ls: seq<Line>)
    requires forall i :: 0 <= i < |ls| ==> GoodLine(ls[i])
    ensures SplitLines(RenderText(ls)) == Lines(ls)
  {
    hide SplitLines, GoodLine, RenderLine, AllOf;
    NoLines();
    if ls != [] {
      RenderedLineHoldsNoBreak(ls[0]);
      SplitFirst(RenderLine(ls[0]), RenderText(ls[1..]));
      TextSplitsIntoLines(ls[1..]);
      assert Lines(ls) == [RenderLine(ls[0])] + Lines(ls[1..]);
    }
  }

  lemma ParseRenderedLine<V>(l: Line, float: string -> Option<V>)
    requires GoodLine(l)
    ensures ParseLine(Strip(RenderLine(l)), float) ==
            if l.Noise? || float(l.m.token).None? then None
            else Some((l.m.name, (ToDict(l.m.labels), float(l.m.token).value)))
  {
    if l.Data? {
      var m := l.m;
      RenderedCoreIsClean(m);
      var tail := StripKeepsCore(l.indent, RenderCore(m), m.tail);
      MatchRendered(m, tail);
      LabelsRoundTrip(m.labels);
      MatchesExactlyWhen(RenderCore(m) + tail, m.name, RenderLabels(m.labels), m.token);
      ReadsNoComment(RenderCore(m) + tail, m.name, RenderLabels(m.labels), m.token);
    }
  }

  lemma {:induction false} LinesRoundTrip<V>(ls: seq<Line>, float: string -> Option<V>)
    requires forall i :: 0 <= i < |ls| ==> GoodLine(ls[i])
    ensures ParseLines(Lines(ls), float) == Collect(ls, float)
  {
    if ls != [] {
      var n := |ls| - 1;
      LinesRoundTrip(ls[..n], float);
      assert Lines(ls)[..n] == Lines(ls[..n]);
      ParseRenderedLine(ls[n], float);
    }
  }

  /** Parsing a rendered text returns exactly the samples printed into it. */
  lemma TextRoundTrip<V>(ls: seq<Line>, float: string -> Option<V>)
    requires forall i :: 0 <= i < |ls| ==> GoodLine(ls[i])
    ensures ParseLines(SplitLines(RenderText(ls)), float) == Collect(ls, float)
  {
    TextSplitsIntoLines(ls);
    LinesRoundTrip(ls, float);
  }

  /** The samples of one name, in the order of their lines. */
  function Named<V>(ls: seq<Line>, float: string -> Option<V>, name: string): seq<Sample<V>> {
    if ls == [] then []
    else
      var n := |ls| - 1;
      Named(ls[..n], float, name) +
      if ls[n].Data? && ls[n].m.name == name && float(ls[n].m.token).Some?
      then [(ToDict(ls[n].m.labels), float(ls[n].m.token).value)] else []
  }

  lemma {:induction false} CollectIsByName<V>(ls: seq<Line>, float: string -> Option<V>, name: string)
    ensures name in Collect(ls, float) <==> Named(ls, float, name) != []
    ensures name in Collect(ls, float) ==> Collect(ls, float)[name] == Named(ls, float, name)
  {
    if ls != [] {
      CollectIsByName(ls[..|ls| - 1], float, name);
    }
  }

  predicate IsNoise(line: string) { Strip(line) == "" || Strip(line)[0] == '#' }

  /** Parsing further lines on top of what is already there. */
  function ParseFrom<V>(samples: MetricSamples<V>, lines: seq<string>, float: string -> Option<V>): MetricSamples<V>
    decreases lines
  {
    if lines == [] then samples
    else ParseFrom(Add(samples, ParseLine(Strip(lines[0]), float)), lines[1..], float)
  }

  lemma {:induction false} ParseLinesConcat<V>(a: seq<string>, b: seq<string>, float: string -> Option<V>)
    ensures ParseLines(a + b, float) == ParseFrom(ParseLines(a, float), b, float)
    decreases b
  {
    if b == [] {
      assert a + b == a;
    } else {
      ParseLinesConcat(a + [b[0]], b[1..], float);
      assert a + b == (a + [b[0]]) + b[1..];
      assert (a + [b[0]])[..|a|] == a;
    }
  }

  lemma {:induction false} NoiseAddsNothing<V>(
      samples: MetricSamples<V>, noise: seq<string>, float: string -> Option<V>)
    requires forall i :: 0 <= i < |noise| ==> IsNoise(noise[i])
    ensures ParseFrom(samples, noise, float) == samples
    decreases noise
  {
    if noise != [] {
      NoiseAddsNothing(samples, noise[1..], float);
    }
  }

  /** Comments and blank lines put anywhere among the lines change nothing. */
  lemma NoiseLinesAreIgnored<V>(
      before: seq<string>, noise: seq<string>, after: seq<string>, float: string -> Option<V>)
    requires forall i :: 0 <= i < |noise| ==> IsNoise(noise[i])
    ensures ParseLines(before + (noise + after), float) == ParseLines(before + after, float)
  {
    hide ParseLines, ParseFrom;
    assert before + (noise + after) == before + noise + after;
    ParseLinesConcat(before + noise, after, float);
    ParseLinesConcat(before, noise, float);
    ParseLinesConcat(before, after, float);
    NoiseAddsNothing(ParseLines(before, float), noise, float);
  }

  /** A text may be cut here without cutting a line, or a carriage return from its line feed. */
  predicate CutsBetweenLines(before: string, after: string) {
    before == "" ||
    (IsLineBreak(before[|before| - 1]) && !(before[|before| - 1] == '\r' && after != "" && after[0] == '\n'))
  }

  /** One line and the break that ends it. */
  predicate EndsLine(br: string, rest: string) {
    br == "\r\n" || (|br| == 1 && IsLineBreak(br[0]) && !(br == "\r" && rest != "" && rest[0] == '\n'))
  }

  lemma BreakWidth(br: string, rest: string)
    requires EndsLine(br, rest)
    ensures var t := br + rest;
            t != "" && IsLineBreak(t[0]) && |br| == if t[0] == '\r' && |t| > 1 && t[1] == '\n' then 2 else 1
  {
  }

  lemma SplitFirstLine(l: string, br: string, rest: string)
    requires AllOf(l, c => !IsLineBreak(c)) && EndsLine(br, rest)
    ensures SplitLines(l + (br + rest)) == [l] + SplitLines(rest)
  {
    var t := br + rest;
    BreakWidth(br, rest);
    RunExact(l, t, c => !IsLineBreak(c));
    CutBehind(l, t, |br|);
    assert t[|br|..] == rest;
    hide AllOf, EndsLine, IsLineBreak;
    assert (l + t)[|l|] == t[0] && (|t| > 1 ==> (l + t)[|l| + 1] == t[1]);
  }

  lemma FirstBreak(a: string, b: string) returns (i: nat)
    requires a != "" && CutsBetweenLines(a, b)
    ensures i < |a| && AllOf(a[..i], c => !IsLineBreak(c)) && IsLineBreak(a[i])
    ensures IsLineBreak('\r') && IsLineBreak('\n')
  {
    i := Run(a, c => !IsLineBreak(c));
    assert forall k :: 0 <= k < i ==> a[..i][k] == a[k];
  }

  /** A text that is not empty and ends with a break has a first line. */
  lemma FirstLineOf(a: string, b: string) returns (l: string, br: string, rest: string)
    requires a != "" && CutsBetweenLines(a, b)
    ensures AllOf(l, c => !IsLineBreak(c)) && a == l + (br + rest)
    ensures EndsLine(br, rest) && EndsLine(br, rest + b) && CutsBetweenLines(rest, b)
  {
    var i := FirstBreak(a, b);
    hide IsLineBreak;
    l := a[..i];
    br := if a[i] == '\r' && i + 1 < |a| && a[i + 1] == '\n' then "\r\n" else [a[i]];
    rest := a[i + |br|..];
    assert rest != "" ==> rest[|rest| - 1] == a[|a| - 1] && rest[0] == a[i + |br|];
    assert rest != "" ==> (rest + b)[0] == rest[0];
  }

  lemma {:induction false} SplitConcat(a: string, b: string)
    requires CutsBetweenLines(a, b)
    ensures SplitLines(a + b) == SplitLines(a) + SplitLines(b)
    decreases |a|
  {
    hide SplitLines, CutsBetweenLines, EndsLine;
    if a == "" {
      NoLines();
      assert a + b == b;
    } else {
      var l, br, rest := FirstLineOf(a, b);
      assert br != "" by {
        BreakIsNotEmpty(br, rest);
      }
      SplitConcat(rest, b);
      SplitFirstLine(l, br, rest);
      SplitFirstLine(l, br, rest + b);
      assert a + b == l + (br + (rest + b));
    }
  }

  /** A last line needs no break. */
  lemma LastLineIsALine(l: string)
    requires IsUnbroken(l) && l != ""
    ensures SplitLines(l) == [l]
  {
  }

  lemma NoLines()
    ensures SplitLines("") == []
  {
  }

  lemma BreakIsNotEmpty(br: string, rest: string)
    requires EndsLine(br, rest)
    ensures br != ""
  {
  }

  /** Comment and blank lines put between any two lines of any text change nothing. */
  lemma NoiseIsIgnored<V>(before: string, noise: string, after: string, float: string -> Option<V>)
    requires CutsBetweenLines(before, noise + after) && CutsBetweenLines(before, after)
    requires CutsBetweenLines(noise, after)
    requires forall i :: 0 <= i < |SplitLines(noise)| ==> IsNoise(SplitLines(noise)[i])
    ensures ParseLines(SplitLines(before + noise + after), float) == ParseLines(SplitLines(before + after), float)
  {
    hide SplitLines, IsNoise, CutsBetweenLines, ParseLines;
    assert before + noise + after == before + (noise + after);
    SplitConcat(before, noise + after);
    SplitConcat(noise, after);
    SplitConcat(before, after);
    NoiseLinesAreIgnored(SplitLines(before), SplitLines(noise), SplitLines(after), float);
  }
}
