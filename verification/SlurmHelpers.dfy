/**
 * Slurm range lists, as slurm_helpers.go reads them in two places: `HostnameInList` tests
 * membership, `parseGRES` expands.
 */
module SlurmHelpers {
  import opened Wrappers
  import opened Text

  /** Ways not to return: a panic, or a loop that is never left. */
  datatype Failure = IndexOutOfRange | NeverReturns

  // ---------- A range loop on 64-bit integers ----------

  predicate IsInt(n: int) { MIN_INT <= n <= MAX_INT }

  /** `i++`, which wraps around. */
  function Increment(i: int): int { if i == MAX_INT then MIN_INT else i + 1 }

  /** The loop variable of `for i := st; i <= end; i++` after `k` rounds. */
  function Counter(st: int, k: nat): int {
    if k == 0 then st else Increment(Counter(st, k - 1))
  }

  predicate Stops(st: int, end: int) { st > end || end < MAX_INT }

  lemma {:induction false} CounterRises(st: int, k: nat)
    requires IsInt(st)
    ensures IsInt(Counter(st, k)) && (st + k <= MAX_INT ==> Counter(st, k) == st + k)
  {
    if k > 0 {
      CounterRises(st, k - 1);
    }
  }

  /** The loop is left exactly when the range is empty or ends below the largest integer. */
  lemma RangeStopsExactlyWhen(st: int, end: int)
    requires IsInt(st) && IsInt(end)
    ensures (exists k: nat :: Counter(st, k) > end) <==> Stops(st, end)
  {
    if st > end {
      assert Counter(st, 0) > end;
    } else if end < MAX_INT {
      CounterRises(st, end + 1 - st);
      assert Counter(st, end + 1 - st) > end;
    } else {
      forall k: nat
        ensures Counter(st, k) <= end
      {
        CounterRises(st, k);
      }
    }
  }

  // ---------- Entries ----------

  /** The inclusive bounds an entry stands for, None if it does not parse. */
  function EntryBounds(r: string): Option<(int, int)> {
    if '-' in r then
      var bounds := Split(r, '-');
      if Atoi(bounds[0]).None? || Atoi(bounds[1]).None? then None
      else Some((Atoi(bounds[0]).value, Atoi(bounds[1]).value))
    else if Atoi(r).None? then None
    else Some((Atoi(r).value, Atoi(r).value))
  }

  /** Only the loop over a range can fail to stop. */
  predicate EntryStops(r: string) {
    '-' in r && EntryBounds(r).Some? ==> Stops(EntryBounds(r).value.0, EntryBounds(r).value.1)
  }

  // ---------- parseGRES ----------

  /** The group of the leftmost match of `\(([^)]+)\)`. */
  function FirstGroup(s: string): Option<string> {
    if s == [] then None
    else
      var j := Until(s[1..], ')');
      if s[0] == '(' && 1 <= j < |s| - 1 then Some(s[1..][..j])
      else FirstGroup(s[1..])
  }

  /** The numerals of lo, lo + 1, ..., hi. */
  function Numerals(lo: int, hi: int): seq<string>
    decreases hi - lo
  {
    if lo > hi then [] else [Itoa(lo)] + Numerals(lo + 1, hi)
  }

  /** What one comma-separated entry contributes; an entry that does not parse is skipped. */
  function ExpandEntry(index: string): seq<string> {
    if '-' in index then
      var bounds := Split(index, '-');
      if Atoi(bounds[0]).None? || Atoi(bounds[1]).None? then []
      else Numerals(Atoi(bounds[0]).value, Atoi(bounds[1]).value)
    else if Atoi(index).Some? then [index]
    else []
  }

  function ExpandAll(indices: seq<string>): seq<string> {
    if indices == [] then []
    else ExpandAll(indices[..|indices| - 1]) + ExpandEntry(indices[|indices| - 1])
  }

  /** The text after the first colon; indexing a missing second part panics. */
  function AfterColon(s: string): Result<string, Failure> {
    var i := Until(s, ':');
    if i < |s| then Ok(s[i + 1..]) else Err(IndexOutOfRange)
  }

  function GresIndices(gresOut: string): Result<seq<string>, Failure> {
    var group := FirstGroup(gresOut);
    if group.None? then Ok([])
    else
      var list := AfterColon(group.value);
      if list.Err? then Err(list.error)
      else
        var entries := Split(list.value, ',');
        if forall i :: 0 <= i < |entries| ==> EntryStops(entries[i]) then Ok(ExpandAll(entries))
        else Err(NeverReturns)
  }

  /** A match of the expression for the group starts here. */
  predicate GroupAt(s: string, i: nat, group: string) {
    group != "" && ')' !in group && i <= |s| && "(" + group + ")" <= s[i..]
  }

  lemma GroupHere(s: string, group: string)
    requires s != ""
    ensures GroupAt(s, 0, group) <==>
            var j := Until(s[1..], ')');
            s[0] == '(' && 1 <= j < |s| - 1 && group == s[1..][..j]
  {
    assert s[0..] == s && s[0..][1..] == s[1..];
    if GroupAt(s, 0, group) {
      assert s[1..][..|group|] == group;
      UntilIsFirst(s[1..], ')', |group|);
    }
    var j := Until(s[1..], ')');
    if s[0] == '(' && 1 <= j < |s| - 1 && group == s[1..][..j] {
      assert s[..j + 2] == "(" + group + ")";
    }
  }

  lemma GroupFurtherOn(s: string, i: nat, group: string)
    requires s != ""
    ensures GroupAt(s[1..], i, group) <==> GroupAt(s, i + 1, group)
  {
    if i < |s| {
      assert s[1..][i..] == s[i + 1..];
    }
  }

  /** The group is that of the leftmost match. */
  lemma {:induction false} FirstGroupIsLeftmost(s: string) returns (i: nat)
    ensures FirstGroup(s).Some? ==> GroupAt(s, i, FirstGroup(s).value)
    ensures forall j: nat, group :: GroupAt(s, j, group) && (FirstGroup(s).Some? ==> j <= i) ==>
              FirstGroup(s) == Some(group) && j == i
  {
    i := 0;
    if s != "" {
      hide GroupAt;
      forall group
        ensures GroupAt(s, 0, group) <==>
                var j := Until(s[1..], ')');
                s[0] == '(' && 1 <= j < |s| - 1 && group == s[1..][..j]
      {
        GroupHere(s, group);
      }
      var j := Until(s[1..], ')');
      if !(s[0] == '(' && 1 <= j < |s| - 1) {
        var rest := FirstGroupIsLeftmost(s[1..]);
        i := rest + 1;
        forall k: nat, group | GroupAt(s, k, group)
          ensures k > 0 && GroupAt(s[1..], k - 1, group)
        {
          if k > 0 {
            GroupFurtherOn(s, k - 1, group);
          }
        }
        if FirstGroup(s).Some? {
          GroupFurtherOn(s, rest, FirstGroup(s).value);
        }
      }
    }
  }

  lemma {:induction false} NumeralsInOrder(lo: int, hi: int)
    ensures |Numerals(lo, hi)| == if lo <= hi then hi + 1 - lo else 0
    ensures forall k :: 0 <= k < |Numerals(lo, hi)| ==> Numerals(lo, hi)[k] == Itoa(lo + k)
    decreases hi - lo
  {
    hide Itoa;
    if lo <= hi {
      NumeralsInOrder(lo + 1, hi);
    }
  }

  lemma MoveFirst(indices: seq<string>, i: int, end: int)
    requires i <= end
    ensures indices + [Itoa(i)] + Numerals(i + 1, end) == indices + Numerals(i, end)
  {
    hide Itoa;
    assert Numerals(i, end) == [Itoa(i)] + Numerals(i + 1, end);
  }

  /** The inner loop of `parseGRES`; None is a loop that is never left. */
  method AppendRange(gpuIndices: seq<string>, st: int, end: int) returns (r: Option<seq<string>>)
    requires IsInt(st) && IsInt(end)
    ensures r.Some? <==> exists k: nat :: Counter(st, k) > end
    ensures r.Some? ==> r.value == gpuIndices + Numerals(st, end)
  {
    RangeStopsExactlyWhen(st, end);
    hide Counter, Itoa;
    if st <= end && end == MAX_INT {
      return None;
    }
    var indices := gpuIndices;
    var i := st;
    while i <= end
      invariant indices + Numerals(i, end) == gpuIndices + Numerals(st, end)
      invariant i <= end ==> end < MAX_INT
      decreases end - i
    {
      hide Numerals;
      MoveFirst(indices, i, end);
      indices := indices + [Itoa(i)];
      i := Increment(i);
    }
    return Some(indices);
  }

  /** The body of the loop over the entries; None if its range loop is never left. */
  method AppendEntry(gpuIndices: seq<string>, index: string) returns (r: Option<seq<string>>)
    ensures r.Some? <==> EntryStops(index)
    ensures r.Some? ==> r.value == gpuIndices + ExpandEntry(index)
  {
    hide Atoi, Numerals, Counter;
    r := Some(gpuIndices);
    assert gpuIndices + [] == gpuIndices;
    if '-' in index {
      var indexRange := Split(index, '-');
      var st, end := Atoi(indexRange[0]), Atoi(indexRange[1]);
      if st.Some? && end.Some? {
        AtoiIsInt(indexRange[0]);
        AtoiIsInt(indexRange[1]);
        RangeStopsExactlyWhen(st.value, end.value);
        r := AppendRange(gpuIndices, st.value, end.value);
      }
    } else if Atoi(index).Some? {
      r := Some(gpuIndices + [index]);
    }
  }

  lemma AtoiIsInt(s: string)
    requires Atoi(s).Some?
    ensures IsInt(Atoi(s).value)
  {
  }

  method ParseGRES(gresOut: string) returns (r: Result<seq<string>, Failure>)
    ensures r == GresIndices(gresOut)
  {
    hide FirstGroup, AfterColon, EntryStops, ExpandEntry;
    var gpuIndices: seq<string> := [];
    var indicesKey := FirstGroup(gresOut);
    if indicesKey.None? {
      return Ok(gpuIndices);
    }
    var indexString := AfterColon(indicesKey.value);
    if indexString.Err? {
      return Err(indexString.error);
    }
    var indices := Split(indexString.value, ',');
    for k := 0 to |indices|
      invariant gpuIndices == ExpandAll(indices[..k])
      invariant forall i :: 0 <= i < k ==> EntryStops(indices[i])
    {
      assert indices[..k + 1][..k] == indices[..k];
      var extended := AppendEntry(gpuIndices, indices[k]);
      if extended.None? {
        return Err(NeverReturns);
      }
      gpuIndices := extended.value;
    }
    assert indices[..|indices|] == indices;
    return Ok(gpuIndices);
  }

  /** Some entry is a range whose loop is never left. */
  ghost predicate IsEndless(list: string) {
    exists i :: 0 <= i < |Split(list, ',')| && !EntryStops(Split(list, ',')[i])
  }

  /** The panic, and the endless loop, each from the text alone. */
  lemma GresFailsExactlyWhen(gresOut: string)
    ensures GresIndices(gresOut) == Err(IndexOutOfRange) <==>
            FirstGroup(gresOut).Some? && ':' !in FirstGroup(gresOut).value
    ensures GresIndices(gresOut) == Err(NeverReturns) <==>
            && FirstGroup(gresOut).Some? && AfterColon(FirstGroup(gresOut).value).Ok?
            && IsEndless(AfterColon(FirstGroup(gresOut).value).value)
  {
    hide ExpandAll, FirstGroup, EntryStops, Split;
    var group := FirstGroup(gresOut);
    if group.Some? {
      var list := AfterColon(group.value);
      if ':' !in group.value {
        assert list == Err(IndexOutOfRange) && GresIndices(gresOut) == Err(list.error);
      } else if IsEndless(list.value) {
        assert GresIndices(gresOut) == Err(NeverReturns);
      } else {
        assert GresIndices(gresOut).Ok?;
      }
    }
  }

  /** A bracketed text without a colon panics. */
  lemma NoColonPanics()
    ensures GresIndices("(null)") == Err(IndexOutOfRange)
  {
    assert "(null)"[1..][..4] == "null" && "(null)"[0] == '(';
    UntilIsFirst("(null)"[1..], ')', 4);
    assert FirstGroup("(null)") == Some("null");
    assert ':' !in "null";
    GresFailsExactlyWhen("(null)");
  }

  // ---------- HostnameInList ----------

  predicate IsPrefixChar(c: char) {
    'a' <= c <= 'z' || 'A' <= c <= 'Z' || c == '-'
  }

  predicate IsPrefix(s: string) {
    s != [] && forall c :: c in s ==> IsPrefixChar(c)
  }

  /** The groups of `^([a-zA-Z-]+)\[(.+)\]$`: the prefix class cannot run past the first bracket. */
  function MatchHostlist(s: string): Option<(string, string)> {
    var i := Until(s, '[');
    if i + 3 <= |s| && IsPrefix(s[..i]) && s[|s| - 1] == ']' && '\n' !in s[i + 1..|s| - 1]
    then Some((s[..i], s[i + 1..|s| - 1]))
    else None
  }

  predicate Covers(bounds: Option<(int, int)>, n: int) {
    bounds.Some? && bounds.value.0 <= n <= bounds.value.1
  }

  /** Some entry covers `n`, and every entry before it parses. */
  ghost predicate CoveredBeforeError(ranges: seq<string>, n: int) {
    exists k :: 0 <= k < |ranges| && Covers(EntryBounds(ranges[k]), n)
                && forall j :: 0 <= j < k ==> EntryBounds(ranges[j]).Some?
  }

  ghost predicate IsListed(hostname: string, hostlist: string) {
    if '[' !in hostlist then hostname != "" && hostlist == hostname
    else
      var m := MatchHostlist(hostlist);
      && m.Some?
      && m.value.0 <= hostname
      && Atoi(hostname[|m.value.0|..]).Some?
      && CoveredBeforeError(Split(m.value.1, ','), Atoi(hostname[|m.value.0|..]).value)
  }

  method HostnameInList(hostname: string, hostlist: string) returns (found: bool)
    ensures found <==> IsListed(hostname, hostlist)
    ensures '[' !in hostlist ==> (found <==> hostname != "" && hostname == hostlist)
  {
    if '[' !in hostlist {
      if hostname == "" {
        return false;
      }
      return hostlist == hostname;
    }
    var matches := MatchHostlist(hostlist);
    if matches.None? {
      return false;
    }
    var (prefix, rangesStr) := matches.value;
    if !(prefix <= hostname) {
      return false;
    }
    var hostNum := Atoi(hostname[|prefix|..]);
    if hostNum.None? {
      return false;
    }
    found := SearchRanges(Split(rangesStr, ','), hostNum.value);
  }

  /** The loop of `HostnameInList` over the entries. */
  method SearchRanges(ranges: seq<string>, hostNum: int) returns (found: bool)
    ensures found <==> CoveredBeforeError(ranges, hostNum)
  {
    for k := 0 to |ranges|
      invariant forall j :: 0 <= j < k ==>
                  EntryBounds(ranges[j]).Some? && !Covers(EntryBounds(ranges[j]), hostNum)
    {
      var r := ranges[k];
      if '-' in r {
        var bounds := Split(r, '-');
        var start := Atoi(bounds[0]);
        if start.None? {
          assert EntryBounds(ranges[k]).None?;
          return false;
        }
        var end := Atoi(bounds[1]);
        if end.None? {
          assert EntryBounds(ranges[k]).None?;
          return false;
        }
        assert EntryBounds(ranges[k]) == Some((start.value, end.value));
        if hostNum >= start.value && hostNum <= end.value {
          return true;
        }
      } else {
        var index := Atoi(r);
        if index.None? {
          assert EntryBounds(ranges[k]).None?;
          return false;
        }
        assert EntryBounds(ranges[k]) == Some((index.value, index.value));
        if hostNum == index.value {
          return true;
        }
      }
    }
    return false;
  }

  /** The bracketed form of a list, cut as the expression cuts it. */
  lemma HostlistMatchesExactlyWhen(s: string, prefix: string, ranges: string)
    ensures MatchHostlist(s) == Some((prefix, ranges)) <==>
            IsPrefix(prefix) && ranges != "" && '\n' !in ranges && s == prefix + "[" + ranges + "]"
  {
    if MatchHostlist(s) == Some((prefix, ranges)) {
      assert s == s[..|prefix|] + [s[|prefix|]] + s[|prefix| + 1..|s| - 1] + [s[|s| - 1]];
    }
    if IsPrefix(prefix) && ranges != "" && '\n' !in ranges && s == prefix + "[" + ranges + "]" {
      MatchBrackets(prefix, ranges);
    }
  }

  // ---------- Well-formed lists mean the same in both ----------

  /** A number, or a range of numbers, as written in the list. */
  datatype Piece = Single(n: string) | Range(lo: string, hi: string)

  /** Whatever Atoi reads without a minus sign: zeros or a plus sign in front are no matter. */
  predicate IsNumber(t: string) { '-' !in t && Atoi(t).Some? }

  predicate GoodPiece(p: Piece) {
    match p
    case Single(n) => IsNumber(n)
    case Range(lo, hi) => IsNumber(lo) && IsNumber(hi)
  }

  function Value(t: string): int
    requires IsNumber(t)
  {
    Atoi(t).value
  }

  function Render(p: Piece): string {
    match p
    case Single(n) => n
    case Range(lo, hi) => lo + "-" + hi
  }

  function RenderAll(ps: seq<Piece>): seq<string> {
    seq(|ps|, i requires 0 <= i < |ps| => Render(ps[i]))
  }

  /** The list as Slurm prints it. */
  function RangeList(ps: seq<Piece>): string {
    Join(RenderAll(ps), ',')
  }

  predicate Holds(p: Piece, n: int)
    requires GoodPiece(p)
  {
    match p
    case Single(m) => n == Value(m)
    case Range(lo, hi) => Value(lo) <= n <= Value(hi)
  }

  ghost predicate GoodPieces(ps: seq<Piece>) {
    forall i :: 0 <= i < |ps| ==> GoodPiece(ps[i])
  }

  ghost predicate WellFormed(ps: seq<Piece>) { ps != [] && GoodPieces(ps) }

  /** `n` is in the union of the pieces. */
  ghost predicate Denotes(ps: seq<Piece>, n: int)
    requires GoodPieces(ps)
  {
    exists k :: 0 <= k < |ps| && Holds(ps[k], n)
  }

  predicate PieceStops(p: Piece)
    requires GoodPiece(p)
  {
    p.Range? ==> Stops(Value(p.lo), Value(p.hi))
  }

  ghost predicate AllStop(ps: seq<Piece>)
    requires GoodPieces(ps)
  {
    forall i :: 0 <= i < |ps| ==> PieceStops(ps[i])
  }

  lemma NumberChars(t: string, c: char)
    requires IsNumber(t) && c in t
    ensures IsDigit(c) || c == '+'
  {
    if c != t[0] {
      assert c in t[1..];
    }
  }

  lemma RenderChars(p: Piece, c: char)
    requires GoodPiece(p) && c in Render(p)
    ensures IsDigit(c) || c == '+' || c == '-'
  {
    hide IsNumber;
    match p
    case Single(n) => NumberChars(n, c);
    case Range(lo, hi) =>
      if c in lo {
        NumberChars(lo, c);
      } else if c in hi {
        NumberChars(hi, c);
      }
  }

  lemma SplitRendered(lo: string, hi: string)
    requires IsNumber(lo) && IsNumber(hi)
    ensures Split(Render(Range(lo, hi)), '-') == [lo, hi]
  {
    hide Atoi;
    var parts := [lo, hi];
    assert Join(parts, '-') == parts[0] + ['-'] + Join(parts[1..], '-');
    assert Join(parts, '-') == Render(Range(lo, hi));
    SplitJoin(parts, '-');
  }

  lemma RenderedEntry(p: Piece)
    requires GoodPiece(p)
    ensures EntryBounds(Render(p)) ==
            Some(if p.Single? then (Value(p.n), Value(p.n)) else (Value(p.lo), Value(p.hi)))
    ensures ExpandEntry(Render(p)) == if p.Single? then [p.n] else Numerals(Value(p.lo), Value(p.hi))
    ensures EntryStops(Render(p)) <==> PieceStops(p)
  {
    hide Atoi, Numerals;
    if p.Range? {
      SplitRendered(p.lo, p.hi);
      assert Render(p)[|p.lo|] == '-';
    }
  }

  lemma RangeListSplits(ps: seq<Piece>)
    requires WellFormed(ps)
    ensures Split(RangeList(ps), ',') == RenderAll(ps)
    ensures forall c :: c in RangeList(ps) ==> IsDigit(c) || c in {'+', '-', ','}
    ensures RangeList(ps) != []
  {
    hide GoodPiece, Render;
    var parts := RenderAll(ps);
    forall i | 0 <= i < |parts|
      ensures ',' !in parts[i]
    {
      if ',' in parts[i] {
        RenderChars(ps[i], ',');
      }
    }
    SplitJoin(parts, ',');
    forall c | c in RangeList(ps)
      ensures IsDigit(c) || c in {'+', '-', ','}
    {
      JoinChars(parts, ',', c);
      if c != ',' {
        var i :| 0 <= i < |parts| && c in parts[i];
        RenderChars(ps[i], c);
      }
    }
    RenderIsNotEmpty(ps[0]);
    assert parts[0] != [];
  }

  lemma RenderIsNotEmpty(p: Piece)
    requires GoodPiece(p)
    ensures Render(p) != []
  {
  }

  /**
   * Membership: for any host and any list of numbers and ranges, the host is listed exactly when it
   * is the prefix with a number in the union.
   */
  lemma HostListedIffDenoted(prefix: string, ps: seq<Piece>, host: string)
    requires IsPrefix(prefix) && WellFormed(ps)
    ensures IsListed(host, prefix + "[" + RangeList(ps) + "]") <==>
            && prefix <= host
            && Atoi(host[|prefix|..]).Some?
            && Denotes(ps, Atoi(host[|prefix|..]).value)
  {
    hide Atoi, IsPrefix, MatchHostlist, RangeList, CoveredBeforeError, Denotes, GoodPiece;
    var list := prefix + "[" + RangeList(ps) + "]";
    MatchRendered(prefix, ps);
    RangeListSplits(ps);
    assert list[|prefix|] == '[';
    if prefix <= host && Atoi(host[|prefix|..]).Some? {
      CoveredIffDenoted(ps, Atoi(host[|prefix|..]).value);
    }
  }

  lemma MatchRendered(prefix: string, ps: seq<Piece>)
    requires IsPrefix(prefix) && WellFormed(ps)
    ensures MatchHostlist(prefix + "[" + RangeList(ps) + "]") == Some((prefix, RangeList(ps)))
  {
    hide GoodPiece, RangeList, MatchHostlist;
    RangeListSplits(ps);
    MatchBrackets(prefix, RangeList(ps));
  }

  lemma MatchBrackets(prefix: string, ranges: string)
    requires IsPrefix(prefix) && ranges != [] && '\n' !in ranges
    ensures MatchHostlist(prefix + "[" + ranges + "]") == Some((prefix, ranges))
  {
    var list := prefix + "[" + ranges + "]";
    assert list[..|prefix|] == prefix && list[|prefix|] == '[' && list[|list| - 1] == ']';
    assert list[|prefix| + 1..|list| - 1] == ranges;
    UntilIsFirst(list, '[', |prefix|);
  }

  lemma CoveredIffDenoted(ps: seq<Piece>, n: int)
    requires WellFormed(ps)
    ensures CoveredBeforeError(RenderAll(ps), n) <==> Denotes(ps, n)
  {
    forall k | 0 <= k < |ps|
      ensures EntryBounds(RenderAll(ps)[k]).Some?
      ensures Covers(EntryBounds(RenderAll(ps)[k]), n) <==> Holds(ps[k], n)
    {
      RenderedEntry(ps[k]);
    }
    hide EntryBounds, Holds, GoodPiece, Covers;
    if Denotes(ps, n) {
      var k :| 0 <= k < |ps| && Holds(ps[k], n);
      assert Covers(EntryBounds(RenderAll(ps)[k]), n);
    }
  }

  /** The entries of a list in the order of its pieces: numbers as written, ranges number by number. */
  function Members(ps: seq<Piece>): seq<string>
    requires GoodPieces(ps)
  {
    if ps == [] then []
    else
      var p := ps[|ps| - 1];
      Members(ps[..|ps| - 1]) + (if p.Single? then [p.n] else Numerals(Value(p.lo), Value(p.hi)))
  }

  /** Expansion: `parseGRES` yields the members, piece by piece, unless a range loop is never left. */
  lemma GresExpandsToMembers(head: string, tag: string, ps: seq<Piece>, tail: string)
    requires '(' !in head && ':' !in tag && ')' !in tag && WellFormed(ps)
    ensures GresIndices(head + "(" + tag + ":" + RangeList(ps) + ")" + tail) ==
            if AllStop(ps) then Ok(Members(ps)) else Err(NeverReturns)
  {
    GresSplits(head, tag, ps, tail);
    ExpandRendered(ps);
    forall i | 0 <= i < |ps|
      ensures EntryStops(RenderAll(ps)[i]) <==> PieceStops(ps[i])
    {
      RenderedEntry(ps[i]);
    }
    hide FirstGroup, AfterColon, RangeList, EntryStops, PieceStops, GoodPiece;
    var gres := GresIndices(head + "(" + tag + ":" + RangeList(ps) + ")" + tail);
    assert gres.Err? ==> gres.error == NeverReturns;
  }

  lemma GresSplits(head: string, tag: string, ps: seq<Piece>, tail: string)
    requires '(' !in head && ':' !in tag && ')' !in tag && WellFormed(ps)
    ensures var group := FirstGroup(head + "(" + tag + ":" + RangeList(ps) + ")" + tail);
            group.Some? && AfterColon(group.value) == Ok(RangeList(ps))
    ensures Split(RangeList(ps), ',') == RenderAll(ps)
  {
    hide GoodPiece, FirstGroup, AfterColon, RangeList;
    var list := RangeList(ps);
    var body := tag + ":" + list;
    RangeListSplits(ps);
    assert ')' !in body;
    FirstGroupOf(head, body, tail);
    assert head + "(" + body + ")" + tail == head + "(" + tag + ":" + list + ")" + tail;
    ColonSplits(tag, list);
  }

  lemma ColonSplits(tag: string, list: string)
    requires ':' !in tag
    ensures AfterColon(tag + ":" + list) == Ok(list)
  {
    var body := tag + ":" + list;
    assert body[..|tag|] == tag && body[|tag| + 1..] == list && body[|tag|] == ':';
    UntilIsFirst(body, ':', |tag|);
  }

  lemma {:induction false} FirstGroupOf(head: string, body: string, tail: string)
    requires '(' !in head && ')' !in body && body != []
    ensures FirstGroup(head + "(" + body + ")" + tail) == Some(body)
  {
    var s := head + "(" + body + ")" + tail;
    if head == [] {
      assert s[1..] == body + ")" + tail;
      assert s[1..][..|body|] == body;
      UntilIsFirst(s[1..], ')', |body|);
    } else {
      assert s[0] == head[0];
      assert s[1..] == head[1..] + "(" + body + ")" + tail;
      FirstGroupOf(head[1..], body, tail);
    }
  }

  lemma {:induction false} ExpandRendered(ps: seq<Piece>)
    requires GoodPieces(ps)
    ensures ExpandAll(RenderAll(ps)) == Members(ps)
  {
    if ps != [] {
      hide GoodPiece, Render, ExpandEntry;
      var n := |ps| - 1;
      ExpandRendered(ps[..n]);
      assert RenderAll(ps)[..n] == RenderAll(ps[..n]);
      RenderedEntry(ps[n]);
    }
  }

  /** Some entry of an expansion is the number `n`. */
  ghost predicate HasMember(entries: seq<string>, n: int) {
    exists k :: 0 <= k < |entries| && Atoi(entries[k]) == Some(n)
  }

  lemma HasMemberConcat(a: seq<string>, b: seq<string>, n: int)
    ensures HasMember(a + b, n) <==> HasMember(a, n) || HasMember(b, n)
  {
    hide Atoi;
    if HasMember(a, n) {
      var k :| 0 <= k < |a| && Atoi(a[k]) == Some(n);
      assert (a + b)[k] == a[k];
    }
    if HasMember(b, n) {
      var k :| 0 <= k < |b| && Atoi(b[k]) == Some(n);
      assert (a + b)[|a| + k] == b[k];
    }
  }

  lemma {:induction false} RangeMember(lo: nat, hi: int, n: int)
    requires hi <= MAX_INT
    ensures HasMember(Numerals(lo, hi), n) <==> lo <= n <= hi
    decreases hi - lo
  {
    hide Atoi, Numeral;
    if lo <= hi {
      RangeMember(lo + 1, hi, n);
      AtoiOfNumeral(lo);
      HasMemberConcat([Itoa(lo)], Numerals(lo + 1, hi), n);
      assert [Itoa(lo)][0] == Numeral(lo);
      assert HasMember([Itoa(lo)], n) <==> n == lo;
    }
  }

  lemma DenotesLast(ps: seq<Piece>, n: int)
    requires WellFormed(ps)
    ensures Denotes(ps, n) <==> Denotes(ps[..|ps| - 1], n) || Holds(ps[|ps| - 1], n)
  {
    hide GoodPiece, Holds;
    var k := |ps| - 1;
    assert forall i :: 0 <= i < k ==> ps[..k][i] == ps[i];
  }

  lemma NumberIsNotNegative(t: string)
    requires IsNumber(t)
    ensures 0 <= Value(t) <= MAX_INT
  {
  }

  lemma PieceMember(p: Piece, n: int)
    requires GoodPiece(p)
    ensures HasMember(if p.Single? then [p.n] else Numerals(Value(p.lo), Value(p.hi)), n) <==> Holds(p, n)
  {
    match p
    case Single(m) => assert [m][0] == m;
    case Range(lo, hi) =>
      NumberIsNotNegative(lo);
      NumberIsNotNegative(hi);
      RangeMember(Value(lo), Value(hi), n);
  }

  lemma {:induction false} MemberIffDenoted(ps: seq<Piece>, n: int)
    requires GoodPieces(ps)
    ensures HasMember(Members(ps), n) <==> Denotes(ps, n)
  {
    if ps != [] {
      hide GoodPiece, HasMember, Denotes, Holds;
      var k := |ps| - 1;
      MemberIffDenoted(ps[..k], n);
      DenotesLast(ps, n);
      PieceMember(ps[k], n);
      HasMemberConcat(
        Members(ps[..k]), if ps[k].Single? then [ps[k].n] else Numerals(Value(ps[k].lo), Value(ps[k].hi)), n);
    } else {
      assert Members(ps) == [];
    }
  }

  /**
   * One list, two readers: unless an endless range keeps `parseGRES` from returning, a host is listed
   * exactly when it is the prefix with a number among the expanded indices.
   */
  lemma MembershipAgreesWithExpansion(
      prefix: string, host: string, head: string, tag: string, ps: seq<Piece>, tail: string)
    requires IsPrefix(prefix) && '(' !in head && ':' !in tag && ')' !in tag && WellFormed(ps)
    ensures var gres := GresIndices(head + "(" + tag + ":" + RangeList(ps) + ")" + tail);
            && (gres.Ok? <==> AllStop(ps))
            && (gres.Ok? ==>
                  (IsListed(host, prefix + "[" + RangeList(ps) + "]") <==>
                   && prefix <= host
                   && Atoi(host[|prefix|..]).Some?
                   && HasMember(gres.value, Atoi(host[|prefix|..]).value)))
  {
    hide GresIndices, IsListed, RangeList, Atoi, HasMember, Denotes, Members, GoodPiece, IsPrefix, AllStop;
    HostListedIffDenoted(prefix, ps, host);
    GresExpandsToMembers(head, tag, ps, tail);
    if prefix <= host && Atoi(host[|prefix|..]).Some? {
      MemberIffDenoted(ps, Atoi(host[|prefix|..]).value);
    }
  }

  /** Numbers written as Itoa writes them. */
  ghost predicate Canonical(ps: seq<Piece>)
    requires GoodPieces(ps)
  {
    forall i :: 0 <= i < |ps| && ps[i].Single? ==> ps[i].n == Itoa(Value(ps[i].n))
  }

  lemma {:induction false} NumeralIn(lo: nat, hi: int, n: nat)
    ensures Numeral(n) in Numerals(lo, hi) <==> lo <= n <= hi
    decreases hi - lo
  {
    hide Numeral;
    if lo <= hi {
      NumeralIn(lo + 1, hi, n);
      if Numeral(n) == Numeral(lo) {
        NumeralIsInjective(n, lo);
      }
      assert Numerals(lo, hi) == [Numeral(lo)] + Numerals(lo + 1, hi);
    }
  }

  /** Then the numeral of a number is among the indices exactly when the number is in the union. */
  lemma {:induction false} NumeralIffDenoted(ps: seq<Piece>, n: nat)
    requires GoodPieces(ps) && Canonical(ps)
    ensures Numeral(n) in Members(ps) <==> Denotes(ps, n)
  {
    if ps != [] {
      hide GoodPiece, Denotes, Numeral, IsNumber, Atoi, Numerals;
      var k := |ps| - 1;
      var p := ps[k];
      NumeralIffDenoted(ps[..k], n);
      DenotesLast(ps, n);
      PieceNumeral(p, n);
    }
  }

  lemma PieceNumeral(p: Piece, n: nat)
    requires GoodPiece(p) && (p.Single? ==> p.n == Itoa(Value(p.n)))
    ensures Numeral(n) in (if p.Single? then [p.n] else Numerals(Value(p.lo), Value(p.hi))) <==> Holds(p, n)
  {
    match p
    case Single(m) =>
      NumberIsNotNegative(m);
      if Numeral(n) == m {
        NumeralIsInjective(n, Value(m));
      }
    case Range(lo, hi) =>
      NumberIsNotNegative(lo);
      NumberIsNotNegative(hi);
      NumeralIn(Value(lo), Value(hi), n);
  }

  /** The list (IDX:9223372036854775807-9223372036854775807): one member, and a loop that is never left. */
  lemma LargestIntegerNeverReturns(tail: string)
    ensures GresIndices("" + "(" + "IDX" + ":" + (Numeral(MAX_INT) + "-" + Numeral(MAX_INT)) + ")" + tail) ==
            Err(NeverReturns)
  {
    hide Numeral, GresIndices, Atoi;
    var n := Numeral(MAX_INT);
    var ps := [Range(n, n)];
    NumeralIsNumber(MAX_INT);
    assert GoodPieces(ps);
    GresExpandsToMembers("", "IDX", ps, tail);
    assert RenderAll(ps) == [n + "-" + n];
    assert RangeList(ps) == n + "-" + n;
    assert !PieceStops(ps[0]);
  }

  lemma NumeralIsNumber(n: nat)
    requires n <= MAX_INT
    ensures IsNumber(Numeral(n)) && Value(Numeral(n)) == n
  {
    AtoiOfNumeral(n);
    assert !IsDigit('-');
  }

  // ---------- Any entries ----------

  /** Of an entry with dashes only the first two parts are read. */
  lemma EntryOfParts(parts: seq<string>)
    requires |parts| >= 2 && forall i :: 0 <= i < |parts| ==> '-' !in parts[i]
    ensures var r, lo, hi := Join(parts, '-'), Atoi(parts[0]), Atoi(parts[1]);
            if lo.None? || hi.None? then EntryBounds(r).None? && ExpandEntry(r) == []
            else EntryBounds(r) == Some((lo.value, hi.value)) && ExpandEntry(r) == Numerals(lo.value, hi.value)
  {
    hide Atoi, Numerals;
    SplitJoin(parts, '-');
    assert Join(parts, '-')[|parts[0]|] == '-';
  }

  lemma EntryWithoutDash(r: string)
    requires '-' !in r
    ensures if Atoi(r).None? then EntryBounds(r).None? && ExpandEntry(r) == []
            else EntryBounds(r) == Some((Atoi(r).value, Atoi(r).value)) && ExpandEntry(r) == [r]
  {
    hide Atoi;
  }

  lemma ExpandAppend(entries: seq<string>, r: string)
    ensures ExpandAll([]) == []
    ensures ExpandAll(entries + [r]) == ExpandAll(entries) + ExpandEntry(r)
  {
    assert (entries + [r])[..|entries|] == entries;
  }

  lemma WithoutDashIsNotNegative(t: string)
    requires '-' !in t && Atoi(t).Some?
    ensures 0 <= Atoi(t).value <= MAX_INT
  {
  }

  /** An entry expands to exactly the numbers that it covers. */
  lemma EntryExpandsToCovered(r: string, n: int)
    ensures HasMember(ExpandEntry(r), n) <==> Covers(EntryBounds(r), n)
  {
    hide Atoi, Numerals;
    if '-' in r {
      var bounds := Split(r, '-');
      if Atoi(bounds[0]).Some? && Atoi(bounds[1]).Some? {
        WithoutDashIsNotNegative(bounds[0]);
        WithoutDashIsNotNegative(bounds[1]);
        RangeMember(Atoi(bounds[0]).value, Atoi(bounds[1]).value, n);
      }
    } else if Atoi(r).Some? {
      assert [r][0] == r;
    }
  }

  lemma NoMember(n: int)
    ensures ExpandAll([]) == [] && !HasMember([], n)
  {
  }

  /** Whatever the entries are, the expansion has exactly the numbers that some entry covers. */
  lemma {:induction false} ExpansionHasTheCovered(entries: seq<string>, n: int)
    ensures HasMember(ExpandAll(entries), n) <==>
            exists k :: 0 <= k < |entries| && Covers(EntryBounds(entries[k]), n)
  {
    hide ExpandEntry, EntryBounds, Covers, HasMember, ExpandAll, Atoi;
    if entries != [] {
      var k := |entries| - 1;
      ExpansionHasTheCovered(entries[..k], n);
      assert forall i :: 0 <= i < k ==> entries[..k][i] == entries[i];
      EntryExpandsToCovered(entries[k], n);
      assert entries == entries[..k] + [entries[k]];
      ExpandAppend(entries[..k], entries[k]);
      HasMemberConcat(ExpandAll(entries[..k]), ExpandEntry(entries[k]), n);
    } else {
      NoMember(n);
    }
  }

  /** The first entry that covers the number comes after one that does not parse. */
  ghost predicate CoveredAfterError(ranges: seq<string>, n: int) {
    exists k :: 0 <= k < |ranges| && EntryBounds(ranges[k]).None?
                && (forall j :: 0 <= j < k ==> !Covers(EntryBounds(ranges[j]), n))
                && exists j :: k < j < |ranges| && Covers(EntryBounds(ranges[j]), n)
  }

  /** Membership stops at an entry that does not parse and expansion skips it: they differ exactly there. */
  lemma ReadersAgreeExactlyWhen(ranges: seq<string>, n: int)
    ensures (CoveredBeforeError(ranges, n) <==> HasMember(ExpandAll(ranges), n)) <==> !CoveredAfterError(ranges, n)
  {
    ExpansionHasTheCovered(ranges, n);
    hide EntryBounds, ExpandAll, HasMember;
    if exists k :: 0 <= k < |ranges| && Covers(EntryBounds(ranges[k]), n) {
      var k := FirstCovering(ranges, n);
      if forall j :: 0 <= j < k ==> EntryBounds(ranges[j]).Some? {
        assert CoveredBeforeError(ranges, n);
      } else {
        var j :| 0 <= j < k && EntryBounds(ranges[j]).None?;
        assert CoveredAfterError(ranges, n);
      }
    }
  }

  lemma FirstCovering(ranges: seq<string>, n: int) returns (k: nat)
    requires exists j :: 0 <= j < |ranges| && Covers(EntryBounds(ranges[j]), n)
    ensures k < |ranges| && Covers(EntryBounds(ranges[k]), n)
    ensures forall j :: 0 <= j < k ==> !Covers(EntryBounds(ranges[j]), n)
  {
    hide EntryBounds, Covers;
    k := 0;
    while !Covers(EntryBounds(ranges[k]), n)
      invariant k < |ranges| && forall j :: 0 <= j < k ==> !Covers(EntryBounds(ranges[j]), n)
      decreases |ranges| - k
    {
      k := k + 1;
    }
  }

  /** For any list text in brackets: a host with a number is listed where the expansion has the number, but for that. */
  lemma AnyListExactlyWhen(prefix: string, host: string, head: string, tag: string, list: string, tail: string, n: int)
    requires IsPrefix(prefix) && list != "" && '\n' !in list && ')' !in list && !IsEndless(list)
    requires '(' !in head && ':' !in tag && ')' !in tag
    requires prefix <= host && Atoi(host[|prefix|..]) == Some(n)
    ensures var gres := GresIndices(head + "(" + tag + ":" + list + ")" + tail);
            && gres.Ok?
            && ((IsListed(host, prefix + "[" + list + "]") <==> HasMember(gres.value, n)) <==>
                !CoveredAfterError(Split(list, ','), n))
  {
    hide Atoi, IsPrefix, ExpandAll, HasMember, CoveredBeforeError, CoveredAfterError, MatchHostlist, FirstGroup,
         AfterColon, EntryStops;
    var body := tag + ":" + list;
    FirstGroupOf(head, body, tail);
    assert head + "(" + body + ")" + tail == head + "(" + tag + ":" + list + ")" + tail;
    ColonSplits(tag, list);
    MatchBrackets(prefix, list);
    assert (prefix + "[" + list + "]")[|prefix|] == '[';
    ReadersAgreeExactlyWhen(Split(list, ','), n);
  }
}
