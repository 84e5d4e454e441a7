/** Splitting, joining and stripping strings, and decimal numerals as Go's strconv reads and writes them. */
module Text {
  import opened Wrappers

  /** The index of the first `c`, or the length of `s`. */
  function Until(s: string, c: char): (i: nat)
    ensures i <= |s| && (forall k :: 0 <= k < i ==> s[k] != c) && (i < |s| ==> s[i] == c)
  {
    if s == [] || s[0] == c then 0 else 1 + Until(s[1..], c)
  }

  lemma UntilIsFirst(s: string, c: char, i: nat)
    requires i <= |s| && c !in s[..i] && (i < |s| ==> s[i] == c)
    ensures Until(s, c) == i
  {
    forall k | 0 <= k < i
      ensures s[k] != c
    {
      assert s[k] == s[..i][k];
    }
  }

  /** `strings.Split` with a one-character separator: never empty. */
  function Split(s: string, sep: char): (parts: seq<string>)
    ensures parts != []
    ensures forall i :: 0 <= i < |parts| ==> sep !in parts[i]
    ensures |parts| == 1 <==> sep !in s
  {
    var i := Until(s, sep);
    if i == |s| then assert s[..i] == s; [s]
    else [s[..i]] + Split(s[i + 1..], sep)
  }

  function Join(parts: seq<string>, sep: char): string {
    if parts == [] then []
    else if |parts| == 1 then parts[0]
    else parts[0] + [sep] + Join(parts[1..], sep)
  }

  /** Splitting undoes joining, when no part holds the separator. */
  lemma {:induction false} SplitJoin(parts: seq<string>, sep: char)
    requires parts != [] && forall i :: 0 <= i < |parts| ==> sep !in parts[i]
    ensures Split(Join(parts, sep), sep) == parts
  {
    var s := Join(parts, sep);
    if |parts| == 1 {
      UntilIsFirst(s, sep, |s|);
    } else {
      assert s[..|parts[0]|] == parts[0];
      UntilIsFirst(s, sep, |parts[0]|);
      assert s[|parts[0]| + 1..] == Join(parts[1..], sep);
      SplitJoin(parts[1..], sep);
    }
  }

  /** A character of a joined text is the separator or comes from some part. */
  lemma {:induction false} JoinChars(parts: seq<string>, sep: char, c: char)
    requires c in Join(parts, sep)
    ensures c == sep || exists i :: 0 <= i < |parts| && c in parts[i]
  {
    if |parts| == 1 {
      assert c in parts[0];
    } else if c in parts[0] {
    } else if c != sep {
      JoinChars(parts[1..], sep, c);
      var i :| 0 <= i < |parts[1..]| && c in parts[1..][i];
      assert c in parts[i + 1];
    }
  }

  // ---------- White space, as Python's str has it ----------

  /** Where `str.splitlines` breaks. */
  predicate IsLineBreak(c: char) {
    c in {'\n', '\r', '\U{0B}', '\U{0C}', '\U{1C}', '\U{1D}', '\U{1E}', '\U{85}', '\U{2028}', '\U{2029}'}
  }

  /** `\s`, and what `str.strip` removes. */
  predicate IsSpace(c: char) {
    || IsLineBreak(c)
    || c in {'\t', ' ', '\U{1F}', '\U{A0}', '\U{1680}', '\U{202F}', '\U{205F}', '\U{3000}'}
    || '\U{2000}' <= c <= '\U{200A}'
  }

  /** The same by code point: those that end a line and, with them, all that is white space. */
  lemma WhiteSpaceByCodePoint(c: char)
    ensures var n := c as int;
            IsLineBreak(c) <==> 10 <= n <= 13 || 28 <= n <= 30 || n in {0x85, 0x2028, 0x2029}
    ensures var n := c as int;
            IsSpace(c) <==>
            || 9 <= n <= 13 || 28 <= n <= 32 || 0x2000 <= n <= 0x200A
            || n in {0x85, 0xA0, 0x1680, 0x2028, 0x2029, 0x202F, 0x205F, 0x3000}
  {
  }

  /** `str.strip`. */
  function Strip(s: string): string {
    if s == [] then []
    else if IsSpace(s[0]) then Strip(s[1..])
    else if IsSpace(s[|s| - 1]) then Strip(s[..|s| - 1])
    else s
  }

  // ---------- Decimal numerals ----------

  const MAX_INT := 0x7FFF_FFFF_FFFF_FFFF
  const MIN_INT := -0x8000_0000_0000_0000

  predicate IsDigit(c: char) { '0' <= c <= '9' }

  predicate AllDigits(s: string) { forall c :: c in s ==> IsDigit(c) }

  function Digit(d: nat): (c: char)
    requires d < 10
    ensures IsDigit(c) && c as int - '0' as int == d
  {
    (d + '0' as int) as char
  }

  /** The decimal numeral of a natural number. */
  function Numeral(n: nat): (s: string)
    ensures s != [] && AllDigits(s)
  {
    (if n < 10 then [] else Numeral(n / 10)) + [Digit(n % 10)]
  }

  /** The value of a string of digits, 0 for none. */
  function NumeralValue(s: string): nat
    requires AllDigits(s)
  {
    if s == [] then 0
    else
      var n := |s| - 1;
      assert s[n] in s;
      NumeralValue(s[..n]) * 10 + (s[n] as int - '0' as int)
  }

  lemma {:induction false} NumeralRoundTrip(n: nat)
    ensures NumeralValue(Numeral(n)) == n
  {
    var s := Numeral(n);
    if n < 10 {
      assert s[..0] == [];
    } else {
      assert s[..|s| - 1] == Numeral(n / 10);
      NumeralRoundTrip(n / 10);
    }
  }

  lemma NumeralIsInjective(m: nat, n: nat)
    requires Numeral(m) == Numeral(n)
    ensures m == n
  {
    NumeralRoundTrip(m);
    NumeralRoundTrip(n);
  }

  /** `strconv.Itoa`. */
  function Itoa(n: int): string {
    if n >= 0 then Numeral(n) else "-" + Numeral(-n)
  }

  /** `strconv.Atoi`: an optional sign and digits, within 64 bits; None is its error. */
  function Atoi(s: string): Option<int> {
    var signed := s != [] && (s[0] == '-' || s[0] == '+');
    var digits := if signed then s[1..] else s;
    if digits == [] || !AllDigits(digits) then None
    else
      var v := if signed && s[0] == '-' then -(NumeralValue(digits) as int) else NumeralValue(digits);
      if MIN_INT <= v <= MAX_INT then Some(v) else None
  }

  lemma AtoiOfNumeral(n: nat)
    requires n <= MAX_INT
    ensures Atoi(Numeral(n)) == Some(n)
  {
    assert Numeral(n)[0] in Numeral(n);
    NumeralRoundTrip(n);
  }

  /** The last digit counts once, those before it ten times. */
  lemma DigitsAreDecimal(s: string, c: char)
    requires AllDigits(s) && IsDigit(c)
    ensures AllDigits(s + [c]) && NumeralValue(s + [c]) == 10 * NumeralValue(s) + (c as int - '0' as int)
  {
    assert (s + [c])[..|s|] == s;
  }

  /** Zeros in front do not count. */
  lemma {:induction false} ZerosInFront(s: string)
    requires AllDigits(s)
    ensures AllDigits("0" + s) && NumeralValue("0" + s) == NumeralValue(s)
  {
    if s != [] {
      var n := |s| - 1;
      assert s[n] in s;
      ZerosInFront(s[..n]);
      DigitsAreDecimal("0" + s[..n], s[n]);
      assert "0" + s == "0" + s[..n] + [s[n]];
    } else {
      assert ("0" + s)[..0] == [];
    }
  }

  lemma {:induction false} NumeralHasNoZerosInFront(n: nat)
    ensures n > 0 ==> Numeral(n)[0] != '0'
    ensures n < 10 ==> |Numeral(n)| == 1
  {
    if n >= 10 {
      NumeralHasNoZerosInFront(n / 10);
    }
  }

  /** An optional sign and at least one digit, for a number of 64 bits. */
  predicate Spells(s: string, sign: string, digits: string, v: int) {
    && s == sign + digits && sign in {"", "+", "-"} && digits != "" && AllDigits(digits)
    && (if sign == "-" then v == 0 - NumeralValue(digits) else v == NumeralValue(digits))
    && MIN_INT <= v <= MAX_INT
  }

  /** What Atoi reads. */
  lemma AtoiExactlyWhen(s: string, v: int)
    ensures Atoi(s) == Some(v) <==> exists sign, digits :: Spells(s, sign, digits, v)
  {
    hide NumeralValue, AllDigits;
    if Atoi(s) == Some(v) {
      var sign := if s[0] == '-' then "-" else if s[0] == '+' then "+" else "";
      assert Spells(s, sign, s[|sign|..], v);
    }
    if sign, digits :| Spells(s, sign, digits, v) {
      SpelledIsRead(s, sign, digits, v);
    }
  }

  lemma SpelledIsRead(s: string, sign: string, digits: string, v: int)
    requires Spells(s, sign, digits, v)
    ensures Atoi(s) == Some(v)
  {
    hide NumeralValue;
    assert digits[0] in digits;
    assert s[|sign|..] == digits;
  }

  /** Atoi reads back what Itoa writes. */
  lemma AtoiOfItoa(n: int)
    requires MIN_INT <= n <= MAX_INT
    ensures Atoi(Itoa(n)) == Some(n)
    ensures n < 0 ==> Itoa(n) == "-" + Itoa(-n)
  {
    if n < 0 {
      NumeralRoundTrip(-n);
      assert Itoa(n)[1..] == Numeral(-n);
    } else {
      AtoiOfNumeral(n);
    }
  }

  lemma JoinFirst(part: string, rest: seq<string>, sep: char)
    requires rest != []
    ensures Join([part] + rest, sep) == part + [sep] + Join(rest, sep)
  {
    assert ([part] + rest)[1..] == rest;
  }

  lemma {:induction false} SplitAtFirst(a: string, sep: char, b: string)
    requires sep !in a
    ensures Split(a + [sep] + b, sep) == [a] + Split(b, sep)
  {
    var s := a + [sep] + b;
    assert s[..|a|] == a && s[|a| + 1..] == b && s[|a|] == sep;
    UntilIsFirst(s, sep, |a|);
    hide Until;
    assert Split(s, sep) == [s[..|a|]] + Split(s[|a| + 1..], sep);
  }

  lemma {:induction false} SplitWhole(s: string, sep: char)
    requires sep !in s
    ensures Split(s, sep) == [s]
  {
    assert s[..|s|] == s;
    UntilIsFirst(s, sep, |s|);
  }

  /** Joining undoes splitting. */
  lemma {:induction false} JoinSplit(s: string, sep: char)
    ensures Join(Split(s, sep), sep) == s
    decreases |s|
  {
    hide Split;
    if sep in s {
      var i := Until(s, sep);
      var a, b := s[..i], s[i + 1..];
      JoinSplit(b, sep);
      SplitAtFirst(a, sep, b);
      JoinFirst(a, Split(b, sep), sep);
      hide *;
      assert s == a + [sep] + b;
    } else {
      SplitWhole(s, sep);
    }
  }
}
