/** Character-level helpers: decimal digits, Python's `int()` on plain
    integer text, `str.split` on one separator and `str.strip()`. */
module Text {
  import opened Wrappers

  function Pow10(n: nat): (r: nat)
    ensures r >= 1
  {
    if n == 0 then 1 else 10 * Pow10(n - 1)
  }

  lemma {:induction false} Pow10Add(a: nat, b: nat)
    ensures Pow10(a + b) == Pow10(a) * Pow10(b)
  {
    if a > 0 {
      Pow10Add(a - 1, b);
    }
  }

  predicate IsDigit(c: char) {
    '0' <= c <= '9'
  }

  predicate AllDigits(s: string) {
    forall i :: 0 <= i < |s| ==> IsDigit(s[i])
  }

  function DigitValue(c: char): (d: nat)
    requires IsDigit(c)
    ensures d < 10
  {
    c as int - '0' as int
  }

  function DigitChar(d: nat): (c: char)
    requires d < 10
    ensures IsDigit(c) && DigitValue(c) == d
  {
    ('0' as int + d) as char
  }

  /** The number a string of decimal digits denotes ("" denotes 0). */
  function DigitsValue(s: string): nat
    requires AllDigits(s)
  {
    if s == [] then 0 else DigitsValue(s[..|s| - 1]) * 10 + DigitValue(s[|s| - 1])
  }

  lemma MulTen(x: int, p: int, y: int)
    ensures (x * p + y) * 10 == x * (10 * p) + y * 10
  {
  }

  /** The value of a concatenation: the left digits shifted by the length of
      the right ones. */
  lemma {:induction false} DigitsValueAppend(s: string, t: string)
    requires AllDigits(s) && AllDigits(t)
    ensures AllDigits(s + t)
    ensures DigitsValue(s + t) == DigitsValue(s) * Pow10(|t|) + DigitsValue(t)
    decreases |t|
  {
    if t == [] {
      assert s + t == s;
    } else {
      var u := t[..|t| - 1];
      DigitsValueAppend(s, u);
      assert (s + t)[..|s + t| - 1] == s + u;
      assert (s + t)[|s + t| - 1] == t[|t| - 1];
      MulTen(DigitsValue(s), Pow10(|u|), DigitsValue(u));
    }
  }

  /** Decimal digits of n without leading zeros, as Python's `str(n)` writes them. */
  function NatToDigits(n: nat): (s: string)
    ensures |s| >= 1 && AllDigits(s)
    ensures n >= 10 ==> |s| >= 2
  {
    if n < 10 then [DigitChar(n)] else NatToDigits(n / 10) + [DigitChar(n % 10)]
  }

  lemma {:induction false} NatToDigitsRoundTrip(n: nat)
    ensures DigitsValue(NatToDigits(n)) == n
  {
    if n >= 10 {
      NatToDigitsRoundTrip(n / 10);
      var s := NatToDigits(n);
      assert s[..|s| - 1] == NatToDigits(n / 10);
    }
  }

  /** Python's `str(i)` for an integer. */
  function IntToString(i: int): (s: string)
    ensures |s| >= 1
  {
    if i < 0 then "-" + NatToDigits(-i) else NatToDigits(i)
  }

  /** `f"{n:02d}"` for 0 <= n < 100. */
  function Pad2(n: nat): (s: string)
    requires n < 100
    ensures |s| == 2 && AllDigits(s) && DigitsValue(s) == n
  {
    var s := [DigitChar(n / 10), DigitChar(n % 10)];
    assert s[..1][..0] == [];
    assert DigitsValue(s[..1]) == n / 10;
    assert DigitsValue(s) == (n / 10) * 10 + n % 10;
    s
  }

  /** Decimal digits in which every underscore stands alone between two
      digits, the grouping Python's `int()` accepts ("1_000"). */
  predicate Grouped(s: string)
    decreases |s|
  {
    |s| > 0 && IsDigit(s[0]) &&
    (|s| == 1 || (if s[1] == '_' then Grouped(s[2..]) else Grouped(s[1..])))
  }

  /** `s` without its underscores. */
  function DropUnderscores(s: string): (r: string)
    ensures |r| <= |s|
  {
    if s == [] then [] else (if s[0] == '_' then [] else [s[0]]) + DropUnderscores(s[1..])
  }

  /** Text of digits only has no underscore to drop. */
  lemma {:induction false} DropNoUnderscores(s: string)
    requires AllDigits(s)
    ensures DropUnderscores(s) == s
    decreases |s|
  {
    if s != [] {
      assert AllDigits(s[1..]) by { assert forall k :: 0 <= k < |s| - 1 ==> s[1..][k] == s[k + 1]; }
      DropNoUnderscores(s[1..]);
      assert s == [s[0]] + s[1..];
    }
  }

  /** Dropping the underscores of grouped digits leaves digits only. */
  lemma {:induction false} GroupedDigits(s: string)
    requires Grouped(s)
    ensures AllDigits(DropUnderscores(s))
    decreases |s|
  {
    if |s| > 1 {
      if s[1] == '_' {
        GroupedDigits(s[2..]);
        assert DropUnderscores(s[1..]) == DropUnderscores(s[2..]);
      } else {
        GroupedDigits(s[1..]);
      }
    }
  }

  /** Plain digits are grouped. */
  lemma {:induction false} DigitsGrouped(s: string)
    requires |s| > 0 && AllDigits(s)
    ensures Grouped(s)
    decreases |s|
  {
    if |s| > 1 {
      assert IsDigit(s[1]);
      DigitsGrouped(s[1..]);
    }
  }

  /** Grouped digits read as a number; None for anything else. */
  function ParseGrouped(u: string): (r: Option<nat>)
    ensures r.Some? <==> Grouped(u)
  {
    if Grouped(u) then GroupedDigits(u); Some(DigitsValue(DropUnderscores(u)))
    else None
  }

  /** An optional sign followed by grouped digits. */
  function ParseSigned(t: string): Option<int> {
    if |t| > 0 && (t[0] == '+' || t[0] == '-') then
      match ParseGrouped(t[1..])
      case Some(v) => var n: int := v; Some(if t[0] == '-' then -n else n)
      case None => None
    else match ParseGrouped(t)
      case Some(v) => Some(v)
      case None => None
  }

  /** Python's `int(s)`: surrounding whitespace (`str.isspace`) is skipped,
      then an optional sign and ASCII decimal digits grouped by single
      underscores; anything else raises, modelled as None. Non-ASCII
      Unicode digits, which `int` also reads, give None here. */
  function ParseInt(s: string): Option<int> {
    if s != [] && IsSpace(s[0]) then ParseInt(s[1..])
    else if s != [] && IsSpace(s[|s| - 1]) then ParseInt(s[..|s| - 1])
    else ParseSigned(s)
  }

  /** Plain digits, as `str()` writes them, are read as they are. */
  lemma ParseDigits(s: string)
    requires |s| > 0 && AllDigits(s)
    ensures ParseInt(s) == Some(DigitsValue(s))
  {
    DigitNotSpace(s[0]);
    DigitNotSpace(s[|s| - 1]);
    DigitsGrouped(s);
    DropNoUnderscores(s);
  }

  lemma DigitNotSpace(c: char)
    requires IsDigit(c)
    ensures !IsSpace(c)
  {
  }

  /** Text that starts and ends with a non-space is its own strip. */
  lemma StripPlain(s: string)
    requires s != [] && !IsSpace(s[0]) && !IsSpace(s[|s| - 1])
    ensures Strip(s) == s
  {
  }

  /** A minus sign before plain digits negates their value. */
  lemma ParseNegatedDigits(s: string)
    requires |s| > 1 && s[0] == '-' && AllDigits(s[1..])
    ensures ParseInt(s) == Some(-(DigitsValue(s[1..]) as int))
  {
    assert !IsSpace(s[|s| - 1]) by {
      assert s[|s| - 1] == s[1..][|s| - 2];
      DigitNotSpace(s[|s| - 1]);
    }
    DigitsGrouped(s[1..]);
    DropNoUnderscores(s[1..]);
  }

  lemma ParseIntRoundTrip(i: int)
    ensures ParseInt(IntToString(i)) == Some(i)
  {
    if i < 0 {
      var s := IntToString(i);
      assert s[1..] == NatToDigits(-i);
      NatToDigitsRoundTrip(-i);
      assert DigitsValue(s[1..]) == -i;
      ParseNegatedDigits(s);
    } else {
      NatToDigitsRoundTrip(i);
      ParseDigits(NatToDigits(i));
    }
  }

  /** `int()` skips exactly the whitespace `str.strip()` removes and reads
      what is left. */
  lemma {:induction false} ParseIntStrip(s: string)
    ensures ParseInt(s) == ParseSigned(Strip(s))
    decreases |s|
  {
    if s != [] && IsSpace(s[0]) {
      ParseIntStrip(s[1..]);
      assert TrimStart(s) == TrimStart(s[1..]);
    } else if s != [] && IsSpace(s[|s| - 1]) {
      var t := s[..|s| - 1];
      ParseIntStrip(t);
      assert |s| > 1;
      assert t[0] == s[0];
      assert TrimStart(s) == s && TrimStart(t) == t;
      assert TrimEnd(s) == TrimEnd(t);
    } else if s != [] {
      StripPlain(s);
    }
  }

  /** Reading stripped text gives what reading the text gives. */
  lemma ParseIntStripped(s: string)
    ensures ParseInt(Strip(s)) == ParseInt(s)
  {
    ParseIntStrip(s);
    ParseIntStrip(Strip(s));
    StripTwice(s);
  }

  /** `int()` reads a number despite surrounding whitespace. */
  lemma ParseIntSpaced()
    ensures ParseInt(" 3") == Some(3) && ParseInt("12\n") == Some(12)
  {
    assert "12\n"[..2] == "12";
    assert DigitsValue("12") == 12 by { assert "12"[..1] == "1"; }
    ParseDigits("12");
  }

  /** A prefix of digits passes through `DropUnderscores` unchanged. */
  lemma {:induction false} DropUnderscoresDigitPrefix(s: string, i: nat)
    requires i <= |s| && AllDigits(s[..i])
    ensures DropUnderscores(s) == s[..i] + DropUnderscores(s[i..])
    decreases i
  {
    if i > 0 {
      assert s[..i][0] == s[0] && IsDigit(s[0]);
      var t := s[1..];
      assert t[..i - 1] == s[1..i] && t[i - 1..] == s[i..];
      DropUnderscoresDigitPrefix(t, i - 1);
      assert s[..i] == [s[0]] + t[..i - 1];
    }
  }

  /** Two runs of digits joined by one underscore, at position i, are
      grouped. */
  lemma {:induction false} GroupedAt(s: string, i: nat)
    requires 0 < i < |s| - 1 && s[i] == '_' && AllDigits(s[..i]) && AllDigits(s[i + 1..])
    ensures Grouped(s)
    decreases i
  {
    assert IsDigit(s[..i][0]);
    if i == 1 {
      DigitsGrouped(s[2..]);
    } else {
      var t := s[1..];
      assert t[..i - 1] == s[1..i] && t[i - 1 + 1..] == s[i + 1..];
      assert IsDigit(s[..i][1]);
      GroupedAt(t, i - 1);
    }
  }

  lemma DropUnderscoreAt(s: string, i: nat)
    requires i < |s| && s[i] == '_' && AllDigits(s[..i]) && AllDigits(s[i + 1..])
    ensures DropUnderscores(s) == s[..i] + s[i + 1..]
  {
    DropUnderscoresDigitPrefix(s, i);
    assert s[i..][1..] == s[i + 1..];
    DropNoUnderscores(s[i + 1..]);
  }

  /** `int()` ignores a single underscore between two runs of digits:
      "1_000" reads as 1000. */
  lemma UnderscoreIgnored(s: string, i: nat)
    requires 0 < i < |s| - 1 && s[i] == '_' && AllDigits(s[..i]) && AllDigits(s[i + 1..])
    ensures AllDigits(s[..i] + s[i + 1..])
    ensures ParseInt(s) == Some(DigitsValue(s[..i] + s[i + 1..]))
  {
    assert ParseInt(s) == ParseSigned(s) by {
      assert s[0] == s[..i][0] && s[|s| - 1] == s[i + 1..][|s| - i - 2];
      DigitNotSpace(s[0]);
      DigitNotSpace(s[|s| - 1]);
    }
    DropUnderscoreAt(s, i);
    GroupedAt(s, i);
  }

  /** `int()` refuses a doubled, leading or trailing underscore, a space
      after the sign, and text with no digits. */
  lemma ParseIntRefuses()
    ensures ParseInt("1__0") == None && ParseInt("_1") == None && ParseInt("1_") == None
    ensures ParseInt("- 3") == None && ParseInt("") == None && ParseInt(" ") == None
  {
  }

  /** Position of the first `x` in `s`, or |s| when there is none. */
  function IndexOf<T(==)>(s: seq<T>, x: T): (i: nat)
    ensures i <= |s|
    ensures i < |s| ==> s[i] == x
    ensures forall j :: 0 <= j < i ==> s[j] != x
  {
    if s == [] then 0 else if s[0] == x then 0 else 1 + IndexOf(s[1..], x)
  }

  /** An element that does not occur earlier is found at its own position. */
  lemma IndexOfFirst<T>(s: seq<T>, i: nat)
    requires i < |s|
    requires forall j :: 0 <= j < i ==> s[j] != s[i]
    ensures IndexOf(s, s[i]) == i
  {
    var k := IndexOf(s, s[i]);
    assert k <= i;
  }

  /** Python's `s.split(sep)` for a one-character separator. */
  function Split(s: string, sep: char): (parts: seq<string>)
    ensures |parts| >= 1
    ensures sep !in s ==> parts == [s]
    ensures forall k :: 0 <= k < |parts| ==> sep !in parts[k]
    decreases |s|
  {
    var i := IndexOf(s, sep);
    if i == |s| then [s]
    else
      assert sep !in s[..i];
      [s[..i]] + Split(s[i + 1..], sep)
  }

  /** `sep.join(parts)`. */
  function Join(parts: seq<string>, sep: char): string
    requires |parts| >= 1
  {
    if |parts| == 1 then parts[0] else parts[0] + [sep] + Join(parts[1..], sep)
  }

  lemma CutAt(s: string, i: nat)
    requires i < |s|
    ensures s == s[..i] + [s[i]] + s[i + 1..]
  {
  }

  /** Joining the parts of a split with the separator gives the text back. */
  lemma {:induction false} SplitJoin(s: string, sep: char)
    ensures Join(Split(s, sep), sep) == s
    decreases |s|
  {
    var i := IndexOf(s, sep);
    if i < |s| {
      var rest := Split(s[i + 1..], sep);
      SplitJoin(s[i + 1..], sep);
      var parts := [s[..i]] + rest;
      assert Split(s, sep) == parts;
      assert parts[0] == s[..i] && parts[1..] == rest;
      assert Join(parts, sep) == s[..i] + [sep] + s[i + 1..];
      CutAt(s, i);
    }
  }

  lemma SplitTwo(a: string, b: string, sep: char)
    requires sep !in a && sep !in b
    ensures Split(a + [sep] + b, sep) == [a, b]
  {
    var s := a + [sep] + b;
    var i := IndexOf(s, sep);
    assert forall j :: 0 <= j < |a| ==> s[j] == a[j];
    assert s[|a|] == sep;
    assert i == |a|;
    assert s[..i] == a && s[i + 1..] == b;
  }

  /** Whitespace as Python's `str.isspace()` defines it. */
  predicate IsSpace(c: char) {
    c == ' ' || '\t' <= c <= '\r' || '\U{1c}' <= c <= '\U{1f}' ||
    c == '\U{85}' || c == '\U{a0}' || c == '\U{1680}' || '\U{2000}' <= c <= '\U{200a}' ||
    c == '\U{2028}' || c == '\U{2029}' || c == '\U{202f}' || c == '\U{205f}' || c == '\U{3000}'
  }

  function TrimStart(s: string): (r: string)
    ensures |r| <= |s| && r == s[|s| - |r|..]
    ensures forall k :: 0 <= k < |s| - |r| ==> IsSpace(s[k])
    ensures r != [] ==> !IsSpace(r[0])
  {
    if s != [] && IsSpace(s[0]) then TrimStart(s[1..]) else s
  }

  function TrimEnd(s: string): (r: string)
    ensures |r| <= |s| && r == s[..|r|]
    ensures forall k :: |r| <= k < |s| ==> IsSpace(s[k])
    ensures r != [] ==> !IsSpace(r[|r| - 1])
  {
    if s != [] && IsSpace(s[|s| - 1]) then TrimEnd(s[..|s| - 1]) else s
  }

  /** Python's `s.strip()`: `s` without its leading and trailing whitespace. */
  function Strip(s: string): (r: string)
    ensures |r| <= |s|
    ensures r != [] ==> !IsSpace(r[0]) && !IsSpace(r[|r| - 1])
    ensures s != [] && !IsSpace(s[0]) && !IsSpace(s[|s| - 1]) ==> r == s
  {
    TrimEnd(TrimStart(s))
  }

  /** The stripped text is the slice of `s` that is left once the leading
      and the trailing whitespace are cut off. */
  lemma StripSlice(s: string)
    ensures var r := Strip(s);
      var lead := |s| - |TrimStart(s)|;
      lead + |r| <= |s| && r == s[lead..lead + |r|] &&
      (forall k :: 0 <= k < lead ==> IsSpace(s[k])) &&
      (forall k :: lead + |r| <= k < |s| ==> IsSpace(s[k]))
  {
    var t := TrimStart(s);
    var r := TrimEnd(t);
    var lead := |s| - |t|;
    assert t == s[lead..];
    assert r == t[..|r|];
    forall k | lead + |r| <= k < |s|
      ensures IsSpace(s[k])
    {
      assert s[k] == t[k - lead];
    }
  }

  /** Stripping twice strips nothing more. */
  lemma StripTwice(s: string)
    ensures Strip(Strip(s)) == Strip(s)
  {
    var r := Strip(s);
    if r == [] {
      assert TrimStart(r) == [];
    }
  }

  lemma TrimEndKeepsNonSpace(t: string)
    ensures t != [] && !IsSpace(t[0]) ==> TrimEnd(t) != []
  {
  }

  /** Stripping leaves nothing exactly when the text is all whitespace. */
  lemma StripEmpty(s: string)
    ensures Strip(s) == [] <==> forall k :: 0 <= k < |s| ==> IsSpace(s[k])
  {
    var t := TrimStart(s);
    var r := Strip(s);
    if r == [] {
      TrimEndKeepsNonSpace(t);
    } else {
      var k := |s| - |t|;
      assert s[k] == r[0];
      assert !IsSpace(s[k]);
    }
  }
}
