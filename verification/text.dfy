/** Character and string functions the source takes from Python's `str` and
    from the database's case-insensitive lookups. */
module Text {

  /** Upper-cases one character. Covers ASCII `a`-`z` and the basic Cyrillic
      lower-case letters (U+0430..U+044F and `ё`); every other character is
      its own upper case here. */
  function Upper(c: char): char {
    if 'a' <= c <= 'z' || '\U{0430}' <= c <= '\U{044F}' then (c as int - 32) as char
    else if c == '\U{0451}' then '\U{0401}'
    else c
  }

  /** `str.upper()`, character by character. */
  function UpperStr(s: string): (r: string)
    ensures |r| == |s|
    ensures forall i :: 0 <= i < |s| ==> r[i] == Upper(s[i])
  {
    seq(|s|, i requires 0 <= i < |s| => Upper(s[i]))
  }

  lemma UpperIdempotent(s: string)
    ensures UpperStr(UpperStr(s)) == UpperStr(s)
  {
  }

  /** Python's `string.hexdigits`: `0123456789abcdefABCDEF`. */
  predicate IsHexDigit(c: char) {
    '0' <= c <= '9' || 'a' <= c <= 'f' || 'A' <= c <= 'F'
  }

  predicate IsUpperHexDigit(c: char) {
    '0' <= c <= '9' || 'A' <= c <= 'F'
  }

  predicate AllHex(s: string) {
    forall i :: 0 <= i < |s| ==> IsHexDigit(s[i])
  }

  /** `s.lstrip(cs)`: drops leading characters that are in `cs`. */
  function StripLeft(s: string, cs: set<char>): (r: string)
    ensures |r| <= |s|
  {
    if s != [] && s[0] in cs then StripLeft(s[1..], cs) else s
  }

  /** `s.rstrip(cs)`: drops trailing characters that are in `cs`. */
  function StripRight(s: string, cs: set<char>): (r: string)
    ensures |r| <= |s|
  {
    if s != [] && s[|s| - 1] in cs then StripRight(s[..|s| - 1], cs) else s
  }

  /** `s.strip(cs)`. */
  function Strip(s: string, cs: set<char>): string {
    StripRight(StripLeft(s, cs), cs)
  }

  /** `lstrip` keeps a suffix, drops only characters of `cs`, and leaves a
      string that does not start with one. */
  lemma {:induction false} StripLeftSpec(s: string, cs: set<char>)
    ensures StripLeft(s, cs) == s[|s| - |StripLeft(s, cs)|..]
    ensures forall i :: 0 <= i < |s| - |StripLeft(s, cs)| ==> s[i] in cs
    ensures StripLeft(s, cs) != [] ==> StripLeft(s, cs)[0] !in cs
  {
    if s != [] && s[0] in cs {
      StripLeftSpec(s[1..], cs);
    }
  }

  /** `rstrip` keeps a prefix, drops only characters of `cs`, and leaves a
      string that does not end with one. */
  lemma {:induction false} StripRightSpec(s: string, cs: set<char>)
    ensures StripRight(s, cs) == s[..|StripRight(s, cs)|]
    ensures forall i :: |StripRight(s, cs)| <= i < |s| ==> s[i] in cs
    ensures StripRight(s, cs) != [] ==> StripRight(s, cs)[|StripRight(s, cs)| - 1] !in cs
  {
    if s != [] && s[|s| - 1] in cs {
      StripRightSpec(s[..|s| - 1], cs);
    }
  }

  /** `strip` keeps the window `s[a..a + |r|]` of `s`; everything outside it
      is in `cs`, and the window neither starts nor ends with a character of
      `cs`. */
  lemma StripSpec(s: string, cs: set<char>) returns (a: nat)
    ensures a + |Strip(s, cs)| <= |s|
    ensures Strip(s, cs) == s[a..a + |Strip(s, cs)|]
    ensures forall i :: 0 <= i < a ==> s[i] in cs
    ensures forall i :: a + |Strip(s, cs)| <= i < |s| ==> s[i] in cs
    ensures Strip(s, cs) != [] ==> Strip(s, cs)[0] !in cs && Strip(s, cs)[|Strip(s, cs)| - 1] !in cs
  {
    var l := StripLeft(s, cs);
    StripLeftSpec(s, cs);
    StripRightSpec(l, cs);
    a := |s| - |l|;
    assert forall i :: a <= i < |s| ==> s[i] == l[i - a];
  }

  /** A string that neither starts nor ends with a character of `cs` is left
      as it is by `strip`. */
  lemma StripUnchanged(s: string, cs: set<char>)
    requires s != [] ==> s[0] !in cs && s[|s| - 1] !in cs
    ensures Strip(s, cs) == s
  {
  }

  /** `q` occurs in `t` at offset `k`. */
  predicate OccursAt(t: string, q: string, k: nat) {
    k + |q| <= |t| && t[k..k + |q|] == q
  }

  /** `name__istartswith=q`: `q` is a prefix of `s` after upper-casing both. */
  predicate IStartsWith(s: string, q: string) {
    OccursAt(UpperStr(s), UpperStr(q), 0)
  }

  /** `name__icontains=q`: `q` occurs somewhere in `s` after upper-casing both. */
  predicate IContains(s: string, q: string) {
    exists k: nat | k <= |s| :: OccursAt(UpperStr(s), UpperStr(q), k)
  }

  lemma StartsWithContains(s: string, q: string)
    requires IStartsWith(s, q)
    ensures IContains(s, q)
  {
    assert OccursAt(UpperStr(s), UpperStr(q), 0);
  }

  function DigitChar(d: nat): char
    requires d < 10
  {
    ('0' as int + d) as char
  }

  predicate IsDigit(c: char) {
    '0' <= c <= '9'
  }

  /** `str(n)` for a non-negative integer: its decimal digits, no leading zero. */
  function NatToString(n: nat): (r: string)
    decreases n
    ensures |r| >= 1
    ensures forall i :: 0 <= i < |r| ==> IsDigit(r[i])
    ensures r[0] == '0' ==> n == 0 && r == "0"
  {
    if n < 10 then [DigitChar(n)] else NatToString(n / 10) + [DigitChar(n % 10)]
  }

  /** The value of a string of decimal digits. */
  function ParseNat(s: string): nat
    requires forall i :: 0 <= i < |s| ==> IsDigit(s[i])
  {
    if s == [] then 0
    else
      assert IsDigit(s[|s| - 1]);
      10 * ParseNat(s[..|s| - 1]) + (s[|s| - 1] as int - '0' as int)
  }

  /** Reading back the decimal rendering of `n` gives `n`. */
  lemma {:induction false} ParseNatToString(n: nat)
    decreases n
    ensures ParseNat(NatToString(n)) == n
  {
    if n >= 10 {
      var s := NatToString(n);
      assert s[..|s| - 1] == NatToString(n / 10);
      ParseNatToString(n / 10);
    }
  }

  predicate AllDigits(s: string) {
    forall i :: 0 <= i < |s| ==> IsDigit(s[i])
  }

  /** A decimal numeral with an optional leading minus sign. */
  predicate IsNumeral(s: string) {
    if |s| > 0 && s[0] == '-' then AllDigits(s[1..]) else AllDigits(s)
  }

  /** `str(n)` for any integer. */
  function IntToString(n: int): (r: string)
    ensures |r| >= 1 && IsNumeral(r)
    ensures r[0] == '-' <==> n < 0
  {
    if n < 0 then "-" + NatToString(-n) else NatToString(n)
  }

  /** `int(s)` for a numeral. */
  function ParseInt(s: string): int
    requires IsNumeral(s)
  {
    if |s| > 0 && s[0] == '-' then -(ParseNat(s[1..]) as int) else ParseNat(s)
  }

  /** Reading back the rendering of `n` gives `n`. */
  lemma ParseIntToString(n: int)
    ensures ParseInt(IntToString(n)) == n
  {
    if n < 0 {
      assert IntToString(n)[1..] == NatToString(-n);
      ParseNatToString(-n);
    } else {
      ParseNatToString(n);
    }
  }

  /** `sep.join(xs)`. */
  function Join(sep: string, xs: seq<string>): string {
    if |xs| == 0 then ""
    else if |xs| == 1 then xs[0]
    else xs[0] + sep + Join(sep, xs[1..])
  }

  /** The joined text has every item and every separator: its length is the
      items' total length plus one separator between each neighbouring pair. */
  lemma {:induction false} JoinLength(sep: string, xs: seq<string>)
    requires |xs| >= 1
    ensures |Join(sep, xs)| == TotalLength(xs) + (|xs| - 1) * |sep|
  {
    if |xs| > 1 {
      JoinLength(sep, xs[1..]);
      assert TotalLength(xs) == |xs[0]| + TotalLength(xs[1..]);
    }
  }

  function TotalLength(xs: seq<string>): nat {
    if xs == [] then 0 else |xs[0]| + TotalLength(xs[1..])
  }

  /** The joined text starts with its first item, followed by the separator
      when more items follow. */
  lemma JoinStartsWithFirst(sep: string, xs: seq<string>)
    requires |xs| >= 1
    ensures xs[0] <= Join(sep, xs)
    ensures |xs| >= 2 ==> xs[0] + sep <= Join(sep, xs)
  {
  }
}
