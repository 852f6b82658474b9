/**
  * Character and string helpers with the semantics of the Python and
  * JavaScript primitives the application uses: ASCII digits and decimal
  * conversion (`parseInt`, `str(int)`), Python's `str.isdigit`,
  * `str.split`, `str.join`, `str.endswith`, `in` on strings and
  * `str.replace`.
  */
module Text {

  /** An ASCII decimal digit: what JavaScript's `\d`, `parseInt` and Python's `str(int)` use. */
  predicate IsDigit(c: char) {
    '0' <= c <= '9'
  }

  /**
    * Python's `str.isdigit` on one character: the characters whose Unicode
    * Numeric_Type is Decimal or Digit, as in the Unicode 15.0 character
    * database of Python 3.12 (808 characters in 83 ranges). Besides the
    * ASCII digits it accepts, for instance, superscripts, the Arabic-Indic
    * digits and circled digits.
    */
  predicate StrIsDigit(c: char) {
    || '0' <= c <= '9'
    || '\U{B2}' <= c <= '\U{B3}'
    || c == '\U{B9}'
    || '\U{660}' <= c <= '\U{669}'
    || '\U{6F0}' <= c <= '\U{6F9}'
    || '\U{7C0}' <= c <= '\U{7C9}'
    || '\U{966}' <= c <= '\U{96F}'
    || '\U{9E6}' <= c <= '\U{9EF}'
    || '\U{A66}' <= c <= '\U{A6F}'
    || '\U{AE6}' <= c <= '\U{AEF}'
    || '\U{B66}' <= c <= '\U{B6F}'
    || '\U{BE6}' <= c <= '\U{BEF}'
    || '\U{C66}' <= c <= '\U{C6F}'
    || '\U{CE6}' <= c <= '\U{CEF}'
    || '\U{D66}' <= c <= '\U{D6F}'
    || '\U{DE6}' <= c <= '\U{DEF}'
    || '\U{E50}' <= c <= '\U{E59}'
    || '\U{ED0}' <= c <= '\U{ED9}'
    || '\U{F20}' <= c <= '\U{F29}'
    || '\U{1040}' <= c <= '\U{1049}'
    || '\U{1090}' <= c <= '\U{1099}'
    || '\U{1369}' <= c <= '\U{1371}'
    || '\U{17E0}' <= c <= '\U{17E9}'
    || '\U{1810}' <= c <= '\U{1819}'
    || '\U{1946}' <= c <= '\U{194F}'
    || '\U{19D0}' <= c <= '\U{19DA}'
    || '\U{1A80}' <= c <= '\U{1A89}'
    || '\U{1A90}' <= c <= '\U{1A99}'
    || '\U{1B50}' <= c <= '\U{1B59}'
    || '\U{1BB0}' <= c <= '\U{1BB9}'
    || '\U{1C40}' <= c <= '\U{1C49}'
    || '\U{1C50}' <= c <= '\U{1C59}'
    || c == '\U{2070}'
    || '\U{2074}' <= c <= '\U{2079}'
    || '\U{2080}' <= c <= '\U{2089}'
    || '\U{2460}' <= c <= '\U{2468}'
    || '\U{2474}' <= c <= '\U{247C}'
    || '\U{2488}' <= c <= '\U{2490}'
    || c == '\U{24EA}'
    || '\U{24F5}' <= c <= '\U{24FD}'
    || c == '\U{24FF}'
    || '\U{2776}' <= c <= '\U{277E}'
    || '\U{2780}' <= c <= '\U{2788}'
    || '\U{278A}' <= c <= '\U{2792}'
    || '\U{A620}' <= c <= '\U{A629}'
    || '\U{A8D0}' <= c <= '\U{A8D9}'
    || '\U{A900}' <= c <= '\U{A909}'
    || '\U{A9D0}' <= c <= '\U{A9D9}'
    || '\U{A9F0}' <= c <= '\U{A9F9}'
    || '\U{AA50}' <= c <= '\U{AA59}'
    || '\U{ABF0}' <= c <= '\U{ABF9}'
    || '\U{FF10}' <= c <= '\U{FF19}'
    || '\U{104A0}' <= c <= '\U{104A9}'
    || '\U{10A40}' <= c <= '\U{10A43}'
    || '\U{10D30}' <= c <= '\U{10D39}'
    || '\U{10E60}' <= c <= '\U{10E68}'
    || '\U{11052}' <= c <= '\U{1105A}'
    || '\U{11066}' <= c <= '\U{1106F}'
    || '\U{110F0}' <= c <= '\U{110F9}'
    || '\U{11136}' <= c <= '\U{1113F}'
    || '\U{111D0}' <= c <= '\U{111D9}'
    || '\U{112F0}' <= c <= '\U{112F9}'
    || '\U{11450}' <= c <= '\U{11459}'
    || '\U{114D0}' <= c <= '\U{114D9}'
    || '\U{11650}' <= c <= '\U{11659}'
    || '\U{116C0}' <= c <= '\U{116C9}'
    || '\U{11730}' <= c <= '\U{11739}'
    || '\U{118E0}' <= c <= '\U{118E9}'
    || '\U{11950}' <= c <= '\U{11959}'
    || '\U{11C50}' <= c <= '\U{11C59}'
    || '\U{11D50}' <= c <= '\U{11D59}'
    || '\U{11DA0}' <= c <= '\U{11DA9}'
    || '\U{11F50}' <= c <= '\U{11F59}'
    || '\U{16A60}' <= c <= '\U{16A69}'
    || '\U{16AC0}' <= c <= '\U{16AC9}'
    || '\U{16B50}' <= c <= '\U{16B59}'
    || '\U{1D7CE}' <= c <= '\U{1D7FF}'
    || '\U{1E140}' <= c <= '\U{1E149}'
    || '\U{1E2F0}' <= c <= '\U{1E2F9}'
    || '\U{1E4F0}' <= c <= '\U{1E4F9}'
    || '\U{1E950}' <= c <= '\U{1E959}'
    || '\U{1F100}' <= c <= '\U{1F10A}'
    || '\U{1FBF0}' <= c <= '\U{1FBF9}'
  }

  predicate AllDigits(s: string) {
    forall k | 0 <= k < |s| :: IsDigit(s[k])
  }

  function DigitValue(c: char): nat
    requires IsDigit(c)
  {
    (c as int) - ('0' as int)
  }

  function DigitChar(d: nat): char
    requires d < 10
  {
    ('0' as int + d) as char
  }

  /** The value of a string of ASCII decimal digits (`parseInt`, `int()`); 0 for "". */
  function DecimalValue(s: string): nat
    requires AllDigits(s)
  {
    if s == [] then 0 else 10 * DecimalValue(s[..|s| - 1]) + DigitValue(s[|s| - 1])
  }

  /** Python's `str(n)` for a non-negative integer: decimal, no leading zeros. */
  function NatToString(n: nat): (s: string)
    ensures |s| >= 1 && AllDigits(s)
    ensures |s| > 1 ==> s[0] != '0'
  {
    if n < 10 then [DigitChar(n)] else NatToString(n / 10) + [DigitChar(n % 10)]
  }

  /** A sequence is its part before index i, the element at i and its part after. */
  lemma SplitAround<T>(s: seq<T>, i: nat)
    requires i < |s|
    ensures s == s[..i] + [s[i]] + s[i + 1..]
  {
  }

  /** `str(n)` is read back by `int()`: the decimal rendering loses nothing. */
  lemma {:induction false} NatToStringRoundTrip(n: nat)
    ensures DecimalValue(NatToString(n)) == n
  {
    if n >= 10 {
      NatToStringRoundTrip(n / 10);
      var s := NatToString(n);
      assert s[..|s| - 1] == NatToString(n / 10);
    }
  }

  /** Different numbers have different decimal renderings. */
  lemma NatToStringInjective(m: nat, n: nat)
    requires NatToString(m) == NatToString(n)
    ensures m == n
  {
    NatToStringRoundTrip(m);
    NatToStringRoundTrip(n);
  }

  /** Position of the first occurrence of `c` in `s`. */
  function IndexOf(s: string, c: char): (i: nat)
    requires c in s
    ensures i < |s| && s[i] == c && c !in s[..i]
  {
    if s[0] == c then 0 else 1 + IndexOf(s[1..], c)
  }

  /** Python's `s.split(sep)` for a one-character separator. */
  function Split(s: string, sep: char): (parts: seq<string>)
    ensures |parts| >= 1
    ensures forall k | 0 <= k < |parts| :: sep !in parts[k]
    decreases |s|
  {
    if sep !in s then [s]
    else
      var i := IndexOf(s, sep);
      [s[..i]] + Split(s[i + 1..], sep)
  }

  /** Python's `sep.join(parts)` for a one-character separator. */
  function Join(parts: seq<string>, sep: char): string
  {
    if |parts| == 0 then ""
    else if |parts| == 1 then parts[0]
    else parts[0] + [sep] + Join(parts[1..], sep)
  }

  /** The first separator of `a + [sep] + b` is the one after `a` when `a` holds none. */
  lemma {:induction false} IndexOfAfter(a: string, sep: char, b: string)
    requires sep !in a
    ensures sep in a + [sep] + b && IndexOf(a + [sep] + b, sep) == |a|
  {
    var s := a + [sep] + b;
    assert s[|a|] == sep;
    if a != [] {
      assert s[0] == a[0] && a[0] != sep;
      assert s[1..] == a[1..] + [sep] + b;
      IndexOfAfter(a[1..], sep, b);
    }
  }

  /** The split of `a + [sep] + rest` starts with `a` when `a` holds no separator. */
  lemma SplitAfter(a: string, sep: char, rest: string)
    requires sep !in a
    ensures Split(a + [sep] + rest, sep) == [a] + Split(rest, sep)
  {
    var s := a + [sep] + rest;
    IndexOfAfter(a, sep, rest);
    assert s[..|a|] == a && s[|a| + 1..] == rest;
  }

  /** Splitting a joined list gives the list back when no part holds the separator. */
  lemma {:induction false} SplitJoin(parts: seq<string>, sep: char)
    requires |parts| >= 1
    requires forall k | 0 <= k < |parts| :: sep !in parts[k]
    ensures Split(Join(parts, sep), sep) == parts
  {
    if |parts| > 1 {
      var rest := Join(parts[1..], sep);
      assert Join(parts, sep) == parts[0] + [sep] + rest;
      SplitAfter(parts[0], sep, rest);
      SplitJoin(parts[1..], sep);
      assert [parts[0]] + parts[1..] == parts;
    } else {
      assert Join(parts, sep) == parts[0];
    }
  }

  /** Joining the parts of a split gives the string back. */
  lemma {:induction false} JoinSplit(s: string, sep: char)
    ensures Join(Split(s, sep), sep) == s
    decreases |s|
  {
    if sep in s {
      var i := IndexOf(s, sep);
      var rest := Split(s[i + 1..], sep);
      var parts := [s[..i]] + rest;
      assert Split(s, sep) == parts;
      assert parts[1..] == rest;
      JoinSplit(s[i + 1..], sep);
      assert Join(parts, sep) == s[..i] + [sep] + s[i + 1..];
      assert s == s[..i] + [sep] + s[i + 1..];
    }
  }

  /** Python's `s.endswith(suffix)` and Django's `__endswith`. */
  predicate EndsWith(s: string, suffix: string) {
    |suffix| <= |s| && s[|s| - |suffix|..] == suffix
  }

  /** Python's `sub in s` for strings. */
  predicate Contains(s: string, sub: string)
    decreases |s|
  {
    if |s| < |sub| then false else s[..|sub|] == sub || Contains(s[1..], sub)
  }

  /** Python's `s.replace(pattern, replacement)` with a non-empty `pattern`: left to right, non-overlapping. */
  function Replace(s: string, pattern: string, replacement: string): string
    requires |pattern| > 0
    decreases |s|
  {
    if |s| < |pattern| then s
    else if s[..|pattern|] == pattern then replacement + Replace(s[|pattern|..], pattern, replacement)
    else [s[0]] + Replace(s[1..], pattern, replacement)
  }
}
