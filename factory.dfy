/**
  * `int_to_mac` of frontend/tests/factory.py, which gives every slave the
  * test factories create a distinct MAC address: the integer in lower-case
  * hexadecimal, padded with zeros to twelve characters (format spec `012x`), cut
  * into pairs of characters (`zip` of the even and odd positions) joined
  * with `:`.
  */
module Factory {
  import opened Wrappers
  import opened Text
  import Models

  predicate IsLowerHex(c: char) {
    '0' <= c <= '9' || 'a' <= c <= 'f'
  }

  predicate AllLowerHex(s: string) {
    forall k | 0 <= k < |s| :: IsLowerHex(s[k])
  }

  function HexDigit(d: nat): (c: char)
    requires d < 16
    ensures IsLowerHex(c)
  {
    if d < 10 then ('0' as int + d) as char else ('a' as int + d - 10) as char
  }

  function HexValue(c: char): (d: nat)
    requires IsLowerHex(c)
    ensures d < 16 && HexDigit(d) == c
  {
    if c <= '9' then c as int - '0' as int else c as int - 'a' as int + 10
  }

  /** Python's `format(n, 'x')` for `n >= 0`: no leading zeros, "0" for zero. */
  function Hex(n: nat): (s: string)
    ensures 1 <= |s| && AllLowerHex(s)
  {
    if n < 16 then [HexDigit(n)] else Hex(n / 16) + [HexDigit(n % 16)]
  }

  /** The value of a string of hexadecimal digits. */
  function ParseHex(s: string): nat
    requires AllLowerHex(s)
  {
    if s == [] then 0 else ParseHex(s[..|s| - 1]) * 16 + HexValue(s[|s| - 1])
  }

  function Zeros(k: nat): (z: string)
    ensures |z| == k && AllLowerHex(z)
  {
    seq(k, _ => '0')
  }

  /** Zero padding on the left up to `width` characters, as the `0` flag of a format spec does. */
  function PadZeros(s: string, width: nat): (t: string)
    ensures |t| == if |s| >= width then |s| else width
  {
    if |s| >= width then s else Zeros(width - |s|) + s
  }

  /** `format(n, '012x')`: the sign, if any, counts towards the width of twelve. */
  function Format012x(n: int): (s: string)
    ensures |s| >= 12
  {
    if n < 0 then "-" + PadZeros(Hex(-n), 11) else PadZeros(Hex(n), 12)
  }

  /** `a + b for a, b in zip(s[::2], s[1::2])`, cut from the front; an odd last character is dropped. */
  function Pairs(s: string): (ps: seq<string>)
    ensures |ps| == |s| / 2
    ensures forall k | 0 <= k < |ps| :: |ps[k]| == 2
    decreases |s|
  {
    if |s| < 2 then [] else [s[..2]] + Pairs(s[2..])
  }

  /** `int_to_mac(n)`. */
  function IntToMac(n: int): (mac: string)
    ensures |mac| == 3 * (|Format012x(n)| / 2) - 1
    ensures 0 <= n < Pow16(12) ==> |mac| == 17
  {
    JoinLength(Pairs(Format012x(n)));
    if 0 <= n < Pow16(12) then
      MacDigits(n);
      Join(Pairs(Format012x(n)), ':')
    else
      Join(Pairs(Format012x(n)), ':')
  }

  /* ---------------- the reading back ---------------- */

  function Concat(parts: seq<string>): string {
    if parts == [] then "" else parts[0] + Concat(parts[1..])
  }

  /** The number a MAC address written in lower-case hex stands for, or None. */
  function MacValue(mac: string): Option<nat> {
    var digits := Concat(Split(mac, ':'));
    if AllLowerHex(digits) then Some(ParseHex(digits)) else None
  }

  /* ---------------- lemmas ---------------- */

  /** The i-th pair is the i-th even-position character followed by the next one, as `zip` builds it. */
  lemma {:induction false} PairsAreZip(s: string, i: nat)
    requires i < |s| / 2
    ensures Pairs(s)[i] == [s[2 * i], s[2 * i + 1]]
    decreases |s|
  {
    if i > 0 {
      PairsAreZip(s[2..], i - 1);
    }
  }

  lemma {:induction false} ConcatPairs(s: string)
    requires |s| % 2 == 0
    ensures Concat(Pairs(s)) == s
    decreases |s|
  {
    if |s| >= 2 {
      ConcatPairs(s[2..]);
      assert ([s[..2]] + Pairs(s[2..]))[1..] == Pairs(s[2..]);
    }
  }

  /** A trailing odd character never reaches a pair. */
  lemma {:induction false} PairsDropLast(s: string, c: char)
    requires |s| % 2 == 0
    ensures Pairs(s + [c]) == Pairs(s)
    decreases |s|
  {
    if |s| >= 2 {
      assert (s + [c])[..2] == s[..2];
      assert (s + [c])[2..] == s[2..] + [c];
      PairsDropLast(s[2..], c);
    }
  }

  lemma PairsNoColon(s: string)
    requires ':' !in s
    ensures forall k | 0 <= k < |Pairs(s)| :: ':' !in Pairs(s)[k]
  {
    forall k | 0 <= k < |Pairs(s)|
      ensures ':' !in Pairs(s)[k]
    {
      PairsAreZip(s, k);
    }
  }

  lemma {:induction false} HexRoundTrip(n: nat)
    ensures ParseHex(Hex(n)) == n
  {
    if n >= 16 {
      var s := Hex(n);
      assert s[..|s| - 1] == Hex(n / 16);
      HexRoundTrip(n / 16);
    }
  }

  function Pow16(k: nat): nat {
    if k == 0 then 1 else 16 * Pow16(k - 1)
  }

  /** A number below 16^k has at most k hex digits. */
  lemma {:induction false} HexLength(n: nat, k: nat)
    requires 1 <= k && n < Pow16(k)
    ensures |Hex(n)| <= k
  {
    if n >= 16 {
      HexLength(n / 16, k - 1);
    }
  }

  lemma {:induction false} ParseZeros(k: nat)
    ensures ParseHex(Zeros(k)) == 0
  {
    if k > 0 {
      assert Zeros(k)[..k - 1] == Zeros(k - 1);
      ParseZeros(k - 1);
    }
  }

  /** Leading zeros do not change the value. */
  lemma {:induction false} ParseLeadingZeros(k: nat, t: string)
    requires AllLowerHex(t)
    ensures AllLowerHex(Zeros(k) + t) && ParseHex(Zeros(k) + t) == ParseHex(t)
  {
    var s := Zeros(k) + t;
    if t == [] {
      assert s == Zeros(k);
      ParseZeros(k);
    } else {
      assert s[..|s| - 1] == Zeros(k) + t[..|t| - 1];
      ParseLeadingZeros(k, t[..|t| - 1]);
    }
  }

  /** Below 2^48 the formatted number is twelve hex digits: zeros, then the digits of the number. */
  lemma MacDigits(n: int)
    requires 0 <= n < Pow16(12)
    ensures |Hex(n)| <= 12 && Format012x(n) == Zeros(12 - |Hex(n)|) + Hex(n)
    ensures AllLowerHex(Format012x(n)) && |Format012x(n)| == 12
  {
    HexLength(n, 12);
  }

  /** The MAC address of a number below 2^48 is six pairs of hex digits, 17 characters in all. */
  lemma MacShape(n: int)
    requires 0 <= n < Pow16(12)
    ensures Split(IntToMac(n), ':') == Pairs(Format012x(n))
    ensures |IntToMac(n)| == 17
  {
    MacDigits(n);
    var s := Format012x(n);
    NoColon(s);
    PairsNoColon(s);
    var ps := Pairs(s);
    SplitJoin(ps, ':');
    JoinLength(ps);
  }

  lemma NoColon(s: string)
    requires AllLowerHex(s)
    ensures ':' !in s
  {
  }

  lemma {:induction false} JoinLength(ps: seq<string>)
    requires |ps| >= 1 && forall k | 0 <= k < |ps| :: |ps[k]| == 2
    ensures |Join(ps, ':')| == 3 * |ps| - 1
  {
    if |ps| > 1 {
      JoinLength(ps[1..]);
    }
  }

  /** Reading the address back gives the number: int_to_mac is injective below 2^48. */
  lemma IntToMacRoundTrip(n: int)
    requires 0 <= n < Pow16(12)
    ensures MacValue(IntToMac(n)) == Some(n)
  {
    MacDigits(n);
    MacShape(n);
    var s := Format012x(n);
    ConcatPairs(s);
    ParseLeadingZeros(12 - |Hex(n)|, Hex(n));
    HexRoundTrip(n);
  }

  lemma IntToMacInjective(m: int, n: int)
    requires 0 <= m < Pow16(12) && 0 <= n < Pow16(12) && IntToMac(m) == IntToMac(n)
    ensures m == n
  {
    IntToMacRoundTrip(m);
    IntToMacRoundTrip(n);
  }

  /** Every address below 2^48 passes `validate_mac_address`. */
  lemma IntToMacValid(n: int)
    requires 0 <= n < Pow16(12)
    ensures Models.MacAccepted(IntToMac(n))
  {
    MacDigits(n);
    MacShape(n);
    HexPairsAccepted(Format012x(n));
  }

  /** Every pair cut from a string of hex digits is a part the validator accepts. */
  lemma HexPairsAccepted(s: string)
    requires AllLowerHex(s)
    ensures forall q | 0 <= q < |Pairs(s)| :: Models.MacPartOk(Pairs(s)[q])
  {
    forall q | 0 <= q < |Pairs(s)|
      ensures Models.MacPartOk(Pairs(s)[q])
    {
      PairsAreZip(s, q);
      assert IsLowerHex(s[2 * q]) && IsLowerHex(s[2 * q + 1]);
    }
  }

  /** The hex form of a negative number: a minus sign, then hex digits only. */
  lemma NegativeFormat(n: int)
    requires n < 0
    ensures Format012x(n)[0] == '-' && ':' !in Format012x(n)
  {
    var s := Format012x(n);
    var digits := PadZeros(Hex(-n), 11);
    assert digits == Hex(-n) || digits == Zeros(11 - |Hex(-n)|) + Hex(-n);
    assert AllLowerHex(digits);
    assert s == "-" + digits;
  }

  /** A negative number gets a leading minus sign, which the validator refuses. */
  lemma NegativeRejected(n: int)
    requires n < 0
    ensures IntToMac(n)[0] == '-'
    ensures !Models.MacAccepted(IntToMac(n))
  {
    var s := Format012x(n);
    NegativeFormat(n);
    assert IntToMac(n)[0] == '-' && Split(IntToMac(n), ':')[0][0] == '-' by {
      PairsNoColon(s);
      SplitJoin(Pairs(s), ':');
      PairsAreZip(s, 0);
    }
    assert !Models.IsHex('-') && !StrIsDigit('-');
    Models.FirstCharRejected(IntToMac(n));
  }

  /**
    * From 2^48 on the hex form is longer than twelve characters and an odd
    * last digit is dropped, so two numbers share an address.
    */
  lemma LongNumbersCollide(n: nat)
    requires |Hex(16 * n)| % 2 == 1 && |Hex(16 * n)| > 12
    ensures IntToMac(16 * n) == IntToMac(16 * n + 1)
  {
    var head := Hex(16 * n)[..|Hex(16 * n)| - 1];
    assert n >= 1;
    assert Hex(16 * n) == Hex(n) + [HexDigit(0)];
    assert Hex(16 * n + 1) == Hex(n) + [HexDigit(1)];
    PairsDropLast(Hex(n), HexDigit(0));
    PairsDropLast(Hex(n), HexDigit(1));
  }
}
