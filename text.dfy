/** Text helpers the decoders use: Go strings are byte strings, so a decoded string is
    the sequence of characters whose codes are the bytes; `%d` formatting; and the
    `strings` package calls the source makes (Index, TrimPrefix). */
module Text {
  import opened Ints

  /** `string(b)` for a Go byte slice: one character per byte. */
  function FromBytes(bs: seq<u8>): (s: string)
    ensures |s| == |bs|
    ensures forall i :: 0 <= i < |bs| ==> s[i] as int == bs[i]
  {
    seq(|bs|, i requires 0 <= i < |bs| => bs[i] as char)
  }

  predicate IsByteString(s: string) {
    forall i :: 0 <= i < |s| ==> s[i] as int < 0x100
  }

  /** The bytes of a byte string: the inverse of FromBytes. */
  function ToBytes(s: string): (bs: seq<u8>)
    requires IsByteString(s)
    ensures |bs| == |s|
    ensures FromBytes(bs) == s
  {
    seq(|s|, i requires 0 <= i < |s| => s[i] as int)
  }

  lemma FromBytesIsByteString(bs: seq<u8>)
    ensures IsByteString(FromBytes(bs)) && ToBytes(FromBytes(bs)) == bs
  {
  }

  predicate IsDigit(c: char) {
    '0' as int <= c as int <= '9' as int
  }

  function DigitChar(d: int): (c: char)
    requires 0 <= d < 10
    ensures IsDigit(c) && c as int - '0' as int == d
  {
    (48 + d) as char
  }

  /** `fmt.Sprintf("%d", n)` for a non-negative number: its decimal digits, most
      significant first, without leading zeros. */
  function Decimal(n: nat): (s: string)
    ensures |s| >= 1
    ensures forall i :: 0 <= i < |s| ==> IsDigit(s[i])
    ensures s[0] == '0' <==> n == 0
    ensures n == 0 ==> s == "0"
  {
    if n < 10 then [DigitChar(n)] else Decimal(n / 10) + [DigitChar(n % 10)]
  }

  /** `fmt.Sprintf("%d", x)` for a signed number: a minus sign before the digits of |x|. */
  function SignedDecimal(x: int): (s: string)
    ensures |s| >= 1
    ensures s[0] == '-' <==> x < 0
    ensures x >= 0 ==> s == Decimal(x)
    ensures x < 0 ==> s[1..] == Decimal(-x)
  {
    if x < 0 then "-" + Decimal(-x) else Decimal(x)
  }

  /** Reading decimal digits back: the inverse of Decimal. */
  function ParseDecimal(s: string): nat
    requires forall i :: 0 <= i < |s| ==> IsDigit(s[i])
  {
    if s == [] then 0
    else
      assert IsDigit(s[|s| - 1]);
      ParseDecimal(s[..|s| - 1]) * 10 + (s[|s| - 1] as int - '0' as int)
  }

  lemma {:induction false} ParseDecimalOfDecimal(n: nat)
    ensures ParseDecimal(Decimal(n)) == n
  {
    if n >= 10 {
      var s := Decimal(n);
      var d := Decimal(n / 10);
      assert s == d + [DigitChar(n % 10)];
      assert s[..|s| - 1] == d;
      ParseDecimalOfDecimal(n / 10);
    }
  }

  /** `strings.Index(s, string(c))`: the position of the first c in s, or -1. */
  function IndexOf(s: string, c: char): (i: int)
    ensures -1 <= i < |s|
    ensures i == -1 <==> c !in s
    ensures 0 <= i ==> s[i] == c && c !in s[..i]
  {
    if s == [] then -1
    else if s[0] == c then 0
    else
      var j := IndexOf(s[1..], c);
      if j < 0 then -1 else j + 1
  }

  /** `strings.TrimPrefix(s, string(c))`: s without one leading c, if it has one. */
  function TrimPrefix(s: string, c: char): (t: string)
    ensures |s| > 0 && s[0] == c ==> [c] + t == s
    ensures !(|s| > 0 && s[0] == c) ==> t == s
  {
    if |s| > 0 && s[0] == c then s[1..] else s
  }
}
