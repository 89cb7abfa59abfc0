/** The scanning helpers the command routers rely on: keyword prefix match,
    `skip_through` and `scan_u`. Their C definitions are not part of this model;
    they are specified here by what their call sites rely on (a result of 0
    means failure), plus an encoder for decimal numbers that round-trips with
    the scanner. */
module StrUtil {
  import opened Bytes

  /** PREFIX_MATCHED(kw, p, len): the keyword is an exact, case-sensitive prefix of p. */
  predicate PrefixMatched(kw: seq<byte>, p: seq<byte>) {
    |p| >= |kw| && p[..|kw|] == kw
  }

  /** PREFIX_MATCHED holds exactly when the text is the keyword followed by
      the rest, which is what the router goes on to read at `pbuf + STRZ_LEN(kw)`. */
  lemma PrefixMatchedSplits(kw: seq<byte>, p: seq<byte>)
    ensures PrefixMatched(kw, p) <==> |kw| <= |p| && p == kw + p[|kw|..]
  {
    if |kw| <= |p| && p == kw + p[|kw|..] {
      assert p[..|kw|] == (kw + p[|kw|..])[..|kw|];
    }
  }

  /** s is the tail of p: what is left once a prefix of p has been stepped over. */
  predicate IsSuffix(s: seq<byte>, p: seq<byte>) {
    |s| <= |p| && p[|p| - |s|..] == s
  }

  /** A tail of a tail of p is a tail of p. */
  lemma SuffixOfTail(s: seq<byte>, p: seq<byte>, k: nat)
    requires k <= |p| && IsSuffix(s, p[k..])
    ensures IsSuffix(s, p)
  {
    assert p[k..][|p[k..]| - |s|..] == p[|p| - |s|..];
  }

  /** skip_through(c, p, len): the index just past the first occurrence of c,
      or 0 when c does not occur. */
  function SkipThrough(c: byte, p: seq<byte>): (k: nat)
    ensures k <= |p|
    ensures k == 0 <==> c !in p
    ensures k > 0 ==> p[k - 1] == c && c !in p[..k - 1]
  {
    if |p| == 0 then 0
    else if p[0] == c then 1
    else
      var k := SkipThrough(c, p[1..]);
      assert p == [p[0]] + p[1..];
      assert k > 0 ==> p[..k] == [p[0]] + p[1..][..k - 1];
      if k == 0 then 0 else k + 1
  }

  /** The first occurrence of c in `a + [c] + b` is the one after a. */
  lemma SkipThroughFirst(c: byte, a: seq<byte>, b: seq<byte>)
    requires c !in a
    ensures SkipThrough(c, a + [c] + b) == |a| + 1
  {
    assert (a + [c] + b)[|a|] == c;
  }

  predicate IsDigit(b: byte) {
    B('0') <= b <= B('9')
  }

  function DigitValue(b: byte): (d: nat)
    requires IsDigit(b)
    ensures d < 10
  {
    b as int - B('0') as int
  }

  predicate AllDigits(s: seq<byte>) {
    forall i | 0 <= i < |s| :: IsDigit(s[i])
  }

  /** The number of decimal digits at the start of p. */
  function DigitCount(p: seq<byte>): (k: nat)
    ensures k <= |p|
    ensures AllDigits(p[..k])
    ensures k < |p| ==> !IsDigit(p[k])
  {
    if |p| == 0 || !IsDigit(p[0]) then 0
    else
      var k := DigitCount(p[1..]);
      assert p[..k + 1] == [p[0]] + p[1..][..k];
      k + 1
  }

  /** The number a string of decimal digits denotes (most significant first). */
  function DecimalValue(s: seq<byte>): nat
    requires AllDigits(s)
  {
    if |s| == 0 then 0
    else DecimalValue(s[..|s| - 1]) * 10 + DigitValue(s[|s| - 1])
  }

  datatype Scanned = Scanned(count: nat, value: nat)

  /** scan_u(p, len, &arg): the number of decimal digits consumed at the start of p,
      and the value they denote, accumulated in a 32-bit unsigned. */
  function ScanU(p: seq<byte>): (r: Scanned)
    ensures r.count <= |p| && AllDigits(p[..r.count])
    ensures r.count < |p| ==> !IsDigit(p[r.count])
    ensures r.value == DecimalValue(p[..r.count]) % U32
    ensures r.value < U32
  {
    var k := DigitCount(p);
    Scanned(k, DecimalValue(p[..k]) % U32)
  }

  /** The decimal digits of n, without leading zeros. */
  function Decimal(n: nat): (s: seq<byte>)
    ensures 0 < |s| && AllDigits(s)
  {
    var d := (B('0') as int + n % 10) as byte;
    if n < 10 then [d] else Decimal(n / 10) + [d]
  }

  lemma {:induction false} DecimalValueOfDecimal(n: nat)
    ensures DecimalValue(Decimal(n)) == n
  {
    var s := Decimal(n);
    if n >= 10 {
      DecimalValueOfDecimal(n / 10);
      assert s[..|s| - 1] == Decimal(n / 10);
    }
  }

  lemma {:induction false} DigitCountOfConcat(a: seq<byte>, b: seq<byte>)
    requires AllDigits(a)
    requires b == [] || !IsDigit(b[0])
    ensures DigitCount(a + b) == |a|
  {
    if |a| > 0 {
      assert (a + b)[1..] == a[1..] + b;
      DigitCountOfConcat(a[1..], b);
    }
  }

  /** scan_u reads back exactly the digits Decimal writes, when a non-digit follows. */
  lemma ScanDecimal(n: nat, rest: seq<byte>)
    requires n < U32
    requires rest == [] || !IsDigit(rest[0])
    ensures ScanU(Decimal(n) + rest) == Scanned(|Decimal(n)|, n)
  {
    var s := Decimal(n);
    DigitCountOfConcat(s, rest);
    assert (s + rest)[..|s|] == s;
    DecimalValueOfDecimal(n);
  }
}
