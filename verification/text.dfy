/**
  Character-level helpers shared by the token model and the scanner:
  turning bytes into characters, rendering integers in decimal the way
  Rust's `Display` for `i32` does, and locating a character in a string.
 */
module Text {
  import opened Wrappers

  /** The character a byte stands for: Rust's `u8 as char`, the code point
      with the same numeric value. For ASCII bytes this is also what
      `String::from_utf8` produces. */
  function ByteChar(b: bv8): (c: char)
    ensures c as int == b as int
  {
    (b as int) as char
  }

  /** Byte-for-byte decoding of a byte string into characters. */
  function Chars(bs: seq<bv8>): (s: string)
    ensures |s| == |bs|
    ensures forall i :: 0 <= i < |bs| ==> s[i] as int == bs[i] as int
  {
    seq(|bs|, i requires 0 <= i < |bs| => ByteChar(bs[i]))
  }

  lemma CharsAppend(a: seq<bv8>, b: seq<bv8>)
    ensures Chars(a + b) == Chars(a) + Chars(b)
  {
  }

  predicate IsDigit(c: char) {
    '0' <= c <= '9'
  }

  function DigitChar(d: nat): (c: char)
    requires d < 10
    ensures IsDigit(c) && c as int - '0' as int == d
  {
    ('0' as int + d) as char
  }

  /** Decimal rendering of a natural number: most significant digit first,
      no leading zeros. */
  function NatText(n: nat): (s: string)
    ensures |s| > 0
    ensures forall i :: 0 <= i < |s| ==> IsDigit(s[i])
    ensures |s| > 1 ==> s[0] != '0'
    decreases n
  {
    if n < 10 then [DigitChar(n)] else NatText(n / 10) + [DigitChar(n % 10)]
  }

  /** Decimal rendering of a signed integer, with a leading `-` when negative. */
  function IntText(i: int): (s: string)
    ensures |s| > 0
    ensures i >= 0 ==> forall k :: 0 <= k < |s| ==> IsDigit(s[k])
    ensures i < 0 ==> s[0] == '-' && forall k :: 1 <= k < |s| ==> IsDigit(s[k])
  {
    if i < 0 then "-" + NatText(-i) else NatText(i)
  }

  /** The value of a string of decimal digits, read most significant first. */
  function DigitsValue(s: string): nat
    requires forall i :: 0 <= i < |s| ==> IsDigit(s[i])
    decreases |s|
  {
    if |s| == 0 then 0
    else
      assert IsDigit(s[|s| - 1]);
      DigitsValue(s[..|s| - 1]) * 10 + (s[|s| - 1] as int - '0' as int)
  }

  /** Reading back a rendered natural number gives the number. */
  lemma {:induction false} NatTextRoundTrip(n: nat)
    ensures DigitsValue(NatText(n)) == n
    decreases n
  {
    if n >= 10 {
      var s := NatText(n);
      assert s[..|s| - 1] == NatText(n / 10);
      NatTextRoundTrip(n / 10);
    }
  }

  /** Reads a signed decimal back, as `IntText` writes it. */
  function ParseInt(s: string): Option<int>
  {
    if |s| > 0 && forall k :: 0 <= k < |s| ==> IsDigit(s[k]) then Some(DigitsValue(s) as int)
    else if |s| > 1 && s[0] == '-' && forall k :: 1 <= k < |s| ==> IsDigit(s[k]) then Some(0 - DigitsValue(s[1..]) as int)
    else None
  }

  /** Reading back a rendered integer gives the integer. */
  lemma IntTextRoundTrip(i: int)
    ensures ParseInt(IntText(i)) == Some(i)
  {
    if i < 0 {
      NatTextRoundTrip(-i);
      assert IntText(i)[1..] == NatText(-i);
    } else {
      NatTextRoundTrip(i);
    }
  }

  /** The index of the first occurrence of `c` in `s`, or `|s|` when there is none. */
  function IndexOf(s: string, c: char): (r: nat)
    ensures r <= |s|
    ensures r < |s| ==> s[r] == c
    ensures forall k :: 0 <= k < r ==> s[k] != c
    decreases |s|
  {
    if |s| == 0 then 0
    else if s[0] == c then 0
    else 1 + IndexOf(s[1..], c)
  }

  lemma IndexOfAfter(a: string, c: char, b: string)
    requires forall k :: 0 <= k < |a| ==> a[k] != c
    ensures IndexOf(a + [c] + b, c) == |a|
  {
    var s := a + [c] + b;
    assert s[|a|] == c;
  }
}
