/**
 * Python's `str.strip()` and `int(str)` as used by the route handlers, over
 * `string` (a sequence of Unicode code points).
 */
module Text {
  import opened Options

  /** Exactly the code points for which Python's `str.isspace()` holds. */
  predicate IsSpace(c: char) {
    var k := c as int;
    (9 <= k <= 13) || (28 <= k <= 32) || k == 0x85 || k == 0xA0 || k == 0x1680
    || (0x2000 <= k <= 0x200A) || k == 0x2028 || k == 0x2029 || k == 0x202F
    || k == 0x205F || k == 0x3000
  }

  predicate AllSpace(s: string) {
    forall k :: 0 <= k < |s| ==> IsSpace(s[k])
  }

  /** Removes leading whitespace: what is removed is whitespace, what is kept does not start with it. */
  function StripLeft(s: string): (r: string)
    ensures |r| <= |s| && r == s[|s| - |r|..]
    ensures forall k :: 0 <= k < |s| - |r| ==> IsSpace(s[k])
    ensures r != [] ==> !IsSpace(r[0])
  {
    if |s| > 0 && IsSpace(s[0]) then StripLeft(s[1..]) else s
  }

  /** Removes trailing whitespace: what is removed is whitespace, what is kept does not end with it. */
  function StripRight(s: string): (r: string)
    ensures |r| <= |s| && r == s[..|r|]
    ensures forall k :: |r| <= k < |s| ==> IsSpace(s[k])
    ensures r != [] ==> !IsSpace(r[|r| - 1])
  {
    if |s| > 0 && IsSpace(s[|s| - 1]) then StripRight(s[..|s| - 1]) else s
  }

  /** Python's `s.strip()`. */
  function Strip(s: string): (r: string)
    ensures |r| <= |s|
    ensures r == [] <==> AllSpace(s)
    ensures r != [] ==> !IsSpace(r[0]) && !IsSpace(r[|r| - 1])
  {
    var l := StripLeft(s);
    var r := StripRight(l);
    r
  }

  /** Stripping text padded on both sides with whitespace gives back the text. */
  lemma {:induction false} StripPadded(pre: string, t: string, post: string)
    requires AllSpace(pre) && AllSpace(post)
    requires t != [] ==> !IsSpace(t[0]) && !IsSpace(t[|t| - 1])
    ensures Strip(pre + t + post) == t
  {
    var s := pre + t + post;
    if t == [] {
      assert AllSpace(s) by {
        forall k | 0 <= k < |s| ensures IsSpace(s[k]) {
          if k < |pre| { assert s[k] == pre[k]; } else { assert s[k] == post[k - |pre|]; }
        }
      }
    } else {
      assert s == pre + (t + post);
      StripLeftPadded(pre, t + post);
      StripRightPadded(t, post);
    }
  }

  lemma {:induction false} StripLeftPadded(pre: string, u: string)
    requires AllSpace(pre)
    requires u != [] ==> !IsSpace(u[0])
    ensures StripLeft(pre + u) == u
  {
    if pre != [] {
      assert (pre + u)[1..] == pre[1..] + u;
      StripLeftPadded(pre[1..], u);
    }
  }

  lemma {:induction false} StripRightPadded(u: string, post: string)
    requires AllSpace(post)
    requires u != [] ==> !IsSpace(u[|u| - 1])
    ensures StripRight(u + post) == u
  {
    if post != [] {
      var s := u + post;
      assert s[..|s| - 1] == u + post[..|post| - 1];
      StripRightPadded(u, post[..|post| - 1]);
    } else {
      assert u + post == u;
    }
  }

  /** Stripping twice is stripping once. */
  lemma StripIdempotent(s: string)
    ensures Strip(Strip(s)) == Strip(s)
  {
    var t := Strip(s);
    StripPadded([], t, []);
    assert [] + t + [] == t;
  }

  // ----- int(str) -----

  predicate IsDigit(c: char) {
    '0' <= c <= '9'
  }

  predicate AllDigits(s: string) {
    forall k :: 0 <= k < |s| ==> IsDigit(s[k])
  }

  /** The value of a run of decimal digits, most significant first. */
  function DigitsValue(s: string): nat
    requires AllDigits(s)
  {
    if s == [] then 0
    else DigitsValue(s[..|s| - 1]) * 10 + ((s[|s| - 1] as int) - ('0' as int))
  }

  /** Text after stripping when it is one or more digits, optionally signed. */
  predicate IsIntegerLiteral(t: string) {
    (|t| > 0 && AllDigits(t))
    || (|t| > 1 && (t[0] == '-' || t[0] == '+') && AllDigits(t[1..]))
  }

  /**
   * The information separators U+001C to U+001F: `str.isspace()` holds for
   * them, yet `int()` does not skip them as whitespace and rejects any text
   * holding one.
   */
  predicate IsSeparator(c: char) {
    28 <= c as int <= 31
  }

  predicate NoSeparators(s: string) {
    forall k :: 0 <= k < |s| ==> !IsSeparator(s[k])
  }

  /**
   * The most digits `int()` converts from text, and `str()` to text: the
   * default of `sys.set_int_max_str_digits`; a longer literal raises ValueError.
   */
  const MaxStrDigits := 4300

  /** The digits of a stripped literal: the text after a leading sign, if any. */
  function LiteralDigits(t: string): string {
    if |t| > 0 && (t[0] == '-' || t[0] == '+') then t[1..] else t
  }

  /**
   * Python's `int(s)` for a string, `None` standing for the ValueError it
   * raises. Surrounding whitespace and a sign are accepted, and more than
   * `MaxStrDigits` digits (leading zeros included) are refused; digit-group
   * underscores and non-ASCII decimal digits are not modelled.
   */
  function ParseInt(s: string): (r: Option<int>)
    ensures r.Some? <==> NoSeparators(s) && IsIntegerLiteral(Strip(s)) && |LiteralDigits(Strip(s))| <= MaxStrDigits
    ensures (forall k :: 0 <= k < |s| ==> !IsDigit(s[k])) ==> r.None?
  {
    if NoSeparators(s) then ParseLiteral(Strip(s)) else None
  }

  /** `int()` of an already stripped text free of separators. */
  function ParseLiteral(t: string): (r: Option<int>)
    ensures r.Some? <==> IsIntegerLiteral(t) && |LiteralDigits(t)| <= MaxStrDigits
  {
    if |LiteralDigits(t)| > MaxStrDigits then None
    else if |t| > 0 && AllDigits(t) then Some(DigitsValue(t))
    else if |t| > 1 && (t[0] == '-' || t[0] == '+') && AllDigits(t[1..]) then
      var v: int := DigitsValue(t[1..]);
      Some(if t[0] == '-' then -v else v)
    else None
  }

  function DigitChar(d: nat): (c: char)
    requires d < 10
    ensures IsDigit(c) && (c as int) - ('0' as int) == d
  {
    (('0' as int) + d) as char
  }

  /** Python's `str(n)` for a non-negative integer. */
  function NatText(n: nat): (r: string)
    ensures r != [] && AllDigits(r)
  {
    if n < 10 then [DigitChar(n)] else NatText(n / 10) + [DigitChar(n % 10)]
  }

  /** Python's `str(n)` for an integer. */
  function IntText(n: int): string {
    if n < 0 then "-" + NatText(-n) else NatText(n)
  }

  lemma {:induction false} NatTextValue(n: nat)
    ensures DigitsValue(NatText(n)) == n
  {
    if n >= 10 {
      var s := NatText(n);
      assert s[..|s| - 1] == NatText(n / 10);
      NatTextValue(n / 10);
    }
  }

  /** A larger number never has a shorter decimal text. */
  lemma {:induction false} NatTextLengthMonotone(j: nat, k: nat)
    requires j <= k
    ensures |NatText(j)| <= |NatText(k)|
  {
    if j >= 10 {
      NatTextLengthMonotone(j / 10, k / 10);
    }
  }

  /** `int(str(n)) == n`: decimal text of an integer within the digit limit parses back to it. */
  lemma IntTextRoundTrip(n: int)
    requires |NatText(if n < 0 then -n else n)| <= MaxStrDigits
    ensures ParseInt(IntText(n)) == Some(n)
  {
    if n < 0 {
      NegativeTextRoundTrip(n);
    } else {
      NatTextRoundTrip(n);
    }
  }

  lemma NegativeTextRoundTrip(n: int)
    requires n < 0 && |NatText(-n)| <= MaxStrDigits
    ensures ParseInt(IntText(n)) == Some(n)
  {
    NatTextValue(-n);
    NegatedDigits(NatText(-n), -n);
  }

  lemma NatTextRoundTrip(n: nat)
    requires |NatText(n)| <= MaxStrDigits
    ensures ParseInt(IntText(n)) == Some(n)
  {
    NatTextValue(n);
    DigitsParse(NatText(n));
  }

  /** A run of digits within the limit parses to its value; leading zeros are accepted and do not count toward it. */
  lemma DigitsParse(d: string)
    requires d != [] && AllDigits(d) && |d| <= MaxStrDigits
    ensures ParseInt(d) == Some(DigitsValue(d))
  {
    Unpadded(d);
    assert NoSeparators(d) by {
      forall k | 0 <= k < |d| ensures !IsSeparator(d[k]) { assert IsDigit(d[k]); }
    }
  }

  /** A minus sign followed by digits of value `m` parses to `-m`. */
  lemma NegatedDigits(d: string, m: nat)
    requires d != [] && AllDigits(d) && |d| <= MaxStrDigits && DigitsValue(d) == m
    ensures ParseInt("-" + d) == Some(-(m as int))
  {
    var t := "-" + d;
    SignedDigitsLiteral(t, d);
  }

  /** A plus sign followed by digits parses to their value. */
  lemma PlusDigits(d: string)
    requires d != [] && AllDigits(d) && |d| <= MaxStrDigits
    ensures ParseInt("+" + d) == Some(DigitsValue(d))
  {
    var t := "+" + d;
    SignedDigitsLiteral(t, d);
  }

  /** A sign and a run of digits is its own stripped text, free of separators and not all digits. */
  lemma SignedDigitsLiteral(t: string, d: string)
    requires d != [] && AllDigits(d) && |t| == |d| + 1 && (t[0] == '-' || t[0] == '+') && t[1..] == d
    ensures Strip(t) == t && NoSeparators(t) && !AllDigits(t)
  {
    assert t[|t| - 1] == d[|d| - 1];
    Unpadded(t);
    assert !IsDigit(t[0]);
    assert NoSeparators(t) by {
      forall k | 0 <= k < |t| ensures !IsSeparator(t[k]) {
        if k > 0 { assert t[k] == d[k - 1]; }
      }
    }
  }

  /** More than `MaxStrDigits` digits are refused, whatever their value, even when all but one are leading zeros. */
  lemma LongDigitsRefused(d: string)
    requires AllDigits(d) && |d| > MaxStrDigits
    ensures ParseInt(d).None?
  {
    Unpadded(d);
  }

  /**
   * Surrounding whitespace is ignored: a text without separators parses
   * exactly as its stripped form.
   */
  lemma ParseIntIgnoresPadding(s: string)
    requires NoSeparators(s)
    ensures ParseInt(s) == ParseInt(Strip(s))
  {
    StripIdempotent(s);
    StripKeepsNoSeparators(s);
    ParseIntFollowsStrip(s, Strip(s));
  }

  /** `int()` sees only the stripped text and whether a separator occurs. */
  lemma ParseIntFollowsStrip(a: string, b: string)
    requires Strip(a) == Strip(b) && (NoSeparators(a) <==> NoSeparators(b))
    ensures ParseInt(a) == ParseInt(b)
  {
  }

  /** Stripping only removes characters, so it introduces no separator. */
  lemma StripKeepsNoSeparators(s: string)
    requires NoSeparators(s)
    ensures NoSeparators(Strip(s))
  {
    var l := StripLeft(s);
    var r := StripRight(l);
    assert Strip(s) == r;
    forall k | 0 <= k < |r| ensures !IsSeparator(r[k]) {
      assert r[k] == l[k] == s[|s| - |l| + k];
    }
  }

  /** Text that neither starts nor ends with whitespace is unchanged by stripping. */
  lemma Unpadded(t: string)
    requires t != [] && !IsSpace(t[0]) && !IsSpace(t[|t| - 1])
    ensures Strip(t) == t
  {
    StripPadded([], t, []);
    assert [] + t + [] == t;
  }
}
