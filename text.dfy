/** Python's string behaviour that the program relies on: str.strip, str.zfill and str(int). */
module Text {

  /** Python's str.isspace for one character. */
  predicate IsSpace(c: char)
  {
    var n := c as int;
    (9 <= n <= 13) || (28 <= n <= 32) || n == 0x85 || n == 0xA0 || n == 0x1680 ||
    (0x2000 <= n <= 0x200A) || n == 0x2028 || n == 0x2029 || n == 0x202F ||
    n == 0x205F || n == 0x3000
  }

  /** str.lstrip(): drops leading whitespace. */
  function StripLeft(s: string): (r: string)
    ensures |r| <= |s| && r == s[|s| - |r|..]
    ensures forall i :: 0 <= i < |s| - |r| ==> IsSpace(s[i])
    ensures r != [] ==> !IsSpace(r[0])
  {
    if s != [] && IsSpace(s[0]) then StripLeft(s[1..]) else s
  }

  /** str.rstrip(): drops trailing whitespace. */
  function StripRight(s: string): (r: string)
    ensures |r| <= |s| && r == s[..|r|]
    ensures forall i :: |r| <= i < |s| ==> IsSpace(s[i])
    ensures r != [] ==> !IsSpace(r[|r| - 1])
  {
    if s != [] && IsSpace(s[|s| - 1]) then StripRight(s[..|s| - 1]) else s
  }

  /** str.strip(). */
  function Strip(s: string): string
  {
    StripRight(StripLeft(s))
  }

  /** How many whitespace characters str.lstrip() drops from the front of s. */
  function LeadingSpace(s: string): nat
  {
    |s| - |StripLeft(s)|
  }

  /** Strip keeps the stretch of s that starts after its leading whitespace. */
  lemma StripTrims(s: string)
    ensures LeadingSpace(s) + |Strip(s)| <= |s|
    ensures Strip(s) == s[LeadingSpace(s)..LeadingSpace(s) + |Strip(s)|]
    ensures forall i :: 0 <= i < LeadingSpace(s) ==> IsSpace(s[i])
  {
    var left := StripLeft(s);
    var r := StripRight(left);
    assert r == left[..|r|];
  }

  /** The stretch Strip keeps neither starts nor ends with whitespace. */
  lemma StripEndsNonSpace(s: string)
    ensures Strip(s) != [] ==> !IsSpace(Strip(s)[0]) && !IsSpace(Strip(s)[|Strip(s)| - 1])
  {
    var left := StripLeft(s);
    var r := StripRight(left);
    if r != [] {
      assert r[0] == left[0];
    }
  }

  /** What Strip drops after the stretch it keeps is whitespace too. */
  lemma StripDropsTrailingSpace(s: string)
    ensures forall i :: LeadingSpace(s) + |Strip(s)| <= i < |s| ==> IsSpace(s[i])
  {
    var left := StripLeft(s);
    var r := StripRight(left);
    var lo := |s| - |left|;
    assert left == s[lo..];
    forall i | lo + |r| <= i < |s|
      ensures IsSpace(s[i])
    {
      var j := i - lo;
      assert |r| <= j < |left|;
      assert s[i] == left[j];
    }
  }

  /** A blank cell: nothing but whitespace. */
  predicate IsBlank(s: string)
  {
    forall i :: 0 <= i < |s| ==> IsSpace(s[i])
  }

  /** The program's blank test `x.strip() == ''` holds exactly for blank cells. */
  lemma StripEmptyIffBlank(s: string)
    ensures Strip(s) == "" <==> IsBlank(s)
  {
  }

  function Zeros(n: nat): (r: string)
    ensures |r| == n && forall i :: 0 <= i < n ==> r[i] == '0'
  {
    if n == 0 then "" else Zeros(n - 1) + "0"
  }

  /** str.zfill(width): pads on the left with '0' up to width, keeping a leading sign in front. */
  function ZFill(s: string, width: nat): (r: string)
    ensures |r| == if |s| >= width then |s| else width
  {
    if |s| >= width then s
    else if s != [] && (s[0] == '+' || s[0] == '-') then [s[0]] + Zeros(width - |s|) + s[1..]
    else Zeros(width - |s|) + s
  }

  /** An unsigned value (or an empty one) is padded by '0's in front of it. */
  lemma ZFillUnsigned(s: string, width: nat)
    requires |s| <= width
    requires s == [] || (s[0] != '+' && s[0] != '-')
    ensures ZFill(s, width) == Zeros(width - |s|) + s
  {
  }

  /**
   * zfill never changes a value already as wide as width; a narrower one keeps its sign
   * (if any) first and its remaining characters last, with only '0's between.
   */
  lemma ZFillPads(s: string, width: nat)
    ensures |s| >= width ==> ZFill(s, width) == s
    ensures |s| < width ==>
              var r := ZFill(s, width);
              var sign := if s != [] && (s[0] == '+' || s[0] == '-') then 1 else 0;
              r[..sign] == s[..sign] &&
              r[|r| - (|s| - sign)..] == s[sign..] &&
              forall i :: sign <= i < |r| - (|s| - sign) ==> r[i] == '0'
  {
    if |s| < width {
      var r := ZFill(s, width);
      var sign := if s != [] && (s[0] == '+' || s[0] == '-') then 1 else 0;
      var zeros := Zeros(width - |s|);
      assert r == s[..sign] + zeros + s[sign..];
    }
  }

  function DigitChar(d: nat): (c: char)
    requires d < 10
    ensures '0' <= c <= '9' && c as int - '0' as int == d
  {
    "0123456789"[d]
  }

  /** str(n) for a non-negative int: decimal digits without leading zeros. */
  function NatToString(n: nat): (s: string)
    ensures |s| > 0
    ensures forall i :: 0 <= i < |s| ==> '0' <= s[i] <= '9'
    ensures |s| > 1 ==> s[0] != '0'
    decreases n
  {
    if n < 10 then [DigitChar(n)] else NatToString(n / 10) + [DigitChar(n % 10)]
  }

  /** Reads a string of decimal digits back as a number (Python's int(s)). */
  function ParseDigits(s: string): nat
    requires forall i :: 0 <= i < |s| ==> '0' <= s[i] <= '9'
  {
    if s == [] then 0
    else ParseDigits(s[..|s| - 1]) * 10 + (s[|s| - 1] as int - '0' as int)
  }

  /** int(str(n)) == n. */
  lemma {:induction false} ParseNatToString(n: nat)
    ensures ParseDigits(NatToString(n)) == n
    decreases n
  {
    if n >= 10 {
      var s := NatToString(n);
      assert s[..|s| - 1] == NatToString(n / 10);
      ParseNatToString(n / 10);
    }
  }

  predicate IsDigit(c: char)
  {
    '0' <= c <= '9'
  }

  /** The longest run of decimal digits at the end of s. */
  function TrailingDigits(s: string): (r: string)
    ensures forall i :: 0 <= i < |r| ==> IsDigit(r[i])
  {
    if s == [] || !IsDigit(s[|s| - 1]) then [] else TrailingDigits(s[..|s| - 1]) + [s[|s| - 1]]
  }

  /** Digits written after text that does not end in a digit are exactly the trailing digits. */
  lemma {:induction false} TrailingDigitsAfter(text: string, digits: string)
    requires text == [] || !IsDigit(text[|text| - 1])
    requires forall i :: 0 <= i < |digits| ==> IsDigit(digits[i])
    ensures TrailingDigits(text + digits) == digits
    decreases |digits|
  {
    if digits != [] {
      var d := digits[..|digits| - 1];
      assert (text + digits)[..|text + digits| - 1] == text + d;
      TrailingDigitsAfter(text, d);
    } else {
      assert text + digits == text;
    }
  }
}
