/**
 * The parts of Go's `strings`, `unicode` and `strconv` packages that the agent
 * relies on, stated over Dafny strings (sequences of Unicode code points).
 */
module GoStrings {
  import opened Wrappers

  /** One byte of a Go byte slice or of raw string data. */
  newtype byte = b: int | 0 <= b < 256

  /** `unicode.IsSpace`: the Latin-1 spaces plus the White_Space property. */
  predicate IsSpace(c: char) {
    var n := c as int;
    (9 <= n <= 13) || n == 32 || n == 0x85 || n == 0xA0 || n == 0x1680
    || (0x2000 <= n <= 0x200A) || n == 0x2028 || n == 0x2029
    || n == 0x202F || n == 0x205F || n == 0x3000
  }

  predicate AllSpace(s: string) {
    forall i :: 0 <= i < |s| ==> IsSpace(s[i])
  }

  /** No white space at either end: what `strings.TrimSpace` returns. */
  predicate Trimmed(s: string) {
    |s| == 0 || (!IsSpace(s[0]) && !IsSpace(s[|s| - 1]))
  }

  /** Drops the longest all-space prefix. */
  function TrimLeftSpace(s: string): string
  {
    if |s| > 0 && IsSpace(s[0]) then TrimLeftSpace(s[1..]) else s
  }

  /** Drops the longest all-space suffix. */
  function TrimRightSpace(s: string): string
  {
    if |s| > 0 && IsSpace(s[|s| - 1]) then TrimRightSpace(s[..|s| - 1]) else s
  }

  /** What is left after `TrimLeftSpace` is a suffix that starts with a non-space. */
  lemma {:induction false} TrimLeftSpaceShape(s: string)
    ensures var r := TrimLeftSpace(s); |r| <= |s| && r == s[|s| - |r|..]
    ensures var r := TrimLeftSpace(s); |r| == 0 || !IsSpace(r[0])
  {
    if |s| > 0 && IsSpace(s[0]) {
      TrimLeftSpaceShape(s[1..]);
    }
  }

  /** What is left after `TrimRightSpace` is a prefix that ends with a non-space. */
  lemma {:induction false} TrimRightSpaceShape(s: string)
    ensures var r := TrimRightSpace(s); |r| <= |s| && r == s[..|r|]
    ensures var r := TrimRightSpace(s); |r| == 0 || !IsSpace(r[|r| - 1])
  {
    if |s| > 0 && IsSpace(s[|s| - 1]) {
      TrimRightSpaceShape(s[..|s| - 1]);
    }
  }

  /** `strings.TrimSpace`: the input less its leading and trailing white space. */
  function TrimSpace(s: string): (r: string)
    ensures Trimmed(r) && |r| <= |s|
  {
    TrimLeftSpaceShape(s);
    TrimRightSpaceShape(TrimLeftSpace(s));
    TrimRightSpace(TrimLeftSpace(s))
  }

  lemma {:induction false} TrimLeftPadded(a: string, t: string)
    requires AllSpace(a) && |t| > 0 && !IsSpace(t[0])
    ensures TrimLeftSpace(a + t) == t
  {
    if |a| == 0 {
      assert a + t == t;
    } else {
      assert (a + t)[0] == a[0];
      assert (a + t)[1..] == a[1..] + t;
      TrimLeftPadded(a[1..], t);
    }
  }

  lemma {:induction false} TrimRightPadded(t: string, b: string)
    requires AllSpace(b) && |t| > 0 && !IsSpace(t[|t| - 1])
    ensures TrimRightSpace(t + b) == t
  {
    if |b| == 0 {
      assert t + b == t;
    } else {
      assert (t + b)[|t + b| - 1] == b[|b| - 1];
      assert (t + b)[..|t + b| - 1] == t + b[..|b| - 1];
      TrimRightPadded(t, b[..|b| - 1]);
    }
  }

  lemma {:induction false} TrimAllSpace(s: string)
    requires AllSpace(s)
    ensures TrimSpace(s) == ""
  {
    if |s| > 0 {
      assert AllSpace(s[1..]) by {
        assert forall i :: 0 <= i < |s| - 1 ==> s[1..][i] == s[i + 1];
      }
      TrimAllSpace(s[1..]);
    }
  }

  /** Trimming a string padded with white space on both sides gives back the string. */
  lemma TrimSpacePadded(a: string, c: string, b: string)
    requires AllSpace(a) && AllSpace(b) && Trimmed(c)
    ensures TrimSpace(a + c + b) == c
  {
    if |c| > 0 {
      assert a + c + b == a + (c + b);
      assert (c + b)[0] == c[0];
      TrimLeftPadded(a, c + b);
      TrimRightPadded(c, b);
    } else {
      var s := a + c + b;
      assert forall i :: 0 <= i < |a| ==> s[i] == a[i];
      assert forall i :: |a| <= i < |s| ==> s[i] == b[i - |a|];
      TrimAllSpace(s);
    }
  }

  /** Trimming is the identity on a trimmed string, so it is idempotent. */
  lemma TrimSpaceOfTrimmed(c: string)
    requires Trimmed(c)
    ensures TrimSpace(c) == c
  {
    TrimSpacePadded([], c, []);
    assert [] + c + [] == c;
  }

  lemma {:induction false} TrimLeftKeepsLast(s: string)
    requires |s| > 0 && !IsSpace(s[|s| - 1])
    ensures var r := TrimLeftSpace(s); |r| > 0 && r[|r| - 1] == s[|s| - 1]
    decreases |s|
  {
    if IsSpace(s[0]) {
      TrimLeftKeepsLast(s[1..]);
    }
  }

  /** A string that ends with a non-space keeps that character through `TrimSpace`. */
  lemma TrimSpaceKeepsLast(s: string)
    requires |s| > 0 && !IsSpace(s[|s| - 1])
    ensures |TrimSpace(s)| > 0 && TrimSpace(s)[|TrimSpace(s)| - 1] == s[|s| - 1]
  {
    TrimLeftKeepsLast(s);
  }

  predicate HasPrefix(s: string, p: string) {
    |p| <= |s| && s[..|p|] == p
  }

  predicate HasSuffix(s: string, p: string) {
    |p| <= |s| && s[|s| - |p|..] == p
  }

  /** `strings.TrimPrefix`: removes one occurrence of `p` at the front, if there. */
  function TrimPrefix(s: string, p: string): string
  {
    if HasPrefix(s, p) then s[|p|..] else s
  }

  /** `strings.TrimSuffix`: removes one occurrence of `p` at the end, if there. */
  function TrimSuffix(s: string, p: string): string
  {
    if HasSuffix(s, p) then s[..|s| - |p|] else s
  }

  /** `strings.Index` for a one-character separator: first position of `c`, or -1. */
  function Index(s: string, c: char): (r: int)
    ensures -1 <= r < |s|
    ensures r >= 0 ==> s[r] == c && forall j :: 0 <= j < r ==> s[j] != c
    ensures r == -1 ==> forall j :: 0 <= j < |s| ==> s[j] != c
  {
    if |s| == 0 then -1
    else if s[0] == c then 0
    else var t := Index(s[1..], c); if t == -1 then -1 else t + 1
  }

  function LowerChar(c: char): char {
    if 'A' <= c <= 'Z' then (c as int + 32) as char else c
  }

  /** `strings.ToLower`, on the ASCII letters. */
  function ToLower(s: string): (r: string)
  {
    seq(|s|, i requires 0 <= i < |s| => LowerChar(s[i]))
  }

  /** `strings.Join`. */
  function Join(items: seq<string>, sep: string): string
  {
    if |items| == 0 then ""
    else if |items| == 1 then items[0]
    else items[0] + sep + Join(items[1..], sep)
  }

  predicate IsDigit(c: char) {
    '0' <= c <= '9'
  }

  predicate AllDigits(s: string) {
    forall i :: 0 <= i < |s| ==> IsDigit(s[i])
  }

  function DecimalValue(s: string): nat
    requires AllDigits(s)
  {
    if |s| == 0 then 0
    else 10 * DecimalValue(s[..|s| - 1]) + (s[|s| - 1] as int - '0' as int)
  }

  const MinInt: int := -0x8000_0000_0000_0000
  const MaxInt: int := 0x7FFF_FFFF_FFFF_FFFF

  /**
   * `strconv.Atoi` on a 64-bit platform: an optional sign followed by one or
   * more decimal digits whose value fits in an `int`; anything else is an error
   * (None).
   */
  function Atoi(s: string): (r: Option<int>)
    ensures r.Some? ==> MinInt <= r.value <= MaxInt
  {
    if |s| == 0 then None
    else
      var neg := s[0] == '-';
      var digits := if s[0] == '-' || s[0] == '+' then s[1..] else s;
      if |digits| == 0 || !AllDigits(digits) then None
      else
        var n: int := DecimalValue(digits);
        var v := if neg then -n else n;
        if MinInt <= v <= MaxInt then Some(v) else None
  }

  /**
   * Every numeral parses to its value: an optional `+` or `-` followed by one
   * or more digits gives the signed decimal value when it fits in an `int`,
   * and an error otherwise.
   */
  lemma AtoiValue(sign: string, d: string)
    requires sign == "" || sign == "+" || sign == "-"
    requires |d| > 0 && AllDigits(d)
    ensures var n: int := DecimalValue(d); var v := if sign == "-" then -n else n;
      Atoi(sign + d) == if MinInt <= v <= MaxInt then Some(v) else None
  {
    if sign == "" {
      assert sign + d == d;
      assert IsDigit(d[0]);
    } else {
      assert (sign + d)[0] == sign[0];
      assert (sign + d)[1..] == d;
    }
  }

  /**
   * Only numerals parse: a text `Atoi` accepts is a run of digits, or a `+`
   * or `-` followed by one, and an unsigned run of digits parses to its value.
   */
  lemma AtoiOnlyNumerals(s: string)
    requires Atoi(s).Some?
    ensures |s| > 0
    ensures (|s| > 1 && (s[0] == '+' || s[0] == '-') && AllDigits(s[1..])) || AllDigits(s)
    ensures AllDigits(s) ==> Atoi(s).value == DecimalValue(s)
  {
    if AllDigits(s) {
      assert IsDigit(s[0]);
    }
  }

  /** Leading zeros do not change a decimal numeral's value. */
  lemma {:induction false} LeadingZeros(z: string, d: string)
    requires forall i :: 0 <= i < |z| ==> z[i] == '0'
    requires AllDigits(d)
    ensures AllDigits(z + d) && DecimalValue(z + d) == DecimalValue(d)
  {
    if |d| == 0 {
      assert z + d == z;
      ZerosValue(z);
    } else {
      var w := z + d;
      assert w[..|w| - 1] == z + d[..|d| - 1];
      assert w[|w| - 1] == d[|d| - 1];
      LeadingZeros(z, d[..|d| - 1]);
    }
  }

  lemma {:induction false} ZerosValue(z: string)
    requires forall i :: 0 <= i < |z| ==> z[i] == '0'
    ensures AllDigits(z) && DecimalValue(z) == 0
  {
    if |z| > 0 {
      ZerosValue(z[..|z| - 1]);
    }
  }

  /** `strconv.Atoi` accepts a leading '+' and leading zeros. */
  lemma AtoiAcceptsSignAndZeros(z: string, k: nat)
    requires forall i :: 0 <= i < |z| ==> z[i] == '0'
    requires k <= 9
    ensures Atoi(z + [('0' as int + k) as char]) == Some(k)
    ensures Atoi("+" + z + [('0' as int + k) as char]) == Some(k)
  {
    var d := [('0' as int + k) as char];
    LeadingZeros(z, d);
    assert ("+" + z + d)[1..] == z + d;
    assert DecimalValue(d) == k by {
      assert d[..0] == [];
    }
    if |z| > 0 {
      assert (z + d)[0] == '0';
    } else {
      assert z + d == d;
    }
  }
}
