/**
  The pieces of Rust's `format!` that the tracer relies on, written out:
  upper-case hexadecimal with a minimum width (`{:02X}`, `{:04X}`),
  left- and right-aligned padding with spaces (`{:8}`, `{: >4}`, `{:47}`)
  and `str::trim`.
 */
module Text {

  predicate IsHexDigit(c: char) {
    '0' <= c <= '9' || 'A' <= c <= 'F'
  }

  predicate IsHex(s: string) {
    forall i | 0 <= i < |s| :: IsHexDigit(s[i])
  }

  function DigitValue(c: char): (d: nat)
    requires IsHexDigit(c)
    ensures d < 16
  {
    if '0' <= c <= '9' then c as int - '0' as int else c as int - 'A' as int + 10
  }

  /** The upper-case digit for a value below 16. */
  function HexDigit(d: nat): (c: char)
    requires d < 16
    ensures IsHexDigit(c) && DigitValue(c) == d
  {
    if d < 10 then (d + '0' as int) as char else (d - 10 + 'A' as int) as char
  }

  function Pow16(k: nat): (r: nat)
    ensures r >= 1
  {
    if k == 0 then 1 else 16 * Pow16(k - 1)
  }

  /** The shortest hexadecimal spelling of `n` (at least one digit). */
  function Digits(n: nat): (r: string)
    ensures 1 <= |r| && IsHex(r)
    decreases n
  {
    if n < 16 then [HexDigit(n)] else Digits(n / 16) + [HexDigit(n % 16)]
  }

  function Zeros(k: nat): (r: string)
    ensures |r| == k && IsHex(r)
  {
    seq(k, _ => '0')
  }

  /** `format!("{:0w$X}", n)`: at least `width` digits, zero-filled on the left, never truncated. */
  function Hex(n: nat, width: nat): (r: string)
    ensures IsHex(r) && |r| >= width
  {
    var d := Digits(n);
    Zeros(if width > |d| then width - |d| else 0) + d
  }

  /** Reads a string of hexadecimal digits back as a number. */
  function Value(s: string): nat
    requires IsHex(s)
    decreases |s|
  {
    if s == [] then 0 else Value(s[..|s| - 1]) * 16 + DigitValue(s[|s| - 1])
  }

  lemma {:induction false} ValueOfDigits(n: nat)
    ensures Value(Digits(n)) == n
    decreases n
  {
    if n >= 16 {
      var d := Digits(n / 16);
      ValueOfDigits(n / 16);
      assert Digits(n)[..|Digits(n)| - 1] == d;
    }
  }

  lemma {:induction false} ValueOfZeros(k: nat)
    ensures Value(Zeros(k)) == 0
  {
    if k > 0 {
      assert Zeros(k)[..k - 1] == Zeros(k - 1);
      ValueOfZeros(k - 1);
    }
  }

  lemma {:induction false} ValueIgnoresLeadingZeros(k: nat, s: string)
    requires IsHex(s)
    ensures Value(Zeros(k) + s) == Value(s)
    decreases |s|
  {
    if s == [] {
      assert Zeros(k) + s == Zeros(k);
      ValueOfZeros(k);
    } else {
      var t := Zeros(k) + s;
      assert t[..|t| - 1] == Zeros(k) + s[..|s| - 1];
      ValueIgnoresLeadingZeros(k, s[..|s| - 1]);
    }
  }

  /** Hexadecimal formatting is undone by reading the digits back. */
  lemma HexRoundTrip(n: nat, width: nat)
    ensures Value(Hex(n, width)) == n
  {
    var d := Digits(n);
    ValueIgnoresLeadingZeros(if width > |d| then width - |d| else 0, d);
    ValueOfDigits(n);
  }

  /** `n` needs at most `k` digits exactly when it is below 16^k. */
  lemma {:induction false} DigitsFit(n: nat, k: nat)
    requires k >= 1
    ensures |Digits(n)| <= k <==> n < Pow16(k)
    decreases n
  {
    if n >= 16 {
      if k == 1 {
        assert |Digits(n)| == |Digits(n / 16)| + 1;
      } else {
        DigitsFit(n / 16, k - 1);
      }
    } else {
      assert Pow16(k) >= 16 by { assert Pow16(k) == 16 * Pow16(k - 1); }
    }
  }

  /** A field of `width` digits holds `n` without overflowing exactly when `n < 16^width`. */
  lemma HexWidth(n: nat, width: nat)
    requires width >= 1
    ensures |Hex(n, width)| == width <==> n < Pow16(width)
  {
    DigitsFit(n, width);
  }

  /** The two widths the tracer uses, for byte- and word-sized values. */
  lemma HexFieldLengths(n: nat)
    requires n < 0x1_0000
    ensures |Hex(n, 4)| == 4 && |Hex(n, 2)| <= 4
    ensures n < 0x100 ==> |Hex(n, 2)| == 2
  {
    assert Pow16(2) == 0x100;
    assert Pow16(4) == 0x1_0000;
    HexWidth(n, 4);
    DigitsFit(n, 4);
    if n < 0x100 {
      HexWidth(n, 2);
    }
  }

  /** The characters Rust's `char::is_whitespace` accepts. */
  predicate IsWhitespace(c: char) {
    var u := c as int;
    (0x09 <= u <= 0x0D) || u == 0x20 || u == 0x85 || u == 0xA0 || u == 0x1680 ||
    (0x2000 <= u <= 0x200A) || u == 0x2028 || u == 0x2029 || u == 0x202F ||
    u == 0x205F || u == 0x3000
  }

  /** `format!("{:w$}", s)`: left-aligned, filled with spaces on the right. */
  function PadRight(s: string, w: nat): (r: string)
    ensures |r| == if |s| >= w then |s| else w
    ensures r[..|s|] == s
    ensures forall i | |s| <= i < |r| :: r[i] == ' '
  {
    if |s| >= w then s else s + seq(w - |s|, _ => ' ')
  }

  /** `format!("{: >w$}", s)`: right-aligned, filled with spaces on the left. */
  function PadLeft(s: string, w: nat): (r: string)
    ensures |r| == if |s| >= w then |s| else w
    ensures r[|r| - |s|..] == s
    ensures forall i | 0 <= i < |r| - |s| :: r[i] == ' '
  {
    if |s| >= w then s else seq(w - |s|, _ => ' ') + s
  }

  /** The length of the longest prefix of `s[..n]` that does not end in whitespace. */
  function KeptEnd(s: string, n: nat): (k: nat)
    requires n <= |s|
    ensures k <= n
    decreases n
  {
    if n == 0 || !IsWhitespace(s[n - 1]) then n else KeptEnd(s, n - 1)
  }

  /** The index of the first character of `s[n..]` that is not whitespace, or `|s|`. */
  function KeptStart(s: string, n: nat): (k: nat)
    requires n <= |s|
    ensures n <= k <= |s|
    decreases |s| - n
  {
    if n == |s| || !IsWhitespace(s[n]) then n else KeptStart(s, n + 1)
  }

  /** `str::trim_end`: drops the trailing whitespace. */
  function TrimEnd(s: string): string {
    s[..KeptEnd(s, |s|)]
  }

  /** `str::trim_start`: drops the leading whitespace. */
  function TrimStart(s: string): string {
    s[KeptStart(s, 0)..]
  }

  /** `str::trim`. */
  function Trim(s: string): string {
    TrimStart(TrimEnd(s))
  }

  lemma {:induction false} KeptEndFacts(s: string, n: nat)
    requires n <= |s|
    ensures var k := KeptEnd(s, n);
      && (k == 0 || !IsWhitespace(s[k - 1]))
      && forall i | k <= i < n :: IsWhitespace(s[i])
    decreases n
  {
    if n > 0 && IsWhitespace(s[n - 1]) {
      KeptEndFacts(s, n - 1);
    }
  }

  /** `TrimEnd` keeps the longest prefix that does not end in whitespace. */
  lemma TrimEndFacts(s: string)
    ensures var r := TrimEnd(s);
      && r <= s
      && (r == [] || !IsWhitespace(r[|r| - 1]))
      && forall i | |r| <= i < |s| :: IsWhitespace(s[i])
  {
    KeptEndFacts(s, |s|);
  }

  /** The three properties of `TrimEnd` determine it. */
  lemma TrimEndUnique(s: string, n: nat)
    requires n <= |s|
    requires n == 0 || !IsWhitespace(s[n - 1])
    requires forall i | n <= i < |s| :: IsWhitespace(s[i])
    ensures TrimEnd(s) == s[..n]
  {
    TrimEndFacts(s);
    var r := TrimEnd(s);
    assert r == s[..|r|];
  }

  /** Trimming a text that opens with a non-blank word `a` keeps `a` and trims only the tail. */
  lemma TrimAfterWord(a: string, b: string)
    requires a != [] && !IsWhitespace(a[0]) && !IsWhitespace(a[|a| - 1])
    ensures Trim(a + b) == a + TrimEnd(b)
  {
    TrimEndFacts(b);
    var t := TrimEnd(b);
    var s := a + b;
    assert s[..|a| + |t|] == a + t;
    TrimEndUnique(s, |a| + |t|);
    assert TrimEnd(s) == a + t;
    assert (a + t)[0] == a[0];
  }

  predicate EndsWith(s: string, t: string) {
    |t| <= |s| && s[|s| - |t|..] == t
  }

  lemma EndsWithItself(s: string)
    ensures EndsWith(s, s)
  {
    assert s[0..] == s;
  }

  lemma EndsWithAfter(h: string, t: string, e: string)
    requires EndsWith(t, e)
    ensures EndsWith(h + t, e)
  {
    assert (h + t)[|h + t| - |e|..] == t[|t| - |e|..];
  }

  /** Text built as `p + m + x` ends with `m + x`. */
  lemma EndsWithTail(p: string, m: string, x: string)
    ensures EndsWith(p + m + x, m + x)
  {
    assert p + m + x == p + (m + x);
  }

  lemma SliceOfSlice(s: string, a: nat, b: nat, c: nat, d: nat)
    requires a <= b <= |s| && c <= d <= b - a
    ensures s[a..b][c..d] == s[a + c..a + d]
  {
    forall k | 0 <= k < d - c ensures s[a..b][c..d][k] == s[a + c..a + d][k] {
      assert s[a..b][c..d][k] == s[a..b][c + k] == s[a + c + k];
    }
  }

  lemma SliceOfPrefix(s: string, t: string, lo: nat, hi: nat)
    requires |t| <= |s| && s[..|t|] == t && lo <= hi <= |t|
    ensures s[lo..hi] == t[lo..hi]
  {
    forall k | 0 <= k < hi - lo ensures s[lo..hi][k] == t[lo..hi][k] {
      assert s[lo + k] == s[..|t|][lo + k];
    }
  }

  lemma AppendAssoc(a: string, b: string, c: string)
    ensures a + b + c == a + (b + c)
  {
  }

  lemma PrefixOfAppend(a: string, b: string)
    ensures (a + b)[..|a|] == a
  {
  }

  /** Hexadecimal digits are never whitespace. */
  lemma DigitNotWhitespace(c: char)
    requires IsHexDigit(c)
    ensures !IsWhitespace(c)
  {
  }
}
