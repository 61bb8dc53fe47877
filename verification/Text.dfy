/** Text helpers the programs share: trimming, fixed-width padding and decimal digits. */
module Text {
  import opened Arithmetic

  /** The Unicode White_Space characters, which `trim`, `trim_start` and `trim_end` remove. */
  predicate IsSpace(c: char) {
    var n := c as int;
    || 9 <= n <= 13 || n == 0x20 || n == 0x85 || n == 0xA0 || n == 0x1680
    || 0x2000 <= n <= 0x200A || n == 0x2028 || n == 0x2029 || n == 0x202F || n == 0x205F || n == 0x3000
  }

  function TrimEnd(s: string): (r: string)
    ensures |r| <= |s|
  {
    if s == [] || !IsSpace(s[|s| - 1]) then s else TrimEnd(s[..|s| - 1])
  }

  lemma TrimEndLaws(s: string)
    ensures var r := TrimEnd(s);
            && r <= s
            && (r != [] ==> !IsSpace(r[|r| - 1]))
            && forall i :: |r| <= i < |s| ==> IsSpace(s[i])
  {
  }

  function TrimStart(s: string): string {
    if s == [] || !IsSpace(s[0]) then s else TrimStart(s[1..])
  }

  /** Removes trailing blanks only: what a fixed-width field cannot tell apart. */
  function StripBlanks(s: string): (r: string)
    ensures r <= s
    ensures r != [] ==> r[|r| - 1] != ' '
    ensures forall i :: |r| <= i < |s| ==> s[i] == ' '
  {
    if s == [] || s[|s| - 1] != ' ' then s else StripBlanks(s[..|s| - 1])
  }

  function Blanks(n: nat): (r: string)
    ensures |r| == n && forall i :: 0 <= i < n ==> r[i] == ' '
  {
    seq(n, _ => ' ')
  }

  function PadOrTruncate(s: string, width: nat): (r: string)
    ensures |r| == width
  {
    if |s| >= width then s[..width] else s + Blanks(width - |s|)
  }

  lemma StripOfBlanked(s: string, n: nat)
    ensures StripBlanks(s + Blanks(n)) == StripBlanks(s)
  {
    var kept, blanked := StripBlanks(s), s + Blanks(n);
    assert kept <= blanked;
    StripIsUnique(blanked, kept);
  }

  /** Padding a string that fits loses nothing but the count of its trailing blanks. */
  lemma PaddingKeepsText(s: string, width: nat)
    requires |s| <= width
    ensures StripBlanks(PadOrTruncate(s, width)) == StripBlanks(s)
  {
    if |s| < width {
      StripOfBlanked(s, width - |s|);
    } else {
      assert PadOrTruncate(s, width) == s;
    }
  }

  lemma {:induction false} StripIsUnique(s: string, t: string)
    requires t <= s && (t != [] ==> t[|t| - 1] != ' ') && forall i :: |t| <= i < |s| ==> s[i] == ' '
    ensures StripBlanks(s) == t
  {
    if |t| < |s| {
      StripIsUnique(s[..|s| - 1], t);
    }
  }

  function Pow10(n: nat): (r: nat)
    ensures r >= 1
  {
    Power(10, n)
  }

  function Digit(n: nat): char
    requires n < 10
  {
    ('0' as int + n) as char
  }

  predicate IsDigit(c: char) {
    '0' <= c <= '9'
  }

  predicate AllDigits(s: string) {
    forall i :: 0 <= i < |s| ==> IsDigit(s[i])
  }

  /** The decimal form of `n`, zero-padded to at least `width` characters. */
  function ZeroPad(n: nat, width: nat): (r: string)
    ensures AllDigits(r) && |r| >= width && |r| >= 1
    decreases n + width
  {
    if n < 10 && width <= 1 then [Digit(n)]
    else ZeroPad(n / 10, if width > 0 then width - 1 else 0) + [Digit(n % 10)]
  }

  /** Rust's `{:0width$}` for a signed integer: the sign counts towards the width. */
  function FormatInt(n: int, width: nat): string {
    if n >= 0 then ZeroPad(n, width) else "-" + ZeroPad(-n, if width > 0 then width - 1 else 0)
  }

  function ParseNat(s: string): nat
    requires AllDigits(s)
  {
    if s == [] then 0 else ParseNat(s[..|s| - 1]) * 10 + (s[|s| - 1] as int - '0' as int)
  }

  lemma {:induction false} ZeroPadWidth(n: nat, width: nat)
    requires 1 <= width && n < Pow10(width)
    ensures |ZeroPad(n, width)| == width
  {
    if width > 1 {
      ZeroPadWidth(n / 10, width - 1);
    } else {
      assert Pow10(1) == 10 * Pow10(0);
    }
  }

  /** A padded number reads back as itself, whatever the width. */
  lemma {:induction false} ParseOfZeroPad(n: nat, width: nat)
    ensures ParseNat(ZeroPad(n, width)) == n
    decreases n + width
  {
    var s := ZeroPad(n, width);
    if n < 10 && width <= 1 {
      assert s[..|s| - 1] == [];
    } else {
      var w := if width > 0 then width - 1 else 0;
      ParseOfZeroPad(n / 10, w);
      assert s[..|s| - 1] == ZeroPad(n / 10, w);
    }
  }

  /** Reading digits and padding them back to their own length is the identity. */
  lemma {:induction false} ZeroPadOfParse(s: string)
    requires AllDigits(s) && s != []
    ensures ZeroPad(ParseNat(s), |s|) == s
    ensures ParseNat(s) < Pow10(|s|)
  {
    if |s| == 1 {
      assert ParseNat(s[..0]) == 0;
      assert Pow10(1) == 10 * Pow10(0);
    } else {
      var t := s[..|s| - 1];
      ZeroPadOfParse(t);
      assert ParseNat(s) / 10 == ParseNat(t);
      assert s == t + [s[|s| - 1]];
    }
  }

  lemma {:induction false} ParseConcat(a: string, b: string)
    requires AllDigits(a) && AllDigits(b)
    ensures AllDigits(a + b) && ParseNat(a + b) == ParseNat(a) * Pow10(|b|) + ParseNat(b)
  {
    if b == [] {
      assert a + b == a;
    } else {
      var c := b[..|b| - 1];
      ParseConcat(a, c);
      assert (a + b)[..|a + b| - 1] == a + c;
      assert ParseNat(a) * Pow10(|b|) == ParseNat(a) * Pow10(|c|) * 10;
    }
  }
}
