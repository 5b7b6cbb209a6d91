/** The Python string operations the code relies on: justification, stripping, number formatting. */
module Text {
  import opened Wrappers

  // ----- character classes

  predicate IsDigit(c: char) {
    '0' <= c <= '9'
  }

  predicate IsUpperHex(c: char) {
    IsDigit(c) || 'A' <= c <= 'F'
  }

  predicate IsHex(c: char) {
    IsUpperHex(c) || 'a' <= c <= 'f'
  }

  /** str.isspace() restricted to latin-1, which is all a decoded byte can be. */
  predicate IsSpace(c: char) {
    '\t' <= c <= '\r' || '\U{1C}' <= c <= ' ' || c == '\U{85}' || c == '\U{A0}'
  }

  predicate AllDigits(s: string) {
    forall i | 0 <= i < |s| :: IsDigit(s[i])
  }

  predicate AllUpperHex(s: string) {
    forall i | 0 <= i < |s| :: IsUpperHex(s[i])
  }

  predicate Latin1(s: string) {
    forall i | 0 <= i < |s| :: s[i] as int < 256
  }

  function HexVal(c: char): (v: nat)
    requires IsHex(c)
    ensures v < 16
  {
    if IsDigit(c) then c as int - '0' as int
    else if IsUpperHex(c) then c as int - 'A' as int + 10
    else c as int - 'a' as int + 10
  }

  function HexChar(v: nat): (c: char)
    requires v < 16
    ensures IsUpperHex(c) && HexVal(c) == v
    ensures v < 10 <==> IsDigit(c)
  {
    if v < 10 then ('0' as int + v) as char else ('A' as int + v - 10) as char
  }

  /** The digits of base 10 and of base 16. */
  lemma DigitsExact(c: char)
    ensures IsDigit(c) <==> c in "0123456789"
    ensures IsUpperHex(c) <==> c in "0123456789ABCDEF"
    ensures IsHex(c) <==> c in "0123456789ABCDEFabcdef"
  {
    var all, n := "0123456789ABCDEFabcdef", c as int;
    if IsDigit(c) {
      assert all[n - 48] == c && "0123456789ABCDEF"[n - 48] == c && "0123456789"[n - 48] == c;
    } else if IsUpperHex(c) {
      assert all[n - 55] == c && "0123456789ABCDEF"[n - 55] == c;
    } else if 'a' <= c <= 'f' {
      assert all[n - 81] == c;
    }
  }

  /** What they stand for. */
  lemma HexValues(i: nat)
    requires i < 16
    ensures HexChar(i) == "0123456789ABCDEF"[i] && HexVal("0123456789ABCDEF"[i]) == i
    ensures IsHex("0123456789abcdef"[i]) && HexVal("0123456789abcdef"[i]) == i
  {
  }

  /** What Python strips from the right of a latin-1 text. */
  lemma SpacesExact(c: char)
    requires c as int < 256
    ensures IsSpace(c) <==> c as int in {9, 10, 11, 12, 13, 28, 29, 30, 31, 32, 133, 160}
  {
  }

  // ----- justification and stripping

  function Repeat(c: char, n: nat): (s: string)
    ensures |s| == n && forall i | 0 <= i < n :: s[i] == c
  {
    seq(n, i => c)
  }

  /** s.rjust(width, c) */
  function RJust(s: string, width: nat, c: char): string {
    if |s| >= width then s else Repeat(c, width - |s|) + s
  }

  /** s.ljust(width, c) */
  function LJust(s: string, width: nat, c: char): string {
    if |s| >= width then s else s + Repeat(c, width - |s|)
  }

  /** At least as wide as asked for, with the text at one end and the filler at the other. */
  lemma JustifyExact(s: string, width: nat, c: char)
    ensures var r := RJust(s, width, c);
            && |r| == (if |s| >= width then |s| else width) && r[|r| - |s|..] == s
            && forall i | 0 <= i < |r| - |s| :: r[i] == c
    ensures var r := LJust(s, width, c);
            && |r| == (if |s| >= width then |s| else width) && r[..|s|] == s
            && forall i | |s| <= i < |r| :: r[i] == c
  {
  }

  function Truncate(s: string, width: nat): string {
    if |s| <= width then s else s[..width]
  }

  /** s.rstrip() */
  function RStrip(s: string): (r: string)
    ensures |r| <= |s| && r == s[..|r|]
    ensures r != "" ==> !IsSpace(r[|r| - 1])
    ensures forall i | |r| <= i < |s| :: IsSpace(s[i])
  {
    if s != "" && IsSpace(s[|s| - 1]) then RStrip(s[..|s| - 1]) else s
  }

  // ----- numbers in base 10 and base 16

  datatype Radix = Decimal | Hexadecimal

  function Base(r: Radix): nat {
    if r == Decimal then 10 else 16
  }

  function High(n: nat, r: Radix): nat {
    if r == Decimal then n / 10 else n / 16
  }

  function Low(n: nat, r: Radix): (v: nat)
    ensures v < Base(r)
  {
    if r == Decimal then n % 10 else n % 16
  }

  function Join(high: nat, low: nat, r: Radix): nat {
    if r == Decimal then high * 10 + low else high * 16 + low
  }

  function Pow(b: nat, e: nat): (p: nat)
    ensures b > 0 ==> p > 0
  {
    if e == 0 then 1 else b * Pow(b, e - 1)
  }

  /** How many numbers w digits can express. */
  function Capacity(r: Radix, w: nat): (p: nat)
    ensures p > 0
  {
    if w == 0 then 1 else Join(Capacity(r, w - 1), 0, r)
  }

  /** f"{n:d}" or f"{n:X}" */
  function Format(n: nat, r: Radix): (s: string)
    ensures |s| > 0 && AllUpperHex(s)
    decreases n
  {
    if n < Base(r) then [HexChar(n)] else Format(High(n, r), r) + [HexChar(Low(n, r))]
  }

  /** f"{n:0{w}d}" or f"{n:0{w}X}" */
  function Padded(n: nat, r: Radix, w: nat): string {
    RJust(Format(n, r), w, '0')
  }

  /** The value of a string of digits, most significant first. */
  function Value(s: string, r: Radix): nat
    requires AllUpperHex(s)
  {
    if s == "" then 0 else Join(Value(s[..|s| - 1], r), HexVal(s[|s| - 1]), r)
  }

  /** int(s) on the text the parser produces: digits only, at least one of them. */
  function ParseInt(s: string): Option<nat> {
    if s != "" && AllDigits(s) then Some(Value(s, Decimal)) else None
  }

  /** The w low digits of n. */
  function Fixed(n: nat, r: Radix, w: nat): (s: string)
    ensures |s| == w && AllUpperHex(s)
    decreases w
  {
    if w == 0 then "" else Fixed(High(n, r), r, w - 1) + [HexChar(Low(n, r))]
  }

  lemma {:induction false} FormatDigits(n: nat)
    ensures AllDigits(Format(n, Decimal))
    decreases n
  {
    if n >= 10 {
      FormatDigits(n / 10);
    }
  }

  lemma {:induction false} ValueOfFormat(n: nat, r: Radix)
    ensures Value(Format(n, r), r) == n
    decreases n
  {
    if n >= Base(r) {
      var s := Format(n, r);
      assert s[..|s| - 1] == Format(High(n, r), r);
      ValueOfFormat(High(n, r), r);
    }
  }

  lemma {:induction false} ValueOfZeros(s: string, k: nat, r: Radix)
    requires AllUpperHex(s)
    ensures AllUpperHex(Repeat('0', k) + s)
    ensures Value(Repeat('0', k) + s, r) == Value(s, r)
    decreases |s| + k
  {
    var t := Repeat('0', k) + s;
    if s != "" {
      assert t[..|t| - 1] == Repeat('0', k) + s[..|s| - 1];
      ValueOfZeros(s[..|s| - 1], k, r);
    } else if k > 0 {
      assert t[..|t| - 1] == Repeat('0', k - 1) + s;
      ValueOfZeros(s, k - 1, r);
    }
  }

  /** Zero padding never changes the number: formatting is undone by reading the digits back. */
  lemma ValueOfPadded(n: nat, r: Radix, w: nat)
    ensures AllUpperHex(Padded(n, r, w)) && Value(Padded(n, r, w), r) == n
    ensures |Padded(n, r, w)| >= w
  {
    ValueOfFormat(n, r);
    var s := Format(n, r);
    if |s| < w {
      ValueOfZeros(s, w - |s|, r);
    }
  }

  lemma PaddedInjective(n: nat, m: nat, r: Radix, w: nat)
    requires Padded(n, r, w) == Padded(m, r, w)
    ensures n == m
  {
    ValueOfPadded(n, r, w);
    ValueOfPadded(m, r, w);
  }

  lemma PaddedDigits(n: nat, w: nat)
    ensures AllDigits(Padded(n, Decimal, w))
  {
    FormatDigits(n);
  }

  lemma {:induction false} FixedValue(n: nat, r: Radix, w: nat)
    requires n < Capacity(r, w)
    ensures Value(Fixed(n, r, w), r) == n
    decreases w
  {
    if w > 0 {
      var s := Fixed(n, r, w);
      assert s[..|s| - 1] == Fixed(High(n, r), r, w - 1);
      FixedValue(High(n, r), r, w - 1);
    }
  }

  /** Reading hex digits and writing the number out in as many digits gives the same text. */
  lemma {:induction false} FixedOfValue(s: string)
    requires AllUpperHex(s)
    ensures Fixed(Value(s, Hexadecimal), Hexadecimal, |s|) == s
    ensures Value(s, Hexadecimal) < Capacity(Hexadecimal, |s|)
    decreases |s|
  {
    if s != "" {
      FixedOfValue(s[..|s| - 1]);
    }
  }

  lemma {:induction false} FormatIsFixed(n: nat, r: Radix)
    ensures Format(n, r) == Fixed(n, r, |Format(n, r)|)
    ensures n < Capacity(r, |Format(n, r)|)
    ensures n > 0 ==> Capacity(r, |Format(n, r)| - 1) <= n
    decreases n
  {
    if n >= Base(r) {
      FormatIsFixed(High(n, r), r);
    } else {
      assert Fixed(n, r, 1) == Fixed(High(n, r), r, 0) + [HexChar(Low(n, r))];
      assert Capacity(r, 1) == Join(Capacity(r, 0), 0, r);
    }
  }

  lemma CapacityMonotone(r: Radix, v: nat, w: nat)
    requires v <= w
    ensures Capacity(r, v) <= Capacity(r, w)
    decreases w
  {
    if v < w {
      CapacityMonotone(r, v, w - 1);
    }
  }

  /** Padding to w digits gives exactly w of them precisely when the number fits. */
  lemma PaddedLength(n: nat, r: Radix, w: nat)
    requires w > 0
    ensures |Padded(n, r, w)| == w <==> n < Capacity(r, w)
  {
    FormatIsFixed(n, r);
    var k := |Format(n, r)|;
    if k <= w {
      CapacityMonotone(r, k, w);
    } else {
      CapacityMonotone(r, w, k - 1);
    }
  }

  /** A number that fits is written in exactly its w low digits. */
  lemma PaddedIsFixed(n: nat, w: nat)
    requires w > 0 && n < Capacity(Hexadecimal, w)
    ensures Padded(n, Hexadecimal, w) == Fixed(n, Hexadecimal, w)
  {
    PaddedLength(n, Hexadecimal, w);
    ValueOfPadded(n, Hexadecimal, w);
    FixedOfValue(Padded(n, Hexadecimal, w));
  }

  /** Digits are read from the left, each worth as many of the next as the base says. */
  lemma NumberExact(s: string, d: nat, r: Radix)
    requires AllUpperHex(s) && d < if r == Decimal then 10 else 16
    ensures Value("", r) == 0
    ensures AllUpperHex(s + ["0123456789ABCDEF"[d]])
    ensures Value(s + ["0123456789ABCDEF"[d]], r) == (if r == Decimal then 10 else 16) * Value(s, r) + d
  {
    HexValues(d);
    assert (s + [HexChar(d)])[..|s|] == s;
  }

  /** A number is read from at least one digit, and from nothing but digits. */
  lemma IntExact(s: string)
    ensures ParseInt(s).Some? <==> s != "" && forall i | 0 <= i < |s| :: s[i] in "0123456789"
    ensures ParseInt(s).Some? ==> AllDigits(s) && ParseInt(s).value == Value(s, Decimal)
  {
    forall i | 0 <= i < |s|
      ensures IsDigit(s[i]) <==> s[i] in "0123456789"
    {
      DigitsExact(s[i]);
    }
  }

  // ----- int(text, 16)

  function ToUpper(c: char): (u: char)
    requires IsHex(c)
    ensures IsUpperHex(u) && HexVal(u) == HexVal(c)
    ensures IsUpperHex(c) ==> u == c
  {
    HexChar(HexVal(c))
  }

  function ToUpperAll(s: string): (u: string)
    requires forall i | 0 <= i < |s| :: IsHex(s[i])
    ensures AllUpperHex(u) && |u| == |s|
    ensures AllUpperHex(s) ==> u == s
  {
    seq(|s|, i requires 0 <= i < |s| => ToUpper(s[i]))
  }

  function ParseHex(s: string): Option<nat> {
    if s != "" && forall i | 0 <= i < |s| :: IsHex(s[i])
    then Some(Value(ToUpperAll(s), Hexadecimal))
    else None
  }
}
