/** Decimal text as Go's `fmt` (`%d`), `time` (zero-padded fields) and `strconv.Atoi`
    read and write it, plus `strings.Fields`. */
module Decimal {
  import opened Wrappers

  predicate IsDigit(c: char) { '0' <= c <= '9' }

  predicate AllDigits(s: string) { forall i :: 0 <= i < |s| ==> IsDigit(s[i]) }

  function DigitValue(c: char): (d: nat)
    requires IsDigit(c)
    ensures d < 10
  {
    c as int - '0' as int
  }

  function DigitChar(d: nat): (c: char)
    requires d < 10
    ensures IsDigit(c) && DigitValue(c) == d
  {
    ('0' as int + d) as char
  }

  /** The number a string of decimal digits denotes (leading zeros allowed). */
  function DigitsValue(s: string): nat
    requires AllDigits(s)
  {
    if s == [] then 0 else 10 * DigitsValue(s[..|s| - 1]) + DigitValue(s[|s| - 1])
  }

  function Pow10(w: nat): (p: nat)
    ensures p >= 1
  {
    if w == 0 then 1 else 10 * Pow10(w - 1)
  }

  /** `%d` of a non-negative number: its digits, without leading zeros. */
  function NatToString(n: nat): (s: string)
    ensures |s| >= 1 && AllDigits(s)
    ensures |s| > 1 ==> s[0] != '0'
  {
    if n < 10 then [DigitChar(n)] else NatToString(n / 10) + [DigitChar(n % 10)]
  }

  function Zeros(k: nat): (z: string)
    ensures |z| == k && AllDigits(z)
    ensures forall i :: 0 <= i < k ==> z[i] == '0'
  {
    if k == 0 then [] else Zeros(k - 1) + ['0']
  }

  /** Go's `appendInt(b, n, w)` used by `Time.Format`: the digits of `n`, left-padded with
      zeros to width `w`. */
  function PadLeft(n: nat, w: nat): (s: string)
    ensures AllDigits(s)
  {
    var d := NatToString(n);
    if |d| >= w then d else Zeros(w - |d|) + d
  }

  lemma {:induction false} DigitsValuePrefix(s: string, c: char)
    requires AllDigits(s) && IsDigit(c)
    ensures AllDigits(s + [c]) && DigitsValue(s + [c]) == 10 * DigitsValue(s) + DigitValue(c)
  {
    assert (s + [c])[..|s|] == s;
  }

  /** Reading back what `%d` wrote gives the number. */
  lemma {:induction false} NatToStringValue(n: nat)
    ensures DigitsValue(NatToString(n)) == n
  {
    if n >= 10 {
      NatToStringValue(n / 10);
      DigitsValuePrefix(NatToString(n / 10), DigitChar(n % 10));
    }
  }

  lemma {:induction false} NatToStringLength(n: nat, w: nat)
    requires w >= 1 && n < Pow10(w)
    ensures |NatToString(n)| <= w
  {
    if n >= 10 {
      NatToStringLength(n / 10, w - 1);
    }
  }

  /** Leading zeros do not change the value. */
  lemma {:induction false} ZerosPrefixValue(k: nat, s: string)
    requires AllDigits(s)
    ensures AllDigits(Zeros(k) + s) && DigitsValue(Zeros(k) + s) == DigitsValue(s)
  {
    if s == [] {
      assert Zeros(k) + s == Zeros(k);
      ZerosValue(k);
    } else {
      var p, c := s[..|s| - 1], s[|s| - 1];
      assert s == p + [c];
      ZerosPrefixValue(k, p);
      assert Zeros(k) + s == (Zeros(k) + p) + [c];
      DigitsValuePrefix(Zeros(k) + p, c);
      DigitsValuePrefix(p, c);
    }
  }

  lemma {:induction false} ZerosValue(k: nat)
    ensures DigitsValue(Zeros(k)) == 0
  {
    if k > 0 {
      ZerosValue(k - 1);
      DigitsValuePrefix(Zeros(k - 1), '0');
    }
  }

  /** A zero-padded field of width `w` has exactly `w` digits and reads back as `n`. */
  lemma PadLeftValue(n: nat, w: nat)
    requires w >= 1 && n < Pow10(w)
    ensures |PadLeft(n, w)| == w && DigitsValue(PadLeft(n, w)) == n
  {
    NatToStringLength(n, w);
    NatToStringValue(n);
    var d := NatToString(n);
    if |d| < w {
      ZerosPrefixValue(w - |d|, d);
    }
  }

  /** Conversely, every non-empty digit string is the zero-padded rendering of its value
      at its own width. */
  lemma {:induction false} PadLeftOfDigits(s: string)
    requires |s| >= 1 && AllDigits(s)
    ensures PadLeft(DigitsValue(s), |s|) == s
  {
    var p, c := s[..|s| - 1], s[|s| - 1];
    assert s == p + [c];
    DigitsValuePrefix(p, c);
    if p == [] {
      assert DigitsValue(s) == DigitValue(c);
      DigitRoundTrip(c);
    } else {
      PadLeftOfDigits(p);
      if DigitsValue(p) == 0 {
        PadLeftZeroSnoc(p, c);
      } else {
        PadLeftSnoc(p, c, DigitsValue(p));
      }
    }
  }

  lemma DigitRoundTrip(c: char)
    requires IsDigit(c)
    ensures DigitChar(DigitValue(c)) == c && NatToString(DigitValue(c)) == [c]
  {
  }

  /** Appending a digit to a padded zero pads that digit one column wider. */
  lemma PadLeftZeroSnoc(p: string, c: char)
    requires |p| >= 1 && IsDigit(c) && PadLeft(0, |p|) == p
    ensures PadLeft(DigitValue(c), |p| + 1) == p + [c]
  {
    DigitRoundTrip(c);
    assert NatToString(0) == ['0'];
    var z := Zeros(|p| - 1);
    assert p == z + ['0'];
    assert Zeros(|p|) == z + ['0'];
    assert PadLeft(DigitValue(c), |p| + 1) == Zeros(|p|) + [c];
  }

  /** `%d` of a positive value times ten plus a digit is its text followed by that digit. */
  lemma NatToStringSnoc(n: nat, c: char)
    requires n > 0 && IsDigit(c)
    ensures NatToString(10 * n + DigitValue(c)) == NatToString(n) + [c]
  {
    var v := 10 * n + DigitValue(c);
    assert v / 10 == n && v % 10 == DigitValue(c);
    DigitRoundTrip(c);
  }

  /** Appending a digit to a padded positive value pads the value ten times larger plus
      that digit one column wider. */
  lemma PadLeftSnoc(p: string, c: char, n: nat)
    requires n > 0 && IsDigit(c) && PadLeft(n, |p|) == p
    ensures PadLeft(10 * n + DigitValue(c), |p| + 1) == p + [c]
  {
    var d := NatToString(n);
    NatToStringSnoc(n, c);
    if |d| < |p| {
      var z := Zeros(|p| - |d|);
      assert p == z + d;
      assert z + (d + [c]) == p + [c];
    }
  }

  /** Decimal integer syntax: at least one digit, after an optional `+` or `-`. */
  predicate IsDecimal(s: string)
  {
    || (|s| >= 1 && AllDigits(s))
    || (|s| >= 2 && (s[0] == '-' || s[0] == '+') && AllDigits(s[1..]))
  }

  /** The integer decimal text denotes. */
  function DecimalValue(s: string): int
    requires IsDecimal(s)
  {
    if s[0] == '-' then 0 - DigitsValue(s[1..])
    else if s[0] == '+' then DigitsValue(s[1..])
    else DigitsValue(s)
  }

  predicate InInt64(v: int) { -0x8000_0000_0000_0000 <= v <= 0x7fff_ffff_ffff_ffff }

  /** `strconv.Atoi` on a 64-bit platform: it accepts exactly the decimal texts whose value
      is in the int64 range, and gives that value. */
  function Atoi(s: string): (r: Option<int>)
    ensures r.Some? <==> IsDecimal(s) && InInt64(DecimalValue(s))
    ensures r.Some? ==> r.value == DecimalValue(s)
  {
    var neg := |s| > 0 && s[0] == '-';
    var body := if |s| > 0 && (s[0] == '-' || s[0] == '+') then s[1..] else s;
    if body == [] || !AllDigits(body) then None
    else
      var m: int := DigitsValue(body);
      var v := if neg then -m else m;
      if -0x8000_0000_0000_0000 <= v <= 0x7fff_ffff_ffff_ffff then Some(v) else None
  }

  /** `Atoi` reads back every non-negative int64 that `%d` writes. */
  lemma AtoiNatToString(n: nat)
    requires n <= 0x7fff_ffff_ffff_ffff
    ensures Atoi(NatToString(n)) == Some(n)
  {
    NatToStringValue(n);
  }

  /** `Atoi` reads back every negative int64 written with a minus sign. */
  lemma AtoiNegative(n: nat)
    requires 1 <= n <= 0x8000_0000_0000_0000
    ensures Atoi("-" + NatToString(n)) == Some(0 - n)
  {
    NatToStringValue(n);
    assert ("-" + NatToString(n))[1..] == NatToString(n);
  }

  /** The ASCII white space `strings.Fields` splits on. */
  predicate IsSpace(c: char) { c == ' ' || c == '\t' || c == '\n' || c == '\r' || c == '\U{B}' || c == '\U{C}' }

  predicate NoSpace(s: string) { forall i :: 0 <= i < |s| ==> !IsSpace(s[i]) }

  /** The longest prefix of `s` without white space. */
  function Word(s: string): (w: string)
    ensures |w| <= |s| && w == s[..|w|] && NoSpace(w)
    ensures |w| < |s| ==> IsSpace(s[|w|])
  {
    if s == [] || IsSpace(s[0]) then [] else [s[0]] + Word(s[1..])
  }

  /** `strings.Fields`: the maximal runs of non-space characters, in order. */
  function Fields(s: string): (fs: seq<string>)
    ensures forall i :: 0 <= i < |fs| ==> |fs[i]| >= 1 && NoSpace(fs[i])
    decreases |s|
  {
    if s == [] then []
    else if IsSpace(s[0]) then Fields(s[1..])
    else var w := Word(s); [w] + Fields(s[|w|..])
  }

  lemma {:induction false} WordOfJoin(w: string, rest: string)
    requires NoSpace(w) && (rest == [] || IsSpace(rest[0]))
    ensures Word(w + rest) == w
  {
    if w != [] {
      assert (w + rest)[1..] == w[1..] + rest;
      WordOfJoin(w[1..], rest);
    }
  }

  /** Joining non-empty space-free words with single spaces and splitting with `Fields`
      gives the words back: the first word, then the fields of the rest. */
  lemma FieldsCons(w: string, rest: string)
    requires |w| >= 1 && NoSpace(w)
    ensures Fields(w + " " + rest) == [w] + Fields(rest)
  {
    var s := w + " " + rest;
    WordOfJoin(w, " " + rest);
    assert s == w + (" " + rest);
    assert s[|w|..] == " " + rest;
    assert (" " + rest)[1..] == rest;
  }

  lemma FieldsSingle(w: string)
    requires |w| >= 1 && NoSpace(w)
    ensures Fields(w) == [w]
  {
    WordOfJoin(w, []);
    assert w + [] == w;
    assert w[|w|..] == [];
  }

  lemma NatToStringNoSpace(n: nat)
    ensures NoSpace(NatToString(n))
  {
  }
}
