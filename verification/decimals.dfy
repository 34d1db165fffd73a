/** Decimal numerals as text, of natural and of fixed width. */
module Decimals {
  import opened Orders

  predicate IsDigit(c: char) { '0' <= c <= '9' }

  predicate AllDigits(s: string) {
    forall i :: 0 <= i < |s| ==> IsDigit(s[i])
  }

  function DigitChar(d: nat): (c: char)
    requires d < 10
    ensures IsDigit(c) && c as int == '0' as int + d
  {
    '0' + d as char
  }

  function Decimal(n: nat): (s: string)
    ensures s != "" && AllDigits(s)
  {
    if n < 10 then [DigitChar(n)] else Decimal(n / 10) + [DigitChar(n % 10)]
  }

  function ParseDecimal(s: string): nat
    requires AllDigits(s)
  {
    if s == "" then 0 else 10 * ParseDecimal(s[..|s| - 1]) + (s[|s| - 1] as int - '0' as int)
  }

  lemma {:induction false} ParseOfDecimal(n: nat)
    ensures ParseDecimal(Decimal(n)) == n
  {
    var s := Decimal(n);
    if n < 10 {
      assert s[..|s| - 1] == "";
    } else {
      ParseOfDecimal(n / 10);
      assert s[..|s| - 1] == Decimal(n / 10);
    }
  }

  // ---- fixed width ----

  function Pow10(w: nat): (p: nat)
    ensures p > 0
  {
    if w == 0 then 1 else 10 * Pow10(w - 1)
  }

  /** `f"{n:0{w}d}"` for a number that fits. */
  function Pad(n: nat, w: nat): (s: string)
    requires n < Pow10(w)
    ensures |s| == w && AllDigits(s)
  {
    if w == 0 then "" else Pad(n / 10, w - 1) + [DigitChar(n % 10)]
  }

  lemma {:induction false} ParseOfPad(n: nat, w: nat)
    requires n < Pow10(w)
    ensures ParseDecimal(Pad(n, w)) == n
  {
    if w > 0 {
      var s := Pad(n, w);
      ParseOfPad(n / 10, w - 1);
      assert s[..|s| - 1] == Pad(n / 10, w - 1);
    }
  }

  lemma OneChar(c: char, d: char)
    ensures StrLt([c], [d]) <==> c < d
  {
  }

  /** Padded numerals of one width compare as text as the numbers do. */
  lemma {:induction false} PadOrder(n: nat, m: nat, w: nat)
    requires n < Pow10(w) && m < Pow10(w)
    ensures StrLt(Pad(n, w), Pad(m, w)) <==> n < m
  {
    if w > 0 {
      var a, b := Pad(n / 10, w - 1), Pad(m / 10, w - 1);
      var d, e := DigitChar(n % 10), DigitChar(m % 10);
      PadOrder(n / 10, m / 10, w - 1);
      ParseOfPad(n / 10, w - 1);
      ParseOfPad(m / 10, w - 1);
      if n / 10 == m / 10 {
        StrPrefix(a, [d], [e]);
        OneChar(d, e);
      } else {
        StrFixedHead(a, b, [d], [e]);
      }
    }
  }

  /** A padded field decides a comparison unless it ties. */
  lemma FieldOrder(n: nat, m: nat, w: nat, a: string, b: string)
    requires n < Pow10(w) && m < Pow10(w)
    ensures StrLt(Pad(n, w) + a, Pad(m, w) + b) <==> n < m || (n == m && StrLt(a, b))
  {
    if n == m {
      StrPrefix(Pad(n, w), a, b);
    } else {
      ParseOfPad(n, w);
      ParseOfPad(m, w);
      StrFixedHead(Pad(n, w), Pad(m, w), a, b);
      PadOrder(n, m, w);
    }
  }
}
