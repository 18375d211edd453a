/** Small shared vocabulary: an optional value, Python's ordering of `str`
    values, and decimal digit strings. */
module Basics {
  import opened Sorting

  datatype Option<T> = None | Some(value: T)

  /** Python's `<` on `str`: lexicographic by code point, a proper prefix
      sorting first. */
  predicate StrLt(a: string, b: string)
    decreases |a|
  {
    if a == [] then b != []
    else if b == [] then false
    else if a[0] != b[0] then a[0] < b[0]
    else StrLt(a[1..], b[1..])
  }

  lemma {:induction false} StrLtIrreflexive(a: string)
    ensures !StrLt(a, a)
  {
    if a != [] {
      StrLtIrreflexive(a[1..]);
    }
  }

  lemma {:induction false} StrLtTransitive(a: string, b: string, c: string)
    requires StrLt(a, b) && StrLt(b, c)
    ensures StrLt(a, c)
    decreases |a|
  {
    if a != [] && b != [] && c != [] && a[0] == b[0] && b[0] == c[0] {
      StrLtTransitive(a[1..], b[1..], c[1..]);
    }
  }

  lemma {:induction false} StrLtTotal(a: string, b: string)
    ensures a == b || StrLt(a, b) || StrLt(b, a)
    decreases |a|
  {
    if a != [] && b != [] && a[0] == b[0] {
      StrLtTotal(a[1..], b[1..]);
      if a[1..] == b[1..] {
        assert a == [a[0]] + a[1..] && b == [b[0]] + b[1..];
      }
    }
  }

  /** `StrLt` is a strict total order, hence a strict weak order on all strings. */
  lemma StrLtStrictWeak()
    ensures StrictWeakOn((a: string, b: string) => StrLt(a, b), (a: string) => true)
  {
    forall a: string, b: string | StrLt(a, b) ensures !StrLt(b, a) {
      if StrLt(b, a) {
        StrLtTransitive(a, b, a);
        StrLtIrreflexive(a);
      }
    }
    forall a: string, b: string, c: string | StrLt(a, c) ensures StrLt(a, b) || StrLt(b, c) {
      StrLtTotal(a, b);
      if StrLt(b, a) {
        StrLtTransitive(b, a, c);
      }
    }
  }

  predicate EndsWith(s: string, suffix: string) {
    |suffix| <= |s| && s[|s| - |suffix|..] == suffix
  }

  predicate IsDigit(c: char) {
    '0' <= c <= '9'
  }

  predicate AllDigits(s: string) {
    forall i :: 0 <= i < |s| ==> IsDigit(s[i])
  }

  function Pow10(n: nat): (r: nat)
    ensures r >= 1
  {
    if n == 0 then 1 else 10 * Pow10(n - 1)
  }

  /** The number a string of decimal digits denotes (what `int()` gives). */
  function DigitsValue(s: string): (v: nat)
    requires AllDigits(s)
    ensures v < Pow10(|s|)
  {
    if s == [] then 0
    else DigitsValue(s[..|s| - 1]) * 10 + (s[|s| - 1] as int - '0' as int)
  }

  /** `v` written with exactly `width` digits, zero-padded on the left (what the
      `%Y`, `%m`, ... directives of `strftime` print). */
  function ShowDigits(v: nat, width: nat): (s: string)
    ensures |s| == width && AllDigits(s)
  {
    if width == 0 then []
    else ShowDigits(v / 10, width - 1) + [(v % 10 + '0' as int) as char]
  }

  lemma {:induction false} ShowDigitsValue(s: string)
    requires AllDigits(s)
    ensures ShowDigits(DigitsValue(s), |s|) == s
  {
    if s != [] {
      var init := s[..|s| - 1];
      assert AllDigits(init) by {
        forall i | 0 <= i < |init| ensures IsDigit(init[i]) {
          assert init[i] == s[i];
        }
      }
      ShowDigitsValue(init);
      var v := DigitsValue(s);
      var d := s[|s| - 1] as int - '0' as int;
      assert v == DigitsValue(init) * 10 + d && 0 <= d < 10;
      assert v / 10 == DigitsValue(init) && v % 10 == d;
      assert s == init + [s[|s| - 1]];
    }
  }

  lemma {:induction false} DigitsValueShow(v: nat, width: nat)
    requires v < Pow10(width)
    ensures DigitsValue(ShowDigits(v, width)) == v
  {
    if width > 0 {
      var s := ShowDigits(v, width);
      assert v / 10 < Pow10(width - 1);
      DigitsValueShow(v / 10, width - 1);
      assert s[..|s| - 1] == ShowDigits(v / 10, width - 1);
    }
  }
}
