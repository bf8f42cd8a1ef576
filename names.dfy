/**
 * Fresh names for `unbind` (church/expr.py): `variants` enumerates a base
 * name followed by every digit string, shortest first and in counting order
 * within one length; `name_avoiding` takes the first variant not in a set.
 */
module Names {
  import opened Seqs

  const DigitChars: string := "0123456789"

  predicate IsDigit(c: char)
  {
    '0' <= c <= '9'
  }

  predicate AllDigits(s: string)
  {
    forall i :: 0 <= i < |s| ==> IsDigit(s[i])
  }

  function Power10(n: nat): (r: nat)
    ensures r >= 1
  {
    if n == 0 then 1 else 10 * Power10(n - 1)
  }

  /** How many digit strings are shorter than `width`. */
  function Shorter(width: nat): nat
  {
    if width == 0 then 0 else Shorter(width - 1) + Power10(width - 1)
  }

  /** The `width`-digit tuple that sits at position `k` of the product of DIGITS with itself. */
  function Numeral(k: nat, width: nat): string
  {
    if width == 0 then "" else Numeral(k / 10, width - 1) + [DigitChars[k % 10]]
  }

  /** The number a digit string spells. */
  function Value(d: string): nat
    requires AllDigits(d)
  {
    if d == [] then 0 else 10 * Value(d[..|d| - 1]) + (d[|d| - 1] as int - '0' as int)
  }

  /**
   * The suffix `variants` appends at step `k`, having already spent the
   * lengths below `width`.
   */
  function SuffixFrom(k: nat, width: nat): string
    decreases k
  {
    if k < Power10(width) then Numeral(k, width) else SuffixFrom(k - Power10(width), width + 1)
  }

  function Suffix(k: nat): string
  {
    SuffixFrom(k, 0)
  }

  /** The `k`-th name that `variants(base)` yields. */
  function Variant(base: string, k: nat): string
  {
    base + Suffix(k)
  }

  /** The position at which a digit string is enumerated. */
  function Position(d: string): nat
    requires AllDigits(d)
  {
    Shorter(|d|) + Value(d)
  }

  lemma DigitCharsSpell(i: nat)
    requires i < 10
    ensures DigitChars[i] as int == '0' as int + i
  {
  }

  lemma {:induction false} NumeralShape(k: nat, width: nat)
    ensures |Numeral(k, width)| == width && AllDigits(Numeral(k, width))
  {
    if width > 0 {
      NumeralShape(k / 10, width - 1);
      DigitCharsSpell(k % 10);
    }
  }

  lemma {:induction false} ValueOfNumeral(k: nat, width: nat)
    requires k < Power10(width)
    ensures AllDigits(Numeral(k, width)) && Value(Numeral(k, width)) == k
  {
    NumeralShape(k, width);
    if width > 0 {
      var d := Numeral(k, width);
      ValueOfNumeral(k / 10, width - 1);
      DigitCharsSpell(k % 10);
      assert d[..|d| - 1] == Numeral(k / 10, width - 1);
    }
  }

  lemma {:induction false} ValueBound(d: string)
    requires AllDigits(d)
    ensures Value(d) < Power10(|d|)
  {
    if d != [] {
      ValueBound(d[..|d| - 1]);
    }
  }

  lemma {:induction false} NumeralOfValue(d: string)
    requires AllDigits(d)
    ensures Numeral(Value(d), |d|) == d
  {
    if d != [] {
      NumeralOfValue(d[..|d| - 1]);
      LastDigit(Value(d[..|d| - 1]), d[|d| - 1]);
      InitLast(d);
    }
  }

  /** Appending digit `c` to the decimal form of `v`: the quotient by ten is `v`, the remainder spells `c`. */
  lemma LastDigit(v: nat, c: char)
    requires IsDigit(c)
    ensures var n := 10 * v + (c as int - '0' as int);
      n / 10 == v && 0 <= n % 10 < 10 && DigitChars[n % 10] == c
  {
    var last := c as int - '0' as int;
    AppendDigit(v, last);
    DigitCharsSpell(last);
  }

  /** Appending a digit to a number's decimal form: the quotient and remainder by ten give them back. */
  lemma AppendDigit(v: nat, last: int)
    requires 0 <= last < 10
    ensures (10 * v + last) / 10 == v && (10 * v + last) % 10 == last
  {
  }

  lemma {:induction false} SuffixFromPosition(k: nat, width: nat)
    ensures |SuffixFrom(k, width)| >= width && AllDigits(SuffixFrom(k, width))
    ensures Position(SuffixFrom(k, width)) == Shorter(width) + k
    decreases k
  {
    if k < Power10(width) {
      NumeralShape(k, width);
      ValueOfNumeral(k, width);
    } else {
      SuffixFromPosition(k - Power10(width), width + 1);
    }
  }

  lemma {:induction false} ShorterGrows(w: nat, v: nat)
    requires w < v
    ensures Shorter(v) - Shorter(w) >= Power10(w)
    decreases v
  {
    if v > w + 1 {
      ShorterGrows(w, v - 1);
    }
  }

  lemma {:induction false} PositionFrom(d: string, width: nat)
    requires AllDigits(d) && width <= |d|
    ensures Shorter(|d|) >= Shorter(width)
    ensures SuffixFrom(Shorter(|d|) - Shorter(width) + Value(d), width) == d
    decreases |d| - width
  {
    if width == |d| {
      ValueBound(d);
      NumeralOfValue(d);
    } else {
      ShorterGrows(width, |d|);
      PositionFrom(d, width + 1);
    }
  }

  /** Every suffix is a digit string, and it is enumerated exactly at its position. */
  lemma PositionOfSuffix(k: nat)
    ensures AllDigits(Suffix(k)) && Position(Suffix(k)) == k
  {
    SuffixFromPosition(k, 0);
  }

  /** Every digit string is some suffix: `variants` misses none. */
  lemma SuffixAtPosition(d: string)
    requires AllDigits(d)
    ensures Suffix(Position(d)) == d
  {
    PositionFrom(d, 0);
  }

  /** The first variant is the base name itself. */
  lemma FirstVariantIsBase(base: string)
    ensures Variant(base, 0) == base
  {
    assert Numeral(0, 0) == "";
  }

  /** A shorter digit string is enumerated before a longer one. */
  lemma PositionOrdersLength(d: string, e: string)
    requires AllDigits(d) && AllDigits(e)
    ensures |d| < |e| ==> Position(d) < Position(e)
  {
    if |d| < |e| {
      ShorterGrows(|d|, |e|);
      ValueBound(d);
    }
  }

  /** Shorter suffixes come first. */
  lemma SuffixLengthsGrow(j: nat, k: nat)
    requires j <= k
    ensures |Suffix(j)| <= |Suffix(k)|
  {
    PositionOfSuffix(j);
    PositionOfSuffix(k);
    PositionOrdersLength(Suffix(k), Suffix(j));
  }

  /** No name is yielded twice. */
  lemma VariantInjective(base: string, j: nat, k: nat)
    requires Variant(base, j) == Variant(base, k)
    ensures j == k
  {
    assert Suffix(j) == Variant(base, j)[|base|..];
    assert Suffix(k) == Variant(base, k)[|base|..];
    PositionOfSuffix(j);
    PositionOfSuffix(k);
  }

  function VariantsBelow(base: string, k: nat): set<string>
  {
    set j | 0 <= j < k :: Variant(base, j)
  }

  lemma {:induction false} VariantsBelowSize(base: string, k: nat)
    ensures |VariantsBelow(base, k)| == k
  {
    if k > 0 {
      VariantsBelowSize(base, k - 1);
      VariantsBelowStep(base, k - 1);
    }
  }

  /** The next variant is new: it extends the set of earlier ones by one element. */
  lemma VariantsBelowStep(base: string, k: nat)
    ensures VariantsBelow(base, k + 1) == VariantsBelow(base, k) + {Variant(base, k)}
    ensures Variant(base, k) !in VariantsBelow(base, k)
  {
    assert VariantsBelow(base, k + 1) == VariantsBelow(base, k) + {Variant(base, k)};
    if Variant(base, k) in VariantsBelow(base, k) {
      var j :| 0 <= j < k && Variant(base, j) == Variant(base, k);
      VariantInjective(base, j, k);
    }
  }

  /** Pigeonhole: a finite set can hold only as many variants as it has names. */
  lemma VariantsTaken(avoid: set<string>, base: string, k: nat)
    requires forall j :: 0 <= j < k ==> Variant(base, j) in avoid
    ensures k <= |avoid|
  {
    VariantsBelowSize(base, k);
    assert VariantsBelow(base, k) <= avoid;
    SubsetSize(VariantsBelow(base, k), avoid);
  }

  lemma SubsetSize(a: set<string>, b: set<string>)
    requires a <= b
    ensures |a| <= |b|
  {
    assert b == a + (b - a);
  }

  /** Where the search of `name_avoiding` stops, starting at position `k`. */
  function FreePosition(avoid: set<string>, base: string, k: nat): (i: nat)
    requires forall j :: 0 <= j < k ==> Variant(base, j) in avoid
    ensures k <= i && Variant(base, i) !in avoid
    ensures forall j :: 0 <= j < i ==> Variant(base, j) in avoid
    decreases |avoid| - k
  {
    VariantsTaken(avoid, base, k);
    if Variant(base, k) !in avoid then k
    else
      VariantsTaken(avoid, base, k + 1);
      FreePosition(avoid, base, k + 1)
  }

  /** The name `name_avoiding(avoid, base)` returns. */
  function Avoiding(avoid: set<string>, base: string): string
  {
    Variant(base, FreePosition(avoid, base, 0))
  }

  /** The chosen name is free, and it is the first free variant. */
  lemma AvoidingIsFirstFree(avoid: set<string>, base: string)
    ensures Avoiding(avoid, base) !in avoid
    ensures exists i: nat :: Avoiding(avoid, base) == Variant(base, i)
                          && forall j :: 0 <= j < i ==> Variant(base, j) in avoid
  {
    var i := FreePosition(avoid, base, 0);
    assert Avoiding(avoid, base) == Variant(base, i);
  }

  /** A base name that is already free is kept as it is. */
  lemma AvoidingKeepsFreeBase(avoid: set<string>, base: string)
    requires base !in avoid
    ensures Avoiding(avoid, base) == base
  {
    FirstVariantIsBase(base);
  }

  /** Every chosen name starts with the base name. */
  lemma AvoidingExtendsBase(avoid: set<string>, base: string)
    ensures |base| <= |Avoiding(avoid, base)| && Avoiding(avoid, base)[..|base|] == base
  {
  }

  /** name_avoiding: try the variants in order and return the first not to avoid. */
  method NameAvoiding(avoid: set<string>, base: string) returns (name: string)
    ensures name == Avoiding(avoid, base)
  {
    var k := 0;
    while Variant(base, k) in avoid
      invariant forall j :: 0 <= j < k ==> Variant(base, j) in avoid
      invariant FreePosition(avoid, base, k) == FreePosition(avoid, base, 0)
      decreases |avoid| - k
    {
      VariantsTaken(avoid, base, k + 1);
      k := k + 1;
    }
    name := Variant(base, k);
  }
}
