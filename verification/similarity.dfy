/** `get_cosine_similarity`: both texts are cleaned, each token list becomes
    a bag of raw term counts (a `Counter`), and the score is
      numerator / (sqrt(sum1) * sqrt(sum2)),   or 0.0 when that is 0,
    where `numerator` sums count1 * count2 over the shared tokens and
    `sum1`, `sum2` sum the squared counts of each side.  Everything before
    the square roots is integer arithmetic, so the score is modelled by the
    integer triple (numerator, sum1, sum2). */
module Similarity {
  import opened TextClean

  /** A `Counter` of tokens. */
  type Bag = multiset<string>

  /** `set(counter.keys())`: the distinct tokens of a bag. */
  function Keys(b: Bag): (k: set<string>)
    ensures forall x :: x in k <==> x in b
  {
    set x | x in b
  }

  /** The integer parts of one similarity computation.  The score itself is
      `numerator / (sqrt(sum1) * sqrt(sum2))`, or exactly 0.0 when the
      denominator is 0. */
  datatype Cosine = Cosine(numerator: nat, sum1: nat, sum2: nat) {

    /** `sqrt(sum1) * sqrt(sum2)` is 0 exactly when one sum is 0: the square
        root of a positive integer is at least 1. */
    predicate DenominatorIsZero() {
      sum1 == 0 || sum2 == 0
    }

    /** The returned score is exactly 0.0. */
    predicate ScoreIsZero() {
      DenominatorIsZero() || numerator == 0
    }

    /** The square of the score, which needs no square root. */
    function ScoreSquared(): real {
      if DenominatorIsZero() then 0.0
      else (numerator * numerator) as real / (sum1 * sum2) as real
    }

    /** The score is exactly 1 in real arithmetic. */
    predicate IsPerfect() {
      !DenominatorIsZero() && numerator * numerator == sum1 * sum2
    }
  }

  // ---------------------------------------------------------------------
  // Sums over a set of tokens, in no particular order

  ghost function Pick(s: set<string>): (x: string)
    requires s != {}
    ensures x in s
  {
    var x :| x in s; x
  }

  /** The sum of `f` over `keys`; Python's `sum` over a set comprehension. */
  ghost function Sum(keys: set<string>, f: string -> int): int
    decreases keys
  {
    if keys == {} then 0
    else
      var x := Pick(keys);
      f(x) + Sum(keys - {x}, f)
  }

  /** The summand `a[x] * b[x]`: `vec1[x] * vec2[x]` or `vec[x]**2`. */
  function Product(a: Bag, b: Bag): string -> int {
    x => a[x] * b[x]
  }

  /** The summand `(p * a[x] - q * b[x])^2`, used only in the proof of the
      Cauchy-Schwarz inequality. */
  function Deviation(a: Bag, b: Bag, p: int, q: int): string -> int {
    x => (p * a[x] - q * b[x]) * (p * a[x] - q * b[x])
  }

  /** The sum does not depend on which element is taken out first. */
  lemma {:induction false} SumRemove(keys: set<string>, f: string -> int, y: string)
    requires y in keys
    ensures Sum(keys, f) == f(y) + Sum(keys - {y}, f)
    decreases keys
  {
    var x := Pick(keys);
    if x != y {
      SumRemove(keys - {x}, f, y);
      SumRemove(keys - {y}, f, x);
      assert keys - {x} - {y} == keys - {y} - {x};
    }
  }

  lemma {:induction false} SumNonNegative(keys: set<string>, f: string -> int)
    requires forall x :: x in keys ==> f(x) >= 0
    ensures Sum(keys, f) >= 0
    decreases keys
  {
    if keys != {} {
      SumNonNegative(keys - {Pick(keys)}, f);
    }
  }

  /** A sum of terms that are all at least 1 is at least the number of terms. */
  lemma {:induction false} SumAtLeastCount(keys: set<string>, f: string -> int)
    requires forall x :: x in keys ==> f(x) >= 1
    ensures Sum(keys, f) >= |keys|
    decreases keys
  {
    if keys != {} {
      SumAtLeastCount(keys - {Pick(keys)}, f);
    }
  }

  lemma {:induction false} SumPointwise(keys: set<string>, f: string -> int, g: string -> int)
    requires forall x :: x in keys ==> f(x) == g(x)
    ensures Sum(keys, f) == Sum(keys, g)
    decreases keys
  {
    if keys != {} {
      SumPointwise(keys - {Pick(keys)}, f, g);
    }
  }

  /** Adding keys whose terms are 0 does not change a sum. */
  lemma {:induction false} SumZeroOutside(all: set<string>, keys: set<string>, f: string -> int)
    requires keys <= all
    requires forall x :: x in all && x !in keys ==> f(x) == 0
    ensures Sum(all, f) == Sum(keys, f)
    decreases all
  {
    if all != {} {
      var x := Pick(all);
      SumZeroOutside(all - {x}, keys - {x}, f);
      if x in keys {
        SumRemove(keys, f, x);
      } else {
        assert keys - {x} == keys;
      }
    }
  }

  /** Expanding the square inside the sum:
      sum (p a - q b)^2 = p^2 sum a^2 - 2 p q sum a b + q^2 sum b^2. */
  lemma {:induction false} SumDeviation(keys: set<string>, a: Bag, b: Bag, p: int, q: int)
    ensures Sum(keys, Deviation(a, b, p, q))
      == p * p * Sum(keys, Product(a, a)) - 2 * p * q * Sum(keys, Product(a, b)) + q * q * Sum(keys, Product(b, b))
    decreases keys
  {
    if keys != {} {
      var x := Pick(keys);
      var rest := keys - {x};
      SumDeviation(rest, a, b, p, q);
      ExpandSquareStep(p, q, a[x], b[x],
        Sum(rest, Product(a, a)), Sum(rest, Product(a, b)), Sum(rest, Product(b, b)));
    }
  }

  /** One step of `SumDeviation`, as plain arithmetic. */
  lemma ExpandSquareStep(p: int, q: int, ax: int, bx: int, aa: int, ab: int, bb: int)
    ensures (p * ax - q * bx) * (p * ax - q * bx) + (p * p * aa - 2 * p * q * ab + q * q * bb)
      == p * p * (ax * ax + aa) - 2 * p * q * (ax * bx + ab) + q * q * (bx * bx + bb)
  {
  }

  /** The Cauchy-Schwarz inequality for count vectors over a common key set:
      (sum a b)^2 <= (sum a^2) (sum b^2). */
  lemma CauchySchwarz(keys: set<string>, a: Bag, b: Bag)
    ensures Sum(keys, Product(a, b)) * Sum(keys, Product(a, b))
      <= Sum(keys, Product(a, a)) * Sum(keys, Product(b, b))
  {
    var aa, ab, bb := Sum(keys, Product(a, a)), Sum(keys, Product(a, b)), Sum(keys, Product(b, b));
    SumNonNegative(keys, Product(a, a));
    SumNonNegative(keys, Product(b, b));
    if aa > 0 {
      DeviationNonNegative(keys, a, b, ab, aa);
      DiscriminantFirst(aa, ab, bb);
    } else if bb > 0 {
      DeviationNonNegative(keys, a, b, bb, ab);
      DiscriminantSecond(aa, ab, bb);
    } else {
      DeviationNonNegative(keys, a, b, 1, 1);
      DeviationNonNegative(keys, a, b, 1, -1);
    }
  }

  lemma DeviationNonNegative(keys: set<string>, a: Bag, b: Bag, p: int, q: int)
    ensures p * p * Sum(keys, Product(a, a)) - 2 * p * q * Sum(keys, Product(a, b)) + q * q * Sum(keys, Product(b, b)) >= 0
  {
    SumDeviation(keys, a, b, p, q);
    forall x | x in keys
      ensures Deviation(a, b, p, q)(x) >= 0
    {
      SquareNonNegative(p * a[x] - q * b[x]);
    }
    SumNonNegative(keys, Deviation(a, b, p, q));
  }

  lemma SquareNonNegative(n: int)
    ensures n * n >= 0
  {
    if n < 0 {
      assert n * n == (-n) * (-n);
    }
  }

  /** With p = ab and q = aa the expanded square is aa (aa bb - ab^2). */
  lemma DiscriminantFirst(aa: int, ab: int, bb: int)
    requires aa > 0
    requires ab * ab * aa - 2 * ab * aa * ab + aa * aa * bb >= 0
    ensures ab * ab <= aa * bb
  {
    assert ab * ab * aa - 2 * ab * aa * ab + aa * aa * bb == aa * (aa * bb - ab * ab);
    PositiveFactor(aa, aa * bb - ab * ab);
  }

  /** With p = bb and q = ab the expanded square is bb (aa bb - ab^2). */
  lemma DiscriminantSecond(aa: int, ab: int, bb: int)
    requires bb > 0
    requires bb * bb * aa - 2 * bb * ab * ab + ab * ab * bb >= 0
    ensures ab * ab <= aa * bb
  {
    assert bb * bb * aa - 2 * bb * ab * ab + ab * ab * bb == bb * (aa * bb - ab * ab);
    PositiveFactor(bb, aa * bb - ab * ab);
  }

  lemma {:induction false} PositiveFactor(k: int, m: int)
    requires k > 0 && k * m >= 0
    ensures m >= 0
    decreases k
  {
    if k > 1 {
      assert k * m == (k - 1) * m + m;
      if m < 0 {
        assert (k - 1) * m < 0 by {
          NegativeProduct(k - 1, m);
        }
      }
    }
  }

  lemma {:induction false} NegativeProduct(k: int, m: int)
    requires k > 0 && m < 0
    ensures k * m < 0
    decreases k
  {
    if k > 1 {
      NegativeProduct(k - 1, m);
      assert k * m == (k - 1) * m + m;
    }
  }

  // ---------------------------------------------------------------------
  // The similarity of two token lists

  /** `sum([vec1[x] * vec2[x] for x in intersection])`. */
  ghost function Numerator(v1: Bag, v2: Bag): int {
    Sum(Keys(v1) * Keys(v2), Product(v1, v2))
  }

  /** `sum([vec[x]**2 for x in vec.keys()])`. */
  ghost function SumOfSquares(v: Bag): int {
    Sum(Keys(v), Product(v, v))
  }

  lemma NumeratorNonNegative(v1: Bag, v2: Bag)
    ensures Numerator(v1, v2) >= 0
  {
    SumNonNegative(Keys(v1) * Keys(v2), Product(v1, v2));
  }

  lemma SumOfSquaresNonNegative(v: Bag)
    ensures SumOfSquares(v) >= 0
  {
    forall x | x in Keys(v)
      ensures Product(v, v)(x) >= 0
    {
      SquareNonNegative(v[x]);
    }
    SumNonNegative(Keys(v), Product(v, v));
  }

  /** The reference definition of `get_cosine_similarity` on cleaned tokens. */
  ghost function CosineOf(tokens1: seq<string>, tokens2: seq<string>): (c: Cosine)
    ensures c.sum1 == 0 <==> tokens1 == []
    ensures c.sum2 == 0 <==> tokens2 == []
  {
    var v1, v2 := multiset(tokens1), multiset(tokens2);
    NumeratorNonNegative(v1, v2);
    SumOfSquaresNonNegative(v1);
    SumOfSquaresNonNegative(v2);
    SumOfSquaresZero(v1);
    SumOfSquaresZero(v2);
    assert v1 == multiset{} <==> tokens1 == [];
    assert v2 == multiset{} <==> tokens2 == [];
    Cosine(Numerator(v1, v2), SumOfSquares(v1), SumOfSquares(v2))
  }

  /** A sum of squared counts is 0 exactly for the empty bag. */
  lemma SumOfSquaresZero(v: Bag)
    ensures SumOfSquares(v) == 0 <==> v == multiset{}
  {
    SumAtLeastCount(Keys(v), Product(v, v));
    if v != multiset{} {
      var x :| x in v;
      assert x in Keys(v);
    }
  }

  /** The numerator is 0 exactly when no token is shared. */
  lemma NumeratorZero(v1: Bag, v2: Bag)
    ensures Numerator(v1, v2) == 0 <==> Keys(v1) * Keys(v2) == {}
  {
    var shared := Keys(v1) * Keys(v2);
    forall x | x in shared
      ensures Product(v1, v2)(x) >= 1
    {
      assert v1[x] >= 1 && v2[x] >= 1;
    }
    SumAtLeastCount(shared, Product(v1, v2));
  }

  /** Swapping the two texts swaps the two sums and keeps the numerator. */
  lemma CosineSymmetric(tokens1: seq<string>, tokens2: seq<string>)
    ensures var c, d := CosineOf(tokens1, tokens2), CosineOf(tokens2, tokens1);
      && d.numerator == c.numerator && d.sum1 == c.sum2 && d.sum2 == c.sum1
      && d.ScoreIsZero() == c.ScoreIsZero()
      && d.ScoreSquared() == c.ScoreSquared()
  {
    var v1, v2 := multiset(tokens1), multiset(tokens2);
    assert Keys(v2) * Keys(v1) == Keys(v1) * Keys(v2);
    SumPointwise(Keys(v1) * Keys(v2), Product(v1, v2), Product(v2, v1));
    var c := CosineOf(tokens1, tokens2);
    assert c.sum2 * c.sum1 == c.sum1 * c.sum2;
  }

  /** Cauchy-Schwarz on two bags: the shared-token numerator squared is at
      most the product of the two sums of squares. */
  lemma BagsCauchySchwarz(v1: Bag, v2: Bag)
    ensures Numerator(v1, v2) * Numerator(v1, v2) <= SumOfSquares(v1) * SumOfSquares(v2)
  {
    var all := Keys(v1) + Keys(v2);
    forall x | x in all && x !in Keys(v1) * Keys(v2)
      ensures Product(v1, v2)(x) == 0
    {
      if x !in Keys(v1) {
        assert v1[x] == 0;
      } else {
        assert v2[x] == 0;
      }
    }
    SumZeroOutside(all, Keys(v1) * Keys(v2), Product(v1, v2));
    SumZeroOutside(all, Keys(v1), Product(v1, v1));
    SumZeroOutside(all, Keys(v2), Product(v2, v2));
    CauchySchwarz(all, v1, v2);
  }

  /** Cauchy-Schwarz for `get_cosine_similarity`: the square of the
      numerator is at most sum1 * sum2, so the score lies in [0, 1]. */
  lemma CosineBounded(tokens1: seq<string>, tokens2: seq<string>)
    ensures var c := CosineOf(tokens1, tokens2);
      && c.numerator * c.numerator <= c.sum1 * c.sum2
      && 0.0 <= c.ScoreSquared() <= 1.0
  {
    BagsCauchySchwarz(multiset(tokens1), multiset(tokens2));
    var c := CosineOf(tokens1, tokens2);
    if !c.DenominatorIsZero() {
      RatioAtMostOne(c.numerator * c.numerator, c.sum1 * c.sum2);
    }
  }

  lemma RatioAtMostOne(n: nat, d: nat)
    requires n <= d && d > 0
    ensures 0.0 <= n as real / d as real <= 1.0
  {
  }

  /** The score is exactly 0 if and only if one text cleans to no tokens
      or the two texts share no token. */
  lemma CosineZeroCases(tokens1: seq<string>, tokens2: seq<string>)
    ensures CosineOf(tokens1, tokens2).ScoreIsZero()
      <==> tokens1 == [] || tokens2 == [] || (forall w :: w in tokens1 ==> w !in tokens2)
  {
    var v1, v2 := multiset(tokens1), multiset(tokens2);
    SumOfSquaresZero(v1);
    SumOfSquaresZero(v2);
    NumeratorZero(v1, v2);
    assert v1 == multiset{} <==> tokens1 == [];
    assert v2 == multiset{} <==> tokens2 == [];
    var shared := Keys(v1) * Keys(v2);
    if shared != {} {
      var w :| w in shared;
      assert w in v1 && w in v2;
      assert w in tokens1 && w in tokens2;
    } else {
      forall w | w in tokens1
        ensures w !in tokens2
      {
        assert w in Keys(v1);
        assert w !in Keys(v2) by {
          assert w !in shared;
        }
        assert w !in v2;
      }
    }
  }

  /** Two texts with the same token counts (in any order) match perfectly,
      unless they clean to nothing. */
  lemma CosineSelfMatch(tokens1: seq<string>, tokens2: seq<string>)
    requires multiset(tokens1) == multiset(tokens2)
    requires tokens1 != []
    ensures CosineOf(tokens1, tokens2).IsPerfect()
    ensures CosineOf(tokens1, tokens2).ScoreSquared() == 1.0
  {
    var v := multiset(tokens1);
    assert Keys(v) * Keys(v) == Keys(v);
    assert Numerator(v, v) == SumOfSquares(v);
    SumOfSquaresZero(v);
    var c := CosineOf(tokens1, tokens2);
    assert c.numerator == c.sum1 == c.sum2 > 0;
    SelfRatio(c.sum1 * c.sum2);
  }

  lemma SelfRatio(n: nat)
    requires n > 0
    ensures n as real / n as real == 1.0
  {
  }

  lemma SumPair(x: string, y: string, f: string -> int)
    requires x != y
    ensures Sum({x, y}, f) == f(x) + f(y)
  {
    SumRemove({x, y}, f, x);
    assert {x, y} - {x} == {y};
    SumRemove({y}, f, y);
    assert {y} - {y} == {};
  }

  /** Perfect similarity does not need equal counts: proportional counts
      ("a a b b" against "a b") also score 1. */
  lemma PerfectWithoutEqualCounts(v1: Bag, v2: Bag)
    requires v1 == multiset{"a", "a", "b", "b"} && v2 == multiset{"a", "b"}
    ensures v1 != v2
    ensures Numerator(v1, v2) * Numerator(v1, v2) == SumOfSquares(v1) * SumOfSquares(v2)
  {
    assert v1["a"] == 2 && v1["b"] == 2 && v2["a"] == 1 && v2["b"] == 1;
    assert Keys(v1) == {"a", "b"} && Keys(v2) == {"a", "b"};
    assert Keys(v1) * Keys(v2) == {"a", "b"};
    SumPair("a", "b", Product(v1, v2));
    SumPair("a", "b", Product(v1, v1));
    SumPair("a", "b", Product(v2, v2));
  }

  // ---------------------------------------------------------------------
  // The computation

  /** Sums `a[x] * b[x]` over `keys`, one key at a time, in whatever order
      the set yields them. */
  method SumProducts(keys: set<string>, a: Bag, b: Bag) returns (total: int)
    ensures total == Sum(keys, Product(a, b))
  {
    total := 0;
    var rest := keys;
    while rest != {}
      invariant total + Sum(rest, Product(a, b)) == Sum(keys, Product(a, b))
      decreases |rest|
    {
      var x :| x in rest;
      SumRemove(rest, Product(a, b), x);
      total := total + a[x] * b[x];
      rest := rest - {x};
    }
  }

  /** `get_cosine_similarity(text1, text2)`, up to the final square roots and
      division. */
  method GetCosineSimilarity(text1: string, text2: string) returns (c: Cosine)
    ensures c == CosineOf(CleanText(text1), CleanText(text2))
    ensures c.numerator * c.numerator <= c.sum1 * c.sum2
    ensures c.ScoreIsZero() <==>
      || CleanText(text1) == []
      || CleanText(text2) == []
      || (forall w :: w in CleanText(text1) ==> w !in CleanText(text2))
  {
    var tokens1 := CleanText(text1);
    var tokens2 := CleanText(text2);
    var vec1 := multiset(tokens1);
    var vec2 := multiset(tokens2);
    var intersection := Keys(vec1) * Keys(vec2);
    var numerator := SumProducts(intersection, vec1, vec2);
    var sum1 := SumProducts(Keys(vec1), vec1, vec1);
    var sum2 := SumProducts(Keys(vec2), vec2, vec2);
    NumeratorNonNegative(vec1, vec2);
    SumOfSquaresNonNegative(vec1);
    SumOfSquaresNonNegative(vec2);
    c := Cosine(numerator, sum1, sum2);
    assert c == CosineOf(tokens1, tokens2);
    CosineBounded(tokens1, tokens2);
    CosineZeroCases(tokens1, tokens2);
  }
}
