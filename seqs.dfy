/**
 * Sequence helpers shared by the models: first-seen de-duplication (the order in
 * which a Python dict remembers its keys), occurrence counts, and the running
 * sums and products the scorers fold over lists of reals.
 */
module Seqs {

  /** No element occurs twice. */
  predicate Distinct<T(==)>(s: seq<T>)
  {
    forall i, j :: 0 <= i < j < |s| ==> s[i] != s[j]
  }

  /** Number of occurrences of `x` in `s`. */
  function Count<T(==)>(s: seq<T>, x: T): (n: nat)
    ensures n <= |s|
    ensures n > 0 <==> x in s
  {
    if s == [] then 0
    else Count(s[..|s| - 1], x) + (if s[|s| - 1] == x then 1 else 0)
  }

  /** The elements of `s`, each kept at its first occurrence. */
  function Dedup<T(==)>(s: seq<T>): (r: seq<T>)
    ensures |r| <= |s|
  {
    if s == [] then []
    else
      var d := Dedup(s[..|s| - 1]);
      if s[|s| - 1] in d then d else d + [s[|s| - 1]]
  }

  /** `Dedup` keeps exactly the elements of `s`, each once. */
  lemma {:induction false} DedupFacts<T>(s: seq<T>)
    ensures forall x :: x in Dedup(s) <==> x in s
    ensures Distinct(Dedup(s))
  {
    if s != [] {
      var init, x := s[..|s| - 1], s[|s| - 1];
      DedupFacts(init);
      assert s == init + [x];
      forall y
        ensures y in s <==> y in init || y == x
      {
      }
    }
  }

  lemma CountSnoc<T>(s: seq<T>, x: T, y: T)
    ensures Count(s + [x], y) == Count(s, y) + (if x == y then 1 else 0)
  {
    assert (s + [x])[..|s + [x]| - 1] == s;
  }

  lemma {:induction false} CountAppend<T>(a: seq<T>, b: seq<T>, x: T)
    ensures Count(a + b, x) == Count(a, x) + Count(b, x)
    decreases |b|
  {
    if b == [] {
      assert a + b == a;
    } else {
      var b', y := b[..|b| - 1], b[|b| - 1];
      CountAppend(a, b', x);
      assert a + b == (a + b') + [y];
      assert b == b' + [y];
      CountSnoc(a + b', y, x);
      CountSnoc(b', y, x);
    }
  }

  /** Removing the element at `k` removes one occurrence of it and nothing else. */
  lemma {:induction false} CountRemoveAt<T>(s: seq<T>, k: nat, y: T)
    requires k < |s|
    ensures Count(s[..k] + s[k + 1..], y) == Count(s, y) - (if s[k] == y then 1 else 0)
  {
    var a, x, b := s[..k], s[k], s[k + 1..];
    assert s == (a + [x]) + b;
    CountAppend(a + [x], b, y);
    CountSnoc(a, x, y);
    CountAppend(a, b, y);
  }

  /** In a sequence without duplicates an element occurs at most once. */
  lemma DistinctCountAtMostOne<T>(s: seq<T>, x: T)
    requires Distinct(s)
    ensures Count(s, x) <= 1
  {
    if x in s {
      DistinctCountOne(s, x);
    }
  }

  /** Both halves of a sequence without duplicates are without duplicates, and share nothing. */
  lemma DistinctAppend<T>(a: seq<T>, b: seq<T>)
    requires Distinct(a + b)
    ensures Distinct(a) && Distinct(b)
    ensures forall x :: x in a ==> x !in b
  {
    var s := a + b;
    forall i, j | 0 <= i < j < |a| ensures a[i] != a[j] {
      assert a[i] == s[i] && a[j] == s[j];
    }
    forall i, j | 0 <= i < j < |b| ensures b[i] != b[j] {
      assert b[i] == s[|a| + i] && b[j] == s[|a| + j];
    }
    forall i, j | 0 <= i < |a| && 0 <= j < |b| ensures a[i] != b[j] {
      assert a[i] == s[i] && b[j] == s[|a| + j];
    }
  }

  lemma DedupSnoc<T>(s: seq<T>, x: T)
    ensures Dedup(s + [x]) == if x in Dedup(s) then Dedup(s) else Dedup(s) + [x]
  {
    assert (s + [x])[..|s + [x]| - 1] == s;
  }

  /** Two distinct elements seen twice each are kept once each, in first-seen order. */
  lemma DedupPair<T>(x: T, y: T)
    requires x != y
    ensures Dedup([x, y]) == [x, y]
  {
    DedupSnoc([], x);
    assert [] + [x] == [x];
    DedupSnoc([x], y);
    assert [x] + [y] == [x, y];
  }

  lemma DedupRepeat<T>(x: T, y: T)
    requires x != y
    ensures Dedup([x, y, x, y]) == [x, y]
  {
    DedupPair(x, y);
    DedupSnoc([x, y], x);
    assert [x, y] + [x] == [x, y, x];
    DedupSnoc([x, y, x], y);
    assert [x, y, x] + [y] == [x, y, x, y];
  }

  /** Sum of the counts in `s` of each element of `keys`. */
  function SumCounts<T(==)>(keys: seq<T>, s: seq<T>): nat
  {
    if keys == [] then 0
    else SumCounts(keys[..|keys| - 1], s) + Count(s, keys[|keys| - 1])
  }

  function Sum(s: seq<real>): real
  {
    if s == [] then 0.0 else Sum(s[..|s| - 1]) + s[|s| - 1]
  }

  function Product(s: seq<real>): real
  {
    if s == [] then 1.0 else Product(s[..|s| - 1]) * s[|s| - 1]
  }

  lemma SumOfTwo(s: seq<real>)
    requires |s| == 2
    ensures Sum(s) == s[0] + s[1]
  {
    var init := s[..1];
    assert init[..0] == [] && init[0] == s[0];
    assert Sum(init) == s[0];
  }

  lemma ProductOfTwo(a: real, b: real)
    ensures Product([a, b]) == a * b
  {
    assert [a, b][..1] == [a];
    assert [a][..0] == [];
    assert Product([a]) == a;
  }

  lemma DistinctCountOne<T>(s: seq<T>, x: T)
    requires Distinct(s) && x in s
    ensures Count(s, x) == 1
  {
    if s[|s| - 1] != x {
      DistinctCountOne(s[..|s| - 1], x);
    } else {
      assert x !in s[..|s| - 1];
    }
  }

  /** Appending `x` to the counted sequence adds the number of times `x` is a key. */
  lemma {:induction false} SumCountsSnoc<T>(keys: seq<T>, s: seq<T>, x: T)
    ensures SumCounts(keys, s + [x]) == SumCounts(keys, s) + Count(keys, x)
  {
    if keys != [] {
      SumCountsSnoc(keys[..|keys| - 1], s, x);
      assert (s + [x])[..|s + [x]| - 1] == s;
    }
  }

  /** Counting every distinct element of `s` in `s` accounts for all of `s`. */
  lemma {:induction false} CountsOfDedupSum<T>(s: seq<T>)
    ensures SumCounts(Dedup(s), s) == |s|
  {
    if s != [] {
      var init, x := s[..|s| - 1], s[|s| - 1];
      assert s == init + [x];
      CountsOfDedupSum(init);
      DedupFacts(init);
      var d := Dedup(init);
      DedupSnoc(init, x);
      SumCountsSnoc(d, init, x);
      if x in d {
        DistinctCountOne(d, x);
        assert Dedup(s) == d;
      } else {
        assert Count(d, x) == 0;
        assert Count(init, x) == 0;
        CountSnoc(init, x, x);
        assert Dedup(s) == d + [x];
        assert (d + [x])[..|d + [x]| - 1] == d;
        assert SumCounts(d + [x], s) == SumCounts(d, s) + Count(s, x);
      }
    }
  }

  lemma MulNonNegative(a: real, b: real)
    requires 0.0 <= a && 0.0 <= b
    ensures 0.0 <= a * b
  {
  }

  /** Scaling a non-negative number by a factor in [0, 1] keeps it between 0 and itself. */
  lemma ScaleInUnit(a: real, b: real)
    requires 0.0 <= a && 0.0 <= b <= 1.0
    ensures 0.0 <= a * b <= a
  {
    MulNonNegative(a, b);
    MulNonNegative(a, 1.0 - b);
  }

  /** The same with the factor in [0, 1] on the left. */
  lemma ScaleInUnitLeft(a: real, b: real)
    requires 0.0 <= a <= 1.0 && 0.0 <= b
    ensures 0.0 <= a * b <= b
  {
    MulNonNegative(a, b);
    MulNonNegative(1.0 - a, b);
  }

  lemma MulInUnit(a: real, b: real)
    requires 0.0 <= a <= 1.0 && 0.0 <= b <= 1.0
    ensures 0.0 <= a * b <= a && a * b <= b
  {
    ScaleInUnit(a, b);
    ScaleInUnitLeft(a, b);
  }

  /** The last two factors of a product can trade places. */
  lemma MulSwap(p: real, f: real, g: real)
    ensures (p * f) * g == (p * g) * f
  {
  }

  lemma ProductSnoc(s: seq<real>, x: real)
    ensures Product(s + [x]) == Product(s) * x
  {
    assert (s + [x])[..|s + [x]| - 1] == s;
  }

  lemma PrefixSnoc<T>(s: seq<T>, j: nat)
    requires j < |s|
    ensures s[..j + 1] == s[..j] + [s[j]]
  {
  }

  lemma AppendSnoc<T>(a: seq<T>, b: seq<T>)
    requires b != []
    ensures a + b == (a + b[..|b| - 1]) + [b[|b| - 1]]
  {
    assert b == b[..|b| - 1] + [b[|b| - 1]];
  }

  /** Inserting a factor anywhere multiplies the product by it. */
  lemma {:induction false} ProductInsert(a: seq<real>, x: real, b: seq<real>)
    ensures Product(a + [x] + b) == Product(a + b) * x
    decreases |b|
  {
    if b == [] {
      assert a + [x] + b == a + [x];
      assert a + b == a;
      ProductSnoc(a, x);
    } else {
      var b', y := b[..|b| - 1], b[|b| - 1];
      ProductInsert(a, x, b');
      AppendSnoc(a + [x], b);
      AppendSnoc(a, b);
      ProductSnoc(a + [x] + b', y);
      ProductSnoc(a + b', y);
      MulSwap(Product(a + b'), x, y);
    }
  }

  /** `x` to the power `n`, for a natural exponent. */
  function Pow(x: real, n: nat): real
  {
    if n == 0 then 1.0 else Pow(x, n - 1) * x
  }

  /** Lowering one factor of a product of factors in [0, 1] never raises the product. */
  lemma {:induction false} ProductReplace(s: seq<real>, k: nat, y: real)
    requires k < |s| && forall i :: 0 <= i < |s| ==> 0.0 <= s[i] <= 1.0
    requires y <= s[k]
    ensures Product(s[k := y]) <= Product(s)
  {
    var t := s[k := y];
    var init, init' := s[..|s| - 1], t[..|t| - 1];
    ProductNonNegative(init);
    if k == |s| - 1 {
      assert init' == init;
      MulRightMonotone(y, s[k], Product(init));
    } else {
      assert init' == init[k := y];
      ProductReplace(init, k, y);
      MulRightMonotone(Product(init'), Product(init), s[|s| - 1]);
    }
    ProductUnfold(s);
    ProductUnfold(t);
  }

  /** The same, strictly, when the new factor is smaller and every other factor is positive. */
  lemma {:induction false} ProductReplaceStrict(s: seq<real>, k: nat, y: real)
    requires k < |s| && forall i :: 0 <= i < |s| ==> 0.0 <= s[i] <= 1.0
    requires y < s[k] && forall i :: 0 <= i < |s| && i != k ==> 0.0 < s[i]
    ensures Product(s[k := y]) < Product(s)
  {
    var t := s[k := y];
    var init, init' := s[..|s| - 1], t[..|t| - 1];
    if k == |s| - 1 {
      assert init' == init;
      ProductPositive(init);
      ProductLastStrict(t, s);
    } else {
      assert init' == init[k := y];
      assert forall i :: 0 <= i < |init| ==> init[i] == s[i];
      ProductReplaceStrict(init, k, y);
      ProductInitStrict(t, s);
    }
  }

  /** Two products that differ only in a smaller last factor, after a positive prefix. */
  lemma ProductLastStrict(t: seq<real>, s: seq<real>)
    requires |t| == |s| > 0 && t[..|t| - 1] == s[..|s| - 1]
    requires Product(s[..|s| - 1]) > 0.0 && t[|t| - 1] < s[|s| - 1]
    ensures Product(t) < Product(s)
  {
    var p := Product(s[..|s| - 1]);
    ProductUnfold(s);
    ProductUnfold(t);
    MulLeftStrict(p, t[|t| - 1], s[|s| - 1]);
  }

  /** Two products with a smaller prefix product and the same positive last factor. */
  lemma ProductInitStrict(t: seq<real>, s: seq<real>)
    requires |t| == |s| > 0 && Product(t[..|t| - 1]) < Product(s[..|s| - 1])
    requires t[|t| - 1] == s[|s| - 1] > 0.0
    ensures Product(t) < Product(s)
  {
    ProductUnfold(s);
    ProductUnfold(t);
    MulRightStrict(Product(t[..|t| - 1]), Product(s[..|s| - 1]), s[|s| - 1]);
  }

  /** The defining step of `Product`, as a fact to call on. */
  lemma ProductUnfold(s: seq<real>)
    requires s != []
    ensures Product(s) == Product(s[..|s| - 1]) * s[|s| - 1]
  {
  }

  lemma MulRightMonotone(a: real, b: real, c: real)
    requires 0.0 <= c && a <= b
    ensures a * c <= b * c
  {
    MulNonNegative(b - a, c);
  }

  lemma MulRightStrict(a: real, b: real, c: real)
    requires 0.0 < c && a < b
    ensures a * c < b * c
  {
    assert (b - a) * c > 0.0;
  }

  lemma {:induction false} ProductPositive(s: seq<real>)
    requires forall i :: 0 <= i < |s| ==> s[i] > 0.0
    ensures Product(s) > 0.0
  {
    if s != [] {
      ProductPositive(s[..|s| - 1]);
      var p := Product(s[..|s| - 1]);
      assert p * s[|s| - 1] > 0.0;
    }
  }

  lemma {:induction false} ProductOfEqual(s: seq<real>, x: real)
    requires forall i :: 0 <= i < |s| ==> s[i] == x
    ensures Product(s) == Pow(x, |s|)
  {
    if s != [] {
      ProductOfEqual(s[..|s| - 1], x);
    }
  }

  lemma {:induction false} PowInUnit(x: real, n: nat)
    requires 0.0 <= x <= 1.0
    ensures 0.0 <= Pow(x, n) <= 1.0
  {
    if n > 0 {
      PowInUnit(x, n - 1);
      ScaleInUnit(Pow(x, n - 1), x);
    }
  }

  /** Multiplying by a non-negative factor keeps an order. */
  lemma MulLeftMonotone(p: real, a: real, b: real)
    requires 0.0 <= p && a <= b
    ensures p * a <= p * b
  {
    MulNonNegative(p, b - a);
  }

  /** Multiplying by a positive factor keeps a strict order. */
  lemma MulLeftStrict(p: real, a: real, b: real)
    requires 0.0 < p && a < b
    ensures p * a < p * b
  {
    assert p * (b - a) > 0.0;
  }

  lemma {:induction false} PowNonNegative(x: real, n: nat)
    requires 0.0 <= x
    ensures 0.0 <= Pow(x, n)
  {
    if n > 0 {
      PowNonNegative(x, n - 1);
      MulNonNegative(Pow(x, n - 1), x);
    }
  }

  lemma {:induction false} PowPositive(x: real, n: nat)
    requires 0.0 < x
    ensures 0.0 < Pow(x, n)
  {
    if n > 0 {
      PowPositive(x, n - 1);
      assert Pow(x, n - 1) * x > 0.0;
    }
  }

  /** A natural power is monotone on the non-negative reals. */
  lemma {:induction false} PowMonotone(x: real, y: real, n: nat)
    requires 0.0 <= x <= y
    ensures Pow(x, n) <= Pow(y, n)
  {
    if n > 0 {
      PowMonotone(x, y, n - 1);
      PowNonNegative(x, n - 1);
      PowNonNegative(y, n - 1);
      MulLeftMonotone(x, Pow(x, n - 1), Pow(y, n - 1));
      MulLeftMonotone(Pow(y, n - 1), x, y);
      assert Pow(x, n) == x * Pow(x, n - 1);
      assert Pow(y, n) == Pow(y, n - 1) * y;
    }
  }

  /** A positive natural power is strictly monotone on the non-negative reals. */
  lemma {:induction false} PowStrictlyMonotone(x: real, y: real, n: nat)
    requires 0.0 <= x < y && n > 0
    ensures Pow(x, n) < Pow(y, n)
  {
    var px, py := Pow(x, n - 1), Pow(y, n - 1);
    PowMonotone(x, y, n - 1);
    PowPositive(y, n - 1);
    MulLeftMonotone(x, px, py);
    MulLeftStrict(py, x, y);
    assert Pow(x, n) == px * x <= py * x;
    assert py * x < py * y == Pow(y, n);
  }

  lemma {:induction false} PowOfOne(n: nat)
    ensures Pow(1.0, n) == 1.0
  {
    if n > 0 { PowOfOne(n - 1); }
  }

  lemma {:induction false} PowBelowOne(x: real, n: nat)
    requires 0.0 <= x < 1.0 && n > 0
    ensures Pow(x, n) < 1.0
  {
    if n > 1 {
      PowBelowOne(x, n - 1);
      PowInUnit(x, n - 1);
      ScaleInUnit(x, Pow(x, n - 1));
      assert Pow(x, n - 1) * x <= x;
    }
  }

  lemma {:induction false} SumNonNegative(s: seq<real>)
    requires forall i :: 0 <= i < |s| ==> s[i] >= 0.0
    ensures Sum(s) >= 0.0
  {
    if s != [] {
      SumNonNegative(s[..|s| - 1]);
    }
  }

  /** A sum of `|s|` terms each at most `m` is at most `|s| * m`. */
  lemma {:induction false} SumAtMost(s: seq<real>, m: real)
    requires forall i :: 0 <= i < |s| ==> s[i] <= m
    ensures Sum(s) <= |s| as real * m
  {
    if s != [] {
      SumAtMost(s[..|s| - 1], m);
    }
  }

  /** A product of factors in [0, 1] stays in [0, 1]. */
  lemma {:induction false} ProductInUnit(s: seq<real>)
    requires forall i :: 0 <= i < |s| ==> 0.0 <= s[i] <= 1.0
    ensures 0.0 <= Product(s) <= 1.0
  {
    if s != [] {
      ProductInUnit(s[..|s| - 1]);
      ScaleInUnit(Product(s[..|s| - 1]), s[|s| - 1]);
    }
  }

  /** A non-empty product of factors in [0, 1] is at most its last factor. */
  lemma ProductAtMostLast(s: seq<real>)
    requires s != [] && forall i :: 0 <= i < |s| ==> 0.0 <= s[i] <= 1.0
    ensures Product(s) <= s[|s| - 1]
  {
    var init := s[..|s| - 1];
    ProductInUnit(init);
    ScaleInUnit(s[|s| - 1], Product(init));
  }

  lemma {:induction false} ProductNonNegative(s: seq<real>)
    requires forall i :: 0 <= i < |s| ==> s[i] >= 0.0
    ensures Product(s) >= 0.0
  {
    if s != [] {
      ProductNonNegative(s[..|s| - 1]);
      MulNonNegative(Product(s[..|s| - 1]), s[|s| - 1]);
    }
  }
}
