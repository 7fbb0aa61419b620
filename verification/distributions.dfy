/**
 Exact finite probability distributions: a map from outcome to its mass, read
 with a default of zero, as the simulation's `defaultdict(lambda: 0.0)`
 accumulators are. Masses are exact reals; no floating-point rounding.
 */
module Distributions {

  type Dist<K> = map<K, real>

  /** The mass of `k`, zero when `k` was never accumulated. */
  function Get<K(!new)>(d: Dist<K>, k: K): real
  {
    if k in d then d[k] else 0.0
  }

  /** `d[k] += v` on a defaultdict. */
  function AddAt<K(!new)>(d: Dist<K>, k: K, v: real): (r: Dist<K>)
    ensures r.Keys == d.Keys + {k}
    ensures Get(r, k) == Get(d, k) + v
    ensures forall j :: j != k ==> Get(r, j) == Get(d, j)
  {
    d[k := Get(d, k) + v]
  }

  /** Pointwise sum of two distributions (keys of either). */
  function Plus<K(!new)>(d1: Dist<K>, d2: Dist<K>): (r: Dist<K>)
    ensures r.Keys == d1.Keys + d2.Keys
    ensures forall k :: Get(r, k) == Get(d1, k) + Get(d2, k)
  {
    map k | k in d1.Keys + d2.Keys :: Get(d1, k) + Get(d2, k)
  }

  /**
   The product of two masses. Naming it lets equal operands be recognised as
   giving equal products, which the solver's arithmetic does not do by itself
   for products of two unknowns.
   */
  function Mul(a: real, b: real): (r: real)
    ensures a == 0.0 || b == 0.0 ==> r == 0.0
    ensures a == 1.0 ==> r == b
    ensures b == 1.0 ==> r == a
  {
    a * b
  }

  /** `c * (a + b) == c * a + c * b` */
  lemma MulAddRight(c: real, a: real, b: real)
    ensures Mul(c, a + b) == Mul(c, a) + Mul(c, b)
  {}

  /** `(n + 1) * c == c + n * c` */
  lemma MulSucc(n: nat, c: real)
    ensures Mul((n + 1) as real, c) == c + Mul(n as real, c)
  {
    MulAddLeft(1.0, n as real, c);
    assert (n + 1) as real == 1.0 + n as real;
  }

  /** Two halves make the whole. */
  lemma MulHalves(m: real)
    ensures Mul(0.5, m) + Mul(0.5, m) == m
  {}

  /** `a * b == b * a` */
  lemma MulComm(a: real, b: real)
    ensures Mul(a, b) == Mul(b, a)
  {}

  /** `n * (1 / n) == 1` */
  lemma MulInverse(n: real)
    requires n != 0.0
    ensures Mul(n, 1.0 / n) == 1.0
  {}

  /** `x * (1 / n) == x / n` */
  lemma MulReciprocal(x: real, n: real)
    requires n != 0.0
    ensures Mul(x, 1.0 / n) == x / n
  {}

  /** `(a + b) * c == a * c + b * c` */
  lemma MulAddLeft(a: real, b: real, c: real)
    ensures Mul(a + b, c) == Mul(a, c) + Mul(b, c)
  {}

  /** No two arguments share an image. */
  ghost predicate Injective<K1(!new), K2(!new)>(key: K1 -> K2)
  {
    forall x, y :: key(x) == key(y) ==> x == y
  }

  /** The renaming that keeps every outcome. */
  function Identity<K(!new)>(): (f: K -> K)
    ensures Injective(f)
    ensures forall k :: f(k) == k
  {
    k => k
  }

  /**
   Every outcome `k` of `d` renamed to `key(k)` (no two outcomes merge) and
   its mass multiplied by `w`.
   */
  function Mapped<K1(!new), K2(!new)>(d: Dist<K1>, key: K1 -> K2, w: real): (r: Dist<K2>)
    requires Injective(key)
    ensures r.Keys == set k | k in d :: key(k)
    ensures forall k :: k in d ==> r[key(k)] == Mul(w, d[k])
  {
    map k | k in d :: key(k) := Mul(w, d[k])
  }

  /** The entries of `d` whose keys lie in `s`. */
  function Restrict<K(!new)>(d: Dist<K>, s: set<K>): (r: Dist<K>)
    ensures r.Keys == d.Keys * s
    ensures forall k :: k in r ==> r[k] == d[k]
  {
    map k | k in d && k in s :: d[k]
  }

  /** Total mass: the sum of all values. */
  ghost function Mass<K(!new)>(d: Dist<K>): real
    decreases |d.Keys|
  {
    if d == map[] then 0.0 else var k :| k in d; d[k] + Mass(d - {k})
  }

  /** The mass does not depend on which key the fold picks first. */
  lemma MassRemove<K(!new)>(d: Dist<K>, k: K)
    requires k in d
    ensures Mass(d) == d[k] + Mass(d - {k})
    decreases |d.Keys|
  {
    var j :| j in d && Mass(d) == d[j] + Mass(d - {j});
    if j != k {
      MassRemove(d - {j}, k);
      MassRemove(d - {k}, j);
      assert d - {j} - {k} == d - {k} - {j};
    }
  }

  /** A single outcome carries its own mass. */
  lemma MassSingleton<K(!new)>(k: K, v: real)
    ensures Mass(map[k := v]) == v
  {
    var d := map[k := v];
    MassRemove(d, k);
    assert d - {k} == map[];
  }

  /** A distribution of mass one whose only possible key is `k` gives `k` chance one. */
  lemma SoleKey<K(!new)>(d: Dist<K>, k: K)
    requires forall j :: j in d ==> j == k
    requires Mass(d) == 1.0
    ensures d == map[k := 1.0]
  {
    if k in d {
      MassRemove(d, k);
      assert d - {k} == map[];
    }
  }

  /** A distribution whose only possible keys are `k1` and `k2`, both with nonzero mass. */
  lemma TwoOutcomes<K(!new)>(d: Dist<K>, k1: K, v1: real, k2: K, v2: real)
    requires forall k :: k in d ==> k == k1 || k == k2
    requires Get(d, k1) == v1 != 0.0 && Get(d, k2) == v2 != 0.0
    ensures d == map[k1 := v1, k2 := v2]
  {
    Ext(d, map[k1 := v1, k2 := v2]);
  }

  /** Every outcome a distribution holds has a positive mass. */
  ghost predicate Positive<K(!new)>(d: Dist<K>)
  {
    forall k :: k in d ==> d[k] > 0.0
  }

  /** The product of two positive masses is positive. */
  lemma MulPositive(a: real, b: real)
    requires a > 0.0 && b > 0.0
    ensures Mul(a, b) > 0.0
  {
  }

  /** One over a positive count is positive. */
  lemma ReciprocalPositive(n: nat)
    requires n > 0
    ensures 1.0 / n as real > 0.0
  {
  }

  /** Adding two distributions of positive masses keeps every mass positive. */
  lemma PlusPositive<K(!new)>(d1: Dist<K>, d2: Dist<K>)
    requires Positive(d1) && Positive(d2)
    ensures Positive(Plus(d1, d2))
  {
    var r := Plus(d1, d2);
    forall k | k in r ensures r[k] > 0.0 {
      assert Get(r, k) == Get(d1, k) + Get(d2, k);
    }
  }

  /** `PlusPositive` for a distribution known to be the sum. */
  lemma PositiveSum<K(!new)>(r: Dist<K>, d1: Dist<K>, d2: Dist<K>)
    requires r == Plus(d1, d2) && Positive(d1) && Positive(d2)
    ensures Positive(r)
  {
    PlusPositive(d1, d2);
  }

  /** Renaming and scaling by a positive weight keeps every mass positive. */
  lemma MappedPositive<K1(!new), K2(!new)>(d: Dist<K1>, key: K1 -> K2, w: real)
    requires Injective(key) && Positive(d) && w > 0.0
    ensures Positive(Mapped(d, key, w))
  {
    var r := Mapped(d, key, w);
    forall y | y in r ensures r[y] > 0.0 {
      var k :| k in d && key(k) == y;
      MulPositive(w, d[k]);
    }
  }

  /** The total of positive masses is not negative. */
  lemma {:induction false} MassNonNegative<K(!new)>(d: Dist<K>)
    requires Positive(d)
    ensures Mass(d) >= 0.0
    decreases |d.Keys|
  {
    if d != map[] {
      var k :| k in d;
      MassRemove(d, k);
      assert |(d - {k}).Keys| < |d.Keys| by { assert (d - {k}).Keys == d.Keys - {k}; }
      MassNonNegative(d - {k});
    }
  }

  /** No outcome of a distribution of positive masses carries more than the total. */
  lemma EntryAtMostMass<K(!new)>(d: Dist<K>, k: K)
    requires Positive(d) && k in d
    ensures 0.0 < d[k] <= Mass(d)
  {
    MassRemove(d, k);
    MassNonNegative(d - {k});
  }

  /** A distribution of positive masses with total zero holds no outcome. */
  lemma ZeroMassEmpty<K(!new)>(d: Dist<K>)
    requires Positive(d) && Mass(d) == 0.0
    ensures d == map[]
  {
    if d != map[] {
      var k :| k in d;
      EntryAtMostMass(d, k);
    }
  }

  /**
   A distribution of positive masses that agrees with `e` on every outcome of
   `e` and has the same total holds no other outcome: it is `e`.
   */
  lemma {:induction false} Covered<K(!new)>(d: Dist<K>, e: Dist<K>)
    requires Positive(d)
    requires forall k :: k in e ==> Get(d, k) == e[k] != 0.0
    requires Mass(d) == Mass(e)
    ensures d == e
    decreases |e.Keys|
  {
    if e == map[] {
      ZeroMassEmpty(d);
    } else {
      var k :| k in e;
      assert k in d;
      MassRemove(d, k);
      MassRemove(e, k);
      assert |(e - {k}).Keys| < |e.Keys| by { assert (e - {k}).Keys == e.Keys - {k}; }
      Covered(d - {k}, e - {k});
      Ext(d, e);
    }
  }

  /** The total of two different outcomes. */
  lemma MassOfTwo<K(!new)>(k1: K, v1: real, k2: K, v2: real)
    requires k1 != k2
    ensures Mass(map[k1 := v1, k2 := v2]) == v1 + v2
  {
    MassSingleton(k1, v1);
    MassInsert(map[k1 := v1], k2, v2);
  }

  /** The total of three different outcomes. */
  lemma MassOfThree<K(!new)>(k1: K, v1: real, k2: K, v2: real, k3: K, v3: real)
    requires k1 != k2 && k1 != k3 && k2 != k3
    ensures Mass(map[k1 := v1, k2 := v2, k3 := v3]) == v1 + v2 + v3
  {
    MassOfTwo(k1, v1, k2, v2);
    MassInsert(map[k1 := v1, k2 := v2], k3, v3);
  }

  /** A distribution of positive masses that gives one outcome its whole total holds that outcome alone. */
  lemma CoveredByOne<K(!new)>(d: Dist<K>, k1: K, v1: real)
    requires Positive(d) && Get(d, k1) == v1 != 0.0 && Mass(d) == v1
    ensures d == map[k1 := v1]
  {
    MassSingleton(k1, v1);
    Covered(d, map[k1 := v1]);
  }

  /** A distribution of positive masses that gives two different outcomes its whole total holds those two alone. */
  lemma CoveredByTwo<K(!new)>(d: Dist<K>, k1: K, v1: real, k2: K, v2: real)
    requires Positive(d) && k1 != k2
    requires Get(d, k1) == v1 != 0.0 && Get(d, k2) == v2 != 0.0
    requires Mass(d) == v1 + v2
    ensures d == map[k1 := v1, k2 := v2]
  {
    MassOfTwo(k1, v1, k2, v2);
    Covered(d, map[k1 := v1, k2 := v2]);
  }

  /** A distribution of positive masses that gives three different outcomes its whole total holds those three alone. */
  lemma CoveredByThree<K(!new)>(d: Dist<K>, k1: K, v1: real, k2: K, v2: real, k3: K, v3: real)
    requires Positive(d) && k1 != k2 && k1 != k3 && k2 != k3
    requires Get(d, k1) == v1 != 0.0 && Get(d, k2) == v2 != 0.0 && Get(d, k3) == v3 != 0.0
    requires Mass(d) == v1 + v2 + v3
    ensures d == map[k1 := v1, k2 := v2, k3 := v3]
  {
    MassOfThree(k1, v1, k2, v2, k3, v3);
    Covered(d, map[k1 := v1, k2 := v2, k3 := v3]);
  }

  /** A distribution of positive masses that gives five different outcomes its whole total holds those five alone. */
  lemma CoveredByFive<K(!new)>(d: Dist<K>, k1: K, v1: real, k2: K, v2: real, k3: K, v3: real, k4: K, v4: real, k5: K, v5: real)
    requires Positive(d)
    requires k1 != k2 && k1 != k3 && k1 != k4 && k1 != k5 && k2 != k3 && k2 != k4 && k2 != k5
    requires k3 != k4 && k3 != k5 && k4 != k5
    requires Get(d, k1) == v1 != 0.0 && Get(d, k2) == v2 != 0.0 && Get(d, k3) == v3 != 0.0
    requires Get(d, k4) == v4 != 0.0 && Get(d, k5) == v5 != 0.0
    requires Mass(d) == v1 + v2 + v3 + v4 + v5
    ensures d == map[k1 := v1, k2 := v2, k3 := v3, k4 := v4, k5 := v5]
  {
    var e3 := map[k1 := v1, k2 := v2, k3 := v3];
    MassOfThree(k1, v1, k2, v2, k3, v3);
    MassInsert(e3, k4, v4);
    MassInsert(e3[k4 := v4], k5, v5);
    Covered(d, map[k1 := v1, k2 := v2, k3 := v3, k4 := v4, k5 := v5]);
  }

  /** A new outcome adds its mass to the total. */
  lemma MassInsert<K(!new)>(d: Dist<K>, k: K, v: real)
    requires k !in d
    ensures Mass(d[k := v]) == Mass(d) + v
  {
    MassAddAt(d, k, v);
    assert AddAt(d, k, v) == d[k := v];
  }

  /** Two distributions with the same keys and the same masses are equal. */
  lemma Ext<K(!new)>(l: Dist<K>, r: Dist<K>)
    requires l.Keys == r.Keys
    requires forall k :: k in l ==> Get(l, k) == Get(r, k)
    ensures l == r
  {
    assert forall k :: k in l ==> l[k] == r[k];
  }

  lemma MassAddAt<K(!new)>(d: Dist<K>, k: K, v: real)
    ensures Mass(AddAt(d, k, v)) == Mass(d) + v
  {
    var r := AddAt(d, k, v);
    MassRemove(r, k);
    if k in d {
      MassRemove(d, k);
      assert r - {k} == d - {k};
    } else {
      assert r - {k} == d;
    }
  }

  lemma {:induction false} MassPlus<K(!new)>(d1: Dist<K>, d2: Dist<K>)
    ensures Mass(Plus(d1, d2)) == Mass(d1) + Mass(d2)
    decreases |d2.Keys|
  {
    if d2 == map[] {
      assert Plus(d1, d2) == d1;
    } else {
      var k :| k in d2;
      var d1', d2' := AddAt(d1, k, d2[k]), d2 - {k};
      PlusStep(d1, d2, k);
      assert |d2'.Keys| < |d2.Keys| by { assert d2'.Keys == d2.Keys - {k}; }
      MassPlus(d1', d2');
      MassAddAt(d1, k, d2[k]);
      MassRemove(d2, k);
    }
  }

  /** Moving one entry of `d2` into `d1` keeps the sum. */
  lemma PlusStep<K(!new)>(d1: Dist<K>, d2: Dist<K>, k: K)
    requires k in d2
    ensures Plus(d1, d2) == Plus(AddAt(d1, k, d2[k]), d2 - {k})
  {
    Ext(Plus(d1, d2), Plus(AddAt(d1, k, d2[k]), d2 - {k}));
  }

  /** Removing an outcome before or after the renaming gives the same distribution. */
  lemma MappedRemove<K1(!new), K2(!new)>(d: Dist<K1>, key: K1 -> K2, w: real, k: K1)
    requires Injective(key)
    ensures Mapped(d, key, w) - {key(k)} == Mapped(d - {k}, key, w)
  {
    var l, r := Mapped(d, key, w) - {key(k)}, Mapped(d - {k}, key, w);
    MappedRemoveKeys(d, key, w, k);
    forall y | y in l ensures Get(l, y) == Get(r, y) {
      MappedRemoveValue(d, key, w, k, y);
    }
    Ext(l, r);
  }

  lemma MappedRemoveKeys<K1(!new), K2(!new)>(d: Dist<K1>, key: K1 -> K2, w: real, k: K1)
    requires Injective(key)
    ensures (Mapped(d, key, w) - {key(k)}).Keys == Mapped(d - {k}, key, w).Keys
  {
    var l, r := Mapped(d, key, w) - {key(k)}, Mapped(d - {k}, key, w);
    forall y | y in l.Keys ensures y in r.Keys {
      var x :| x in d && key(x) == y;
    }
  }

  lemma MappedRemoveValue<K1(!new), K2(!new)>(d: Dist<K1>, key: K1 -> K2, w: real, k: K1, y: K2)
    requires Injective(key)
    requires y in Mapped(d, key, w) && y != key(k)
    ensures Get(Mapped(d, key, w), y) == Get(Mapped(d - {k}, key, w), y)
  {
    var x :| x in d && key(x) == y;
  }

  /** `MassRemove`, scaled by `w`. */
  lemma ScaledMassRemove<K(!new)>(w: real, d: Dist<K>, k: K)
    requires k in d
    ensures Mul(w, Mass(d)) == Mul(w, d[k]) + Mul(w, Mass(d - {k}))
  {
    MassRemove(d, k);
    MulAddRight(w, d[k], Mass(d - {k}));
  }

  /** Renaming keeps the total and scaling by `w` multiplies it by `w`. */
  lemma {:induction false} MassMapped<K1(!new), K2(!new)>(d: Dist<K1>, key: K1 -> K2, w: real)
    requires Injective(key)
    ensures Mass(Mapped(d, key, w)) == Mul(w, Mass(d))
    decreases |d.Keys|
  {
    var r := Mapped(d, key, w);
    if d != map[] {
      var k :| k in d;
      var d' := d - {k};
      assert |d'.Keys| < |d.Keys| by { assert d'.Keys == d.Keys - {k}; }
      assert Mass(r) == Mul(w, d[k]) + Mass(Mapped(d', key, w)) by {
        MassRemove(r, key(k));
        MappedRemove(d, key, w, k);
      }
      assert Mass(Mapped(d', key, w)) == Mul(w, Mass(d')) by {
        MassMapped(d', key, w);
      }
      ScaledMassRemove(w, d, k);
    } else {
      assert r == map[];
    }
  }

  /** Renaming a distribution with one more outcome adds that outcome's renamed entry. */
  lemma MappedInsert<K1(!new), K2(!new)>(d: Dist<K1>, key: K1 -> K2, w: real, k: K1, v: real)
    requires Injective(key)
    requires k !in d
    ensures Mapped(d[k := v], key, w) == Mapped(d, key, w)[key(k) := Mul(w, v)]
  {
    var l, r := Mapped(d[k := v], key, w), Mapped(d, key, w)[key(k) := Mul(w, v)];
    MappedInsertKeys(d, key, w, k, v);
    forall y | y in l ensures Get(l, y) == Get(r, y) {
      MappedInsertValue(d, key, w, k, v, y);
    }
    Ext(l, r);
  }

  lemma MappedInsertKeys<K1(!new), K2(!new)>(d: Dist<K1>, key: K1 -> K2, w: real, k: K1, v: real)
    requires Injective(key)
    ensures Mapped(d[k := v], key, w).Keys == Mapped(d, key, w)[key(k) := Mul(w, v)].Keys
  {
    var l, r := Mapped(d[k := v], key, w), Mapped(d, key, w)[key(k) := Mul(w, v)];
    forall y | y in l.Keys ensures y in r.Keys {
      var x :| x in d[k := v] && key(x) == y;
    }
    forall y | y in r.Keys ensures y in l.Keys {
      if y != key(k) {
        var x :| x in d && key(x) == y;
      }
    }
  }

  lemma MappedInsertValue<K1(!new), K2(!new)>(d: Dist<K1>, key: K1 -> K2, w: real, k: K1, v: real, y: K2)
    requires Injective(key)
    requires k !in d && y in Mapped(d[k := v], key, w)
    ensures Get(Mapped(d[k := v], key, w), y) == Get(Mapped(d, key, w)[key(k) := Mul(w, v)], y)
  {
    var x :| x in d[k := v] && key(x) == y;
  }

  /** Renaming keeps each outcome's mass, scaled by `w`; a renamed-away outcome has none. */
  lemma MappedGet<K1(!new), K2(!new)>(d: Dist<K1>, key: K1 -> K2, w: real, k: K1)
    requires Injective(key)
    ensures Get(Mapped(d, key, w), key(k)) == Mul(w, Get(d, k))
  {
  }

  /** Keeping every outcome scales each mass by `w`. */
  lemma ScaledGet<K(!new)>(d: Dist<K>, w: real, k: K)
    ensures Get(Mapped(d, Identity(), w), k) == Mul(w, Get(d, k))
  {
    MappedGet(d, Identity(), w, k);
  }

  lemma PlusComm<K(!new)>(d1: Dist<K>, d2: Dist<K>)
    ensures Plus(d1, d2) == Plus(d2, d1)
  {
    Ext(Plus(d1, d2), Plus(d2, d1));
  }

  lemma PlusAssoc<K(!new)>(d1: Dist<K>, d2: Dist<K>, d3: Dist<K>)
    ensures Plus(Plus(d1, d2), d3) == Plus(d1, Plus(d2, d3))
  {
    Ext(Plus(Plus(d1, d2), d3), Plus(d1, Plus(d2, d3)));
  }

  lemma PlusEmpty<K(!new)>(d: Dist<K>)
    ensures Plus(map[], d) == d && Plus(d, map[]) == d
  {
    Ext(Plus(map[], d), d);
    Ext(Plus(d, map[]), d);
  }

  /** `d[k] += v` commutes with adding a whole distribution. */
  lemma PlusAddAt<K(!new)>(acc: Dist<K>, d: Dist<K>, k: K, v: real)
    ensures Plus(acc, AddAt(d, k, v)) == AddAt(Plus(acc, d), k, v)
  {
    Ext(Plus(acc, AddAt(d, k, v)), AddAt(Plus(acc, d), k, v));
  }

  /** Adding a single entry is `d[k] += v`. */
  lemma PlusSingleton<K(!new)>(d: Dist<K>, k: K, v: real)
    ensures Plus(d, map[k := v]) == AddAt(d, k, v)
  {
    Ext(Plus(d, map[k := v]), AddAt(d, k, v));
  }

  /**
   The sum, over every element of `m` counted with its multiplicity, of the
   distribution `f` gives for it.
   */
  ghost function SumBag<T(!new), K(!new)>(m: multiset<T>, f: T -> Dist<K>): Dist<K>
    decreases |m|
  {
    if m == multiset{} then map[]
    else
      var x :| x in m;
      Plus(f(x), SumBag(m - multiset{x}, f))
  }

  /** The sum does not depend on the order in which elements are visited. */
  lemma SumBagRemove<T(!new), K(!new)>(m: multiset<T>, f: T -> Dist<K>, x: T)
    requires x in m
    ensures SumBag(m, f) == Plus(f(x), SumBag(m - multiset{x}, f))
    decreases |m|, 1
  {
    var y :| y in m && SumBag(m, f) == Plus(f(y), SumBag(m - multiset{y}, f));
    if y != x {
      SumBagSwap(m, f, x, y);
    }
  }

  /** Taking out `y` first or `x` first gives the same sum. */
  lemma SumBagSwap<T(!new), K(!new)>(m: multiset<T>, f: T -> Dist<K>, x: T, y: T)
    requires x in m && y in m && x != y
    ensures Plus(f(y), SumBag(m - multiset{y}, f)) == Plus(f(x), SumBag(m - multiset{x}, f))
    decreases |m|, 0
  {
    var rest := m - multiset{x} - multiset{y};
    assert m - multiset{y} - multiset{x} == rest;
    SumBagRemove(m - multiset{y}, f, x);
    SumBagRemove(m - multiset{x}, f, y);
    PlusSwap(f(x), f(y), SumBag(rest, f), SumBag(m - multiset{y}, f), SumBag(m - multiset{x}, f));
  }

  /** Adding `dx` then `dy` to `rest` gives the same as adding `dy` then `dx`. */
  lemma PlusSwap<K(!new)>(dx: Dist<K>, dy: Dist<K>, rest: Dist<K>, withX: Dist<K>, withY: Dist<K>)
    requires withX == Plus(dx, rest) && withY == Plus(dy, rest)
    ensures Plus(dy, withX) == Plus(dx, withY)
  {
    PlusAssoc(dy, dx, rest);
    PlusAssoc(dx, dy, rest);
    PlusComm(dx, dy);
  }

  /** A property every term's outcomes share is shared by the sum's outcomes. */
  lemma {:induction false} SumBagKeys<T(!new), K(!new)>(m: multiset<T>, f: T -> Dist<K>, P: K -> bool)
    requires forall x, k :: x in m && k in f(x) ==> P(k)
    ensures forall k :: k in SumBag(m, f) ==> P(k)
    decreases |m|
  {
    if m != multiset{} {
      var x :| x in m;
      SumBagRemove(m, f, x);
      SumBagKeys(m - multiset{x}, f, P);
    }
  }

  /** A sum of distributions whose outcomes all have positive mass has only such outcomes. */
  lemma {:induction false} SumBagPositive<T(!new), K(!new)>(m: multiset<T>, f: T -> Dist<K>)
    requires forall x :: x in m ==> Positive(f(x))
    ensures Positive(SumBag(m, f))
    decreases |m|
  {
    if m != multiset{} {
      var x :| x in m;
      SumBagRemove(m, f, x);
      SumBagPositive(m - multiset{x}, f);
      PlusPositive(f(x), SumBag(m - multiset{x}, f));
    }
  }

  /** Extending the visited part by one element adds that element's term. */
  lemma SumBagAdd<T(!new), K(!new)>(done: multiset<T>, f: T -> Dist<K>, x: T)
    ensures SumBag(done + multiset{x}, f) == Plus(SumBag(done, f), f(x))
  {
    assert (done + multiset{x}) - multiset{x} == done;
    SumBagRemove(done + multiset{x}, f, x);
    PlusComm(f(x), SumBag(done, f));
  }

  /** The chance of `k` in the sum: its chance in one term plus its chance in the rest. */
  lemma SumBagRemoveGet<T(!new), K(!new)>(m: multiset<T>, f: T -> Dist<K>, x: T, k: K)
    requires x in m
    ensures Get(SumBag(m, f), k) == Get(f(x), k) + Get(SumBag(m - multiset{x}, f), k)
  {
    SumBagRemove(m, f, x);
  }

  /** A sum over three elements, read at `k`. */
  lemma SumBagOfThree<T(!new), K(!new)>(x: T, y: T, z: T, f: T -> Dist<K>, k: K)
    ensures Get(SumBag(multiset{x, y, z}, f), k) == Get(f(x), k) + Get(f(y), k) + Get(f(z), k)
  {
    var m := multiset{x, y, z};
    SumBagRemoveGet(m, f, x, k);
    assert m - multiset{x} == multiset{y, z};
    SumBagRemoveGet(multiset{y, z}, f, y, k);
    assert multiset{y, z} - multiset{y} == multiset{z};
    SumBagRemoveGet(multiset{z}, f, z, k);
    assert multiset{z} - multiset{z} == multiset{};
  }

  /** A sum over two elements, read at `k`. */
  lemma SumBagOfTwo<T(!new), K(!new)>(x: T, y: T, f: T -> Dist<K>, k: K)
    ensures Get(SumBag(multiset{x, y}, f), k) == Get(f(x), k) + Get(f(y), k)
  {
    var m := multiset{x, y};
    SumBagRemoveGet(m, f, x, k);
    assert m - multiset{x} == multiset{y};
    SumBagRemoveGet(multiset{y}, f, y, k);
    assert multiset{y} - multiset{y} == multiset{};
  }

  /** A sum of terms that all miss `k` misses `k`. */
  lemma {:induction false} SumBagMissing<T(!new), K(!new)>(m: multiset<T>, f: T -> Dist<K>, k: K)
    requires forall x :: x in m ==> Get(f(x), k) == 0.0
    ensures Get(SumBag(m, f), k) == 0.0
    decreases |m|
  {
    if m != multiset{} {
      var x :| x in m;
      SumBagRemoveGet(m, f, x, k);
      SumBagMissing(m - multiset{x}, f, k);
    }
  }

  /** The keys of a sum over a bag: the keys of one term and of the rest. */
  lemma SumBagRemoveKeys<T(!new), K(!new)>(m: multiset<T>, f: T -> Dist<K>, x: T)
    requires x in m
    ensures SumBag(m, f).Keys == f(x).Keys + SumBag(m - multiset{x}, f).Keys
  {
    SumBagRemove(m, f, x);
  }

  /** The mass of the sum is the mass of one term plus that of the others. */
  lemma MassSumBagRemove<T(!new), K(!new)>(m: multiset<T>, f: T -> Dist<K>, x: T)
    requires x in m
    ensures Mass(SumBag(m, f)) == Mass(f(x)) + Mass(SumBag(m - multiset{x}, f))
  {
    SumBagRemove(m, f, x);
    MassPlus(f(x), SumBag(m - multiset{x}, f));
  }

  /** When every term carries mass `c`, the sum carries `|m| * c`. */
  lemma {:induction false} MassSumBagUniform<T(!new), K(!new)>(m: multiset<T>, f: T -> Dist<K>, c: real)
    requires forall x :: x in m ==> Mass(f(x)) == c
    ensures Mass(SumBag(m, f)) == Mul(|m| as real, c)
    decreases |m|
  {
    if m != multiset{} {
      var x :| x in m;
      var rest := m - multiset{x};
      MassSumBagRemove(m, f, x);
      MassSumBagUniform(rest, f, c);
      UniformStep(Mass(SumBag(m, f)), Mass(SumBag(rest, f)), |m|, |rest|, c);
    }
  }

  /** A total of `c` and `k` times `c` is `k + 1` times `c`. */
  lemma UniformStep(total: real, restMass: real, n: nat, k: nat, c: real)
    requires n == k + 1
    requires total == c + restMass && restMass == Mul(k as real, c)
    ensures total == Mul(n as real, c)
  {
    MulSucc(k, c);
  }

  /**
   When the term for each key `x` of `w` carries mass `c * w[x]`, the sum over
   the keys carries `c` times the mass of `w`.
   */
  lemma {:induction false} MassSumBagWeighted<T(!new), K(!new)>(w: Dist<T>, f: T -> Dist<K>, c: real)
    requires forall x :: x in w ==> Mass(f(x)) == Mul(c, w[x])
    ensures Mass(SumBag(multiset(w.Keys), f)) == Mul(c, Mass(w))
    decreases |w.Keys|
  {
    if w != map[] {
      var x :| x in w;
      var w' := w - {x};
      assert |w'.Keys| < |w.Keys| by { assert w'.Keys == w.Keys - {x}; }
      assert Mass(SumBag(multiset(w.Keys), f)) == Mul(c, w[x]) + Mass(SumBag(multiset(w'.Keys), f)) by {
        assert multiset(w.Keys) - multiset{x} == multiset(w'.Keys);
        MassSumBagRemove(multiset(w.Keys), f, x);
      }
      assert Mass(SumBag(multiset(w'.Keys), f)) == Mul(c, Mass(w')) by {
        MassSumBagWeighted(w', f, c);
      }
      ScaledMassRemove(c, w, x);
    } else {
      assert multiset(w.Keys) == multiset{};
    }
  }

  /** Before the first round of `AddMapped` nothing is added; after the last, all of `d`. */
  lemma AddMappedBounds<K1(!new), K2(!new)>(acc: Dist<K2>, d: Dist<K1>, key: K1 -> K2, w: real)
    requires Injective(key)
    ensures Plus(acc, Mapped(Restrict(d, d.Keys - d.Keys), key, w)) == acc
    ensures Restrict(d, d.Keys - {}) == d
  {
    RestrictNothing(d);
    PlusEmpty(acc);
    RestrictEverything(d);
  }

  lemma RestrictNothing<K(!new)>(d: Dist<K>)
    ensures Restrict(d, d.Keys - d.Keys) == map[]
  {
  }

  lemma RestrictEverything<K(!new)>(d: Dist<K>)
    ensures Restrict(d, d.Keys - {}) == d
  {
  }

  /** One round of `AddMapped`: accumulating outcome `k` moves it to the done part. */
  lemma AddMappedStep<K1(!new), K2(!new)>(acc: Dist<K2>, d: Dist<K1>, key: K1 -> K2, w: real, todo: set<K1>, k: K1)
    requires Injective(key)
    requires todo <= d.Keys && k in todo
    ensures AddAt(Plus(acc, Mapped(Restrict(d, d.Keys - todo), key, w)), key(k), Mul(w, d[k]))
         == Plus(acc, Mapped(Restrict(d, d.Keys - (todo - {k})), key, w))
  {
    var done := Restrict(d, d.Keys - todo);
    assert Restrict(d, d.Keys - (todo - {k})) == done[k := d[k]];
    MappedInsert(done, key, w, k, d[k]);
    assert Mapped(done[k := d[k]], key, w) == AddAt(Mapped(done, key, w), key(k), Mul(w, d[k]));
    PlusAddAt(acc, Mapped(done, key, w), key(k), Mul(w, d[k]));
  }

  /**
   `acc[key(k)] += w * d[k]` for every outcome `k` of `d`, one outcome at a
   time, in no particular order.
   */
  method AddMapped<K1(!new), K2(!new)>(acc: Dist<K2>, d: Dist<K1>, key: K1 -> K2, w: real) returns (r: Dist<K2>)
    requires Injective(key)
    ensures r == Plus(acc, Mapped(d, key, w))
  {
    r := acc;
    var todo := d.Keys;
    AddMappedBounds(acc, d, key, w);
    while todo != {}
      invariant todo <= d.Keys
      invariant r == Plus(acc, Mapped(Restrict(d, d.Keys - todo), key, w))
      decreases todo
    {
      var k :| k in todo;
      AddMappedStep(acc, d, key, w, todo, k);
      r := AddAt(r, key(k), Mul(w, d[k]));
      todo := todo - {k};
    }
  }
}
