/**
 The selection engine of `poe_recomb_sim/simulation.py`: the exact
 distribution of the affixes a recombination keeps, and of the base it keeps.

 Each distribution has two definitions: a specification (a ghost function that
 sums over every copy in the pool) and the method that accumulates it the way
 the program does, proved equal to the specification. The properties are
 proved about the specification.
 */
module Simulation {
  import opened Wrappers
  import opened Distributions
  import opened Model

  /**
   `AFFIX_CHANCES[n][k]`: the chance that `k` affixes are kept on a side whose
   two source items hold `n` affixes together.
   */
  const AffixChances: seq<seq<real>> := [
    [1.00, 0.00, 0.00, 0.00],
    [0.41, 0.59, 0.00, 0.00],
    [0.00, 0.67, 0.33, 0.00],
    [0.00, 0.39, 0.52, 0.10],
    [0.00, 0.11, 0.59, 0.31],
    [0.00, 0.00, 0.43, 0.57],
    [0.00, 0.00, 0.28, 0.72]
  ]

  /** The sum of a row of chances. */
  function Total(row: seq<real>): real
  {
    if row == [] then 0.0 else Total(row[..|row| - 1]) + row[|row| - 1]
  }

  /**
   The table has a row of four chances in [0, 1] for every pool size from 0
   to 6. Rows 3 and 4 add up to 1.01; every other row adds up to 1.
   */
  lemma ChanceTable()
    ensures |AffixChances| == 7
    ensures forall n :: 0 <= n < 7 ==> |AffixChances[n]| == 4
    ensures forall n, k :: 0 <= n < 7 && 0 <= k < 4 ==> 0.0 <= AffixChances[n][k] <= 1.0
    ensures forall n :: 0 <= n < 7 && n != 3 && n != 4 ==> Total(AffixChances[n]) == 1.0
    ensures Total(AffixChances[3]) == 1.01 && Total(AffixChances[4]) == 1.01
  {
    forall n | 0 <= n < 7
      ensures Total(AffixChances[n]) == AffixChances[n][0] + AffixChances[n][1] + AffixChances[n][2] + AffixChances[n][3]
    {
      TotalOfFour(AffixChances[n]);
    }
  }

  lemma TotalOfFour(row: seq<real>)
    requires |row| == 4
    ensures Total(row) == row[0] + row[1] + row[2] + row[3]
  {
    assert row[..3][..2] == row[..2];
    assert row[..2][..1] == row[..1];
    assert row[..1][..0] == [];
    assert Total(row[..1]) == row[0];
    assert Total(row[..2]) == row[0] + row[1];
    assert Total(row[..3]) == row[0] + row[1] + row[2];
  }

  function Min(a: int, b: int): int { if a <= b then a else b }

  function Max(a: int, b: int): int { if a >= b then a else b }

  /**
   `calc_ilvl`: the floor of the smaller of the mean level plus two and the
   higher level; it lies between the two levels.
   */
  function CalcIlvl(ilvl1: int, ilvl2: int): (r: int)
    ensures r == Min((ilvl1 + ilvl2) / 2 + 2, Max(ilvl1, ilvl2))
    ensures Min(ilvl1, ilvl2) <= r <= Max(ilvl1, ilvl2)
  {
    var mean := (ilvl1 + ilvl2) as real / 2.0 + 2.0;
    var high := Max(ilvl1, ilvl2) as real;
    HalfFloor(ilvl1 + ilvl2);
    (if high < mean then high else mean).Floor
  }

  /** Close levels give the higher one; distant levels give the mean plus two, rounded down. */
  lemma CalcIlvlExamples()
    ensures CalcIlvl(84, 86) == 86
    ensures CalcIlvl(10, 15) == 14
    ensures CalcIlvl(60, 50) == 57
  {
  }

  /** Halving on the reals and then taking the floor is integer division by two. */
  lemma HalfFloor(n: int)
    ensures (n as real / 2.0 + 2.0).Floor == n / 2 + 2
  {
    var q := n / 2;
    assert n == 2 * q || n == 2 * q + 1;
    assert q as real + 2.0 <= n as real / 2.0 + 2.0 < q as real + 3.0;
  }

  /** The base taken from `it`: its name and slot limits, level `ilvl`, no affixes. */
  function BaseOf(it: Item, ilvl: int): Item
  {
    Item(it.baseName, ilvl, multiset{}, multiset{}, it.prefixLimit, it.suffixLimit)
  }

  /**
   `step_make_base` as written: a dictionary display with the two bases as
   keys, each with chance one half. When both bases are the same item the
   second entry replaces the first, and one half of the mass is lost.
   */
  function StepMakeBaseAsWritten(item1: Item, item2: Item): (r: Dist<Item>)
    ensures var lvl := CalcIlvl(item1.ilvl, item2.ilvl);
      r.Keys == {BaseOf(item1, lvl), BaseOf(item2, lvl)}
      && forall b :: b in r ==> r[b] == 0.5
  {
    var lvl := CalcIlvl(item1.ilvl, item2.ilvl);
    map[BaseOf(item1, lvl) := 0.5, BaseOf(item2, lvl) := 0.5]
  }

  /** Two items with the same base name and limits make a base distribution of total mass one half. */
  lemma StepMakeBaseAsWrittenLosesMass()
    ensures var a, b := Item("A", 84, multiset{}, multiset{}, 3, 3), Item("A", 86, multiset{}, multiset{}, 3, 3);
      Mass(StepMakeBaseAsWritten(a, b)) == 0.5
  {
    var a, b := Item("A", 84, multiset{}, multiset{}, 3, 3), Item("A", 86, multiset{}, multiset{}, 3, 3);
    var r := StepMakeBaseAsWritten(a, b);
    assert r == map[BaseOf(a, 86) := 0.5];
    MassRemove(r, BaseOf(a, 86));
    assert r - {BaseOf(a, 86)} == map[];
  }

  /**
   `step_make_base` with the two halves accumulated (`d[base] += 0.5`), so
   that identical bases share the whole mass. Both bases have the new level,
   the source items' limits and no affixes.
   */
  function StepMakeBase(item1: Item, item2: Item): (r: Dist<Item>)
    requires Legal(item1) && Legal(item2)
    ensures Mass(r) == 1.0
    ensures var lvl := CalcIlvl(item1.ilvl, item2.ilvl);
      r.Keys == {BaseOf(item1, lvl), BaseOf(item2, lvl)}
      && (BaseOf(item1, lvl) != BaseOf(item2, lvl) ==> forall b :: b in r ==> r[b] == 0.5)
      && (BaseOf(item1, lvl) == BaseOf(item2, lvl) ==> r[BaseOf(item1, lvl)] == 1.0)
    ensures forall b :: b in r ==> Legal(b)
  {
    var lvl := CalcIlvl(item1.ilvl, item2.ilvl);
    var none: Dist<Item> := map[];
    var half := AddAt(none, BaseOf(item1, lvl), 0.5);
    MassAddAt(none, BaseOf(item1, lvl), 0.5);
    MassAddAt(half, BaseOf(item2, lvl), 0.5);
    AddAt(half, BaseOf(item2, lvl), 0.5)
  }

  /**
   What is left to draw from once one copy of `a` is drawn: the pool less
   that copy, and, when `a` is exclusive, less every exclusive affix.
   */
  ghost function Remainder(pool: Bag, a: Affix): (r: Bag)
    ensures r <= pool - multiset{a}
    ensures a.exclusive ==> !HasExclusive(r)
    ensures a.exclusive ==> forall y: Affix :: !y.exclusive ==> r[y] == (pool - multiset{a})[y]
    ensures !a.exclusive ==> r == pool - multiset{a}
  {
    var rest := Difference(pool, multiset{a});
    FilterNotExclusive(rest);
    if a.exclusive then Filter(rest, NotExclusive) else rest
  }

  /** Adds one copy of `a` to a bag; no two bags give the same result. */
  function Prepend(a: Affix): (f: Bag -> Bag)
    ensures Injective(f)
    ensures forall b :: f(b) == multiset{a} + b
  {
    var f := b => multiset{a} + b;
    assert forall b1, b2 :: f(b1) == f(b2) ==> b1 == b2 by {
      forall b1, b2 | f(b1) == f(b2) ensures b1 == b2 {
        assert b1 == f(b1) - multiset{a};
      }
    }
    f
  }

  /**
   `make_affix_selections(count, pool)`: the chance of every sub-bag obtained
   by drawing `count` copies one at a time, each copy of what is left equally
   likely, an exclusive draw removing the other exclusive affixes.
   */
  ghost function Select(count: nat, pool: Bag): Dist<Bag>
    decreases count, 2
  {
    if count == 0 || |pool| == 0 then map[multiset{} := 1.0]
    else SumBag(pool, Branches(count - 1, pool))
  }

  /** The draws that start with each copy, each followed by `next` more draws. */
  ghost function Branches(next: nat, pool: Bag): Affix -> Dist<Bag>
    requires |pool| > 0
    decreases next + 1, 1
  {
    a => Branch(next, pool, a)
  }

  /**
   The draws that start with `a`: `a` added to a draw of `next` more copies
   from the remainder, its chance divided by the size of the pool.
   */
  ghost function Branch(next: nat, pool: Bag, a: Affix): Dist<Bag>
    requires |pool| > 0
    decreases next + 1, 0
  {
    Mapped(Select(next, Remainder(pool, a)), Prepend(a), 1.0 / |pool| as real)
  }

  /** A draw of one affix that starts with `a` is `{a}` alone. */
  lemma SingleBranch(pool: Bag, a: Affix)
    requires |pool| > 0
    ensures Branch(0, pool, a) == map[multiset{a} := 1.0 / |pool| as real]
  {
    var none: Dist<Bag> := map[];
    var w := 1.0 / |pool| as real;
    assert Select(0, Remainder(pool, a)) == none[multiset{} := 1.0];
    MappedInsert(none, Prepend(a), w, multiset{}, 1.0);
    assert Mapped(none, Prepend(a), w) == none;
    assert multiset{a} + multiset{} == multiset{a};
  }

  /** One more copy `a` visited: its branch is added to the sum over the visited copies. */
  lemma DrawStep(next: nat, pool: Bag, rest: Bag, a: Affix)
    requires |pool| > 0
    requires rest <= pool && a in rest
    ensures SumBag(pool - (rest - multiset{a}), Branches(next, pool))
         == Plus(SumBag(pool - rest, Branches(next, pool)), Branch(next, pool, a))
    ensures rest - multiset{a} <= pool
  {
    assert pool - (rest - multiset{a}) == pool - rest + multiset{a};
    SumBagAdd(pool - rest, Branches(next, pool), a);
  }

  /**
   `make_affix_selections`: the empty draw when there is nothing to draw or
   nothing to draw from; otherwise the draws one copy at a time.
   */
  method MakeAffixSelections(count: nat, pool: Bag) returns (r: Dist<Bag>)
    ensures r == Select(count, pool)
    decreases count, 1
  {
    if count == 0 || |pool| == 0 {
      return map[multiset{} := 1.0];
    }
    if count == 1 {
      r := SingleDraws(pool);
    } else {
      r := FirstDraws(count, pool);
    }
  }

  /** The `count == 1` loop: `d[{a}] += 1 / len(pool)` for every copy `a`. */
  method SingleDraws(pool: Bag) returns (r: Dist<Bag>)
    requires |pool| > 0
    ensures r == SumBag(pool, Branches(0, pool))
  {
    var n := |pool| as real;
    r := map[];
    var rest := pool;
    while rest != multiset{}
      invariant rest <= pool
      invariant r == SumBag(pool - rest, Branches(0, pool))
      decreases |rest|
    {
      var a :| a in rest;
      DrawStep(0, pool, rest, a);
      SingleBranch(pool, a);
      PlusSingleton(r, multiset{a}, 1.0 / n);
      r := AddAt(r, multiset{a}, 1.0 / n);
      rest := rest - multiset{a};
    }
    assert pool - rest == pool;
  }

  /**
   The loop for more than one draw: for every copy `a`, the remainder after
   drawing it, the draws of `count - 1` from that remainder, and
   `d[{a} + b] += chance / len(pool)` for each of them.
   */
  method FirstDraws(count: nat, pool: Bag) returns (r: Dist<Bag>)
    requires count > 1 && |pool| > 0
    ensures r == SumBag(pool, Branches(count - 1, pool))
    decreases count, 0
  {
    var n := |pool| as real;
    r := map[];
    var rest := pool;
    while rest != multiset{}
      invariant rest <= pool
      invariant r == SumBag(pool - rest, Branches(count - 1, pool))
      decreases |rest|
    {
      var a :| a in rest;
      var remaining := Difference(pool, multiset{a});
      if a.exclusive {
        remaining := FilterBag(remaining, NotExclusive);
      }
      assert remaining == Remainder(pool, a);
      var next := MakeAffixSelections(count - 1, remaining);
      DrawStep(count - 1, pool, rest, a);
      r := AddMapped(r, next, Prepend(a), 1.0 / n);
      rest := rest - multiset{a};
    }
    assert pool - rest == pool;
  }

  /** The chances of every draw add up to one. */
  lemma {:induction false} SelectMass(count: nat, pool: Bag)
    ensures Mass(Select(count, pool)) == 1.0
    decreases count, 2
  {
    if count == 0 || |pool| == 0 {
      EmptySelectMass(count, pool);
    } else {
      var next := count - 1;
      SelectUnfold(count, next, pool);
      BranchesMass(next, pool);
    }
  }

  /** A draw of at least one copy from a non-empty pool sums the branches of its copies. */
  lemma SelectUnfold(count: nat, next: nat, pool: Bag)
    requires count == next + 1 && |pool| > 0
    ensures Select(count, pool) == SumBag(pool, Branches(next, pool))
  {
    SelectDefinition(count, pool);
    BranchesOf(count, next, pool);
  }

  /** The recursive case of the definition of `Select`. */
  lemma SelectDefinition(count: nat, pool: Bag)
    requires count > 0 && |pool| > 0
    ensures Select(count, pool) == SumBag(pool, Branches(count - 1, pool))
  {
  }

  /** `Branches(count - 1, pool)` named by the predecessor of `count`. */
  lemma BranchesOf(count: nat, next: nat, pool: Bag)
    requires count == next + 1 && |pool| > 0
    ensures Branches(count - 1, pool) == Branches(next, pool)
  {
  }

  /** With nothing to draw or nothing to draw from, the empty draw carries chance one. */
  lemma EmptySelectMass(count: nat, pool: Bag)
    requires count == 0 || |pool| == 0
    ensures Mass(Select(count, pool)) == 1.0
  {
    var none: Bag := multiset{};
    MassSingleton(none, 1.0);
  }

  /** The branches of all the copies together carry chance one. */
  lemma {:induction false} BranchesMass(next: nat, pool: Bag)
    requires |pool| > 0
    ensures Mass(SumBag(pool, Branches(next, pool))) == 1.0
    decreases next + 1, 1
  {
    var w := 1.0 / |pool| as real;
    forall a | a in pool
      ensures Mass(Branches(next, pool)(a)) == w
    {
      BranchMass(next, pool, a);
    }
    MassSumBagUniform(pool, Branches(next, pool), w);
    MulInverse(|pool| as real);
  }

  /** Each branch carries `1 / len(pool)`. */
  lemma {:induction false} BranchMass(next: nat, pool: Bag, a: Affix)
    requires |pool| > 0
    ensures Mass(Branch(next, pool, a)) == 1.0 / |pool| as real
    decreases next + 1, 0
  {
    SelectMass(next, Remainder(pool, a));
    MassMapped(Select(next, Remainder(pool, a)), Prepend(a), 1.0 / |pool| as real);
  }

  /** Every draw has a positive chance. */
  lemma {:induction false} SelectPositive(count: nat, pool: Bag)
    ensures Positive(Select(count, pool))
    decreases count, 2
  {
    if count > 0 && |pool| > 0 {
      var next := count - 1;
      SelectUnfold(count, next, pool);
      forall a | a in pool
        ensures Positive(Branches(next, pool)(a))
      {
        BranchPositive(next, pool, a);
      }
      SumBagPositive(pool, Branches(next, pool));
    }
  }

  /** Every draw of a branch has a positive chance. */
  lemma {:induction false} BranchPositive(next: nat, pool: Bag, a: Affix)
    requires |pool| > 0
    ensures Positive(Branch(next, pool, a))
    decreases next + 1, 0
  {
    var rem := Remainder(pool, a);
    var w := 1.0 / |pool| as real;
    SelectPositive(next, rem);
    ReciprocalPositive(|pool|);
    MappedPositive(Select(next, rem), Prepend(a), w);
  }

  /** Every draw's chance is a probability: more than zero and at most one. */
  lemma SelectChances(count: nat, pool: Bag)
    ensures forall b :: b in Select(count, pool) ==> 0.0 < Select(count, pool)[b] <= 1.0
  {
    var d := Select(count, pool);
    SelectPositive(count, pool);
    SelectMass(count, pool);
    forall b | b in d ensures 0.0 < d[b] <= 1.0 {
      EntryAtMostMass(d, b);
    }
  }

  /**
   A bag that can be drawn: copies taken from the pool, no more than `count`
   of them, and at most one of them exclusive.
   */
  ghost predicate Drawn(count: nat, pool: Bag, b: Bag)
  {
    b <= pool && |b| <= count && ExclusiveCount(b) <= 1
  }

  /** The entries of a branch are `a` added to a draw from the remainder. */
  lemma BranchKey(next: nat, pool: Bag, a: Affix, k: Bag)
    requires |pool| > 0
    requires k in Branch(next, pool, a)
    ensures exists b :: b in Select(next, Remainder(pool, a)) && k == multiset{a} + b
  {
  }

  /** The branches of the copies in `m`, a part of the pool, hold only drawable draws. */
  lemma {:induction false} BranchesKeys(count: nat, next: nat, pool: Bag, m: Bag)
    requires count == next + 1 && m <= pool && |pool| > 0
    ensures forall k :: k in SumBag(m, Branches(next, pool)) ==> Drawn(count, pool, k)
    decreases count, 1, |m|
  {
    if m != multiset{} {
      var x :| x in m;
      var rest := m - multiset{x};
      SumBagRemoveKeys(m, Branches(next, pool), x);
      BranchesKeys(count, next, pool, rest);
      BranchKeys(count, next, pool, x);
    }
  }

  /** A branch's draws are drawable when the draws from its remainder are. */
  lemma {:induction false} BranchKeys(count: nat, next: nat, pool: Bag, a: Affix)
    requires a in pool && count == next + 1
    ensures forall k :: k in Branch(next, pool, a) ==> Drawn(count, pool, k)
    decreases count, 0, 0
  {
    var rem := Remainder(pool, a);
    SelectKeys(next, rem);
    forall k | k in Branch(next, pool, a) ensures Drawn(count, pool, k) {
      BranchKey(next, pool, a, k);
      var b :| b in Select(next, rem) && k == multiset{a} + b;
      DrawnPrepend(next, pool, a, b);
    }
  }

  /** Adding `a` to a draw from its remainder gives a draw from the pool. */
  lemma DrawnPrepend(next: nat, pool: Bag, a: Affix, b: Bag)
    requires a in pool
    requires Drawn(next, Remainder(pool, a), b)
    ensures Drawn(next + 1, pool, multiset{a} + b)
  {
    var rem := Remainder(pool, a);
    ExclusiveCountAdd(a, b);
    if a.exclusive {
      ExclusiveCountSub(b, rem);
      HasExclusiveCount(rem);
    }
  }

  /** The empty draw can be drawn from any pool. */
  lemma EmptyDrawn(count: nat, pool: Bag)
    ensures Drawn(count, pool, multiset{})
  {
    assert Filter(multiset{}, IsExclusive) == multiset{};
  }

  /** Every draw takes at most `count` copies from the pool and at most one exclusive affix. */
  lemma {:induction false} SelectKeys(count: nat, pool: Bag)
    ensures forall b :: b in Select(count, pool) ==> Drawn(count, pool, b)
    decreases count, 2, 0
  {
    if count == 0 || |pool| == 0 {
      EmptyDrawn(count, pool);
    } else {
      var next := count - 1;
      SelectUnfold(count, next, pool);
      BranchesKeys(count, next, pool, pool);
    }
  }

  /** The branches of the copies in `m`, a part of a pool without exclusive affixes, have full size. */
  lemma {:induction false} BranchesSizes(count: nat, next: nat, pool: Bag, m: Bag)
    requires count == next + 1 && m <= pool && |pool| > 0 && !HasExclusive(pool)
    ensures forall k :: k in SumBag(m, Branches(next, pool)) ==> |k| == Min(count, |pool|)
    decreases count, 1, |m|
  {
    if m != multiset{} {
      var x :| x in m;
      var rest := m - multiset{x};
      SumBagRemoveKeys(m, Branches(next, pool), x);
      BranchesSizes(count, next, pool, rest);
      BranchSizes(count, next, pool, x);
    }
  }

  /** A branch's draws have one copy more than the draws from its remainder. */
  lemma {:induction false} BranchSizes(count: nat, next: nat, pool: Bag, a: Affix)
    requires a in pool && !HasExclusive(pool) && count == next + 1
    ensures forall k :: k in Branch(next, pool, a) ==> |k| == Min(count, |pool|)
    decreases count, 0, 0
  {
    var rem := Remainder(pool, a);
    RemainderWithoutExclusive(pool, a);
    SelectSizeWithoutExclusive(next, rem);
    forall k | k in Branch(next, pool, a) ensures |k| == Min(count, |pool|) {
      BranchKey(next, pool, a, k);
    }
  }

  /** From a pool without exclusive affixes the remainder is the pool less one copy. */
  lemma RemainderWithoutExclusive(pool: Bag, a: Affix)
    requires !HasExclusive(pool) && a in pool
    ensures !a.exclusive
    ensures !HasExclusive(Remainder(pool, a))
    ensures |Remainder(pool, a)| == |pool| - 1
  {
    var rem := Remainder(pool, a);
    HasExclusiveCount(pool);
    ExclusiveCountSub(multiset{a}, pool);
    ExclusiveCountAdd(a, multiset{});
    HasExclusiveCount(rem);
    ExclusiveCountSub(rem, pool);
  }

  /** From a pool without exclusive affixes, every draw has exactly `min(count, |pool|)` copies. */
  lemma {:induction false} SelectSizeWithoutExclusive(count: nat, pool: Bag)
    requires !HasExclusive(pool)
    ensures forall b :: b in Select(count, pool) ==> |b| == Min(count, |pool|)
    decreases count, 2, 0
  {
    if count > 0 && |pool| > 0 {
      var next := count - 1;
      SelectUnfold(count, next, pool);
      BranchesSizes(count, next, pool, pool);
    }
  }

  /** The sum of single-copy branches gives `{x}` its number of copies times `w`. */
  lemma {:induction false} SumSingles(m: Bag, f: Affix -> Dist<Bag>, w: real, x: Affix)
    requires forall a :: a in m ==> f(a) == map[multiset{a} := w]
    ensures Get(SumBag(m, f), multiset{x}) == Mul(m[x] as real, w)
    decreases |m|
  {
    if m != multiset{} {
      var y :| y in m;
      var m' := m - multiset{y};
      SumBagRemoveGet(m, f, y, multiset{x});
      SumSingles(m', f, w, x);
      SingleTerm(y, x, w);
      CopiesStep(m, y, x, w);
    }
  }

  /** A single-copy branch gives `{x}` its chance exactly when it is the branch of `x`. */
  lemma SingleTerm(y: Affix, x: Affix, w: real)
    ensures Get(map[multiset{y} := w], multiset{x}) == if x == y then w else 0.0
  {
    if x != y {
      assert multiset{y} != multiset{x} by { assert multiset{y}[y] != multiset{x}[y]; }
    }
  }

  /** Taking one copy `y` out of `m` takes one `w` off the weighted count of `x` when `y` is `x`. */
  lemma CopiesStep(m: Bag, y: Affix, x: Affix, w: real)
    requires y in m
    ensures Mul(m[x] as real, w) == (if x == y then w else 0.0) + Mul((m - multiset{y})[x] as real, w)
  {
    if x == y {
      MulSucc((m - multiset{y})[x], w);
    }
  }

  /** Drawing one affix gives `{x}` the chance `copies of x / len(pool)`. */
  lemma SelectSingle(pool: Bag, x: Affix)
    requires |pool| > 0
    ensures Get(Select(1, pool), multiset{x}) == pool[x] as real / |pool| as real
  {
    var w := 1.0 / |pool| as real;
    forall a | a in pool ensures Branches(0, pool)(a) == map[multiset{a} := w] {
      SingleBranch(pool, a);
    }
    SumSingles(pool, Branches(0, pool), w, x);
    MulReciprocal(pool[x] as real, |pool| as real);
  }

  /**
   Drawing at least as many affixes as a pool without exclusive affixes holds
   takes the whole pool, with chance one.
   */
  lemma SelectWhole(count: nat, pool: Bag)
    requires !HasExclusive(pool) && count >= |pool|
    ensures Select(count, pool) == map[pool := 1.0]
  {
    var d := Select(count, pool);
    SelectKeys(count, pool);
    SelectSizeWithoutExclusive(count, pool);
    SelectMass(count, pool);
    forall b | b in d ensures b == pool {
      WholeSubBag(b, pool);
    }
    SoleKey(d, pool);
  }

  /** A sub-bag as large as the bag is the bag. */
  lemma WholeSubBag(b: Bag, pool: Bag)
    requires b <= pool && |b| == |pool|
    ensures b == pool
  {
    assert pool == b + (pool - b);
  }

  /** The chance a branch gives to `a` added to `b`: the remainder's chance of `b` over the pool size. */
  lemma BranchGet(next: nat, pool: Bag, a: Affix, b: Bag)
    requires |pool| > 0
    ensures Get(Branch(next, pool, a), multiset{a} + b)
         == Mul(1.0 / |pool| as real, Get(Select(next, Remainder(pool, a)), b))
  {
    MappedGet(Select(next, Remainder(pool, a)), Prepend(a), 1.0 / |pool| as real, b);
  }

  /** A branch gives nothing to a bag without its first affix. */
  lemma BranchMissing(next: nat, pool: Bag, a: Affix, k: Bag)
    requires |pool| > 0 && a !in k
    ensures Get(Branch(next, pool, a), k) == 0.0
  {
    if k in Branch(next, pool, a) {
      BranchKey(next, pool, a, k);
    }
  }

  /**
   Two draws from two different affixes `d` and `e`, neither exclusive, with
   `e` twice: `d` with an `e` with chance 2/3, both copies of `e` with chance 1/3.
   */
  lemma DrawTwoOfThree(d: Affix, e: Affix)
    requires d != e && !d.exclusive && !e.exclusive
    ensures Select(2, multiset{d, e, e}) == map[multiset{d, e} := 2.0 / 3.0, multiset{e, e} := 1.0 / 3.0]
  {
    var s := Select(2, multiset{d, e, e});
    var k1, k2 := multiset{d, e}, multiset{e, e};
    DrawTwoOfThreeChances(d, e);
    forall b | b in s ensures b == k1 || b == k2 {
      DrawTwoOfThreeKey(d, e, b);
    }
    TwoOutcomes(s, k1, 2.0 / 3.0, k2, 1.0 / 3.0);
  }

  /** The two chances of `DrawTwoOfThree`. */
  lemma DrawTwoOfThreeChances(d: Affix, e: Affix)
    requires d != e && !d.exclusive && !e.exclusive
    ensures Get(Select(2, multiset{d, e, e}), multiset{d, e}) == 2.0 / 3.0
    ensures Get(Select(2, multiset{d, e, e}), multiset{e, e}) == 1.0 / 3.0
  {
    SelectUnfold(2, 1, multiset{d, e, e});
    ChanceOfMixed(d, e);
    ChanceOfPair(d, e);
  }

  /** The branches of `d`, `e` and `e` give `{d, e}` 1/3, 1/6 and 1/6. */
  lemma ChanceOfMixed(d: Affix, e: Affix)
    requires d != e && !d.exclusive && !e.exclusive
    ensures Get(SumBag(multiset{d, e, e}, Branches(1, multiset{d, e, e})), multiset{d, e}) == 2.0 / 3.0
  {
    assert 1.0 / 3.0 + 1.0 / 6.0 + 1.0 / 6.0 == 2.0 / 3.0;
    SumBagOfThree(d, e, e, Branches(1, multiset{d, e, e}), multiset{d, e});
    BranchFirst(d, e);
    BranchOther(d, e, d);
  }

  /** The branches of `d`, `e` and `e` give `{e, e}` nothing, 1/6 and 1/6. */
  lemma ChanceOfPair(d: Affix, e: Affix)
    requires d != e && !e.exclusive
    ensures Get(SumBag(multiset{d, e, e}, Branches(1, multiset{d, e, e})), multiset{e, e}) == 1.0 / 3.0
  {
    assert 0.0 + 1.0 / 6.0 + 1.0 / 6.0 == 1.0 / 3.0;
    SumBagOfThree(d, e, e, Branches(1, multiset{d, e, e}), multiset{e, e});
    OtherNotIn(d, e);
    BranchMissing(1, multiset{d, e, e}, d, multiset{e, e});
    BranchOther(d, e, e);
  }

  /** `d` is not in `{e, e}`. */
  lemma OtherNotIn(d: Affix, e: Affix)
    requires d != e
    ensures d !in multiset{e, e}
  {
  }

  /** Drawing `d` first from `{d, e, e}` leaves `{e, e}`, so `e` follows surely. */
  lemma BranchFirst(d: Affix, e: Affix)
    requires d != e && !d.exclusive
    ensures Get(Branch(1, multiset{d, e, e}, d), multiset{d, e}) == 1.0 / 3.0
  {
    var pool := multiset{d, e, e};
    var rem := multiset{e, e};
    assert Mul(1.0 / 3 as real, 2 as real / 2 as real) == 1.0 / 3.0;
    ThreeLessFirst(d, e);
    TwoCopies(e);
    ThreeSize(d, e, e);
    BranchOfTwo(pool, d, e, rem, 3, 2, 2);
    PairBag(d, e);
  }

  /** Drawing `e` first from `{d, e, e}` leaves `{d, e}`, so each of `d` and `e` follows with chance 1/2. */
  lemma BranchOther(d: Affix, e: Affix, x: Affix)
    requires d != e && !e.exclusive && (x == d || x == e)
    ensures Get(Branch(1, multiset{d, e, e}, e), multiset{x, e}) == 1.0 / 6.0
  {
    var pool := multiset{d, e, e};
    var rem := multiset{d, e};
    assert Mul(1.0 / 3 as real, 1 as real / 2 as real) == 1.0 / 6.0;
    ThreeLessOther(d, e);
    TwoDistinct(d, e);
    ThreeSize(d, e, e);
    BranchOfTwo(pool, e, x, rem, 3, 1, 2);
    PairBag(e, x);
  }

  /** A bag of three listed affixes holds three copies. */
  lemma ThreeSize(a: Affix, b: Affix, c: Affix)
    ensures |multiset{a, b, c}| == 3
  {
  }

  /** `{d, e, e}` less `d` is `{e, e}`. */
  lemma ThreeLessFirst(d: Affix, e: Affix)
    requires d != e
    ensures multiset{d, e, e} - multiset{d} == multiset{e, e}
  {
  }

  /** `{d, e, e}` less `e` is `{d, e}`. */
  lemma ThreeLessOther(d: Affix, e: Affix)
    requires d != e
    ensures multiset{d, e, e} - multiset{e} == multiset{d, e}
  {
  }

  /** `{e, e}` holds two copies of `e` and nothing else. */
  lemma TwoCopies(e: Affix)
    ensures multiset{e, e}[e] == 2 && |multiset{e, e}| == 2
  {
  }

  /** `{d, e}` holds one copy of each. */
  lemma TwoDistinct(d: Affix, e: Affix)
    requires d != e
    ensures multiset{d, e}[d] == 1 && multiset{d, e}[e] == 1 && |multiset{d, e}| == 2
  {
  }

  /** Two single copies make a pair. */
  lemma PairBag(a: Affix, x: Affix)
    ensures multiset{a} + multiset{x} == multiset{a, x} == multiset{x, a}
  {
  }

  /** A branch of two draws gives `{a, x}` the chance of drawing `x` from the remainder, over the pool size. */
  lemma BranchOfTwo(pool: Bag, a: Affix, x: Affix, rem: Bag, n: nat, c: nat, m: nat)
    requires |pool| == n > 0 && Remainder(pool, a) == rem && rem[x] == c && |rem| == m > 0
    ensures Get(Branch(1, pool, a), multiset{a} + multiset{x}) == Mul(1.0 / n as real, c as real / m as real)
  {
    BranchGet(1, pool, a, multiset{x});
    SelectSingle(rem, x);
  }

  /** Every draw of `DrawTwoOfThree` is one of its two bags. */
  lemma DrawTwoOfThreeKey(d: Affix, e: Affix, b: Bag)
    requires d != e && !d.exclusive && !e.exclusive
    requires b in Select(2, multiset{d, e, e})
    ensures b == multiset{d, e} || b == multiset{e, e}
  {
    var pool := multiset{d, e, e};
    ThreeWithoutExclusive(d, e);
    ThreeSize(d, e, e);
    DrawnWithoutExclusive(2, pool, b);
    PairsOfThree(d, e, b);
  }

  /** `{d, e, e}` has no exclusive affix when neither `d` nor `e` is exclusive. */
  lemma ThreeWithoutExclusive(d: Affix, e: Affix)
    requires !d.exclusive && !e.exclusive
    ensures !HasExclusive(multiset{d, e, e})
  {
  }

  /** The sub-bags of two copies of `{d, e, e}`. */
  lemma PairsOfThree(d: Affix, e: Affix, b: Bag)
    requires d != e && b <= multiset{d, e, e} && |b| == 2
    ensures b == multiset{d, e} || b == multiset{e, e}
  {
    var pool := multiset{d, e, e};
    ThreeSize(d, e, e);
    OneLeftOut(b, pool);
    var x :| x in pool && b == pool - multiset{x};
    ThreeLessOne(d, e, x);
  }

  /** Taking one copy out of `{d, e, e}` leaves `{e, e}` or `{d, e}`. */
  lemma ThreeLessOne(d: Affix, e: Affix, x: Affix)
    requires d != e && x in multiset{d, e, e}
    ensures multiset{d, e, e} - multiset{x} == multiset{e, e} || multiset{d, e, e} - multiset{x} == multiset{d, e}
  {
    if x == d {
      ThreeLessFirst(d, e);
    } else {
      ThreeLessOther(d, e);
    }
  }

  /** A draw from a pool without exclusive affixes is a sub-bag of full size. */
  lemma DrawnWithoutExclusive(count: nat, pool: Bag, b: Bag)
    requires !HasExclusive(pool) && b in Select(count, pool)
    ensures b <= pool && |b| == Min(count, |pool|)
  {
    SelectKeys(count, pool);
    SelectSizeWithoutExclusive(count, pool);
  }

  /** A sub-bag one copy smaller than the bag leaves out one copy. */
  lemma OneLeftOut(b: Bag, pool: Bag)
    requires b <= pool && |b| + 1 == |pool|
    ensures exists x :: x in pool && b == pool - multiset{x}
  {
    var c := pool - b;
    assert pool == b + c;
    SizeOne(c);
    var x :| c == multiset{x};
    assert x in pool && b == pool - c;
  }

  /** A bag of one copy is that copy alone. */
  lemma SizeOne(c: Bag)
    requires |c| == 1
    ensures exists x :: c == multiset{x}
  {
    var x :| x in c;
    assert c == (c - multiset{x}) + multiset{x};
    assert |c - multiset{x}| == 0;
  }

  /** At most one of three affixes is exclusive. */
  predicate AtMostOneExclusive(a: Affix, b: Affix, c: Affix)
  {
    (a.exclusive ==> !b.exclusive && !c.exclusive) && (b.exclusive ==> !c.exclusive)
  }

  /**
   Two draws from three different affixes, at most one of them exclusive:
   each of the three pairs has chance 1/3.
   */
  lemma DrawTwoOfThreeDistinct(a: Affix, b: Affix, c: Affix)
    requires a != b && b != c && a != c && AtMostOneExclusive(a, b, c)
    ensures Select(2, multiset{a, b, c})
         == map[multiset{a, b} := 1.0 / 3.0, multiset{a, c} := 1.0 / 3.0, multiset{b, c} := 1.0 / 3.0]
  {
    var pool := multiset{a, b, c};
    assert 1.0 / 3.0 + 1.0 / 3.0 + 1.0 / 3.0 == 1.0;
    PermuteThree(a, b, c);
    PairOfDistinct(a, b, c);
    PairOfDistinct(a, c, b);
    PairOfDistinct(b, c, a);
    PairsDiffer(a, b, c);
    SelectPositive(2, pool);
    SelectMass(2, pool);
    CoveredByThree(Select(2, pool), multiset{a, b}, 1.0 / 3.0, multiset{a, c}, 1.0 / 3.0, multiset{b, c}, 1.0 / 3.0);
  }

  /** The three pairs of three different affixes are different bags. */
  lemma PairsDiffer(a: Affix, b: Affix, c: Affix)
    requires a != b && b != c && a != c
    ensures multiset{a, b} != multiset{a, c} && multiset{a, b} != multiset{b, c} && multiset{a, c} != multiset{b, c}
  {
    assert multiset{a, b}[b] == 1 && multiset{a, c}[b] == 0;
    assert multiset{b, c}[a] == 0 && multiset{a, c}[a] == 1;
  }

  /** Listing three affixes in another order gives the same bag. */
  lemma PermuteThree(a: Affix, b: Affix, c: Affix)
    ensures multiset{a, c, b} == multiset{a, b, c}
    ensures multiset{b, a, c} == multiset{a, b, c}
    ensures multiset{b, c, a} == multiset{a, b, c}
  {
  }

  /** The pair `{a, b}` of three different affixes, at most one exclusive, has chance 1/3. */
  lemma PairOfDistinct(a: Affix, b: Affix, c: Affix)
    requires a != b && b != c && a != c && AtMostOneExclusive(a, b, c)
    ensures Get(Select(2, multiset{a, b, c}), multiset{a, b}) == 1.0 / 3.0
  {
    var pool := multiset{a, b, c};
    assert 1.0 / 6.0 + 1.0 / 6.0 + 0.0 == 1.0 / 3.0;
    PermuteThree(a, b, c);
    PairBag(a, b);
    OtherNotInPair(a, b, c);
    SelectUnfold(2, 1, pool);
    SumBagOfThree(a, b, c, Branches(1, pool), multiset{a, b});
    BranchOfDistinct(a, b, c);
    BranchOfDistinct(b, a, c);
    BranchMissing(1, pool, c, multiset{a, b});
  }

  /** A third affix is not in the pair of the other two. */
  lemma OtherNotInPair(a: Affix, b: Affix, c: Affix)
    requires c != a && c != b
    ensures c !in multiset{a, b}
  {
  }

  /** Drawing `a` first from three different affixes leaves the other two, so `b` follows with chance 1/2. */
  lemma BranchOfDistinct(a: Affix, b: Affix, c: Affix)
    requires a != b && b != c && a != c && (a.exclusive ==> !b.exclusive && !c.exclusive)
    ensures Get(Branch(1, multiset{a, b, c}, a), multiset{a, b}) == 1.0 / 6.0
  {
    var pool := multiset{a, b, c};
    var rem := multiset{b, c};
    assert Mul(1.0 / 3 as real, 1 as real / 2 as real) == 1.0 / 6.0;
    RemainderOfDistinct(a, b, c);
    TwoDistinct(b, c);
    ThreeSize(a, b, c);
    BranchOfTwo(pool, a, b, rem, 3, 1, 2);
    PairBag(a, b);
  }

  /** Drawing `a` from three different affixes leaves the other two, exclusive or not. */
  lemma RemainderOfDistinct(a: Affix, b: Affix, c: Affix)
    requires a != b && b != c && a != c && (a.exclusive ==> !b.exclusive && !c.exclusive)
    ensures Remainder(multiset{a, b, c}, a) == multiset{b, c}
  {
    var rest := multiset{b, c};
    assert multiset{a, b, c} - multiset{a} == rest;
    if a.exclusive {
      assert forall y :: Filter(rest, NotExclusive)[y] == rest[y];
    }
  }

  /** `AFFIX_CHANCES[n]`; a pool of more than six affixes has no row. */
  function Row(n: nat): (row: seq<real>)
    requires n < |AffixChances|
    ensures |row| == 4
  {
    AffixChances[n]
  }

  /**
   One round of the first loop of `select_affixes`: the draws of `i` affixes,
   their chances multiplied by `chance`; nothing when `chance` is zero.
   */
  ghost function CountTerm(chance: real, i: nat, pool: Bag): Dist<Bag>
  {
    if chance == 0.0 then map[] else Mapped(Select(i, pool), Identity(), chance)
  }

  /** The first side's selections after the rounds `i < n`. */
  ghost function FirstUpTo(row: seq<real>, pool: Bag, n: nat): Dist<Bag>
    requires n <= |row|
  {
    if n == 0 then map[] else Plus(FirstUpTo(row, pool, n - 1), CountTerm(row[n - 1], n - 1, pool))
  }

  /** The first side's selections: every count weighted by the row for the pool's size. */
  ghost function FirstSelections(pool: Bag): Dist<Bag>
    requires |pool| < |AffixChances|
  {
    FirstUpTo(Row(|pool|), pool, 4)
  }

  /** What the second side draws from once `fa` is drawn first: no exclusive affix after an exclusive one. */
  ghost function SecondPool(second: Bag, fa: Bag): (r: Bag)
    ensures r <= second
    ensures HasExclusive(fa) ==> !HasExclusive(r)
    ensures HasExclusive(fa) ==> forall y: Affix :: !y.exclusive ==> r[y] == second[y]
    ensures !HasExclusive(fa) ==> r == second
  {
    FilterNotExclusive(second);
    if HasExclusive(fa) then Filter(second, NotExclusive) else second
  }

  /** Pairs a second-side draw with the first-side draw `fa`. */
  function PairWith(fa: Bag): (f: Bag -> (Bag, Bag))
    ensures Injective(f)
    ensures forall s :: f(s) == (fa, s)
  {
    s => (fa, s)
  }

  /**
   The second-side draws of `i` affixes paired with the first-side draw `fa`,
   each chance multiplied by `first_chance * count_chance`.
   */
  ghost function PairBranch(chance: real, i: nat, first: Dist<Bag>, second: Bag, fa: Bag): Dist<(Bag, Bag)>
  {
    Mapped(Select(i, SecondPool(second, fa)), PairWith(fa), Mul(Get(first, fa), chance))
  }

  /** `PairBranch` for every first-side draw. */
  ghost function PairBranches(chance: real, i: nat, first: Dist<Bag>, second: Bag): Bag -> Dist<(Bag, Bag)>
  {
    fa => PairBranch(chance, i, first, second, fa)
  }

  /** One round of the second loop: every first-side draw, or nothing when `chance` is zero. */
  ghost function JointTerm(chance: real, i: nat, first: Dist<Bag>, second: Bag): Dist<(Bag, Bag)>
  {
    if chance == 0.0 then map[] else SumBag(multiset(first.Keys), PairBranches(chance, i, first, second))
  }

  /** The pairs after the rounds `i < n` of the second loop. */
  ghost function SecondUpTo(row: seq<real>, first: Dist<Bag>, second: Bag, n: nat): Dist<(Bag, Bag)>
    requires n <= |row|
  {
    if n == 0 then map[]
    else Plus(SecondUpTo(row, first, second, n - 1), JointTerm(row[n - 1], n - 1, first, second))
  }

  /**
   `select_affixes(first, second)`: the chance of every pair of draws. The
   second side's counts are weighted by the row for the size of the whole
   second pool, even when an exclusive first draw filters it.
   */
  ghost function JointSelect(first: Bag, second: Bag): Dist<(Bag, Bag)>
    requires |first| < |AffixChances| && |second| < |AffixChances|
  {
    SecondUpTo(Row(|second|), FirstSelections(first), second, 4)
  }

  /** The definition of `FirstUpTo` for a positive number of rounds. */
  lemma FirstUpToUnfold(row: seq<real>, pool: Bag, m: nat)
    requires 0 < m <= |row|
    ensures FirstUpTo(row, pool, m) == Plus(FirstUpTo(row, pool, m - 1), CountTerm(row[m - 1], m - 1, pool))
  {
  }

  /** One round of the first loop: a zero chance adds nothing. */
  lemma FirstUpToStep(row: seq<real>, pool: Bag, n: nat)
    requires n < |row|
    ensures row[n] == 0.0 ==> FirstUpTo(row, pool, n + 1) == FirstUpTo(row, pool, n)
    ensures row[n] != 0.0 ==> FirstUpTo(row, pool, n + 1)
                              == Plus(FirstUpTo(row, pool, n), Mapped(Select(n, pool), Identity(), row[n]))
  {
    PlusEmpty(FirstUpTo(row, pool, n));
  }

  /** The definition of `SecondUpTo` for a positive number of rounds. */
  lemma SecondUpToUnfold(row: seq<real>, first: Dist<Bag>, second: Bag, m: nat)
    requires 0 < m <= |row|
    ensures SecondUpTo(row, first, second, m)
         == Plus(SecondUpTo(row, first, second, m - 1), JointTerm(row[m - 1], m - 1, first, second))
  {
  }

  /** One round of the second loop: a zero chance adds nothing. */
  lemma SecondUpToStep(row: seq<real>, first: Dist<Bag>, second: Bag, n: nat)
    requires n < |row|
    ensures row[n] == 0.0 ==> SecondUpTo(row, first, second, n + 1) == SecondUpTo(row, first, second, n)
    ensures row[n] != 0.0 ==> SecondUpTo(row, first, second, n + 1)
                              == Plus(SecondUpTo(row, first, second, n), JointTerm(row[n], n, first, second))
  {
    SecondUpToUnfold(row, first, second, n + 1);
    PlusEmpty(SecondUpTo(row, first, second, n));
  }

  /** One more first-side draw `fa` visited in a round of the second loop. */
  lemma PairStep(before: Dist<(Bag, Bag)>, first: Dist<Bag>, todo: set<Bag>, fa: Bag, f: Bag -> Dist<(Bag, Bag)>)
    requires todo <= first.Keys && fa in todo
    ensures Plus(Plus(before, SumBag(multiset(first.Keys - todo), f)), f(fa))
         == Plus(before, SumBag(multiset(first.Keys - (todo - {fa})), f))
  {
    var done := first.Keys - todo;
    assert multiset(first.Keys - (todo - {fa})) == multiset(done) + multiset{fa} by {
      assert first.Keys - (todo - {fa}) == done + {fa};
    }
    SumBagAdd(multiset(done), f, fa);
    PlusAssoc(before, SumBag(multiset(done), f), f(fa));
  }

  /** The first loop of `select_affixes`: every count with a nonzero chance, weighted by that chance. */
  method SelectFirst(pool: Bag) returns (firstSel: Dist<Bag>)
    requires |pool| < |AffixChances|
    ensures firstSel == FirstSelections(pool)
  {
    firstSel := map[];
    var row := Row(|pool|);
    for i := 0 to 4
      invariant firstSel == FirstUpTo(row, pool, i)
    {
      var chance := row[i];
      FirstUpToStep(row, pool, i);
      if chance == 0.0 {
        continue;
      }
      var sel := MakeAffixSelections(i, pool);
      firstSel := AddMapped(firstSel, sel, Identity(), chance);
    }
  }

  /**
   The body of one round of the second loop of `select_affixes`: for every
   first-side draw, the second side's draws of `i` affixes from the pool that
   draw leaves, added to `acc`.
   */
  method AddPairs(acc: Dist<(Bag, Bag)>, firstSel: Dist<Bag>, second: Bag, i: nat, chance: real)
    returns (r: Dist<(Bag, Bag)>)
    requires chance != 0.0
    ensures r == Plus(acc, JointTerm(chance, i, firstSel, second))
  {
    ghost var f := PairBranches(chance, i, firstSel, second);
    var todo := firstSel.Keys;
    r := acc;
    assert r == Plus(acc, SumBag(multiset(firstSel.Keys - todo), f)) by {
      assert multiset(firstSel.Keys - todo) == multiset{};
      PlusEmpty(r);
    }
    while todo != {}
      invariant todo <= firstSel.Keys
      invariant r == Plus(acc, SumBag(multiset(firstSel.Keys - todo), f))
      decreases todo
    {
      var fa :| fa in todo;
      var possible := second;
      if HasExclusive(fa) {
        possible := FilterBag(possible, NotExclusive);
      }
      var sel := MakeAffixSelections(i, possible);
      PairStep(acc, firstSel, todo, fa, f);
      r := AddMapped(r, sel, PairWith(fa), Mul(firstSel[fa], chance));
      todo := todo - {fa};
    }
    assert firstSel.Keys - todo == firstSel.Keys;
  }

  /**
   `select_affixes`: the first side's draws for every count, then for every
   count and every first-side draw the second side's draws from the pool that
   draw leaves.
   */
  method SelectAffixes(firstAffixes: Bag, secondAffixes: Bag) returns (r: Dist<(Bag, Bag)>)
    requires |firstAffixes| < |AffixChances| && |secondAffixes| < |AffixChances|
    ensures r == JointSelect(firstAffixes, secondAffixes)
  {
    var firstSel := SelectFirst(firstAffixes);
    r := map[];
    var row := Row(|secondAffixes|);
    for i := 0 to 4
      invariant r == SecondUpTo(row, firstSel, secondAffixes, i)
    {
      var chance := row[i];
      SecondUpToStep(row, firstSel, secondAffixes, i);
      if chance == 0.0 {
        continue;
      }
      r := AddPairs(r, firstSel, secondAffixes, i, chance);
    }
  }

  /** The sum of the first `n` chances of a row. */
  lemma TotalPrefix(row: seq<real>, n: nat)
    requires 0 < n <= |row|
    ensures Total(row[..n]) == Total(row[..n - 1]) + row[n - 1]
  {
    assert row[..n][..n - 1] == row[..n - 1];
  }

  /** The first side's total after `n` rounds is the sum of the first `n` chances of its row. */
  lemma {:induction false} FirstMass(row: seq<real>, pool: Bag, n: nat)
    requires n <= |row|
    ensures Mass(FirstUpTo(row, pool, n)) == Total(row[..n])
  {
    if n == 0 {
      assert row[..0] == [];
    } else {
      var c := row[n - 1];
      var term := CountTerm(c, n - 1, pool);
      assert Mass(term) == c by {
        if c != 0.0 {
          SelectMass(n - 1, pool);
          MassMapped(Select(n - 1, pool), Identity(), c);
        }
      }
      FirstMass(row, pool, n - 1);
      FirstUpToUnfold(row, pool, n);
      MassPlus(FirstUpTo(row, pool, n - 1), term);
      TotalPrefix(row, n);
    }
  }

  /** A round of the second loop weighs every first-side draw by its chance. */
  lemma JointTermMass(chance: real, i: nat, first: Dist<Bag>, second: Bag)
    ensures Mass(JointTerm(chance, i, first, second)) == Mul(chance, Mass(first))
  {
    if chance != 0.0 {
      var f := PairBranches(chance, i, first, second);
      forall fa | fa in first ensures Mass(f(fa)) == Mul(chance, first[fa]) {
        SelectMass(i, SecondPool(second, fa));
        MassMapped(Select(i, SecondPool(second, fa)), PairWith(fa), Mul(first[fa], chance));
        MulComm(first[fa], chance);
      }
      MassSumBagWeighted(first, f, chance);
    }
  }

  /** One round of the second loop adds its chance times the first side's total. */
  lemma SecondMassStep(row: seq<real>, first: Dist<Bag>, second: Bag, n: nat)
    requires 0 < n <= |row|
    requires Mass(SecondUpTo(row, first, second, n - 1)) == Mul(Total(row[..n - 1]), Mass(first))
    ensures Mass(SecondUpTo(row, first, second, n)) == Mul(Total(row[..n]), Mass(first))
  {
    var c, t := row[n - 1], Total(row[..n - 1]);
    var prev, term := SecondUpTo(row, first, second, n - 1), JointTerm(c, n - 1, first, second);
    assert Mass(SecondUpTo(row, first, second, n)) == Mass(prev) + Mass(term) by {
      SecondUpToUnfold(row, first, second, n);
      MassPlus(prev, term);
    }
    JointTermMass(c, n - 1, first, second);
    TotalPrefix(row, n);
    MulAddLeft(t, c, Mass(first));
  }

  /** The pairs' total after `n` rounds: the first `n` chances of the row times the first side's total. */
  lemma {:induction false} SecondMass(row: seq<real>, first: Dist<Bag>, second: Bag, n: nat)
    requires n <= |row|
    ensures Mass(SecondUpTo(row, first, second, n)) == Mul(Total(row[..n]), Mass(first))
  {
    if n == 0 {
      assert row[..0] == [];
    } else {
      SecondMass(row, first, second, n - 1);
      SecondMassStep(row, first, second, n);
    }
  }

  /**
   The chances `select_affixes` returns add up to the product of the two rows'
   totals: 1 unless a side has three or four affixes, whose rows add up to 1.01.
   */
  lemma JointMass(first: Bag, second: Bag)
    requires |first| < |AffixChances| && |second| < |AffixChances|
    ensures Mass(JointSelect(first, second)) == Mul(Total(Row(|second|)), Total(Row(|first|)))
    ensures |first| != 3 && |first| != 4 && |second| != 3 && |second| != 4 ==>
              Mass(JointSelect(first, second)) == 1.0
  {
    var rowF, rowS := Row(|first|), Row(|second|);
    FirstMass(rowF, first, 4);
    assert rowF[..4] == rowF;
    SecondMass(rowS, FirstSelections(first), second, 4);
    assert rowS[..4] == rowS;
    ChanceTable();
  }

  /**
   A round of the second loop gives the pair `(fa, s)` the chance of `fa` on
   the first side, times the round's chance, times the chance of drawing `s`
   from what the second side draws from once `fa` is drawn.
   */
  lemma JointTermGet(chance: real, i: nat, first: Dist<Bag>, second: Bag, fa: Bag, s: Bag)
    requires chance != 0.0 && fa in first
    ensures Get(JointTerm(chance, i, first, second), (fa, s))
         == Mul(Mul(first[fa], chance), Get(Select(i, SecondPool(second, fa)), s))
  {
    var m := multiset(first.Keys);
    var f := PairBranches(chance, i, first, second);
    SumBagRemoveGet(m, f, fa, (fa, s));
    forall g | g in m - multiset{fa} ensures Get(f(g), (fa, s)) == 0.0 {
      assert g != fa;
    }
    SumBagMissing(m - multiset{fa}, f, (fa, s));
    MappedGet(Select(i, SecondPool(second, fa)), PairWith(fa), Mul(first[fa], chance), s);
  }

  /** The first side's selections hold only positive chances. */
  lemma {:induction false} FirstPositive(row: seq<real>, pool: Bag, n: nat)
    requires n <= |row|
    requires forall j :: 0 <= j < |row| ==> row[j] >= 0.0
    ensures Positive(FirstUpTo(row, pool, n))
  {
    if n > 0 {
      var m := n - 1;
      assert row[m] >= 0.0;
      FirstPositive(row, pool, m);
      FirstPositiveStep(row, pool, m);
    }
  }

  /** A round of the first loop with a chance that is not negative keeps every chance positive. */
  lemma FirstPositiveStep(row: seq<real>, pool: Bag, n: nat)
    requires n < |row| && row[n] >= 0.0
    requires Positive(FirstUpTo(row, pool, n))
    ensures Positive(FirstUpTo(row, pool, n + 1))
  {
    FirstUpToStep(row, pool, n);
    if row[n] != 0.0 {
      var sel := Select(n, pool);
      SelectPositive(n, pool);
      MappedPositive(sel, Identity(), row[n]);
      PositiveSum(FirstUpTo(row, pool, n + 1), FirstUpTo(row, pool, n), Mapped(sel, Identity(), row[n]));
    }
  }

  /** A round of the second loop over positive first-side chances holds only positive chances. */
  lemma JointTermPositive(chance: real, i: nat, first: Dist<Bag>, second: Bag)
    requires chance >= 0.0 && Positive(first)
    ensures Positive(JointTerm(chance, i, first, second))
  {
    if chance != 0.0 {
      var f := PairBranches(chance, i, first, second);
      forall fa | fa in multiset(first.Keys) ensures Positive(f(fa)) {
        SelectPositive(i, SecondPool(second, fa));
        MulPositive(first[fa], chance);
        MappedPositive(Select(i, SecondPool(second, fa)), PairWith(fa), Mul(Get(first, fa), chance));
      }
      SumBagPositive(multiset(first.Keys), f);
    }
  }

  /** The pairs after `n` rounds of the second loop hold only positive chances. */
  lemma {:induction false} SecondPositive(row: seq<real>, first: Dist<Bag>, second: Bag, n: nat)
    requires n <= |row| && Positive(first)
    requires forall j :: 0 <= j < |row| ==> row[j] >= 0.0
    ensures Positive(SecondUpTo(row, first, second, n))
  {
    if n > 0 {
      var m := n - 1;
      assert row[m] >= 0.0;
      SecondPositive(row, first, second, m);
      SecondPositiveStep(row, first, second, m);
    }
  }

  /** A round of the second loop with a chance that is not negative keeps every chance positive. */
  lemma SecondPositiveStep(row: seq<real>, first: Dist<Bag>, second: Bag, n: nat)
    requires n < |row| && row[n] >= 0.0 && Positive(first)
    requires Positive(SecondUpTo(row, first, second, n))
    ensures Positive(SecondUpTo(row, first, second, n + 1))
  {
    SecondUpToStep(row, first, second, n);
    if row[n] != 0.0 {
      JointTermPositive(row[n], n, first, second);
      PositiveSum(SecondUpTo(row, first, second, n + 1), SecondUpTo(row, first, second, n),
                  JointTerm(row[n], n, first, second));
    }
  }

  /** Every pair `select_affixes` returns has a positive chance. */
  lemma JointPositive(first: Bag, second: Bag)
    requires |first| < |AffixChances| && |second| < |AffixChances|
    ensures Positive(JointSelect(first, second))
  {
    ChanceTable();
    FirstPositive(Row(|first|), first, 4);
    SecondPositive(Row(|second|), FirstSelections(first), second, 4);
  }

  /**
   Every pair's chance is more than zero and at most the product of the two
   rows' totals; at most one unless a side has three or four affixes.
   */
  lemma JointChances(first: Bag, second: Bag)
    requires |first| < |AffixChances| && |second| < |AffixChances|
    ensures forall k :: k in JointSelect(first, second) ==>
              0.0 < JointSelect(first, second)[k] <= Mul(Total(Row(|second|)), Total(Row(|first|)))
    ensures |first| != 3 && |first| != 4 && |second| != 3 && |second| != 4 ==>
              forall k :: k in JointSelect(first, second) ==> JointSelect(first, second)[k] <= 1.0
  {
    var d := JointSelect(first, second);
    JointPositive(first, second);
    JointMass(first, second);
    forall k | k in d ensures 0.0 < d[k] <= Mass(d) {
      EntryAtMostMass(d, k);
    }
  }

  /** A round of the first loop only holds draws of its count. */
  lemma CountTermKeys(chance: real, i: nat, pool: Bag)
    requires i <= 3
    ensures forall b :: b in CountTerm(chance, i, pool) ==> Drawn(3, pool, b)
  {
    SelectKeys(i, pool);
  }

  /** Every first-side draw takes at most three copies from the pool and at most one exclusive. */
  lemma {:induction false} FirstKeys(row: seq<real>, pool: Bag, n: nat)
    requires n <= |row| && n <= 4
    ensures forall b :: b in FirstUpTo(row, pool, n) ==> Drawn(3, pool, b)
  {
    if n > 0 {
      FirstKeys(row, pool, n - 1);
      FirstUpToUnfold(row, pool, n);
      CountTermKeys(row[n - 1], n - 1, pool);
    }
  }

  /** A pair of draws: the first from the first side's selections, the second from what it leaves. */
  ghost predicate DrawnPair(first: Dist<Bag>, second: Bag, k: (Bag, Bag))
  {
    k.0 in first && Drawn(3, SecondPool(second, k.0), k.1)
  }

  /** Every pair of one round of the second loop is a drawn pair. */
  lemma JointTermKeys(chance: real, i: nat, first: Dist<Bag>, second: Bag)
    requires i <= 3
    ensures forall k :: k in JointTerm(chance, i, first, second) ==> DrawnPair(first, second, k)
  {
    if chance != 0.0 {
      var f := PairBranches(chance, i, first, second);
      forall fa, k | fa in multiset(first.Keys) && k in f(fa) ensures DrawnPair(first, second, k) {
        SelectKeys(i, SecondPool(second, fa));
      }
      SumBagKeys(multiset(first.Keys), f, k => DrawnPair(first, second, k));
    }
  }

  /** Every pair after `n` rounds of the second loop is a drawn pair. */
  lemma {:induction false} SecondKeys(row: seq<real>, first: Dist<Bag>, second: Bag, n: nat)
    requires n <= |row| && n <= 4
    ensures forall k :: k in SecondUpTo(row, first, second, n) ==> DrawnPair(first, second, k)
  {
    if n > 0 {
      SecondKeys(row, first, second, n - 1);
      SecondUpToUnfold(row, first, second, n);
      JointTermKeys(row[n - 1], n - 1, first, second);
    }
  }

  /** A sub-bag of a bag without exclusive affixes has none either. */
  lemma NoExclusiveSub(b: Bag, m: Bag)
    requires b <= m && !HasExclusive(m)
    ensures !HasExclusive(b)
  {
    ExclusiveCountSub(b, m);
    HasExclusiveCount(b);
    HasExclusiveCount(m);
  }

  /**
   Every pair `select_affixes` returns draws at most three copies from each
   side, and the two draws together hold at most one exclusive affix.
   */
  lemma JointKeys(first: Bag, second: Bag)
    requires |first| < |AffixChances| && |second| < |AffixChances|
    ensures forall k :: k in JointSelect(first, second) ==>
              Drawn(3, first, k.0) && Drawn(3, second, k.1) &&
              ExclusiveCount(k.0) + ExclusiveCount(k.1) <= 1
  {
    var firstSel := FirstSelections(first);
    FirstKeys(Row(|first|), first, 4);
    SecondKeys(Row(|second|), firstSel, second, 4);
    forall k | k in JointSelect(first, second)
      ensures Drawn(3, first, k.0) && Drawn(3, second, k.1)
      ensures ExclusiveCount(k.0) + ExclusiveCount(k.1) <= 1
    {
      var pool := SecondPool(second, k.0);
      ExclusiveCountSub(k.1, pool);
      ExclusiveCountSub(pool, second);
      HasExclusiveCount(k.0);
      HasExclusiveCount(k.1);
      if HasExclusive(k.0) {
        NoExclusiveSub(k.1, pool);
      }
    }
  }

  /** `(prefix_sel, suffix_sel)` of a pair of draws: the suffix-first pass draws the suffixes first. */
  function Sides(k: (Bag, Bag), suffixFirst: bool): (Bag, Bag)
  {
    if suffixFirst then (k.1, k.0) else k
  }

  /** The item built on `base` from a pair of draws, before its limits are checked. */
  function Build(base: Item, suffixFirst: bool): (f: ((Bag, Bag)) -> Item)
    ensures Injective(f)
    ensures forall k :: f(k).baseName == base.baseName && f(k).ilvl == base.ilvl
    ensures forall k :: f(k).prefixLimit == base.prefixLimit && f(k).suffixLimit == base.suffixLimit
    ensures forall k :: (f(k).prefixes, f(k).suffixes) == Sides(k, suffixFirst)
  {
    k => Item(base.baseName, base.ilvl, Sides(k, suffixFirst).0, Sides(k, suffixFirst).1,
              base.prefixLimit, base.suffixLimit)
  }

  /** `Item(base.base_name, base.ilvl, prefix_sel, suffix_sel, base.prefix_limit, base.suffix_limit)`. */
  function MakeItem(base: Item, k: (Bag, Bag), suffixFirst: bool): (r: Result<Item, ItemError>)
    ensures r.Ok? <==> |Sides(k, suffixFirst).0| <= base.prefixLimit && |Sides(k, suffixFirst).1| <= base.suffixLimit
    ensures r.Ok? ==> r.value == Build(base, suffixFirst)(k) && Legal(r.value)
  {
    var (prefixSel, suffixSel) := Sides(k, suffixFirst);
    NewItem(base.baseName, base.ilvl, prefixSel, suffixSel, base.prefixLimit, base.suffixLimit)
  }

  /** Every pair of `d` gives an item within the base's limits. */
  ghost predicate Fits(base: Item, d: Dist<(Bag, Bag)>, suffixFirst: bool)
  {
    forall k :: k in d ==> MakeItem(base, k, suffixFirst).Ok?
  }

  /**
   One loop of `step_make_affixes`: `final_items[item] += 0.5 * chance` for
   every pair, or the error of the first pair whose item is refused.
   */
  method AddItems(acc: Dist<Item>, base: Item, d: Dist<(Bag, Bag)>, suffixFirst: bool)
    returns (r: Result<Dist<Item>, ItemError>)
    ensures r.Ok? <==> Fits(base, d, suffixFirst)
    ensures r.Ok? ==> r.value == Plus(acc, Mapped(d, Build(base, suffixFirst), 0.5))
    ensures r.Err? ==> exists k :: k in d && MakeItem(base, k, suffixFirst) == Err(r.error)
  {
    var sum := acc;
    var todo := d.Keys;
    var build := Build(base, suffixFirst);
    AddMappedBounds(acc, d, build, 0.5);
    while todo != {}
      invariant todo <= d.Keys
      invariant sum == Plus(acc, Mapped(Restrict(d, d.Keys - todo), build, 0.5))
      invariant forall k :: k in d.Keys - todo ==> MakeItem(base, k, suffixFirst).Ok?
      decreases todo
    {
      var k :| k in todo;
      var item := MakeItem(base, k, suffixFirst);
      if item.Err? {
        return Err(item.error);
      }
      AddMappedStep(acc, d, build, 0.5, todo, k);
      sum := AddAt(sum, item.value, Mul(0.5, d[k]));
      todo := todo - {k};
    }
    return Ok(sum);
  }

  /** Both passes, prefixes first and suffixes first, give items within the base's limits. */
  ghost predicate AllFit(base: Item, prefixes: Bag, suffixes: Bag)
    requires |prefixes| < |AffixChances| && |suffixes| < |AffixChances|
  {
    Fits(base, JointSelect(prefixes, suffixes), false) && Fits(base, JointSelect(suffixes, prefixes), true)
  }

  /** The items of `step_make_affixes`: each pass weighs its pairs by one half. */
  ghost function Outcomes(base: Item, prefixes: Bag, suffixes: Bag): Dist<Item>
    requires |prefixes| < |AffixChances| && |suffixes| < |AffixChances|
  {
    Plus(Mapped(JointSelect(prefixes, suffixes), Build(base, false), 0.5),
         Mapped(JointSelect(suffixes, prefixes), Build(base, true), 0.5))
  }

  /**
   `step_make_affixes`: the items drawn prefixes first and suffixes first,
   each with half its pair's chance; refused when some item exceeds a limit.
   */
  method StepMakeAffixes(base: Item, prefixes: Bag, suffixes: Bag) returns (r: Result<Dist<Item>, ItemError>)
    requires |prefixes| < |AffixChances| && |suffixes| < |AffixChances|
    ensures r.Ok? <==> AllFit(base, prefixes, suffixes)
    ensures r.Ok? ==> r.value == Outcomes(base, prefixes, suffixes)
    ensures r.Err? ==>
              (exists k :: k in JointSelect(prefixes, suffixes) && MakeItem(base, k, false) == Err(r.error)) ||
              (exists k :: k in JointSelect(suffixes, prefixes) && MakeItem(base, k, true) == Err(r.error))
  {
    var none: Dist<Item> := map[];
    var preFirst := SelectAffixes(prefixes, suffixes);
    var items := AddItems(none, base, preFirst, false);
    if items.Err? {
      return items;
    }
    var sufFirst := SelectAffixes(suffixes, prefixes);
    r := AddItems(items.value, base, sufFirst, true);
    PlusEmpty(Mapped(preFirst, Build(base, false), 0.5));
  }

  /**
   The items' chances add up to the product of the two rows' totals: 1 unless
   a side has three or four affixes.
   */
  lemma OutcomesMass(base: Item, prefixes: Bag, suffixes: Bag)
    requires |prefixes| < |AffixChances| && |suffixes| < |AffixChances|
    ensures Mass(Outcomes(base, prefixes, suffixes)) == Mul(Total(Row(|suffixes|)), Total(Row(|prefixes|)))
    ensures |prefixes| != 3 && |prefixes| != 4 && |suffixes| != 3 && |suffixes| != 4 ==>
              Mass(Outcomes(base, prefixes, suffixes)) == 1.0
  {
    var m := Mul(Total(Row(|suffixes|)), Total(Row(|prefixes|)));
    var pre := Mapped(JointSelect(prefixes, suffixes), Build(base, false), 0.5);
    var suf := Mapped(JointSelect(suffixes, prefixes), Build(base, true), 0.5);
    PassMass(base, prefixes, suffixes, false);
    PassMass(base, suffixes, prefixes, true);
    MulComm(Total(Row(|prefixes|)), Total(Row(|suffixes|)));
    assert Mass(Plus(pre, suf)) == m by {
      MassPlus(pre, suf);
      MulHalves(m);
    }
    if |prefixes| != 3 && |prefixes| != 4 && |suffixes| != 3 && |suffixes| != 4 {
      JointMass(prefixes, suffixes);
    }
  }

  /** One pass of `step_make_affixes` carries half the mass of its joint draws. */
  lemma PassMass(base: Item, first: Bag, second: Bag, suffixFirst: bool)
    requires |first| < |AffixChances| && |second| < |AffixChances|
    ensures Mass(Mapped(JointSelect(first, second), Build(base, suffixFirst), 0.5))
         == Mul(0.5, Mul(Total(Row(|second|)), Total(Row(|first|))))
  {
    JointMass(first, second);
    MassMapped(JointSelect(first, second), Build(base, suffixFirst), 0.5);
  }

  /**
   Every item's chance is more than zero and at most the product of the two
   rows' totals; at most one unless a side has three or four affixes.
   */
  lemma OutcomeChances(base: Item, prefixes: Bag, suffixes: Bag)
    requires |prefixes| < |AffixChances| && |suffixes| < |AffixChances|
    ensures forall it :: it in Outcomes(base, prefixes, suffixes) ==>
              0.0 < Outcomes(base, prefixes, suffixes)[it] <= Mul(Total(Row(|suffixes|)), Total(Row(|prefixes|)))
    ensures |prefixes| != 3 && |prefixes| != 4 && |suffixes| != 3 && |suffixes| != 4 ==>
              forall it :: it in Outcomes(base, prefixes, suffixes) ==> Outcomes(base, prefixes, suffixes)[it] <= 1.0
  {
    var d := Outcomes(base, prefixes, suffixes);
    var preFirst, sufFirst := JointSelect(prefixes, suffixes), JointSelect(suffixes, prefixes);
    JointPositive(prefixes, suffixes);
    JointPositive(suffixes, prefixes);
    MappedPositive(preFirst, Build(base, false), 0.5);
    MappedPositive(sufFirst, Build(base, true), 0.5);
    PlusPositive(Mapped(preFirst, Build(base, false), 0.5), Mapped(sufFirst, Build(base, true), 0.5));
    OutcomesMass(base, prefixes, suffixes);
    forall it | it in d ensures 0.0 < d[it] <= Mass(d) {
      EntryAtMostMass(d, it);
    }
  }

  /** With the default limits of three prefixes and three suffixes, no item is ever refused. */
  lemma DefaultLimitsFit(base: Item, prefixes: Bag, suffixes: Bag)
    requires |prefixes| < |AffixChances| && |suffixes| < |AffixChances|
    requires base.prefixLimit >= 3 && base.suffixLimit >= 3
    ensures AllFit(base, prefixes, suffixes)
  {
    JointKeys(prefixes, suffixes);
    JointKeys(suffixes, prefixes);
  }

  /**
   Every item `step_make_affixes` can give keeps the base's name, level and
   limits, takes at most three of the prefixes and three of the suffixes,
   and holds at most one exclusive affix.
   */
  lemma OutcomeItems(base: Item, prefixes: Bag, suffixes: Bag)
    requires |prefixes| < |AffixChances| && |suffixes| < |AffixChances|
    ensures forall it :: it in Outcomes(base, prefixes, suffixes) ==>
              it.baseName == base.baseName && it.ilvl == base.ilvl &&
              it.prefixLimit == base.prefixLimit && it.suffixLimit == base.suffixLimit &&
              Drawn(3, prefixes, it.prefixes) && Drawn(3, suffixes, it.suffixes) &&
              ExclusiveCount(it.prefixes) + ExclusiveCount(it.suffixes) <= 1
  {
    JointKeys(prefixes, suffixes);
    JointKeys(suffixes, prefixes);
    var preFirst, sufFirst := JointSelect(prefixes, suffixes), JointSelect(suffixes, prefixes);
    forall it | it in Outcomes(base, prefixes, suffixes)
      ensures Drawn(3, prefixes, it.prefixes) && Drawn(3, suffixes, it.suffixes)
      ensures ExclusiveCount(it.prefixes) + ExclusiveCount(it.suffixes) <= 1
    {
      if it in Mapped(preFirst, Build(base, false), 0.5) {
        var k :| k in preFirst && Build(base, false)(k) == it;
      } else {
        var k :| k in sufFirst && Build(base, true)(k) == it;
      }
    }
  }
}
