/**
 The worked example of `tests/simulation_test.py`: `select_affixes` on two
 sides that each hold one plain affix `p` and one exclusive affix `x`.
 Every chance is stated exactly, and the lemmas hold for any such pair.
 */
module SimulationTests {
  import opened Distributions
  import opened Model
  import opened Simulation

  /** Drawing one of two different affixes: each alone, with chance 1/2. */
  lemma SelectOneOfTwo(p: Affix, x: Affix)
    requires p != x
    ensures Select(1, multiset{p, x}) == map[multiset{p} := 0.5, multiset{x} := 0.5]
  {
    var pool := multiset{p, x};
    assert pool[p] == 1 && pool[x] == 1 && |pool| == 2;
    assert 1 as real / 2 as real == 0.5;
    SelectSingle(pool, p);
    SelectSingle(pool, x);
    assert multiset{p}[x] == 0;
    SelectPositive(1, pool);
    SelectMass(1, pool);
    CoveredByTwo(Select(1, pool), multiset{p}, 0.5, multiset{x}, 0.5);
  }

  /**
   Drawing two of two different affixes, `p` not exclusive: whichever comes
   first, the other follows, so the pair is drawn surely.
   */
  lemma SelectBothOfTwo(p: Affix, x: Affix)
    requires p != x && !p.exclusive
    ensures Select(2, multiset{p, x}) == map[multiset{p, x} := 1.0]
  {
    var pool := multiset{p, x};
    assert |pool| == 2;
    assert Mul(1.0 / 2 as real, 1 as real / 1 as real) == 0.5;
    RemaindersOfTwo(p, x);
    PairBag(p, x);
    PairBag(x, p);
    assert Get(Select(2, pool), pool) == 1.0 by {
      SelectUnfold(2, 1, pool);
      SumBagOfTwo(p, x, Branches(1, pool), pool);
      BranchOfTwo(pool, p, x, multiset{x}, 2, 1, 1);
      BranchOfTwo(pool, x, p, multiset{p}, 2, 1, 1);
    }
    SelectPositive(2, pool);
    SelectMass(2, pool);
    CoveredByOne(Select(2, pool), pool, 1.0);
  }

  /** Drawing either affix of `{p, x}` leaves the other, whether or not `x` is exclusive. */
  lemma RemaindersOfTwo(p: Affix, x: Affix)
    requires p != x && !p.exclusive
    ensures Remainder(multiset{p, x}, p) == multiset{x}
    ensures Remainder(multiset{p, x}, x) == multiset{p}
  {
    assert multiset{p, x} - multiset{p} == multiset{x};
    assert multiset{p, x} - multiset{x} == multiset{p};
    if x.exclusive {
      assert forall y :: Filter(multiset{p}, NotExclusive)[y] == multiset{p}[y];
    }
  }

  /** Two different affixes make three different non-empty bags. */
  lemma BagsOfTwoDiffer(p: Affix, x: Affix)
    requires p != x
    ensures multiset{p} != multiset{x} && multiset{p} != multiset{p, x} && multiset{x} != multiset{p, x}
  {
    assert multiset{p}[x] == 0 && multiset{p, x}[x] == 1;
    assert multiset{x}[p] == 0 && multiset{p, x}[p] == 1;
  }

  /**
   The first side of the example: with two affixes, one is kept with chance
   0.67 and both with chance 0.33, so `{p}` and `{x}` each get 0.67 * 0.5 and
   the pair gets 0.33.
   */
  lemma FirstOfTwo(p: Affix, x: Affix)
    requires p != x && !p.exclusive
    ensures FirstSelections(multiset{p, x})
         == map[multiset{p} := 0.67 * 0.5, multiset{x} := 0.67 * 0.5, multiset{p, x} := 0.33]
  {
    var pool := multiset{p, x};
    var row := Row(2);
    RowTwo();
    var first := FirstSelections(pool);
    BagsOfTwoDiffer(p, x);
    FirstOfTwoGets(p, x);
    FirstMassOfTwo(pool);
    FirstPositive(row, pool, 4);
    CoveredByThree(first, multiset{p}, 0.67 * 0.5, multiset{x}, 0.67 * 0.5, pool, 0.33);
  }

  /** The three chances of `FirstOfTwo`. */
  lemma FirstOfTwoGets(p: Affix, x: Affix)
    requires p != x && !p.exclusive
    ensures Get(FirstSelections(multiset{p, x}), multiset{p}) == 0.67 * 0.5
    ensures Get(FirstSelections(multiset{p, x}), multiset{x}) == 0.67 * 0.5
    ensures Get(FirstSelections(multiset{p, x}), multiset{p, x}) == 0.33
  {
    var pool := multiset{p, x};
    SelectOneOfTwo(p, x);
    SelectBothOfTwo(p, x);
    BagsOfTwoDiffer(p, x);
    FirstOfTwoGet(pool, multiset{p});
    FirstOfTwoGet(pool, multiset{x});
    FirstOfTwoGet(pool, pool);
  }

  /** A first side of two affixes: one kept in round 1 with chance 0.67, two in round 2 with chance 0.33. */
  lemma FirstOfTwoGet(pool: Bag, k: Bag)
    requires |pool| == 2
    ensures Get(FirstSelections(pool), k) == Mul(0.67, Get(Select(1, pool), k)) + Mul(0.33, Get(Select(2, pool), k))
  {
    FirstOfTwoSplit(pool, k);
    ScaledGet(Select(1, pool), 0.67, k);
    ScaledGet(Select(2, pool), 0.33, k);
  }

  /** `FirstOfTwoTerms` read at `k`. */
  lemma FirstOfTwoSplit(pool: Bag, k: Bag)
    requires |pool| == 2
    ensures Get(FirstSelections(pool), k)
         == Get(Mapped(Select(1, pool), Identity(), 0.67), k) + Get(Mapped(Select(2, pool), Identity(), 0.33), k)
  {
    FirstOfTwoTerms(pool);
  }

  /** The rounds of the first loop for a side of two affixes: rounds 0 and 3 add nothing. */
  lemma FirstOfTwoTerms(pool: Bag)
    requires |pool| == 2
    ensures FirstSelections(pool)
         == Plus(Plus(map[], Mapped(Select(1, pool), Identity(), 0.67)), Mapped(Select(2, pool), Identity(), 0.33))
  {
    var row := Row(2);
    RowTwo();
    FirstUpToStep(row, pool, 0);
    FirstUpToStep(row, pool, 1);
    FirstUpToStep(row, pool, 2);
    FirstUpToStep(row, pool, 3);
  }

  /** The chances of a first side of two affixes add up to one. */
  lemma FirstMassOfTwo(pool: Bag)
    requires |pool| == 2
    ensures Mass(FirstSelections(pool)) == 1.0
  {
    var row := Row(2);
    RowTwo();
    FirstMass(row, pool, 4);
    assert row[..4] == row;
    TotalOfFour(row);
  }

  /** The row of the table for two affixes. */
  lemma RowTwo()
    ensures Row(2) == [0.0, 0.67, 0.33, 0.0]
  {
    ChanceTable();
  }

  /**
   After a first-side draw with no exclusive affix the second side draws from
   both of its affixes; after one holding `x` it draws from `{p}` alone.
   */
  lemma SecondPoolsOfTwo(p: Affix, x: Affix)
    requires !p.exclusive && x.exclusive
    ensures SecondPool(multiset{p, x}, multiset{p}) == multiset{p, x}
    ensures SecondPool(multiset{p, x}, multiset{x}) == multiset{p}
    ensures SecondPool(multiset{p, x}, multiset{p, x}) == multiset{p}
  {
    ExclusivesOfTwo(p, x);
  }

  /** Which of the example's bags hold an exclusive affix, and what is left of `{p, x}` without one. */
  lemma ExclusivesOfTwo(p: Affix, x: Affix)
    requires !p.exclusive && x.exclusive
    ensures !HasExclusive(multiset{p}) && HasExclusive(multiset{x}) && HasExclusive(multiset{p, x})
    ensures Filter(multiset{p, x}, NotExclusive) == multiset{p}
  {
    assert Filter(multiset{p}, IsExclusive) == multiset{} by {
      assert forall y :: Filter(multiset{p}, IsExclusive)[y] == 0;
    }
    assert Filter(multiset{x}, IsExclusive)[x] == 1;
    assert Filter(multiset{p, x}, IsExclusive)[x] == 1;
    PlainOfTwo(p, x);
  }

  /** Leaving out the exclusive affixes of `{p, x}` leaves `{p}`. */
  lemma PlainOfTwo(p: Affix, x: Affix)
    requires !p.exclusive && x.exclusive
    ensures Filter(multiset{p, x}, NotExclusive) == multiset{p}
  {
    assert forall y :: Filter(multiset{p, x}, NotExclusive)[y] == multiset{p}[y];
  }

  /**
   A second side of two affixes: the pair `(fa, s)` gets the chance of `fa`
   times 0.67 times the chance of drawing `s` alone, plus the chance of `fa`
   times 0.33 times the chance of drawing `s` as two affixes.
   */
  lemma JointOfTwoGet(first: Bag, second: Bag, fa: Bag, s: Bag)
    requires |first| < |AffixChances| && |second| == 2 && fa in FirstSelections(first)
    ensures Get(JointSelect(first, second), (fa, s))
         == Mul(Mul(FirstSelections(first)[fa], 0.67), Get(Select(1, SecondPool(second, fa)), s))
          + Mul(Mul(FirstSelections(first)[fa], 0.33), Get(Select(2, SecondPool(second, fa)), s))
  {
    var fs := FirstSelections(first);
    JointOfTwoSplit(first, second, (fa, s));
    JointTermGet(0.67, 1, fs, second, fa, s);
    JointTermGet(0.33, 2, fs, second, fa, s);
  }

  /** The rounds of the second loop for a second side of two affixes, read at `k`: rounds 0 and 3 add nothing. */
  lemma JointOfTwoSplit(first: Bag, second: Bag, k: (Bag, Bag))
    requires |first| < |AffixChances| && |second| == 2
    ensures Get(JointSelect(first, second), k)
         == Get(JointTerm(0.67, 1, FirstSelections(first), second), k)
          + Get(JointTerm(0.33, 2, FirstSelections(first), second), k)
  {
    var row := Row(2);
    RowTwo();
    var fs := FirstSelections(first);
    SecondUpToStep(row, fs, second, 0);
    SecondUpToStep(row, fs, second, 1);
    SecondUpToStep(row, fs, second, 2);
    SecondUpToStep(row, fs, second, 3);
  }

  /** The example's pairs that start with `{p}`: the second side draws from both affixes. */
  lemma JointAfterPlain(p: Affix, x: Affix)
    requires !p.exclusive && x.exclusive
    ensures Get(JointSelect(multiset{p, x}, multiset{p, x}), (multiset{p}, multiset{p})) == 0.67 * 0.5 * 0.67 * 0.5
    ensures Get(JointSelect(multiset{p, x}, multiset{p, x}), (multiset{p}, multiset{x})) == 0.67 * 0.5 * 0.67 * 0.5
    ensures Get(JointSelect(multiset{p, x}, multiset{p, x}), (multiset{p}, multiset{p, x})) == 0.67 * 0.5 * 0.33
  {
    var pool := multiset{p, x};
    SelectOneOfTwo(p, x);
    SelectBothOfTwo(p, x);
    BagsOfTwoDiffer(p, x);
    assert Mul(Mul(0.67 * 0.5, 0.67), 0.5) + Mul(Mul(0.67 * 0.5, 0.33), 0.0) == 0.67 * 0.5 * 0.67 * 0.5;
    assert Mul(Mul(0.67 * 0.5, 0.67), 0.0) + Mul(Mul(0.67 * 0.5, 0.33), 1.0) == 0.67 * 0.5 * 0.33;
    JointAfterPlainGet(p, x, multiset{p});
    JointAfterPlainGet(p, x, multiset{x});
    JointAfterPlainGet(p, x, pool);
  }

  /** A pair that starts with `{p}` weighs the second side's draws from both affixes by 0.67 * 0.5. */
  lemma JointAfterPlainGet(p: Affix, x: Affix, s: Bag)
    requires !p.exclusive && x.exclusive
    ensures Get(JointSelect(multiset{p, x}, multiset{p, x}), (multiset{p}, s))
         == Mul(Mul(0.67 * 0.5, 0.67), Get(Select(1, multiset{p, x}), s))
          + Mul(Mul(0.67 * 0.5, 0.33), Get(Select(2, multiset{p, x}), s))
  {
    var pool := multiset{p, x};
    FirstOfTwoGets(p, x);
    SecondPoolsOfTwo(p, x);
    JointOfTwoGet(pool, pool, multiset{p}, s);
  }

  /** The example's pairs that start with an exclusive draw: the second side can only draw `{p}`. */
  lemma JointAfterExclusive(p: Affix, x: Affix)
    requires !p.exclusive && x.exclusive
    ensures Get(JointSelect(multiset{p, x}, multiset{p, x}), (multiset{x}, multiset{p})) == 0.67 * 0.5
    ensures Get(JointSelect(multiset{p, x}, multiset{p, x}), (multiset{p, x}, multiset{p})) == 0.33
  {
    var pool := multiset{p, x};
    FirstOfTwoGets(p, x);
    SecondPoolsOfTwo(p, x);
    BagsOfTwoDiffer(p, x);
    ExclusivesOfTwo(p, x);
    SelectWhole(1, multiset{p});
    SelectWhole(2, multiset{p});
    assert Mul(Mul(0.67 * 0.5, 0.67), 1.0) + Mul(Mul(0.67 * 0.5, 0.33), 1.0) == 0.67 * 0.5;
    assert Mul(Mul(0.33, 0.67), 1.0) + Mul(Mul(0.33, 0.33), 1.0) == 0.33;
    JointOfTwoGet(pool, pool, multiset{x}, multiset{p});
    JointOfTwoGet(pool, pool, pool, multiset{p});
  }

  /**
   `test_select_affixes`: both sides hold a plain affix `p` and an exclusive
   affix `x`. Five pairs are possible, with exactly the chances the test
   expects, and nothing else.
   */
  lemma SelectAffixesExample(p: Affix, x: Affix)
    requires !p.exclusive && x.exclusive
    ensures JointSelect(multiset{p, x}, multiset{p, x})
         == map[(multiset{p, x}, multiset{p}) := 0.33,
                (multiset{p}, multiset{p}) := 0.67 * 0.5 * 0.67 * 0.5,
                (multiset{p}, multiset{x}) := 0.67 * 0.5 * 0.67 * 0.5,
                (multiset{p}, multiset{p, x}) := 0.67 * 0.5 * 0.33,
                (multiset{x}, multiset{p}) := 0.67 * 0.5]
  {
    var pool := multiset{p, x};
    var j := JointSelect(pool, pool);
    var pp, px, xp := multiset{p}, multiset{p, x}, multiset{x};
    BagsOfTwoDiffer(p, x);
    JointAfterPlain(p, x);
    JointAfterExclusive(p, x);
    assert Mass(j) == 1.0 by {
      assert |pool| == 2;
      JointMass(pool, pool);
    }
    JointPositive(pool, pool);
    assert 0.33 + 0.67 * 0.5 * 0.67 * 0.5 + 0.67 * 0.5 * 0.67 * 0.5 + 0.67 * 0.5 * 0.33 + 0.67 * 0.5 == 1.0;
    CoveredByFive(j, (px, pp), 0.33, (pp, pp), 0.67 * 0.5 * 0.67 * 0.5, (pp, xp), 0.67 * 0.5 * 0.67 * 0.5,
                  (pp, px), 0.67 * 0.5 * 0.33, (xp, pp), 0.67 * 0.5);
  }
}
