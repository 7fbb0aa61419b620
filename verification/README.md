# poe-recomb-sim in Dafny

This project models the core of `poe-recomb-sim`. That program computes, exactly, the chances of every item a recombinator can produce from two source items.

- **Affix bags.** An affix is a value record (`name`, `desired`, `exclusive`). An affix bag is a multiset of affixes. The bag supports:
  - union and saturating difference;
  - filtering;
  - `has_exclusive`, the size, and order-independent equality;
  - a summary string such as `2p1e/3s`.

  An item has a base name, an item level, a prefix bag, a suffix bag and slot limits. Building an item is refused when a bag exceeds its limit.
- **The selection engine.**
  - `make_affix_selections` draws `count` affixes one copy at a time from a pool. Each remaining copy is equally likely. Drawing an exclusive affix removes every other exclusive affix from what is left.
  - `select_affixes` draws one side (prefixes or suffixes) first. It then draws the other side, from which exclusive affixes are removed when the first side drew one. The numbers of draws are weighted by the fixed `AFFIX_CHANCES` table.
  - `step_make_affixes` averages the prefix-first and suffix-first orders.
  - `calc_ilvl` and `step_make_base` give the resulting base.

The files:

- `wrappers.dfy` holds the `Result` type.
- `distributions.dfy` holds exact finite distributions (`map<K, real>` read with default zero, as a `defaultdict(lambda: 0.0)`). It also holds their mass and their sums over a multiset.
- `model.dfy` models `poe_recomb_sim/model.py`.
- `simulation.dfy` models `poe_recomb_sim/simulation.py`.
- `simulation_tests.dfy` proves the exact chances of the `select_affixes` example in `tests/simulation_test.py`, for any plain affix and any exclusive affix.

Each accumulating loop of the program has two forms in the model:

- a method with the loop, such as `MakeAffixSelections`, `SelectAffixes`, `StepMakeAffixes` or `FilterBag`;
- a ghost specification function that sums over every copy of the pool, such as `Select`, `JointSelect`, `Outcomes` or `Filter`.

Each method is proved equal to its specification function. The properties (masses, keys, sizes, exclusivity, exact values) are proved about the specification functions.

Three facts about the program shape several contracts:

- **`AFFIX_CHANCES` row sums.** Rows 3 and 4 of `AFFIX_CHANCES` (`poe_recomb_sim/simulation.py:12-13`) sum to 1.01; every other row sums to 1.
  - The model keeps the table as written, and `Simulation.ChanceTable` states the row sums.
  - `Simulation.JointMass` and `Simulation.OutcomesMass` prove that the chances `select_affixes` and `step_make_affixes` return add up to the product of the two rows' sums. That product is 1, or 1.01 when one side has 3 or 4 affixes, or 1.0201 when both do.
  - For the same reason, `Simulation.JointChances` and `Simulation.OutcomeChances` bound each chance by that product, and by 1 only when neither side has 3 or 4 affixes.
- **Draw sizes.** Drawing an exclusive affix removes every other exclusive affix from what is left (`poe_recomb_sim/simulation.py:114-116`). A draw from a pool with exclusive affixes can therefore hold fewer than `min(count, len(pool))` copies.
  - The model proves `|b| <= count` in general (`Simulation.SelectKeys`).
  - It proves `|b| == min(count, len(pool))` for pools without exclusive affixes (`Simulation.SelectSizeWithoutExclusive`).
- **Equal bases.** `step_make_base` (`poe_recomb_sim/simulation.py:44-49`) returns a dictionary display with one entry of 0.5 per base. When the two bases are the same item, the display keeps a single entry of 0.5 (see Findings).

## Model

| member | source | states |
|---|---|---|
| Model.FromSeq | poe_recomb_sim/model.py:27-31 | building a bag from a list keeps one copy per occurrence: sizes agree, each count is the number of occurrences, and only listed affixes are present (no stored zero counts) |
| Model.SizeIsCountSum | poe_recomb_sim/model.py:54-55 | `len(bag)`, the sum of the stored counts, is the number of copies, whichever affix is summed first |
| Model.Equal | poe_recomb_sim/model.py:57-60 | two bags are equal exactly when every affix has the same count in both |
| Model.EqualIffSameOccurrences | poe_recomb_sim/model.py:57-60 | bags built from two lists are equal if and only if every affix occurs equally often in the two lists |
| Model.ConcatOrder | tests/model_test.py:45-59 | listing the same affixes in another order gives an equal bag |
| Model.Union | poe_recomb_sim/model.py:36-38 | union adds counts, so its size is the sum of the sizes |
| Model.Difference | poe_recomb_sim/model.py:41-43 | difference subtracts counts and stops at zero; the result is a sub-bag of the left operand |
| Model.UnionDifference | poe_recomb_sim/model.py:36-43 | `(a + b) - b == a` |
| Model.DifferenceSelf | poe_recomb_sim/model.py:41-43 | `a - a` is the empty bag |
| Model.Filter | poe_recomb_sim/model.py:33-34 | `filter(p)` keeps exactly the copies satisfying `p` with their counts, and gives a sub-bag |
| Model.FilterBag | poe_recomb_sim/model.py:33-34 | the loop that visits the bag one copy at a time, as its iterator does, builds exactly `Filter(m, p)` |
| Model.FilterSize | poe_recomb_sim/model.py:33-34 | filtering never increases the size |
| Model.FilterSplit | poe_recomb_sim/model.py:33-34 | the part that satisfies `p` and the part that does not make up the bag, sizes included |
| Model.HasExclusive | poe_recomb_sim/model.py:46-47 | `has_exclusive` holds exactly when the bag's exclusive part is not empty |
| Model.FilterNotExclusive | poe_recomb_sim/simulation.py:115-116 | after `filter(not exclusive)` no exclusive affix is left and every other affix keeps its count |
| Model.HasExclusiveCount | poe_recomb_sim/model.py:46-47 | a bag has an exclusive affix exactly when its number of exclusive copies is positive |
| Model.ExclusiveCountAdd | poe_recomb_sim/simulation.py:119 | adding a copy adds one exclusive copy exactly when that copy is exclusive |
| Model.ExclusiveCountSub | poe_recomb_sim/simulation.py:114-116 | a sub-bag has no more exclusive copies than the bag |
| Model.DesiredPlusExtra | poe_recomb_sim/model.py:66-67 | the desired count plus the extra count is the bag's size |
| Model.NatToString | poe_recomb_sim/model.py:68 | the decimal form of a count is a non-empty string of digits without a leading zero |
| Model.NatToStringRoundTrip | poe_recomb_sim/model.py:68 | reading the decimal form back gives the count |
| Model.AffixString | poe_recomb_sim/model.py:65-70 | the summary is the desired count and `desired_id`, followed by the extra count and `extra_id` only when some copy is not desired; with no extra copy it is the bag's size and `desired_id` |
| Model.AffixStringTwoDesired | tests/model_test.py:8-16 | two desired copies and one other give "2D1e", and "2s1asd" with the identifiers `s` and `asd` |
| Model.AffixStringTwoExtra | tests/model_test.py:8-16 | one desired copy and two others give "1D2e" |
| Model.AffixStringEmpty | tests/model_test.py:8-16 | the empty bag gives "0D" |
| Model.SummaryOf | poe_recomb_sim/model.py:65-70 | with single-digit counts the summary is the desired digit and identifier, then the extra digit and identifier only when the extra count is not zero |
| Model.PrefixSuffixString | poe_recomb_sim/model.py:110-111 | the string is the prefix summary (identifiers `p`, `e`), one slash, and the suffix summary (identifiers `s`, `e`); the slash is the only one, so the two parts can be read back |
| Model.NoSlash | poe_recomb_sim/model.py:65-70 | a summary built with slash-free identifiers holds no slash |
| Model.PrefixSuffixStringExample | tests/model_test.py:30-37 | two desired prefixes and one other with three desired suffixes give "2p1e/3s" |
| Model.NewItem | poe_recomb_sim/model.py:123-127 | building an item succeeds exactly when both bags fit their limits; it fails with "too many prefixes" exactly when the prefixes do not fit (checked first), and otherwise with "too many suffixes"; a built item keeps every field and is legal |
| Model.ItemHasExclusive | poe_recomb_sim/model.py:129-130 | an item has an exclusive affix exactly when the union of its two bags does |
| Model.ReplacePrefixes | poe_recomb_sim/model.py:138-139 | replacing the prefixes succeeds exactly when the new prefixes fit; the result differs from the item only in its prefixes; a refusal is "too many prefixes" |
| Model.ReplaceSuffixes | poe_recomb_sim/model.py:141-142 | replacing the suffixes succeeds exactly when the new suffixes fit; the result differs from the item only in its suffixes; a refusal is "too many suffixes" |
| Simulation.ChanceTable | poe_recomb_sim/simulation.py:7-16 | the table has a row of four chances in [0, 1] for every pool size 0 to 6; rows 3 and 4 sum to 1.01, the others to 1 |
| Simulation.Row | poe_recomb_sim/simulation.py:73 | indexing the table by a pool size below 7 gives a row of four chances |
| Simulation.CalcIlvl | poe_recomb_sim/simulation.py:40-41 | the level is `min((a + b) div 2 + 2, max(a, b))` and lies between the two levels |
| Simulation.HalfFloor | poe_recomb_sim/simulation.py:41 | flooring the real mean plus two is integer division by two plus two |
| Simulation.CalcIlvlExamples | poe_recomb_sim/simulation.py:40-41 | levels 84 and 86 give 86; 10 and 15 give 14; 60 and 50 give 57 |
| Simulation.StepMakeBaseAsWritten | poe_recomb_sim/simulation.py:44-49 | the dictionary display as written: its keys are the two bases and every value is one half |
| Simulation.StepMakeBaseAsWrittenLosesMass | poe_recomb_sim/simulation.py:46-49 | two items with the same base name and limits give a distribution of total mass one half |
| Simulation.StepMakeBase | poe_recomb_sim/simulation.py:44-49 | the bases carry total mass one; two different bases get one half each, two equal bases get one together; each base has the new level, the source item's name and limits, no affixes, and is legal |
| Simulation.Remainder | poe_recomb_sim/simulation.py:114-116 | after drawing `a`, the rest is the pool less one copy of `a`; when `a` is exclusive, it has no exclusive affix left and every non-exclusive affix keeps its count in the pool less `a` |
| Simulation.Prepend | poe_recomb_sim/simulation.py:119 | adding the drawn copy to a later draw is injective, so no two draws merge |
| Simulation.MakeAffixSelections | poe_recomb_sim/simulation.py:101-121 | the method returns exactly the draw distribution `Select(count, pool)` |
| Simulation.SingleDraws | poe_recomb_sim/simulation.py:105-109 | the one-draw loop adds `1 / len(pool)` to `{a}` for every copy `a`, which is exactly the one-draw part of `Select` |
| Simulation.FirstDraws | poe_recomb_sim/simulation.py:112-121 | the multi-draw loop (remainder, recursive draw, `{a} + b` with chance divided by `len(pool)`) computes exactly the sum over the pool's copies of their branches |
| Simulation.SelectMass | poe_recomb_sim/simulation.py:101-121 | the chances of all draws add up to one, for every count and pool (the empty pool and zero count included) |
| Simulation.SelectKeys | poe_recomb_sim/simulation.py:112-121 | every draw is a sub-bag of the pool with at most `count` copies and at most one exclusive copy |
| Simulation.SelectSizeWithoutExclusive | poe_recomb_sim/simulation.py:112-121 | from a pool without exclusive affixes every draw has exactly `min(count, len(pool))` copies |
| Simulation.SelectSingle | poe_recomb_sim/simulation.py:105-109 | one draw gives `{x}` the chance `copies of x / len(pool)` |
| Simulation.SelectWhole | tests/simulation_test.py:7-16 | drawing at least as many copies as a pool without exclusive affixes holds gives the whole pool with chance one (the empty pool gives the empty bag) |
| Simulation.DrawTwoOfThree | tests/simulation_test.py:18-32 | two draws from `{d, e, e}` (neither exclusive) give `{d, e}` with 2/3 and `{e, e}` with 1/3, and nothing else |
| Simulation.DrawTwoOfThreeDistinct | tests/simulation_test.py:34-52 | two draws from three different affixes, at most one of them exclusive, give each of the three pairs chance 1/3, and nothing else |
| Simulation.SelectChances | poe_recomb_sim/simulation.py:101-121 | every draw `make_affix_selections` returns has a chance in (0, 1] |
| Simulation.SecondPool | poe_recomb_sim/simulation.py:91-93 | the second side draws from its whole pool; when the first draw holds an exclusive affix, it draws from a sub-bag of that pool with no exclusive affix in which every non-exclusive affix keeps its count |
| Simulation.SelectFirst | poe_recomb_sim/simulation.py:72-81 | the first loop gives exactly the draws of every count, each weighted by the row for the first pool's size |
| Simulation.AddPairs | poe_recomb_sim/simulation.py:90-96 | one round of the second loop adds, for every first-side draw, the second side's draws paired with it and weighted by `first_chance * count_chance` |
| Simulation.SelectAffixes | poe_recomb_sim/simulation.py:70-98 | the method returns exactly the joint distribution `JointSelect(first, second)` |
| Simulation.FirstMass | poe_recomb_sim/simulation.py:72-81 | the first side's selections after `n` rounds carry the sum of the first `n` chances of the row |
| Simulation.SecondMass | poe_recomb_sim/simulation.py:84-96 | the pairs after `n` rounds carry the sum of the first `n` chances of the second row times the first side's total |
| Simulation.JointMass | poe_recomb_sim/simulation.py:70-98 | the pairs' chances add up to the product of the two rows' sums, which is 1 when neither side has 3 or 4 affixes |
| Simulation.JointTermGet | poe_recomb_sim/simulation.py:90-96 | one round of the second loop gives the pair `(fa, s)` exactly `first_chance * count_chance * affix_chance`, where `affix_chance` is the chance of drawing `s` from the pool left after `fa` |
| Simulation.JointChances | poe_recomb_sim/simulation.py:70-98 | every pair `select_affixes` returns has a positive chance, at most the product of the two rows' sums, and at most 1 when neither side has 3 or 4 affixes |
| SimulationTests.SelectOneOfTwo | poe_recomb_sim/simulation.py:105-109 | one draw from two different affixes gives each alone chance 1/2, and nothing else |
| SimulationTests.SelectBothOfTwo | poe_recomb_sim/simulation.py:112-121 | two draws from two different affixes, the first not exclusive, give the pair with chance 1, whichever copy comes first |
| SimulationTests.FirstOfTwo | poe_recomb_sim/simulation.py:72-81 | the first loop on a plain affix `p` and an exclusive affix `x` gives `{p}` and `{x}` 0.67 * 0.5 each and the pair 0.33, and nothing else |
| SimulationTests.SelectAffixesExample | tests/simulation_test.py:60-116 | `select_affixes` on two sides that each hold a plain affix and an exclusive affix gives exactly the five pairs of the test with exactly its chances (0.33, 0.67 * 0.5 * 0.67 * 0.5 twice, 0.67 * 0.5 * 0.33, 0.67 * 0.5), and nothing else |
| Simulation.FirstKeys | poe_recomb_sim/simulation.py:72-81 | every first-side selection is a sub-bag of the first pool with at most three copies and at most one exclusive |
| Simulation.SecondKeys | poe_recomb_sim/simulation.py:84-96 | every pair joins a first-side selection with a draw from the pool that selection leaves |
| Simulation.JointKeys | poe_recomb_sim/simulation.py:85-96 | every pair takes at most three copies from each side, and the two draws together hold at most one exclusive affix |
| Simulation.Build | poe_recomb_sim/simulation.py:58-64 | the item of a pair keeps the base's name, level and limits; the suffix-first pair is swapped back to (prefixes, suffixes); no two pairs give the same item |
| Simulation.MakeItem | poe_recomb_sim/simulation.py:58-64 | building the item of a pair succeeds exactly when both sides fit the base's limits, and then gives the legal item of `Build` |
| Simulation.AddItems | poe_recomb_sim/simulation.py:57-59 | the loop succeeds exactly when every pair gives a legal item, and then adds one half of each pair's chance to its item; otherwise it returns the refusal of some pair |
| Simulation.StepMakeAffixes | poe_recomb_sim/simulation.py:52-67 | the result is `Outcomes` exactly when both orders give only legal items; otherwise it is the refusal of a pair of one of the two orders |
| Simulation.OutcomesMass | poe_recomb_sim/simulation.py:52-67 | the items' chances add up to the product of the two rows' sums, which is 1 when neither side has 3 or 4 affixes |
| Simulation.OutcomeChances | poe_recomb_sim/simulation.py:52-67 | every item `step_make_affixes` returns has a positive chance, at most the product of the two rows' sums, and at most 1 when neither side has 3 or 4 affixes |
| Simulation.DefaultLimitsFit | poe_recomb_sim/model.py:120-121 | with limits of at least three prefixes and three suffixes (the defaults), no item is refused |
| Simulation.OutcomeItems | poe_recomb_sim/simulation.py:52-67 | every resulting item keeps the base's name, level and limits, takes at most three of the prefixes and three of the suffixes, and holds at most one exclusive affix |
| Distributions.AddAt | poe_recomb_sim/simulation.py:59 | `d[k] += v` on a defaultdict raises `k` by `v` and leaves every other key as it was |
| Distributions.AddMapped | poe_recomb_sim/simulation.py:118-120 | adding every outcome of `d`, renamed and scaled, into `acc` one outcome at a time gives the pointwise sum of `acc` and the renamed distribution |

## Left out

- `simulate_recombinator_outcomes` (`poe_recomb_sim/simulation.py:19-37`) and `poe_recomb_sim/__main__.py` are left out. They only print results and enter data.
- `__repr__`, `__str__`, `__format__`, `__hash__` and `Item.__str__` are left out. They only format for display, and Dafny's value equality takes the place of hashing.
- Chances are exact reals, not floating-point numbers. The program's `chance / len(affixes)` is modelled as a multiplication by `1 / len(affixes)`, which is equal on exact reals. The `count_chance == 0.0` skip is a skip on exactly zero.
- The `PrefixBag`/`SuffixBag` and `Prefix`/`Suffix` classes are left out. Prefixes and suffixes live in separate fields of an item, so they are never compared. With them go the `isinstance` checks of `__eq__`, `__add__` and `__sub__`, and their `NotImplemented` path.
- The `Counter` branch of `AffixBag.__init__` is left out. The program uses it only to wrap the results of `+` and `-`, which are the multiset operators here.
- `Item`'s default field values are left out. `Model.NewItem` takes every field explicitly.
- `AFFIX_CHANCES` has no row for a pool of more than six affixes, and Python raises `IndexError` there. The members that index the table therefore require pools of at most six affixes.
- Model.ReplacePrefixes: requires the item to be legal. Every `Item` the program holds has passed `__post_init__`.
- Model.ReplaceSuffixes: requires the item to be legal, for the same reason.
- Simulation.AddItems: when several pairs are refused, it returns the refusal of some refused pair. That need not be the first one in Python's dictionary order, because Dafny maps are unordered.
- Simulation.StepMakeAffixes: the same holds for which refusal is returned.

## Findings

| source | as written | input that shows it | evidently intended | confidence | as-written member | corrected member |
|---|---|---|---|---|---|---|
| poe_recomb_sim/simulation.py:44-49 | the two bases are the keys of one dictionary display, each with value 0.5; equal bases collapse into one key holding 0.5 | two items with the same base name and slot limits (levels 84 and 86), for which both bases are `Item("A", 86)` | the two halves accumulate, so an equal base gets chance 1 and the total is always 1 | not executed | Simulation.StepMakeBaseAsWritten (with Simulation.StepMakeBaseAsWrittenLosesMass) | Simulation.StepMakeBase |
