/**
 The affix bag algebra of `poe_recomb_sim/model.py`. An affix is a value
 record; an affix bag is a multiset of affixes (a `Counter` holding only
 positive counts); an item is a base with a prefix bag and a suffix bag whose
 sizes are checked against slot limits when it is built.
 */
module Model {
  import opened Wrappers

  /** A modifier; two affixes are the same when all three fields agree. */
  datatype Affix = Affix(name: string, desired: bool, exclusive: bool)

  /** An affix bag: every affix with its (positive) number of copies. */
  type Bag = multiset<Affix>

  /** How many times `a` occurs in `s`. */
  function Occurrences(s: seq<Affix>, a: Affix): (n: nat)
    ensures n <= |s|
    ensures n > 0 <==> a in s
  {
    if s == [] then 0
    else (if s[0] == a then 1 else 0) + Occurrences(s[1..], a)
  }

  /** `AffixBag(affixes)` for a list: one copy per occurrence, nothing else. */
  function FromSeq(s: seq<Affix>): (r: Bag)
    ensures |r| == |s|
    ensures forall a :: r[a] == Occurrences(s, a)
    ensures forall a :: a in r <==> a in s
  {
    FromSeqCounts(s);
    multiset(s)
  }

  lemma {:induction false} FromSeqCounts(s: seq<Affix>)
    ensures forall a :: multiset(s)[a] == Occurrences(s, a)
  {
    if s != [] {
      FromSeqCounts(s[1..]);
      assert s == [s[0]] + s[1..];
    }
  }

  /** The sum of the stored counts, one distinct affix at a time. */
  ghost function CountSum(m: Bag): nat
    decreases |m|
  {
    if m == multiset{} then 0
    else var a :| a in m; m[a] + CountSum(m[a := 0])
  }

  /** `len(bag)` is the sum of the counts, whichever affix is summed first. */
  lemma {:induction false} SizeIsCountSum(m: Bag)
    ensures |m| == CountSum(m)
    decreases |m|
  {
    if m != multiset{} {
      var a :| a in m && CountSum(m) == m[a] + CountSum(m[a := 0]);
      var rest := m[a := 0];
      assert m == rest + multiset{}[a := m[a]];
      assert |multiset{}[a := m[a]]| == m[a] by { CopiesSize(a, m[a]); }
      SizeIsCountSum(rest);
    }
  }

  lemma {:induction false} CopiesSize(a: Affix, n: nat)
    ensures |multiset{}[a := n]| == n
  {
    if n > 0 {
      CopiesSize(a, n - 1);
      assert multiset{}[a := n] == multiset{}[a := n - 1] + multiset{a};
    }
  }

  /** `bag1 == bag2`: the same count for every affix, whatever the order of construction. */
  function Equal(a: Bag, b: Bag): (r: bool)
    ensures r <==> forall x :: a[x] == b[x]
  {
    a == b
  }

  /** Two lists give equal bags exactly when every affix occurs equally often in both. */
  lemma EqualIffSameOccurrences(s1: seq<Affix>, s2: seq<Affix>)
    ensures Equal(FromSeq(s1), FromSeq(s2)) ==> forall a :: Occurrences(s1, a) == Occurrences(s2, a)
    ensures (forall a :: Occurrences(s1, a) == Occurrences(s2, a)) ==> Equal(FromSeq(s1), FromSeq(s2))
  {
    var b1, b2 := FromSeq(s1), FromSeq(s2);
    if forall a :: Occurrences(s1, a) == Occurrences(s2, a) {
      assert forall a :: b1[a] == b2[a];
    }
  }

  /** Listing the same affixes in another order gives an equal bag. */
  lemma ConcatOrder(s1: seq<Affix>, s2: seq<Affix>)
    ensures Equal(FromSeq(s1 + s2), FromSeq(s2 + s1))
  {
  }

  /** `bag1 + bag2`: counts add. */
  function Union(a: Bag, b: Bag): (r: Bag)
    ensures |r| == |a| + |b|
    ensures forall x :: r[x] == a[x] + b[x]
  {
    a + b
  }

  /** `bag1 - bag2`: counts subtract and stop at zero. */
  function Difference(a: Bag, b: Bag): (r: Bag)
    ensures forall x :: r[x] == if a[x] <= b[x] then 0 else a[x] - b[x]
    ensures r <= a
  {
    a - b
  }

  /** `(a + b) - b == a` */
  lemma UnionDifference(a: Bag, b: Bag)
    ensures Difference(Union(a, b), b) == a
  {
    assert forall x :: Difference(Union(a, b), b)[x] == a[x];
  }

  /** `a - a` is empty. */
  lemma DifferenceSelf(a: Bag)
    ensures Difference(a, a) == multiset{}
  {
    assert forall x :: Difference(a, a)[x] == 0;
  }

  /** `bag.filter(p)`: the affixes satisfying `p`, each with its count. */
  ghost function Filter(m: Bag, p: Affix -> bool): (r: Bag)
    ensures forall x :: r[x] == if p(x) then m[x] else 0
    ensures r <= m
    decreases |m|
  {
    if m == multiset{} then multiset{}
    else
      var a :| a in m;
      var rest := Filter(m - multiset{a}, p);
      if p(a) then rest + multiset{a} else rest
  }

  /** `bag.filter(p)`, visiting the bag one copy at a time as its iterator does. */
  method FilterBag(m: Bag, p: Affix -> bool) returns (r: Bag)
    ensures r == Filter(m, p)
  {
    r := multiset{};
    var rest := m;
    while rest != multiset{}
      invariant rest <= m
      invariant forall x :: r[x] == if p(x) then (m - rest)[x] else 0
      decreases |rest|
    {
      var a :| a in rest;
      if p(a) {
        r := r + multiset{a};
      }
      rest := rest - multiset{a};
    }
    assert forall x :: r[x] == Filter(m, p)[x];
  }

  /** Filtering keeps no more than the bag had. */
  lemma FilterSize(m: Bag, p: Affix -> bool)
    ensures |Filter(m, p)| <= |m|
  {
    var r := Filter(m, p);
    assert m == r + (m - r);
  }

  /** A bag is the sum of the part that satisfies `p` and the part that does not. */
  lemma FilterSplit(m: Bag, p: Affix -> bool, q: Affix -> bool)
    requires forall x :: q(x) == !p(x)
    ensures Filter(m, p) + Filter(m, q) == m
    ensures |Filter(m, p)| + |Filter(m, q)| == |m|
  {
    assert forall x :: (Filter(m, p) + Filter(m, q))[x] == m[x];
  }

  function IsExclusive(a: Affix): bool { a.exclusive }

  function NotExclusive(a: Affix): bool { !a.exclusive }

  function IsDesired(a: Affix): bool { a.desired }

  function NotDesired(a: Affix): bool { !a.desired }

  /** `bag.has_exclusive()`: some copy in the bag is exclusive. */
  function HasExclusive(m: Bag): (r: bool)
    ensures r <==> Filter(m, IsExclusive) != multiset{}
  {
    var f := Filter(m, IsExclusive);
    assert (exists a | a in m :: a.exclusive) ==> f != multiset{} by {
      if a :| a in m && a.exclusive {
        assert f[a] > 0;
      }
    }
    assert f != multiset{} ==> exists a | a in m :: a.exclusive by {
      if f != multiset{} {
        var a :| a in f;
      }
    }
    exists a | a in m :: a.exclusive
  }

  /** After `filter(not exclusive)` no exclusive affix is left, and every other affix is kept. */
  lemma FilterNotExclusive(m: Bag)
    ensures !HasExclusive(Filter(m, NotExclusive))
    ensures forall a: Affix :: !a.exclusive ==> Filter(m, NotExclusive)[a] == m[a]
  {
    assert Filter(Filter(m, NotExclusive), IsExclusive) == multiset{} by {
      assert forall x :: Filter(Filter(m, NotExclusive), IsExclusive)[x] == 0;
    }
  }

  /** The number of exclusive copies. */
  ghost function ExclusiveCount(m: Bag): nat
  {
    |Filter(m, IsExclusive)|
  }

  /** A bag has an exclusive affix exactly when it has a positive number of exclusive copies. */
  lemma HasExclusiveCount(m: Bag)
    ensures HasExclusive(m) <==> ExclusiveCount(m) > 0
  {
  }

  /** Adding a copy of `a` adds one exclusive copy when `a` is exclusive, none otherwise. */
  lemma ExclusiveCountAdd(a: Affix, m: Bag)
    ensures ExclusiveCount(multiset{a} + m) == ExclusiveCount(m) + if a.exclusive then 1 else 0
  {
    if a.exclusive {
      FilterAddKept(a, m, IsExclusive);
    } else {
      FilterAddDropped(a, m, IsExclusive);
    }
  }

  /** Adding a copy the filter keeps adds it to the filtered bag. */
  lemma FilterAddKept(a: Affix, m: Bag, p: Affix -> bool)
    requires p(a)
    ensures Filter(multiset{a} + m, p) == Filter(m, p) + multiset{a}
  {
    var l, r := Filter(multiset{a} + m, p), Filter(m, p);
    forall x ensures l[x] == (r + multiset{a})[x] {
      if x == a {
        assert l[x] == m[x] + 1;
      }
    }
  }

  /** Adding a copy the filter drops leaves the filtered bag as it was. */
  lemma FilterAddDropped(a: Affix, m: Bag, p: Affix -> bool)
    requires !p(a)
    ensures Filter(multiset{a} + m, p) == Filter(m, p)
  {
    var l, r := Filter(multiset{a} + m, p), Filter(m, p);
    assert forall x :: l[x] == r[x];
  }

  /** A sub-bag has no more exclusive copies than the bag. */
  lemma ExclusiveCountSub(m: Bag, n: Bag)
    requires m <= n
    ensures ExclusiveCount(m) <= ExclusiveCount(n)
  {
    var fm, fn := Filter(m, IsExclusive), Filter(n, IsExclusive);
    assert fm <= fn;
    assert fn == fm + (fn - fm);
  }

  /** The number of desired copies. */
  ghost function DesiredCount(m: Bag): nat
  {
    |Filter(m, IsDesired)|
  }

  /** The number of copies that are not desired. */
  ghost function ExtraCount(m: Bag): nat
  {
    |Filter(m, NotDesired)|
  }

  /** Desired and extra affixes together are the whole bag. */
  lemma DesiredPlusExtra(m: Bag)
    ensures DesiredCount(m) + ExtraCount(m) == |m|
  {
    FilterSplit(m, IsDesired, NotDesired);
  }

  function DigitChar(d: nat): char
    requires d < 10
  {
    "0123456789"[d]
  }

  function DigitValue(c: char): nat
  {
    if '0' <= c <= '9' then (c - '0') as nat else 0
  }

  predicate IsDigit(c: char)
  {
    '0' <= c <= '9'
  }

  /** Python's `str(n)` for a non-negative integer: decimal, no leading zero. */
  function NatToString(n: nat): (s: string)
    ensures |s| >= 1
    ensures forall i :: 0 <= i < |s| ==> IsDigit(s[i])
    ensures |s| > 1 ==> s[0] != '0'
  {
    if n < 10 then [DigitChar(n)] else NatToString(n / 10) + [DigitChar(n % 10)]
  }

  /** The number a string of decimal digits denotes. */
  function DecimalValue(s: string): nat
  {
    if s == [] then 0 else 10 * DecimalValue(s[..|s| - 1]) + DigitValue(s[|s| - 1])
  }

  /** Reading the decimal string back gives the number. */
  lemma {:induction false} NatToStringRoundTrip(n: nat)
    ensures DecimalValue(NatToString(n)) == n
  {
    var s := NatToString(n);
    if n < 10 {
      DigitRoundTrip(n);
      assert s[..|s| - 1] == [];
    } else {
      var prefix := NatToString(n / 10);
      NatToStringRoundTrip(n / 10);
      DigitRoundTrip(n % 10);
      assert s == prefix + [DigitChar(n % 10)];
      assert s[..|s| - 1] == prefix;
    }
  }

  /** A digit character reads back as its digit. */
  lemma DigitRoundTrip(d: nat)
    requires d < 10
    ensures DigitValue(DigitChar(d)) == d
  {
  }

  /**
   `bag.affix_string(desired_id, extra_id)`: the desired count and
   `desired_id`, then the extra count and `extra_id` only when some affix is
   not desired.
   */
  ghost function AffixString(m: Bag, desiredId: string, extraId: string): (r: string)
    ensures ExtraCount(m) == 0 ==> r == NatToString(|m|) + desiredId
    ensures ExtraCount(m) != 0 ==>
      r == NatToString(DesiredCount(m)) + desiredId + NatToString(ExtraCount(m)) + extraId
  {
    DesiredPlusExtra(m);
    var desired := NatToString(DesiredCount(m)) + desiredId;
    var extra := if ExtraCount(m) != 0 then NatToString(ExtraCount(m)) + extraId else "";
    desired + extra
  }

  /** `make_prefix_suffix_string`: the prefix summary, a slash, the suffix summary. */
  ghost function PrefixSuffixString(prefixes: Bag, suffixes: Bag): (r: string)
    ensures var k := |AffixString(prefixes, "p", "e")|;
      k < |r| && r[k] == '/' && '/' !in r[..k] && '/' !in r[k + 1..]
      && r[..k] == AffixString(prefixes, "p", "e") && r[k + 1..] == AffixString(suffixes, "s", "e")
  {
    var p, s := AffixString(prefixes, "p", "e"), AffixString(suffixes, "s", "e");
    NoSlash(prefixes, "p", "e");
    NoSlash(suffixes, "s", "e");
    var r := p + "/" + s;
    assert r[..|p|] == p && r[|p| + 1..] == s;
    r
  }

  /** A summary with slash-free identifiers holds no slash. */
  lemma NoSlash(m: Bag, desiredId: string, extraId: string)
    requires '/' !in desiredId && '/' !in extraId
    ensures '/' !in AffixString(m, desiredId, extraId)
  {
    var d, e := NatToString(DesiredCount(m)), NatToString(ExtraCount(m));
    assert '/' !in d by { assert forall i :: 0 <= i < |d| ==> IsDigit(d[i]); }
    assert '/' !in e by { assert forall i :: 0 <= i < |e| ==> IsDigit(e[i]); }
    DesiredPlusExtra(m);
  }

  /** Two desired copies and one other make "2D1e", or "2s1asd" with other identifiers. */
  lemma AffixStringTwoDesired(d: Affix, e: Affix)
    requires d.desired && !e.desired
    ensures AffixString(multiset{d, d, e}, "D", "e") == "2D1e"
    ensures AffixString(multiset{d, d, e}, "s", "asd") == "2s1asd"
  {
    SameBag(multiset{d, d, e}, multiset{}[d := 2][e := 1]);
    CountsOf(d, e, 2, 1);
    SummaryOf(multiset{d, d, e}, 2, 1, "D", "e");
    SummaryOf(multiset{d, d, e}, 2, 1, "s", "asd");
  }

  /** One desired copy and two others make "1D2e". */
  lemma AffixStringTwoExtra(d: Affix, e: Affix)
    requires d.desired && !e.desired
    ensures AffixString(multiset{e, d, e}, "D", "e") == "1D2e"
  {
    SameBag(multiset{e, d, e}, multiset{}[d := 1][e := 2]);
    CountsOf(d, e, 1, 2);
    SummaryOf(multiset{e, d, e}, 1, 2, "D", "e");
  }

  /** The empty bag makes "0D": the extra part is left out when nothing is extra. */
  lemma AffixStringEmpty()
    ensures AffixString(multiset{}, "D", "e") == "0D"
  {
    assert NatToString(0) == "0";
  }

  /** Two desired prefixes and one other with three desired suffixes make "2p1e/3s". */
  lemma PrefixSuffixStringExample(d: Affix, e: Affix)
    requires d.desired && !e.desired
    ensures PrefixSuffixString(multiset{d, d, e}, multiset{d, d, d}) == "2p1e/3s"
  {
    assert "2p1e" + "/" + "3s" == "2p1e/3s";
    PrefixSummaryExample(d, e);
    SuffixSummaryExample(d, e);
    PrefixSuffixStringJoin(multiset{d, d, e}, multiset{d, d, d});
  }

  /** Two desired prefixes and one other make "2p1e". */
  lemma PrefixSummaryExample(d: Affix, e: Affix)
    requires d.desired && !e.desired
    ensures AffixString(multiset{d, d, e}, "p", "e") == "2p1e"
  {
    SameBag(multiset{d, d, e}, multiset{}[d := 2][e := 1]);
    CountsOf(d, e, 2, 1);
    SummaryOf(multiset{d, d, e}, 2, 1, "p", "e");
  }

  /** Three desired suffixes make "3s". */
  lemma SuffixSummaryExample(d: Affix, e: Affix)
    requires d.desired && !e.desired
    ensures AffixString(multiset{d, d, d}, "s", "e") == "3s"
  {
    SameBag(multiset{d, d, d}, multiset{}[d := 3][e := 0]);
    CountsOf(d, e, 3, 0);
    SummaryOf(multiset{d, d, d}, 3, 0, "s", "e");
  }

  /** The prefix summary and the suffix summary joined by a slash. */
  lemma PrefixSuffixStringJoin(prefixes: Bag, suffixes: Bag)
    ensures PrefixSuffixString(prefixes, suffixes) == AffixString(prefixes, "p", "e") + "/" + AffixString(suffixes, "s", "e")
  {
  }

  /** The summary of a bag with `i` desired and `j` extra copies, for single-digit counts. */
  lemma SummaryOf(m: Bag, i: nat, j: nat, desiredId: string, extraId: string)
    requires i < 10 && j < 10 && DesiredCount(m) == i && ExtraCount(m) == j
    ensures AffixString(m, desiredId, extraId)
         == [DigitChar(i)] + desiredId + (if j == 0 then "" else [DigitChar(j)] + extraId)
  {
    DesiredPlusExtra(m);
  }

  /** Names an equality of bags for later steps. */
  lemma SameBag(m: Bag, n: Bag)
    requires forall x :: m[x] == n[x]
    ensures m == n
  {
  }

  /** `i` copies of a desired affix and `j` of an extra one count as `i` desired and `j` extra. */
  lemma CountsOf(d: Affix, e: Affix, i: nat, j: nat)
    requires d.desired && !e.desired
    ensures var m := multiset{}[d := i][e := j];
      DesiredCount(m) == i && ExtraCount(m) == j
  {
    var m := multiset{}[d := i][e := j];
    assert Filter(m, IsDesired) == multiset{}[d := i];
    assert Filter(m, NotDesired) == multiset{}[e := j];
    CopiesSize(d, i);
    CopiesSize(e, j);
  }

  /** A crafted item: a base, its item level, its affixes and its slot limits. */
  datatype Item = Item(baseName: string, ilvl: int, prefixes: Bag, suffixes: Bag,
                       prefixLimit: int, suffixLimit: int)

  /** Why building an item was refused (the two `ValueError`s of `__post_init__`). */
  datatype ItemError = TooManyPrefixes | TooManySuffixes

  /** The affixes fit in the slots. */
  predicate Legal(it: Item)
  {
    |it.prefixes| <= it.prefixLimit && |it.suffixes| <= it.suffixLimit
  }

  /** `Item(...)`: refused when a bag exceeds its limit, prefixes checked first. */
  function NewItem(baseName: string, ilvl: int, prefixes: Bag, suffixes: Bag,
                   prefixLimit: int, suffixLimit: int): (r: Result<Item, ItemError>)
    ensures r.Ok? <==> |prefixes| <= prefixLimit && |suffixes| <= suffixLimit
    ensures r == Err(TooManyPrefixes) <==> |prefixes| > prefixLimit
    ensures r == Err(TooManySuffixes) <==> |prefixes| <= prefixLimit && |suffixes| > suffixLimit
    ensures r.Ok? ==> Legal(r.value)
    ensures r.Ok? ==> r.value.baseName == baseName && r.value.ilvl == ilvl
    ensures r.Ok? ==> r.value.prefixes == prefixes && r.value.suffixes == suffixes
    ensures r.Ok? ==> r.value.prefixLimit == prefixLimit && r.value.suffixLimit == suffixLimit
  {
    if |prefixes| > prefixLimit then Err(TooManyPrefixes)
    else if |suffixes| > suffixLimit then Err(TooManySuffixes)
    else Ok(Item(baseName, ilvl, prefixes, suffixes, prefixLimit, suffixLimit))
  }

  /** `item.has_exclusive()`: an exclusive affix on either side. */
  function ItemHasExclusive(it: Item): (r: bool)
    ensures r <==> HasExclusive(Union(it.prefixes, it.suffixes))
  {
    assert forall a :: a in Union(it.prefixes, it.suffixes) <==> a in it.prefixes || a in it.suffixes;
    HasExclusive(it.prefixes) || HasExclusive(it.suffixes)
  }

  /** `item.replace_prefixes(new)`: the same item with only its prefixes replaced. */
  function ReplacePrefixes(it: Item, newPrefixes: Bag): (r: Result<Item, ItemError>)
    requires Legal(it)
    ensures r.Ok? <==> |newPrefixes| <= it.prefixLimit
    ensures r.Err? ==> r.error == TooManyPrefixes
    ensures r.Ok? ==> r.value == it.(prefixes := newPrefixes)
  {
    NewItem(it.baseName, it.ilvl, newPrefixes, it.suffixes, it.prefixLimit, it.suffixLimit)
  }

  /** `item.replace_suffixes(new)`: the same item with only its suffixes replaced. */
  function ReplaceSuffixes(it: Item, newSuffixes: Bag): (r: Result<Item, ItemError>)
    requires Legal(it)
    ensures r.Ok? <==> |newSuffixes| <= it.suffixLimit
    ensures r.Err? ==> r.error == TooManySuffixes
    ensures r.Ok? ==> r.value == it.(suffixes := newSuffixes)
  {
    NewItem(it.baseName, it.ilvl, it.prefixes, newSuffixes, it.prefixLimit, it.suffixLimit)
  }
}
