/** The pairing engine: man-made and natural images are split into four
    pools by name prefix, each crossing is a pair of independent samples
    without replacement zipped together, and the pairs are numbered from 1
    in the order they are saved to `pairs.csv`. */
module Pairing {
  import opened Optional
  import opened Text
  import opened Rng

  const AMan: string := "a_man_"
  const BMan: string := "b_man_"
  const ANat: string := "a_nat_"
  const BNat: string := "b_nat_"

  /** `randint(0, 999999999)` draws below this bound. */
  const SeedBound: nat := 1000000000

  datatype Pools = Pools(aMan: seq<string>, bMan: seq<string>, aNat: seq<string>, bNat: seq<string>)

  /** One pairing: a man-made image and a natural one. */
  datatype Pair = Pair(man: string, natural: string)

  /** One row of `pairs.csv`. */
  datatype SuperRow = SuperRow(superNumber: nat, man: string, natural: string)

  /** The pairs a crossing drew and the position of the generator after it. */
  datatype Drawn = Drawn(pairs: seq<Pair>, next: nat)

  /** Both crossings of one run: a_man with b_nat, then b_man with a_nat. */
  datatype Crossed = Crossed(ab: seq<Pair>, ba: seq<Pair>, next: nat)

  datatype Outcome = NoFolder | NoAManOrBNat | NoBManOrANat | NoPools | Done

  /** The `.jpg` files of the folder (extension in any case) split by the
      case-sensitive prefixes. */
  function PoolsOf(listing: seq<string>): (p: Pools)
    ensures forall f :: f in p.aMan <==> f in listing && IsJpgIgnoreCase(f) && StartsWith(f, AMan)
    ensures forall f :: f in p.bMan <==> f in listing && IsJpgIgnoreCase(f) && StartsWith(f, BMan)
    ensures forall f :: f in p.aNat <==> f in listing && IsJpgIgnoreCase(f) && StartsWith(f, ANat)
    ensures forall f :: f in p.bNat <==> f in listing && IsJpgIgnoreCase(f) && StartsWith(f, BNat)
    ensures Distinct(listing) ==>
      Distinct(p.aMan) && Distinct(p.bMan) && Distinct(p.aNat) && Distinct(p.bNat)
    ensures Subsequence(p.aMan, listing) && Subsequence(p.bMan, listing)
    ensures Subsequence(p.aNat, listing) && Subsequence(p.bNat, listing)
  {
    var jpgs := JpgNames(listing);
    SubsequenceTrans(WithPrefix(jpgs, AMan), jpgs, listing);
    SubsequenceTrans(WithPrefix(jpgs, BMan), jpgs, listing);
    SubsequenceTrans(WithPrefix(jpgs, ANat), jpgs, listing);
    SubsequenceTrans(WithPrefix(jpgs, BNat), jpgs, listing);
    Pools(WithPrefix(jpgs, AMan), WithPrefix(jpgs, BMan), WithPrefix(jpgs, ANat), WithPrefix(jpgs, BNat))
  }

  /** A name carries at most one of the four prefixes. */
  lemma PrefixesExclusive(f: string)
    ensures !(StartsWith(f, AMan) && StartsWith(f, BMan))
    ensures !(StartsWith(f, AMan) && StartsWith(f, ANat))
    ensures !(StartsWith(f, AMan) && StartsWith(f, BNat))
    ensures !(StartsWith(f, BMan) && StartsWith(f, ANat))
    ensures !(StartsWith(f, BMan) && StartsWith(f, BNat))
    ensures !(StartsWith(f, ANat) && StartsWith(f, BNat))
  {
    if StartsWith(f, AMan) { assert f[0] == 'a' && f[2] == 'm'; }
    if StartsWith(f, BMan) { assert f[0] == 'b' && f[2] == 'm'; }
    if StartsWith(f, ANat) { assert f[0] == 'a' && f[2] == 'n'; }
    if StartsWith(f, BNat) { assert f[0] == 'b' && f[2] == 'n'; }
  }

  /** The pools are pairwise disjoint, so no image is paired with itself
      and no image serves in both crossings. */
  lemma PoolsDisjoint(listing: seq<string>, f: string)
    ensures var p := PoolsOf(listing);
      (if f in p.aMan then 1 else 0) + (if f in p.bMan then 1 else 0) +
      (if f in p.aNat then 1 else 0) + (if f in p.bNat then 1 else 0) <= 1
  {
    PrefixesExclusive(f);
  }

  /** The checks `generate_pairs` makes before seeding, in their order. */
  function GenerateCheck(folder: Option<string>, p: Pools): (r: Outcome)
    ensures r == NoFolder <==> folder.None?
    ensures r == NoAManOrBNat <==> folder.Some? && (p.aMan == [] || p.bNat == [])
    ensures r == NoBManOrANat <==>
      folder.Some? && p.aMan != [] && p.bNat != [] && (p.bMan == [] || p.aNat == [])
    ensures r == Done <==>
      folder.Some? && p.aMan != [] && p.bNat != [] && p.bMan != [] && p.aNat != []
  {
    if folder.None? then NoFolder
    else if |p.aMan| == 0 || |p.bNat| == 0 then NoAManOrBNat
    else if |p.bMan| == 0 || |p.aNat| == 0 then NoBManOrANat
    else Done
  }

  function Min(a: nat, b: nat): nat {
    if a <= b then a else b
  }

  function Zip(xs: seq<string>, ys: seq<string>): (r: seq<Pair>)
    requires |xs| == |ys|
    ensures |r| == |xs|
  {
    seq(|xs|, k requires 0 <= k < |xs| => Pair(xs[k], ys[k]))
  }

  function Mans(ps: seq<Pair>): seq<string> {
    seq(|ps|, k requires 0 <= k < |ps| => ps[k].man)
  }

  function Naturals(ps: seq<Pair>): seq<string> {
    seq(|ps|, k requires 0 <= k < |ps| => ps[k].natural)
  }

  /** Zipping loses nothing: each column of the pairs is the list it came from. */
  lemma ZipColumns(xs: seq<string>, ys: seq<string>)
    requires |xs| == |ys|
    ensures Mans(Zip(xs, ys)) == xs && Naturals(Zip(xs, ys)) == ys
  {
    assert forall k :: 0 <= k < |xs| ==> Mans(Zip(xs, ys))[k] == xs[k];
    assert forall k :: 0 <= k < |xs| ==> Naturals(Zip(xs, ys))[k] == ys[k];
  }

  /** `_random_pairs(list1, list2)` with the generator at draw `t`: a sample
      of `min` names from each list, the first sample drawn first. */
  function RandomPairs(l1: seq<string>, l2: seq<string>, o: Oracle, seed: int, t: nat): Drawn {
    var n := Min(|l1|, |l2|);
    var s1 := Sample(l1, n, o, seed, t);
    var s2 := Sample(l2, n, o, seed, t + n);
    Drawn(Zip(s1, s2), t + 2 * n)
  }

  /** A crossing has as many pairs as the shorter list; within it the men
      are distinct names of `l1` and the naturals distinct names of `l2`;
      with lists of equal length each name of each list is used exactly
      once; and it takes two draws per pair. */
  lemma RandomPairsSpec(l1: seq<string>, l2: seq<string>, o: Oracle, seed: int, t: nat)
    requires Distinct(l1) && Distinct(l2)
    ensures var d := RandomPairs(l1, l2, o, seed, t);
      && |d.pairs| == Min(|l1|, |l2|)
      && d.next == t + 2 * |d.pairs|
      && Distinct(Mans(d.pairs)) && (forall x :: x in Mans(d.pairs) ==> x in l1)
      && Distinct(Naturals(d.pairs)) && (forall x :: x in Naturals(d.pairs) ==> x in l2)
      && (|l1| == |l2| ==>
            multiset(Mans(d.pairs)) == multiset(l1) && multiset(Naturals(d.pairs)) == multiset(l2))
  {
    var n := Min(|l1|, |l2|);
    var s1, s2 := Sample(l1, n, o, seed, t), Sample(l2, n, o, seed, t + n);
    var d := RandomPairs(l1, l2, o, seed, t);
    assert d.pairs == Zip(s1, s2);
    ZipColumns(s1, s2);
    SampledColumn(l1, n, o, seed, t);
    SampledColumn(l2, n, o, seed, t + n);
    assert Mans(d.pairs) == s1 && Naturals(d.pairs) == s2;
  }

  /** One column of a crossing: distinct names of its list, and all of them
      when the sample is as long as the list. */
  lemma SampledColumn(l: seq<string>, n: nat, o: Oracle, seed: int, t: nat)
    requires Distinct(l) && n <= |l|
    ensures var s := Sample(l, n, o, seed, t);
      && Distinct(s) && (forall x :: x in s ==> x in l)
      && (n == |l| ==> multiset(s) == multiset(l))
  {
    SampleSpec(l, n, o, seed, t);
    SubMultisetDistinct(Sample(l, n, o, seed, t), l);
  }

  /** Both crossings of a run seeded with `seed`. */
  function Crossings(p: Pools, o: Oracle, seed: int): Crossed {
    var first := RandomPairs(p.aMan, p.bNat, o, seed, 0);
    var second := RandomPairs(p.bMan, p.aNat, o, seed, first.next);
    Crossed(first.pairs, second.pairs, second.next)
  }

  /** Over both crossings of a run no man-made name and no natural name is
      used twice, each crossing draws from its own two pools, and the run
      takes two draws per pair. */
  lemma CrossingsSpec(listing: seq<string>, o: Oracle, seed: int)
    requires Distinct(listing)
    ensures var p := PoolsOf(listing);
      var c := Crossings(p, o, seed);
      && |c.ab| == Min(|p.aMan|, |p.bNat|) && |c.ba| == Min(|p.bMan|, |p.aNat|)
      && (forall x :: x in Mans(c.ab) ==> x in p.aMan)
      && (forall x :: x in Naturals(c.ab) ==> x in p.bNat)
      && (forall x :: x in Mans(c.ba) ==> x in p.bMan)
      && (forall x :: x in Naturals(c.ba) ==> x in p.aNat)
      && Distinct(Mans(c.ab) + Mans(c.ba))
      && Distinct(Naturals(c.ab) + Naturals(c.ba))
      && c.next == 2 * (|c.ab| + |c.ba|)
  {
    var p := PoolsOf(listing);
    var first := RandomPairs(p.aMan, p.bNat, o, seed, 0);
    RandomPairsSpec(p.aMan, p.bNat, o, seed, 0);
    RandomPairsSpec(p.bMan, p.aNat, o, seed, first.next);
    var c := Crossings(p, o, seed);
    forall x | x in Mans(c.ab) ensures x !in Mans(c.ba) {
      PrefixesExclusive(x);
    }
    forall x | x in Naturals(c.ab) ensures x !in Naturals(c.ba) {
      PrefixesExclusive(x);
    }
    DistinctAppend(Mans(c.ab), Mans(c.ba));
    DistinctAppend(Naturals(c.ab), Naturals(c.ba));
  }

  /** `pairs.insert(0, "super_number", range(1, len(pairs) + 1))`. */
  function Numbered(ps: seq<Pair>): seq<SuperRow> {
    seq(|ps|, k requires 0 <= k < |ps| => SuperRow(k + 1, ps[k].man, ps[k].natural))
  }

  /** The saved table lists every first-crossing pair, then every
      second-crossing pair, numbered consecutively from 1. */
  lemma NumberedSpec(ab: seq<Pair>, ba: seq<Pair>)
    ensures var r := Numbered(ab + ba);
      && |r| == |ab| + |ba|
      && (forall k :: 0 <= k < |ab| ==> r[k] == SuperRow(k + 1, ab[k].man, ab[k].natural))
      && (forall k :: 0 <= k < |ba| ==>
            r[|ab| + k] == SuperRow(|ab| + k + 1, ba[k].man, ba[k].natural))
  {
  }

  /** The pairing window: the selected folder, the pools stored by the last
      generate, the two current crossings, Python's global generator (its
      seed and how many draws were taken since), the list on screen and the
      saved `pairs.csv`. */
  class Pairs {
    const o: Oracle
    var folderPath: Option<string>
    var pools: Option<Pools>
    var pairsAB: seq<Pair>
    var pairsBA: seq<Pair>
    var rngSeed: int
    var rngPos: nat
    var shown: seq<SuperRow>
    var pairsCsv: Option<seq<SuperRow>>

    /** `__init__`: the default folder when it exists, no pairs yet, and
        the generator seeded from outside. */
    constructor (defaultFolder: Option<string>, generator: Oracle, entropy: int)
      ensures o == generator && folderPath == defaultFolder && pools == None
      ensures pairsAB == [] && pairsBA == [] && shown == [] && pairsCsv == None
      ensures rngSeed == entropy && rngPos == 0
    {
      o := generator;
      folderPath := defaultFolder;
      pools := None;
      pairsAB, pairsBA := [], [];
      rngSeed, rngPos := entropy, 0;
      shown, pairsCsv := [], None;
    }

    /** `generate_pairs`. The pools are stored before they are checked, so
        a run that stops on an empty pool still replaces them. */
    method GeneratePairs(listing: seq<string>, seed: nat) returns (outcome: Outcome)
      modifies this
      ensures outcome == GenerateCheck(old(folderPath), PoolsOf(listing))
      ensures folderPath == old(folderPath)
      ensures outcome == NoFolder ==> unchanged(this)
      ensures outcome != NoFolder ==> pools == Some(PoolsOf(listing))
      ensures outcome != Done ==>
        pairsAB == old(pairsAB) && pairsBA == old(pairsBA) && rngSeed == old(rngSeed) &&
        rngPos == old(rngPos) && shown == old(shown) && pairsCsv == old(pairsCsv)
      ensures outcome == Done ==>
        var c := Crossings(PoolsOf(listing), o, seed);
        && pairsAB == c.ab && pairsBA == c.ba
        && rngSeed == seed && rngPos == c.next
        && shown == Numbered(c.ab + c.ba) && pairsCsv == Some(shown)
    {
      outcome := GenerateCheck(folderPath, PoolsOf(listing));
      if outcome == NoFolder {
        return;
      }
      pools := Some(PoolsOf(listing));
      if outcome != Done {
        return;
      }
      Draw(pools.value, seed);
      ShowPairs();
      SavePairs();
    }

    /** `rerandomise_pairs`: a fresh seed is drawn from the generator and
        the stored pools are paired again. Without stored pools the source
        raises once the generator has been reseeded. */
    method RerandomisePairs() returns (outcome: Outcome)
      modifies this
      ensures folderPath == old(folderPath) && pools == old(pools)
      ensures outcome == NoFolder <==> old(folderPath).None?
      ensures outcome == NoFolder ==> unchanged(this)
      ensures outcome != NoFolder ==>
        rngSeed == Below(o, old(rngSeed), old(rngPos), SeedBound) && rngSeed < SeedBound
      ensures outcome == NoPools <==> old(folderPath).Some? && old(pools).None?
      ensures outcome == NoPools ==>
        rngPos == 0 && pairsAB == old(pairsAB) && pairsBA == old(pairsBA) &&
        shown == old(shown) && pairsCsv == old(pairsCsv)
      ensures outcome == Done <==> old(folderPath).Some? && old(pools).Some?
      ensures outcome == Done ==>
        var c := Crossings(old(pools).value, o, rngSeed);
        && pairsAB == c.ab && pairsBA == c.ba && rngPos == c.next
        && shown == Numbered(c.ab + c.ba) && pairsCsv == Some(shown)
    {
      if folderPath.None? {
        return NoFolder;
      }
      var randomSeed := Below(o, rngSeed, rngPos, SeedBound);
      rngSeed, rngPos := randomSeed, 0;
      if pools.None? {
        return NoPools;
      }
      Draw(pools.value, randomSeed);
      ShowPairs();
      SavePairs();
      outcome := Done;
    }

    /** `random.seed(seed)` followed by the two `_random_pairs` calls. */
    method Draw(p: Pools, seed: int)
      modifies this`pairsAB, this`pairsBA, this`rngSeed, this`rngPos
      ensures var c := Crossings(p, o, seed);
        pairsAB == c.ab && pairsBA == c.ba && rngSeed == seed && rngPos == c.next
    {
      rngSeed, rngPos := seed, 0;
      var first := RandomPairs(p.aMan, p.bNat, o, rngSeed, rngPos);
      pairsAB, rngPos := first.pairs, first.next;
      var second := RandomPairs(p.bMan, p.aNat, o, rngSeed, rngPos);
      pairsBA, rngPos := second.pairs, second.next;
    }

    /** `show_pairs`: one line per pair, first crossing first, with a
        counter starting at 1. */
    method ShowPairs()
      modifies this`shown
      ensures shown == Numbered(pairsAB + pairsBA)
    {
      shown := [];
      var superNumber := 1;
      for i := 0 to |pairsAB|
        invariant shown == Numbered(pairsAB[..i])
        invariant superNumber == i + 1
      {
        shown := shown + [SuperRow(superNumber, pairsAB[i].man, pairsAB[i].natural)];
        superNumber := superNumber + 1;
      }
      assert pairsAB[..|pairsAB|] == (pairsAB + pairsBA)[..|pairsAB|];
      for j := 0 to |pairsBA|
        invariant shown == Numbered((pairsAB + pairsBA)[..|pairsAB| + j])
        invariant superNumber == |pairsAB| + j + 1
      {
        assert (pairsAB + pairsBA)[|pairsAB| + j] == pairsBA[j];
        shown := shown + [SuperRow(superNumber, pairsBA[j].man, pairsBA[j].natural)];
        superNumber := superNumber + 1;
      }
      assert (pairsAB + pairsBA)[..|pairsAB| + |pairsBA|] == pairsAB + pairsBA;
    }

    /** `save_pairs`: the concatenated crossings with their super numbers. */
    method SavePairs()
      modifies this`pairsCsv
      ensures pairsCsv == Some(Numbered(pairsAB + pairsBA))
    {
      pairsCsv := Some(Numbered(pairsAB + pairsBA));
    }
  }
}
