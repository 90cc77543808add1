/** The pairwise comparison engine: two aggregation methods (solver, rule,
    lambda) are run over every profile of a sample, their winner lists are
    compared, and the comparison is summed over the run. */
module CompareRules {
  import opened Wrappers
  import opened Dicts
  import opened Utils
  import opened BfSolver
  import Classes

  // ---------------------------------------------------------------------
  // construct_profile

  /** A profile index: `0` (draw a random profile) or a combination with
      replacement of indices into in_consistent. */
  datatype Index = Simulated | Tuple(t: seq<nat>)

  /** `list(index).count(i)`. */
  function CountOf(index: seq<nat>, i: nat): nat {
    multiset(index)[i]
  }

  /** The indices i < n that occur in `index`, in increasing order. */
  function Occurring(index: seq<nat>, n: nat): (ps: seq<nat>)
    ensures forall k :: 0 <= k < |ps| ==> ps[k] < n && CountOf(index, ps[k]) > 0
    ensures StrictlyIncreasing(ps)
  {
    if n == 0 then []
    else Occurring(index, n - 1) + (if CountOf(index, n - 1) > 0 then [n - 1] else [])
  }

  /** Every index below n that occurs is listed. */
  lemma {:induction false} OccurringComplete(index: seq<nat>, n: nat)
    ensures forall i :: 0 <= i < n && CountOf(index, i) > 0 ==> i in Occurring(index, n)
  {
    if n > 0 {
      OccurringComplete(index, n - 1);
    }
  }

  /** The profile of an index: for every judgment of in_consistent that
      occurs in it, in in_consistent order, its accepted formulas with their
      number of occurrences. */
  function Tally(ins: seq<JDict>, index: seq<nat>, n: nat): Profile
    requires n <= |ins|
  {
    if n == 0 then []
    else
      Tally(ins, index, n - 1)
        + (if CountOf(index, n - 1) > 0 then [ProfileEntry(CountOf(index, n - 1), Accepted(ins[n - 1]))] else [])
  }

  /** Entry k of the tally belongs to the k-th occurring index: its count
      and its judgment's accepted formulas. */
  lemma {:induction false} TallyLayout(ins: seq<JDict>, index: seq<nat>, n: nat)
    requires n <= |ins|
    ensures |Tally(ins, index, n)| == |Occurring(index, n)|
    ensures forall k :: 0 <= k < |Tally(ins, index, n)| ==>
              Tally(ins, index, n)[k]
              == ProfileEntry(CountOf(index, Occurring(index, n)[k]), Accepted(ins[Occurring(index, n)[k]]))
  {
    if n > 0 {
      TallyLayout(ins, index, n - 1);
      var p, ps := Tally(ins, index, n - 1), Occurring(index, n - 1);
      var t, os := Tally(ins, index, n), Occurring(index, n);
      if CountOf(index, n - 1) > 0 {
        assert t == p + [ProfileEntry(CountOf(index, n - 1), Accepted(ins[n - 1]))];
        assert os == ps + [n - 1];
        forall k | 0 <= k < |t|
          ensures t[k] == ProfileEntry(CountOf(index, os[k]), Accepted(ins[os[k]]))
        {
          if k < |p| {
            assert t[k] == p[k] && os[k] == ps[k];
          }
        }
      } else {
        assert t == p && os == ps;
      }
    }
  }

  /** The number of entries of `index` below n, counted value by value. */
  function CountBelow(index: seq<nat>, n: nat): nat {
    if n == 0 then 0 else CountBelow(index, n - 1) + CountOf(index, n - 1)
  }

  lemma {:induction false} TallyVoters(ins: seq<JDict>, index: seq<nat>, n: nat)
    requires n <= |ins|
    ensures Voters(Tally(ins, index, n)) == CountBelow(index, n)
  {
    if n > 0 {
      TallyVoters(ins, index, n - 1);
      var p := Tally(ins, index, n - 1);
      var c := CountOf(index, n - 1);
      if c > 0 {
        var e := ProfileEntry(c, Accepted(ins[n - 1]));
        assert Tally(ins, index, n) == p + [e];
        assert (p + [e])[..|p|] == p;
      } else {
        assert Tally(ins, index, n) == p;
      }
    }
  }

  lemma {:induction false} CountBelowAppend(index: seq<nat>, x: nat, n: nat)
    ensures CountBelow(index + [x], n) == CountBelow(index, n) + (if x < n then 1 else 0)
  {
    if n > 0 {
      CountBelowAppend(index, x, n - 1);
      assert multiset(index + [x]) == multiset(index) + multiset{x};
    }
  }

  lemma {:induction false} CountBelowAll(index: seq<nat>, n: nat)
    requires forall k :: 0 <= k < |index| ==> index[k] < n
    ensures CountBelow(index, n) == |index|
  {
    if index == [] {
      CountBelowEmpty(n);
    } else {
      var init := index[..|index| - 1];
      CountBelowAll(init, n);
      CountBelowAppend(init, index[|index| - 1], n);
      assert init + [index[|index| - 1]] == index;
    }
  }

  lemma {:induction false} CountBelowEmpty(n: nat)
    ensures CountBelow([], n) == 0
  {
    if n > 0 {
      CountBelowEmpty(n - 1);
    }
  }

  /** A profile built from `v` indices into in_consistent has v voters: the
      counts of a combination of number_voters indices, or of number_voters
      random draws, sum to number_voters. */
  lemma TallyWeight(ins: seq<JDict>, index: seq<nat>)
    requires forall k :: 0 <= k < |index| ==> index[k] < |ins|
    ensures Voters(Tally(ins, index, |ins|)) == |index|
  {
    TallyVoters(ins, index, |ins|);
    CountBelowAll(index, |ins|);
  }

  /** The indices an iteration tallies: its combination, or the random
      draws `randrange(len(in_consistent))` gave for it. */
  function Drawn(index: Index, draws: seq<nat>): seq<nat> {
    if index.Simulated? then draws else index.t
  }

  method ConstructProfile(ins: seq<JDict>, numberVoters: nat, index: Index, draws: seq<nat>)
    returns (profile: Profile)
    requires index.Simulated? ==> |draws| == numberVoters
    ensures profile == Tally(ins, Drawn(index, draws), |ins|)
  {
    profile := [];
    var picks: seq<nat>;
    if index.Simulated? {
      var profilePermutation: seq<nat> := [];
      for judge := 0 to numberVoters
        invariant profilePermutation == draws[..judge]
      {
        profilePermutation := profilePermutation + [draws[judge]];
      }
      assert draws[..numberVoters] == draws;
      picks := profilePermutation;
    } else {
      picks := index.t;
    }
    for i := 0 to |ins|
      invariant profile == Tally(ins, picks, i)
    {
      var numOccur := multiset(picks)[i];
      if numOccur > 0 {
        var js := JdictToJs(ins[i]);
        profile := profile + [ProfileEntry(numOccur, js)];
      }
    }
  }

  // ---------------------------------------------------------------------
  // quantitative_analysis

  /** Python's `==` on two dicts: the same keys with the same values,
      whatever the insertion order. */
  predicate SameDict(a: JDict, b: JDict) {
    && (forall k :: 0 <= k < |a| ==> a[k].0 in Keys(b) && Get(b, a[k].0) == a[k].1)
    && (forall k :: 0 <= k < |b| ==> b[k].0 in Keys(a))
  }

  /** Two dicts with the same key order are equal as dicts exactly when
      they are the same sequence. */
  lemma SameDictInOrder(a: JDict, b: JDict)
    requires IsDict(a) && Keys(a) == Keys(b)
    ensures SameDict(a, b) <==> a == b
  {
    assert |a| == |Keys(a)| == |Keys(b)| == |b|;
    forall k | 0 <= k < |a| ensures a[k].0 == b[k].0 {
      assert Keys(a)[k] == Keys(b)[k];
    }
    if SameDict(a, b) {
      forall k | 0 <= k < |a| ensures a[k] == b[k] {
        GetAt(b, k);
      }
    }
    if a == b {
      forall k | 0 <= k < |a| ensures a[k].0 in Keys(b) && Get(b, a[k].0) == a[k].1 {
        GetAt(a, k);
      }
      forall k | 0 <= k < |b| ensures b[k].0 in Keys(a) {
        GetAt(a, k);
      }
    }
  }

  /** The positions j with `x == os[j]`, counted. */
  function Matches(x: JDict, os: seq<JDict>): nat {
    if os == [] then 0
    else Matches(x, os[..|os| - 1]) + (if SameDict(x, os[|os| - 1]) then 1 else 0)
  }

  /** The number of pairs (out1, out2) with `out1 == out2`. */
  function EqualPairs(os1: seq<JDict>, os2: seq<JDict>): nat {
    if os1 == [] then 0
    else EqualPairs(os1[..|os1| - 1], os2) + Matches(os1[|os1| - 1], os2)
  }

  /** What quantitative_analysis returns: only `sol1` for a single method. */
  datatype Quan =
    | SolOnly(sol1: nat)
    | Full(sol1: nat, sol2: nat, overlap: nat, overlapSame: nat, overlapDif: nat, prof1Same: nat, profSame: nat)

  /** The comparison of two winner lists: their sizes, the equal pairs, and
      whether the lists are the same (sizes equal to the overlap). */
  function QuanOf(singleMethod: bool, os1: seq<JDict>, os2: seq<JDict>): (q: Quan)
    ensures singleMethod <==> q.SolOnly?
    ensures q.sol1 == |os1|
    ensures q.Full? ==> && q.sol2 == |os2| && q.overlap == EqualPairs(os1, os2)
                        && q.prof1Same <= 1 && q.profSame <= 1
                        && (q.prof1Same == 1 <==> q.overlap > 0)
                        && (q.profSame == 1 <==> |os1| == |os2| == q.overlap)
                        && q.overlapSame + q.overlapDif == q.overlap
                        && (q.profSame == 1 ==> q.overlapDif == 0)
                        && (q.profSame == 0 ==> q.overlapSame == 0)
  {
    if singleMethod then SolOnly(|os1|)
    else
      var overlap := EqualPairs(os1, os2);
      var prof1Same := if overlap > 0 then 1 else 0;
      if |os1| == |os2| == overlap then Full(|os1|, |os2|, overlap, overlap, 0, prof1Same, 1)
      else Full(|os1|, |os2|, overlap, 0, overlap, prof1Same, 0)
  }

  lemma {:induction false} MatchesPositive(x: JDict, os: seq<JDict>)
    ensures Matches(x, os) > 0 <==> exists j :: 0 <= j < |os| && SameDict(x, os[j])
  {
    if os != [] {
      var init := os[..|os| - 1];
      MatchesPositive(x, init);
      if Matches(x, init) > 0 {
        var j :| 0 <= j < |init| && SameDict(x, init[j]);
        assert os[j] == init[j];
      }
      forall j | 0 <= j < |os| - 1 ensures os[j] == init[j] { }
    }
  }

  /** Some winner of the first method is also a winner of the second exactly
      when the overlap is positive. */
  lemma {:induction false} EqualPairsPositive(os1: seq<JDict>, os2: seq<JDict>)
    ensures EqualPairs(os1, os2) > 0 <==>
              exists i, j :: 0 <= i < |os1| && 0 <= j < |os2| && SameDict(os1[i], os2[j])
  {
    if os1 != [] {
      var init, last := os1[..|os1| - 1], os1[|os1| - 1];
      EqualPairsPositive(init, os2);
      MatchesPositive(last, os2);
      if EqualPairs(init, os2) > 0 {
        var i, j :| 0 <= i < |init| && 0 <= j < |os2| && SameDict(init[i], os2[j]);
        assert os1[i] == init[i];
      }
      if Matches(last, os2) > 0 {
        var j :| 0 <= j < |os2| && SameDict(last, os2[j]);
        assert SameDict(os1[|os1| - 1], os2[j]);
      }
      forall i, j | 0 <= i < |os1| - 1 && 0 <= j < |os2| && SameDict(os1[i], os2[j])
        ensures EqualPairs(init, os2) > 0
      {
        assert init[i] == os1[i];
      }
    }
  }

  method QuantitativeAnalysis(singleMethod: bool, outcomes1: seq<JDict>, outcomes2: seq<JDict>)
    returns (quan: Quan)
    ensures quan == QuanOf(singleMethod, outcomes1, outcomes2)
  {
    if singleMethod {
      return SolOnly(|outcomes1|);
    }
    var overlap, prof1Same := 0, 0;
    for i := 0 to |outcomes1|
      invariant overlap == EqualPairs(outcomes1[..i], outcomes2)
      invariant prof1Same == if overlap > 0 then 1 else 0
    {
      assert outcomes1[..i + 1][..i] == outcomes1[..i];
      var row := 0;
      for j := 0 to |outcomes2|
        invariant row == Matches(outcomes1[i], outcomes2[..j])
        invariant prof1Same == if overlap + row > 0 then 1 else 0
      {
        assert outcomes2[..j + 1][..j] == outcomes2[..j];
        if SameDict(outcomes1[i], outcomes2[j]) {
          row := row + 1;
          prof1Same := 1;
        }
      }
      assert outcomes2[..|outcomes2|] == outcomes2;
      overlap := overlap + row;
    }
    assert outcomes1[..|outcomes1|] == outcomes1;
    if |outcomes1| == |outcomes2| == overlap {
      quan := Full(|outcomes1|, |outcomes2|, overlap, overlap, 0, prof1Same, 1);
    } else {
      quan := Full(|outcomes1|, |outcomes2|, overlap, 0, overlap, prof1Same, 0);
    }
  }

  // The winner lists the solvers return hold distinct outcomes that all
  // have the agenda as their key sequence; for such lists prof_same = 1
  // means that both methods chose the same outcomes.

  predicate KeyedBy(keys: seq<Formula>, os: seq<JDict>) {
    forall i :: 0 <= i < |os| ==> IsDict(os[i]) && Keys(os[i]) == keys
  }

  lemma {:induction false} MatchesOfDistinct(keys: seq<Formula>, x: JDict, os: seq<JDict>)
    requires KeyedBy(keys, os + [x]) && Distinct(os)
    ensures Matches(x, os) == if x in os then 1 else 0
  {
    if os != [] {
      var init, last := os[..|os| - 1], os[|os| - 1];
      assert init + [x] == (os + [x])[..|os| - 1] + [x];
      assert KeyedBy(keys, init + [x]) by {
        forall i | 0 <= i < |init + [x]| ensures IsDict((init + [x])[i]) && Keys((init + [x])[i]) == keys {
          if i < |init| {
            assert (init + [x])[i] == (os + [x])[i];
          }
        }
      }
      MatchesOfDistinct(keys, x, init);
      assert (os + [x])[|os| - 1] == last && (os + [x])[|os|] == x;
      SameDictInOrder(x, last);
      DistinctPrefixExcludes(os, |os| - 1);
      assert os == init + [last];
    }
  }

  /** With distinct winners in a common key order, EqualPairs counts the
      winners of the first list that the second list also has. */
  lemma {:induction false} EqualPairsBound(keys: seq<Formula>, os1: seq<JDict>, os2: seq<JDict>)
    requires KeyedBy(keys, os1) && KeyedBy(keys, os2) && Distinct(os2)
    ensures EqualPairs(os1, os2) <= |os1|
    ensures EqualPairs(os1, os2) == |os1| <==> forall i :: 0 <= i < |os1| ==> os1[i] in os2
  {
    if os1 != [] {
      var init, last := os1[..|os1| - 1], os1[|os1| - 1];
      assert KeyedBy(keys, init) by {
        forall i | 0 <= i < |init| ensures IsDict(init[i]) && Keys(init[i]) == keys {
          assert init[i] == os1[i];
        }
      }
      EqualPairsBound(keys, init, os2);
      assert KeyedBy(keys, os2 + [last]);
      MatchesOfDistinct(keys, last, os2);
      forall i | 0 <= i < |init| ensures init[i] == os1[i] { }
    }
  }

  lemma {:induction false} MatchesAppend(x: JDict, os: seq<JDict>, y: JDict)
    ensures Matches(x, os + [y]) == Matches(x, os) + (if SameDict(x, y) then 1 else 0)
  {
    assert (os + [y])[..|os|] == os;
  }

  lemma SameDictSymmetric(a: JDict, b: JDict)
    requires IsDict(a) && IsDict(b) && SameDict(a, b)
    ensures SameDict(b, a)
  {
    forall k | 0 <= k < |b| ensures b[k].0 in Keys(a) && Get(a, b[k].0) == b[k].1 {
      var i := IndexOf(Keys(a), b[k].0);
      assert a[i].0 == b[k].0;
      GetAt(b, k);
      GetAt(a, i);
    }
    forall k | 0 <= k < |a| ensures a[k].0 in Keys(b) {
    }
  }

  lemma {:induction false} EqualPairsAppendRight(keys: seq<Formula>, os1: seq<JDict>, os2: seq<JDict>, y: JDict)
    requires KeyedBy(keys, os1) && IsDict(y)
    ensures EqualPairs(os1, os2 + [y]) == EqualPairs(os1, os2) + Matches(y, os1)
  {
    if os1 != [] {
      var init, last := os1[..|os1| - 1], os1[|os1| - 1];
      assert KeyedBy(keys, init) by {
        forall i | 0 <= i < |init| ensures IsDict(init[i]) && Keys(init[i]) == keys {
          assert init[i] == os1[i];
        }
      }
      EqualPairsAppendRight(keys, init, os2, y);
      MatchesAppend(last, os2, y);
      assert SameDict(last, y) <==> SameDict(y, last) by {
        if SameDict(last, y) {
          SameDictSymmetric(last, y);
        }
        if SameDict(y, last) {
          SameDictSymmetric(y, last);
        }
      }
    }
  }

  lemma {:induction false} EqualPairsEmptyRight(os1: seq<JDict>)
    ensures EqualPairs(os1, []) == 0
  {
    if os1 != [] {
      EqualPairsEmptyRight(os1[..|os1| - 1]);
    }
  }

  /** Counting equal pairs row by row or column by column gives the same. */
  lemma {:induction false} EqualPairsSwap(keys: seq<Formula>, os1: seq<JDict>, os2: seq<JDict>)
    requires KeyedBy(keys, os1) && KeyedBy(keys, os2)
    ensures EqualPairs(os1, os2) == EqualPairs(os2, os1)
  {
    if os2 == [] {
      EqualPairsEmptyRight(os1);
    } else {
      var init, last := os2[..|os2| - 1], os2[|os2| - 1];
      assert KeyedBy(keys, init) by {
        forall i | 0 <= i < |init| ensures IsDict(init[i]) && Keys(init[i]) == keys {
          assert init[i] == os2[i];
        }
      }
      EqualPairsSwap(keys, os1, init);
      EqualPairsAppendRight(keys, os1, init, last);
      assert init + [last] == os2;
    }
  }

  /** prof_same = 1 exactly when both methods return the same set of
      winners. */
  lemma ProfSameIffSameWinners(keys: seq<Formula>, os1: seq<JDict>, os2: seq<JDict>)
    requires KeyedBy(keys, os1) && KeyedBy(keys, os2) && Distinct(os1) && Distinct(os2)
    ensures QuanOf(false, os1, os2).profSame == 1 <==> forall x :: x in os1 <==> x in os2
  {
    EqualPairsBound(keys, os1, os2);
    EqualPairsBound(keys, os2, os1);
    EqualPairsSwap(keys, os1, os2);
  }

  // ---------------------------------------------------------------------
  // qualitative_analysis, integer parts

  /** `lows[o] = min(agr_msets[o])`: each winner's lowest agreement. */
  function Lows(vs: seq<seq<real>>): (r: seq<real>)
    requires forall o :: 0 <= o < |vs| ==> vs[o] != []
    ensures |r| == |vs|
    ensures forall o :: 0 <= o < |vs| ==> r[o] in vs[o] && forall i :: 0 <= i < |vs[o]| ==> r[o] <= vs[o][i]
  {
    seq(|vs|, o requires 0 <= o < |vs| => Min(vs[o]))
  }

  /** Line 310 as written: the lowest agreement of the first winner,
      repeated for every winner. */
  function LowsAsWritten(vs: seq<seq<real>>): (r: seq<real>)
    requires forall o :: 0 <= o < |vs| ==> vs[o] != []
    ensures |r| == |vs|
  {
    seq(|vs|, o requires 0 <= o < |vs| => Min(vs[0]))
  }

  /** Two winners whose lowest agreements differ: line 310 reports the
      first one's for both. */
  lemma LowsAsWrittenDiffers()
    ensures LowsAsWritten([[1.0], [2.0]]) == [1.0, 1.0]
    ensures Lows([[1.0], [2.0]]) == [1.0, 2.0]
  {
    assert Min([2.0]) == 2.0;
    assert Min([1.0]) == 1.0;
  }

  /** `greatest_difs[o] = max(agr_msets[o]) - min(agr_msets[o])`: zero
      exactly when every voter agrees equally with winner o. */
  function GreatestDifs(vs: seq<seq<real>>): (r: seq<real>)
    requires forall o :: 0 <= o < |vs| ==> vs[o] != []
    ensures |r| == |vs|
    ensures forall o :: 0 <= o < |vs| ==> r[o] >= 0.0
    ensures forall o :: 0 <= o < |vs| ==>
              (r[o] == 0.0 <==> forall i, j :: 0 <= i < |vs[o]| && 0 <= j < |vs[o]| ==> vs[o][i] == vs[o][j])
    ensures forall o, i, j :: 0 <= o < |vs| && 0 <= i < |vs[o]| && 0 <= j < |vs[o]| ==> vs[o][i] - vs[o][j] <= r[o]
  {
    seq(|vs|, o requires 0 <= o < |vs| => Max(vs[o]) - Min(vs[o]))
  }

  /** The integer measures kept of qualitative_analysis, for one method. */
  datatype Spread = Spread(lows: seq<real>, greatestDifs: seq<real>)

  datatype CompareError =
    | Solver(cause: SolverError)
    | NotOneRule              // the rule returns a list per rule (all_rules)
    | EmptyMean               // mean of an empty agreement vector or winner list
    | MissingProfSame         // single method: the example buffer reads prof_same
    | ZeroDivision            // sym_dif of a run without solutions

  /** The agreement vectors of the winners (utils.agr, with lambda 0), their
      lows and greatest differences.  An empty profile or winner list makes
      the float means before them divide by zero. */
  function Qualitative(agenda: seq<Formula>, profile: Profile, os: seq<JDict>): (r: Result<Spread, CompareError>)
    requires forall o :: 0 <= o < |os| ==> CoversAgenda(agenda, os[o])
    ensures r.Failure? <==> Voters(profile) == 0 || os == []
    ensures r.Success? ==> |r.value.lows| == |os| == |r.value.greatestDifs|
  {
    if Voters(profile) == 0 || os == [] then Failure(EmptyMean)
    else
      var vs := seq(|os|, o requires 0 <= o < |os| => AgreementVector(agenda, profile, os[o], 0.0));
      Success(Spread(Lows(vs), GreatestDifs(vs)))
  }

  /** The second method's measures (lines 296-310) as the source computes
      them: the greatest differences are the first method's formula, but
      `lows2` repeats the first winner's lowest agreement for every winner. */
  function SecondQualitative(agenda: seq<Formula>, profile: Profile, os: seq<JDict>): (r: Result<Spread, CompareError>)
    requires forall o :: 0 <= o < |os| ==> CoversAgenda(agenda, os[o])
    ensures r.Failure? <==> Qualitative(agenda, profile, os).Failure?
    ensures r.Success? ==>
              var q := Qualitative(agenda, profile, os).value;
              && r.value.greatestDifs == q.greatestDifs
              && |r.value.lows| == |os|
              && forall o :: 0 <= o < |os| ==> r.value.lows[o] == q.lows[0]
  {
    if Voters(profile) == 0 || os == [] then Failure(EmptyMean)
    else
      var vs := seq(|os|, o requires 0 <= o < |os| => AgreementVector(agenda, profile, os[o], 0.0));
      Success(Spread(LowsAsWritten(vs), GreatestDifs(vs)))
  }

  // ---------------------------------------------------------------------
  // One profile of result()

  /** What result() reads of the scenario and of its own configuration. */
  datatype Setting = Setting(
    agenda: seq<Formula>, ins: seq<JDict>, outs: seq<JDict>, numberVoters: nat,
    rule1: string, lamb1: real, rule2: string, lamb2: real,
    singleMethod: bool, allEx: bool, numEx: nat)

  /** The feasible outcomes cover the agenda; every key of a judgment is an
      agenda formula. */
  predicate WellFormed(s: Setting) {
    && (forall o :: o in s.outs ==> CoversAgenda(s.agenda, o))
    && (forall o: JDict, k: int :: o in s.outs && 0 <= k < |o| ==> o[k].0 in s.agenda)
    && (forall d: JDict, k: int :: d in s.ins && 0 <= k < |d| ==> d[k].0 in s.agenda)
  }

  function ElectionOf(s: Setting, profile: Profile): Election {
    Election(s.agenda, profile, s.outs, s.numberVoters)
  }

  lemma {:induction false} AcceptedKeys(d: JDict)
    ensures forall f :: f in Accepted(d) ==> f in Keys(d)
  {
    if d != [] {
      AcceptedKeys(d[..|d| - 1]);
      assert Keys(d) == Keys(d[..|d| - 1]) + [d[|d| - 1].0];
    }
  }

  /** The profile of the k-th index (its draws when simulated); it only
      accepts agenda formulas. */
  function ProfileAt(s: Setting, index: Index, draw: (nat, nat) -> nat, k: nat): (p: Profile)
    requires WellFormed(s)
    ensures ProfileWithinAgenda(s.agenda, p)
  {
    var ix := Drawn(index, DrawsAt(draw, k, s.numberVoters));
    var p := Tally(s.ins, ix, |s.ins|);
    TallyLayout(s.ins, ix, |s.ins|);
    assert forall j, f :: 0 <= j < |p| && f in p[j].js ==> f in s.agenda by {
      forall j, f | 0 <= j < |p| && f in p[j].js ensures f in s.agenda {
        var d := s.ins[Occurring(ix, |s.ins|)[j]];
        AcceptedKeys(d);
        var k :| 0 <= k < |d| && Keys(d)[k] == f;
        assert d[k].0 == f;
      }
    }
    p
  }

  /** The outcome list all_outcomes returns for a rule (binrep and idx_rep
      off), or the error it raises; all_rules answers with one list per rule,
      which the comparison cannot use. */
  function RuleOutcomes(e: Election, rule: string, lamb: real): (r: Result<seq<JDict>, CompareError>)
    requires Covers(e)
    requires rule == "kemeny-original" ==> LegacyDefined(e)
    ensures r.Success? ==> forall o :: o in r.value ==> o in e.outConsistent
  {
    match ParseRule(rule)
    case None => Failure(Solver(UnknownRule(rule)))
    case Some(k) =>
      if k in {Maxham, Maxeq, AllRules} && MinUndefined(e) then Failure(Solver(EmptyAgreement))
      else
        var legacy := Pick(e.outConsistent, LegacyFold(LegacyScores(e), |e.outConsistent|).1);
        PickFeasible(e.outConsistent, LegacyFold(LegacyScores(e), |e.outConsistent|).1);
        SolveFeasible(e, k, lamb, legacy);
        match Solve(e, k, lamb, legacy).1
        case OneRule(os) => Success(os)
        case FourRules(_) => Failure(NotOneRule)
  }

  method SolveWith(bfs: BFSolver, e: Election, rule: string, lamb: real) returns (r: Result<seq<JDict>, CompareError>)
    requires !bfs.binrep && !bfs.idxRep
    requires Covers(e)
    requires rule == "kemeny-original" ==> LegacyDefined(e)
    modifies bfs
    ensures r == RuleOutcomes(e, rule, lamb)
  {
    var reply := bfs.AllOutcomes(e, rule, lamb);
    if reply.Failure? {
      return Failure(Solver(reply.error));
    }
    match reply.value.outcomes
    case OneRule(os) => r := Success(os);
    case FourRules(_) => r := Failure(NotOneRule);
  }

  /** The winner lists of both methods for one profile: the second method
      is not run when it is the first. */
  function BothOutcomes(s: Setting, profile: Profile): (r: Result<(seq<JDict>, seq<JDict>), CompareError>)
    requires WellFormed(s) && ProfileWithinAgenda(s.agenda, profile)
    ensures r.Success? ==> forall o :: o in r.value.0 || o in r.value.1 ==> o in s.outs
    ensures r.Success? && s.singleMethod ==> r.value.1 == r.value.0
  {
    var e := ElectionOf(s, profile);
    var o1 :- RuleOutcomes(e, s.rule1, s.lamb1);
    var o2 :- if s.singleMethod then Success(o1) else RuleOutcomes(e, s.rule2, s.lamb2);
    Success((o1, o2))
  }

  /** An example kept for printing. */
  datatype Example = Example(profile: Profile, out1: seq<JDict>, out2: seq<JDict>, same: bool,
                             spread1: Spread, spread2: Spread)

  /** The integer counters of `cum`. */
  datatype Totals = Totals(sol1: nat, sol2: nat, overlap: nat, overlapSame: nat, overlapDif: nat,
                           profSame: nat, prof1Same: nat)

  /** `cum[key] += value` for every key quantitative_analysis returned. */
  function Accumulate(t: Totals, q: Quan): (r: Totals)
    ensures r.sol1 == t.sol1 + q.sol1
    ensures q.SolOnly? ==> r == t.(sol1 := t.sol1 + q.sol1)
    ensures q.Full? ==> r == Totals(t.sol1 + q.sol1, t.sol2 + q.sol2, t.overlap + q.overlap,
                                    t.overlapSame + q.overlapSame, t.overlapDif + q.overlapDif,
                                    t.profSame + q.profSame, t.prof1Same + q.prof1Same)
  {
    match q
    case SolOnly(sol1) => t.(sol1 := t.sol1 + sol1)
    case Full(sol1, sol2, overlap, overlapSame, overlapDif, prof1Same, profSame) =>
      Totals(t.sol1 + sol1, t.sol2 + sol2, t.overlap + overlap, t.overlapSame + overlapSame,
             t.overlapDif + overlapDif, t.profSame + profSame, t.prof1Same + prof1Same)
  }

  /** The state result() carries from one profile to the next:  the
      counters, the example buffer and scenario.profile. */
  datatype RunState = RunState(totals: Totals, examples: seq<Example>, profile: Profile)

  /** The random draws of the k-th profile when it is simulated. */
  function DrawsAt(draw: (nat, nat) -> nat, k: nat, numberVoters: nat): (r: seq<nat>)
    ensures |r| == numberVoters
  {
    seq(numberVoters, j requires 0 <= j => draw(k, j))
  }

  /** One pass of result()'s loop: build the profile, solve it with both
      methods, compare, take the integer qualitative measures, and offer the
      example to the buffer. */
  function Step(s: Setting, st: RunState, profile: Profile): Result<RunState, CompareError>
    requires WellFormed(s) && ProfileWithinAgenda(s.agenda, profile)
  {
    var outs :- BothOutcomes(s, profile);
    var (o1, o2) := outs;
    var sp1 :- Qualitative(s.agenda, profile, o1);
    var sp2 :- if s.singleMethod then Success(sp1) else SecondQualitative(s.agenda, profile, o2);
    Record(s, st, profile, o1, o2, sp1, sp2)
  }

  /** The end of a pass: add the comparison to `cum` and offer the example
      to the buffer. */
  function Record(s: Setting, st: RunState, profile: Profile, o1: seq<JDict>, o2: seq<JDict>,
                  sp1: Spread, sp2: Spread): Result<RunState, CompareError>
  {
    var q := QuanOf(s.singleMethod, o1, o2);
    var totals := Accumulate(st.totals, q);
    if |st.examples| < s.numEx then
      if s.singleMethod then Failure(MissingProfSame)
      else if !s.allEx && q.profSame == 1 then Success(RunState(totals, st.examples, profile))
      else Success(RunState(totals, st.examples + [Example(profile, o1, o2, q.profSame == 1, sp1, sp2)], profile))
    else Success(RunState(totals, st.examples, profile))
  }

  /** After a step the state holds the step's profile. */
  lemma StepProfile(s: Setting, st: RunState, profile: Profile)
    requires WellFormed(s) && ProfileWithinAgenda(s.agenda, profile)
    requires Step(s, st, profile).Success?
    ensures Step(s, st, profile).value.profile == profile
  {
    var outs := BothOutcomes(s, profile).value;
    var sp1 := Qualitative(s.agenda, profile, outs.0).value;
    var sp2 := if s.singleMethod then sp1 else SecondQualitative(s.agenda, profile, outs.1).value;
    assert Step(s, st, profile) == Record(s, st, profile, outs.0, outs.1, sp1, sp2);
  }

  /** scenario.profile once result() is done: print_examples, called when
      num_ex > 0, leaves the last buffered example's profile behind;
      otherwise the last pass's profile stays. */
  function PrintedProfile(numEx: nat, st: RunState): Profile {
    if numEx > 0 && st.examples != [] then st.examples[|st.examples| - 1].profile else st.profile
  }

  /** The loop of result() from the k-th index on. */
  function RunFrom(s: Setting, st: RunState, indices: seq<Index>, draw: (nat, nat) -> nat, k: nat)
    : Result<RunState, CompareError>
    requires WellFormed(s)
    decreases |indices|
  {
    if indices == [] then Success(st)
    else
      var next :- Step(s, st, ProfileAt(s, indices[0], draw, k));
      RunFrom(s, next, indices[1..], draw, k + 1)
  }

  // ---------------------------------------------------------------------
  // Processing the results

  /** `(sol1 + sol2 - 2 overlap) / (sol1 + sol2 - overlap)` from the run
      totals. */
  function SymDif(t: Totals): Result<real, CompareError> {
    var union := t.sol1 + t.sol2 - t.overlap;
    if union == 0 then Failure(ZeroDivision)
    else Success((t.sol1 + t.sol2 - 2 * t.overlap) as real / union as real)
  }

  /** The integer part of result()'s dictionary. */
  datatype Report = Report(totals: Totals, symDif: real, rulesEquiv: bool, examples: seq<Example>)

  function Finalise(st: RunState, profTest: nat): Result<Report, CompareError> {
    var symDif :- SymDif(st.totals);
    Success(Report(st.totals, symDif, st.totals.profSame == profTest, st.examples))
  }

  /** With the overlap bounded by both solution counts the symmetric
      difference is a fraction in [0, 1], zero exactly when both methods
      found the same number of solutions and all of them are shared. */
  lemma SymDifBounds(t: Totals)
    requires t.overlap <= t.sol1 && t.overlap <= t.sol2 && SymDif(t).Success?
    ensures 0.0 <= SymDif(t).value <= 1.0
    ensures SymDif(t).value == 0.0 <==> t.sol1 == t.sol2 == t.overlap
  {
    var u := t.sol1 + t.sol2 - t.overlap;
    var d := t.sol1 + t.sol2 - 2 * t.overlap;
    assert 0 <= d <= u && u > 0;
    var union, dif := u as real, d as real;
    assert SymDif(t).value == dif / union;
    FractionBounds(dif, union);
    assert d == 0 <==> t.sol1 == t.sol2 == t.overlap;
  }

  lemma FractionBounds(x: real, y: real)
    requires 0.0 <= x <= y && y > 0.0
    ensures 0.0 <= x / y <= 1.0
    ensures x / y == 0.0 <==> x == 0.0
  {
    assert x / y * y == x;
  }

  /** A single method adds only `sol1`, so its symmetric difference is 1
      whenever it found a solution. */
  lemma SingleMethodSymDif(t: Totals)
    requires t.sol2 == 0 && t.overlap == 0 && t.sol1 > 0
    ensures SymDif(t) == Success(1.0)
  {
    var u := t.sol1 as real;
    assert u / u == 1.0;
  }

  /** What every prefix of a run keeps: the overlap split into same/dif
      parts, at most one identical profile per step, the buffer within
      num_ex, only differing profiles buffered unless all_ex, and a single
      method adding nothing but `sol1`. */
  predicate RunInvariant(s: Setting, st: RunState, steps: nat) {
    && st.totals.overlapSame + st.totals.overlapDif == st.totals.overlap
    && st.totals.profSame <= steps && st.totals.prof1Same <= steps
    && |st.examples| <= s.numEx
    && (!s.allEx ==> forall i :: 0 <= i < |st.examples| ==> !st.examples[i].same)
    && (forall i :: 0 <= i < |st.examples| ==>
          var ex := st.examples[i];
          ex.same <==> |ex.out1| == |ex.out2| == EqualPairs(ex.out1, ex.out2))
    && (s.singleMethod ==>
          st.totals == Totals(st.totals.sol1, 0, 0, 0, 0, 0, 0) && st.examples == [])
  }

  lemma StepKeepsInvariant(s: Setting, st: RunState, profile: Profile, steps: nat)
    requires WellFormed(s) && ProfileWithinAgenda(s.agenda, profile)
    requires RunInvariant(s, st, steps) && Step(s, st, profile).Success?
    ensures RunInvariant(s, Step(s, st, profile).value, steps + 1)
  {
    var outs := BothOutcomes(s, profile).value;
    var sp1 := Qualitative(s.agenda, profile, outs.0).value;
    var sp2 := if s.singleMethod then sp1 else SecondQualitative(s.agenda, profile, outs.1).value;
    assert Step(s, st, profile) == Record(s, st, profile, outs.0, outs.1, sp1, sp2);
    RecordKeepsInvariant(s, st, profile, outs.0, outs.1, sp1, sp2, steps);
  }

  lemma RecordKeepsInvariant(s: Setting, st: RunState, profile: Profile, o1: seq<JDict>, o2: seq<JDict>,
                             sp1: Spread, sp2: Spread, steps: nat)
    requires RunInvariant(s, st, steps) && Record(s, st, profile, o1, o2, sp1, sp2).Success?
    ensures RunInvariant(s, Record(s, st, profile, o1, o2, sp1, sp2).value, steps + 1)
  {
    var q := QuanOf(s.singleMethod, o1, o2);
    var next := Record(s, st, profile, o1, o2, sp1, sp2).value;
    assert next.totals == Accumulate(st.totals, q);
    assert next.examples == st.examples || next.examples[..|st.examples|] == st.examples;
  }

  lemma {:induction false} RunKeepsInvariant(s: Setting, st: RunState, indices: seq<Index>,
                                             draw: (nat, nat) -> nat, k: nat, steps: nat)
    requires WellFormed(s)
    requires RunInvariant(s, st, steps) && RunFrom(s, st, indices, draw, k).Success?
    ensures RunInvariant(s, RunFrom(s, st, indices, draw, k).value, steps + |indices|)
    decreases |indices|
  {
    if indices != [] {
      var profile := ProfileAt(s, indices[0], draw, k);
      StepKeepsInvariant(s, st, profile, steps);
      RunKeepsInvariant(s, Step(s, st, profile).value, indices[1..], draw, k + 1, steps + 1);
    }
  }

  /** The two methods return identical winner lists for a profile. */
  predicate Identical(s: Setting, profile: Profile)
    requires WellFormed(s) && ProfileWithinAgenda(s.agenda, profile)
  {
    var outs := BothOutcomes(s, profile);
    outs.Success? && QuanOf(s.singleMethod, outs.value.0, outs.value.1).Full?
      && QuanOf(s.singleMethod, outs.value.0, outs.value.1).profSame == 1
  }

  lemma StepProfSame(s: Setting, st: RunState, profile: Profile)
    requires WellFormed(s) && ProfileWithinAgenda(s.agenda, profile) && !s.singleMethod
    requires Step(s, st, profile).Success?
    ensures Step(s, st, profile).value.totals.profSame
            == st.totals.profSame + (if Identical(s, profile) then 1 else 0)
  {
    var outs := BothOutcomes(s, profile).value;
    var sp1 := Qualitative(s.agenda, profile, outs.0).value;
    var sp2 := if s.singleMethod then sp1 else SecondQualitative(s.agenda, profile, outs.1).value;
    assert Step(s, st, profile) == Record(s, st, profile, outs.0, outs.1, sp1, sp2);
  }

  /** Every profile of the run, from the k-th index on, gave identical
      winner lists. */
  predicate AllIdentical(s: Setting, indices: seq<Index>, draw: (nat, nat) -> nat, k: nat)
    requires WellFormed(s)
  {
    forall i :: 0 <= i < |indices| ==> Identical(s, ProfileAt(s, indices[i], draw, k + i))
  }

  lemma AllIdenticalSplit(s: Setting, indices: seq<Index>, draw: (nat, nat) -> nat, k: nat)
    requires WellFormed(s) && indices != []
    ensures AllIdentical(s, indices, draw, k)
            <==> Identical(s, ProfileAt(s, indices[0], draw, k)) && AllIdentical(s, indices[1..], draw, k + 1)
  {
    if AllIdentical(s, indices, draw, k) {
      AllIdenticalTail(s, indices, draw, k);
    }
    if Identical(s, ProfileAt(s, indices[0], draw, k)) && AllIdentical(s, indices[1..], draw, k + 1) {
      AllIdenticalCons(s, indices, draw, k);
    }
  }

  lemma AllIdenticalTail(s: Setting, indices: seq<Index>, draw: (nat, nat) -> nat, k: nat)
    requires WellFormed(s) && indices != [] && AllIdentical(s, indices, draw, k)
    ensures Identical(s, ProfileAt(s, indices[0], draw, k)) && AllIdentical(s, indices[1..], draw, k + 1)
  {
    assert Identical(s, ProfileAt(s, indices[0], draw, k + 0));
    forall i | 0 <= i < |indices[1..]| ensures Identical(s, ProfileAt(s, indices[1..][i], draw, k + 1 + i)) {
      assert indices[1..][i] == indices[i + 1] && k + 1 + i == k + (i + 1);
      assert Identical(s, ProfileAt(s, indices[i + 1], draw, k + (i + 1)));
    }
  }

  lemma AllIdenticalCons(s: Setting, indices: seq<Index>, draw: (nat, nat) -> nat, k: nat)
    requires WellFormed(s) && indices != []
    requires Identical(s, ProfileAt(s, indices[0], draw, k)) && AllIdentical(s, indices[1..], draw, k + 1)
    ensures AllIdentical(s, indices, draw, k)
  {
    forall i | 0 <= i < |indices| ensures Identical(s, ProfileAt(s, indices[i], draw, k + i)) {
      if i == 0 {
        assert k + i == k;
      } else {
        assert indices[1..][i - 1] == indices[i] && k + 1 + (i - 1) == k + i;
        assert Identical(s, ProfileAt(s, indices[1..][i - 1], draw, k + 1 + (i - 1)));
      }
    }
  }

  /** rules_equiv: the run's prof_same total reaches the number of profiles
      exactly when every profile gave both methods identical winner lists. */
  lemma {:induction false} RulesEquivIff(s: Setting, st: RunState, indices: seq<Index>, draw: (nat, nat) -> nat, k: nat)
    requires WellFormed(s) && !s.singleMethod
    requires RunFrom(s, st, indices, draw, k).Success?
    ensures RunFrom(s, st, indices, draw, k).value.totals.profSame <= st.totals.profSame + |indices|
    ensures RunFrom(s, st, indices, draw, k).value.totals.profSame == st.totals.profSame + |indices|
            <==> AllIdentical(s, indices, draw, k)
    decreases |indices|
  {
    if indices != [] {
      var profile := ProfileAt(s, indices[0], draw, k);
      var next := Step(s, st, profile).value;
      StepProfSame(s, st, profile);
      RulesEquivIff(s, next, indices[1..], draw, k + 1);
      assert RunFrom(s, st, indices, draw, k) == RunFrom(s, next, indices[1..], draw, k + 1);
      AllIdenticalSplit(s, indices, draw, k);
    }
  }

  // ---------------------------------------------------------------------
  // compute_indices and the sampling policy

  /** `all_indices`: every combination with replacement of v positions of
      in_consistent (n of them), as many as num_profs counts. */
  function Pool(n: nat, v: nat): (r: seq<seq<nat>>)
    requires n >= 1
    ensures |r| == MultisetCoefficient(n, v)
    ensures Distinct(r)
    ensures forall c :: c in r <==> IsCombination(c, 0, n, v)
  {
    CombinationsCount(n, v);
    CombinationsExact(0, n, v);
    CombinationsDistinct(0, n, v);
    CombinationsWithReplacement(n, v)
  }

  /** What `random_combination(pool, r)` chose: r distinct positions of the
      pool, returned in pool order. */
  predicate ValidPicks(picks: seq<nat>, size: nat, poolSize: nat) {
    && |picks| == size
    && StrictlyIncreasing(picks)
    && forall k :: 0 <= k < |picks| ==> picks[k] < poolSize
  }

  /** The combinations at the chosen positions; with `sample` 0 the whole
      pool is drawn, which is the pool itself. */
  function Chosen(pool: seq<seq<nat>>, sample: nat, picks: seq<nat>): (r: seq<Index>)
    requires sample > 0 ==> ValidPicks(picks, sample, |pool|)
    ensures |r| == if sample > 0 then sample else |pool|
  {
    if sample > 0 then seq(sample, k requires 0 <= k < sample => Tuple(pool[picks[k]]))
    else seq(|pool|, k requires 0 <= k < |pool| => Tuple(pool[k]))
  }

  /** Every chosen index is a combination with replacement of v positions,
      no combination is chosen twice, and without sampling every combination
      is chosen. */
  lemma ChosenAreCombinations(n: nat, v: nat, sample: nat, picks: seq<nat>)
    requires n >= 1
    requires sample > 0 ==> ValidPicks(picks, sample, MultisetCoefficient(n, v))
    ensures var r := Chosen(Pool(n, v), sample, picks);
            && (forall k :: 0 <= k < |r| ==> r[k].Tuple? && IsCombination(r[k].t, 0, n, v))
            && Distinct(r)
            && (sample == 0 ==> forall c :: IsCombination(c, 0, n, v) ==> Tuple(c) in r)
  {
    var pool := Pool(n, v);
    var r := Chosen(pool, sample, picks);
    forall k | 0 <= k < |r| ensures r[k].Tuple? && IsCombination(r[k].t, 0, n, v) {
      assert r[k].t in pool;
    }
    if sample > 0 {
      forall i, j | 0 <= i < j < |r| ensures r[i] != r[j] {
        assert picks[i] < picks[j];
      }
    } else {
      forall c | IsCombination(c, 0, n, v) ensures Tuple(c) in r {
        var i :| 0 <= i < |pool| && pool[i] == c;
        assert r[i] == Tuple(c);
      }
    }
  }

  /** `sample` after result() resets it: 0 (exhaustive) when it exceeds
      prof_tot. */
  function EffectiveSample(profTot: nat, sample: nat): nat {
    if sample > profTot then 0 else sample
  }

  /** The indices result() iterates: beyond `simulate` profiles every
      profile is drawn at random; otherwise compute_indices draws them from
      the combinations. */
  function PlannedIndices(n: nat, v: nat, sample: nat, simulate: nat, picks: seq<nat>): seq<Index>
    requires n >= 1
    requires EffectiveSample(MultisetCoefficient(n, v), sample) > 0 && MultisetCoefficient(n, v) <= simulate ==>
               ValidPicks(picks, EffectiveSample(MultisetCoefficient(n, v), sample), MultisetCoefficient(n, v))
  {
    var profTot := MultisetCoefficient(n, v);
    var sample' := EffectiveSample(profTot, sample);
    if profTot > simulate then
      seq(if sample' > 0 then sample' else profTot, _ => Simulated)
    else Chosen(Pool(n, v), sample', picks)
  }

  /** prof_test is `sample` when sampling, prof_tot otherwise, in the
      simulated and in the enumerated branch alike (a `sample` above prof_tot
      means an exhaustive run), and the profiles are simulated exactly when
      prof_tot exceeds `simulate`. */
  lemma SamplingPolicy(n: nat, v: nat, sample: nat, simulate: nat, picks: seq<nat>)
    requires n >= 1
    requires EffectiveSample(MultisetCoefficient(n, v), sample) > 0 && MultisetCoefficient(n, v) <= simulate ==>
               ValidPicks(picks, EffectiveSample(MultisetCoefficient(n, v), sample), MultisetCoefficient(n, v))
    ensures var profTot := MultisetCoefficient(n, v);
            |PlannedIndices(n, v, sample, simulate, picks)| == if 0 < sample <= profTot then sample else profTot
    ensures var r := PlannedIndices(n, v, sample, simulate, picks);
            |r| > 0 ==> (MultisetCoefficient(n, v) > simulate <==> (forall k :: 0 <= k < |r| ==> r[k].Simulated?))
  {
    var r := PlannedIndices(n, v, sample, simulate, picks);
    if MultisetCoefficient(n, v) <= simulate && |r| > 0 {
      assert r[0].Tuple?;
    }
  }

  // ---------------------------------------------------------------------
  // The engine

  /** One profile of the loop, computed with the solver object. */
  method ProfileStep(bfs: BFSolver, s: Setting, st: RunState, profile: Profile) returns (r: Result<RunState, CompareError>)
    requires !bfs.binrep && !bfs.idxRep
    requires WellFormed(s) && ProfileWithinAgenda(s.agenda, profile)
    modifies bfs
    ensures r == Step(s, st, profile)
  {
    var e := ElectionOf(s, profile);
    var outcomes1 := SolveWith(bfs, e, s.rule1, s.lamb1);
    if outcomes1.Failure? {
      return Failure(outcomes1.error);
    }
    var outcomes2 := outcomes1;
    if !s.singleMethod {
      outcomes2 := SolveWith(bfs, e, s.rule2, s.lamb2);
      if outcomes2.Failure? {
        return Failure(outcomes2.error);
      }
    }
    var o1, o2 := outcomes1.value, outcomes2.value;
    r := AnalyseProfile(s, st, profile, o1, o2);
  }

  /** The rest of the loop body once both outcome lists are known: the
      quantitative and qualitative analyses and the example buffer. */
  method AnalyseProfile(s: Setting, st: RunState, profile: Profile, o1: seq<JDict>, o2: seq<JDict>)
    returns (r: Result<RunState, CompareError>)
    requires WellFormed(s) && ProfileWithinAgenda(s.agenda, profile)
    requires BothOutcomes(s, profile) == Success((o1, o2))
    ensures r == Step(s, st, profile)
  {
    var resultQuantitative := QuantitativeAnalysis(s.singleMethod, o1, o2);
    var qual1 := Qualitative(s.agenda, profile, o1);
    if qual1.Failure? {
      return Failure(qual1.error);
    }
    var qual2 := qual1;
    if !s.singleMethod {
      qual2 := SecondQualitative(s.agenda, profile, o2);
      if qual2.Failure? {
        return Failure(qual2.error);
      }
    }
    assert Step(s, st, profile) == Record(s, st, profile, o1, o2, qual1.value, qual2.value);
    var cum := Accumulate(st.totals, resultQuantitative);
    var examplesPrint := st.examples;
    if |examplesPrint| < s.numEx {
      if s.singleMethod {
        return Failure(MissingProfSame);
      }
      if s.allEx || resultQuantitative.profSame != 1 {
        var example := Example(profile, o1, o2, resultQuantitative.profSame == 1, qual1.value, qual2.value);
        examplesPrint := examplesPrint + [example];
      }
    }
    r := Success(RunState(cum, examplesPrint, profile));
  }

  /** The profile of the first of `indices` and the step on it, which
      leaves the rest of the run to the remaining indices. */
  method IndexStep(bfs: BFSolver, s: Setting, st: RunState, indices: seq<Index>, draw: (nat, nat) -> nat, k: nat)
    returns (profile: Profile, r: Result<RunState, CompareError>)
    requires !bfs.binrep && !bfs.idxRep
    requires WellFormed(s) && indices != []
    modifies bfs
    ensures r.Failure? ==> RunFrom(s, st, indices, draw, k) == Failure(r.error)
    ensures r.Success? ==> RunFrom(s, st, indices, draw, k) == RunFrom(s, r.value, indices[1..], draw, k + 1)
    ensures r.Success? ==> r.value.profile == profile
  {
    var draws := DrawsAt(draw, k, s.numberVoters);
    profile := ConstructProfile(s.ins, s.numberVoters, indices[0], draws);
    assert profile == ProfileAt(s, indices[0], draw, k);
    r := ProfileStep(bfs, s, st, profile);
    RunFromUnfold(s, st, indices, draw, k);
    if r.Success? {
      StepProfile(s, st, profile);
    }
  }

  lemma RunFromUnfold(s: Setting, st: RunState, indices: seq<Index>, draw: (nat, nat) -> nat, k: nat)
    requires WellFormed(s) && indices != []
    ensures var step := Step(s, st, ProfileAt(s, indices[0], draw, k));
            && (step.Failure? ==> RunFrom(s, st, indices, draw, k) == Failure(step.error))
            && (step.Success? ==> RunFrom(s, st, indices, draw, k) == RunFrom(s, step.value, indices[1..], draw, k + 1))
  {
  }

  class CompareRules {
    const scenario: Classes.Scenario
    const solver1: string
    const rule1: string
    const lamb1: real
    const solver2: string
    const rule2: string
    const lamb2: real
    const singleMethod: bool
    var profTot: nat
    var profTest: nat
    var indices: seq<Index>

    constructor(scenario: Classes.Scenario, solver1: string, rule1: string, lamb1: real,
                solver2: string, rule2: string, lamb2: real)
      ensures this.scenario == scenario
      ensures this.solver1 == solver1 && this.rule1 == rule1 && this.lamb1 == lamb1
      ensures this.solver2 == solver2 && this.rule2 == rule2 && this.lamb2 == lamb2
      ensures singleMethod <==> solver1 == solver2 && rule1 == rule2 && lamb1 == lamb2
      ensures profTot == 0 && profTest == 0 && indices == []
    {
      this.scenario := scenario;
      this.solver1, this.rule1, this.lamb1 := solver1, rule1, lamb1;
      this.solver2, this.rule2, this.lamb2 := solver2, rule2, lamb2;
      singleMethod := solver1 == solver2 && rule1 == rule2 && lamb1 == lamb2;
      profTot, profTest, indices := 0, 0, [];
    }

    /** What a loaded scenario provides: rational judgments, a non-negative
        electorate, the profile-space size and complete feasible outcomes. */
    predicate Ready()
      reads scenario
    {
      && scenario.inConsistent != []
      && scenario.numberVoters >= 0
      && scenario.numProfs == MultisetCoefficient(|scenario.inConsistent|, scenario.numberVoters)
      && WellFormed(SettingOf(false, 0))
    }

    function SettingOf(allEx: bool, numEx: nat): Setting
      reads scenario
    {
      Setting(Values(scenario.agenda), scenario.inConsistent, scenario.outConsistent,
              if scenario.numberVoters >= 0 then scenario.numberVoters else 0,
              rule1, lamb1, rule2, lamb2, singleMethod, allEx, numEx)
    }

    method ComputeIndices(sample: nat, picks: seq<nat>) returns (allIndices: seq<Index>)
      requires scenario.inConsistent != [] && scenario.numberVoters >= 0
      requires profTot == MultisetCoefficient(|scenario.inConsistent|, scenario.numberVoters)
      requires sample > 0 ==> ValidPicks(picks, sample, profTot)
      modifies this`profTest
      ensures profTest == if sample > 0 then sample else profTot
      ensures allIndices == Chosen(Pool(|scenario.inConsistent|, scenario.numberVoters), sample, picks)
    {
      var all := Pool(|scenario.inConsistent|, scenario.numberVoters);
      if sample > 0 {
        profTest := sample;
      } else {
        profTest := profTot;
      }
      allIndices := Chosen(all, sample, picks);
    }

    /** The first half of result(): prof_tot, the reset of an oversized
        `sample`, simulation beyond `simulate` profiles, and the indices. */
    method Plan(sample: nat, simulate: nat, picks: seq<nat>)
      requires Ready()
      requires EffectiveSample(scenario.numProfs, sample) > 0 && scenario.numProfs <= simulate ==>
                 ValidPicks(picks, EffectiveSample(scenario.numProfs, sample), scenario.numProfs)
      modifies this`profTot, this`profTest, this`indices
      ensures profTot == scenario.numProfs
      ensures indices == PlannedIndices(|scenario.inConsistent|, scenario.numberVoters, sample, simulate, picks)
      ensures profTest == |indices|
    {
      profTot := scenario.numProfs;
      var sample' := sample;
      if sample' > profTot {
        sample' := 0;
      }
      if profTot > simulate && sample' > 0 {
        indices := seq(sample', _ => Simulated);
        profTest := sample';
      } else if profTot > simulate {
        indices := seq(profTot, _ => Simulated);
        profTest := profTot;
      } else {
        indices := ComputeIndices(sample', picks);
      }
    }

    /** The loop of result(): each index's profile becomes the scenario's
        profile and is solved and compared. */
    method Run(allEx: bool, numEx: nat, draw: (nat, nat) -> nat) returns (r: Result<RunState, CompareError>)
      requires WellFormed(SettingOf(allEx, numEx))
      modifies scenario`profile
      ensures r == RunFrom(SettingOf(allEx, numEx), RunState(Totals(0, 0, 0, 0, 0, 0, 0), [], old(scenario.profile)), indices, draw, 0)
      ensures r.Success? ==> scenario.profile == r.value.profile
    {
      var bfs := new BFSolver(false, false);
      var s := SettingOf(allEx, numEx);
      var start := RunState(Totals(0, 0, 0, 0, 0, 0, 0), [], scenario.profile);
      var st := start;
      for k := 0 to |indices|
        invariant RunFrom(s, start, indices, draw, 0) == RunFrom(s, st, indices[k..], draw, k)
        invariant scenario.profile == st.profile
        invariant s == SettingOf(allEx, numEx)
        invariant !bfs.binrep && !bfs.idxRep
      {
        assert indices[k..][1..] == indices[k + 1..];
        var profile, step := IndexStep(bfs, s, st, indices[k..], draw, k);
        scenario.profile := profile;
        if step.Failure? {
          return Failure(step.error);
        }
        st := step.value;
      }
      assert indices[|indices|..] == [];
      r := Success(st);
    }

    /** result(), integer parts; the report's `examples` is the buffer
        print_examples prints, which the returned dict does not hold.  `picks` are the positions random_combination
        draws and `draw(k, j)` the k-th simulated profile's j-th judge. */
    method Result(allEx: bool, numEx: nat, sample: nat, simulate: nat, picks: seq<nat>, draw: (nat, nat) -> nat)
      returns (r: Result<Report, CompareError>)
      requires solver1 == "bf" && solver2 == "bf"
      requires Ready()
      requires forall k: nat, j: nat :: draw(k, j) < |scenario.inConsistent|
      requires EffectiveSample(scenario.numProfs, sample) > 0 && scenario.numProfs <= simulate ==>
                 ValidPicks(picks, EffectiveSample(scenario.numProfs, sample), scenario.numProfs)
      modifies this, scenario`profile
      ensures indices == PlannedIndices(|scenario.inConsistent|, scenario.numberVoters, sample, simulate, picks)
      ensures profTot == scenario.numProfs && profTest == |indices|
      ensures var run := RunFrom(SettingOf(allEx, numEx), RunState(Totals(0, 0, 0, 0, 0, 0, 0), [], old(scenario.profile)), indices, draw, 0);
              && (run.Failure? ==> r == Failure(run.error))
              && (run.Success? ==> r == Finalise(run.value, profTest))
              && (run.Success? ==> scenario.profile == PrintedProfile(numEx, run.value))
    {
      Plan(sample, simulate, picks);
      assert WellFormed(SettingOf(allEx, numEx));
      var run := Run(allEx, numEx, draw);
      if run.Failure? {
        return Failure(run.error);
      }
      r := ProcessResults(numEx, run.value);
    }

    /** The end of result(): print the examples when num_ex > 0, then put
        the report together from the run's final state. */
    method ProcessResults(numEx: nat, st: RunState) returns (r: Result<Report, CompareError>)
      requires scenario.profile == st.profile
      modifies scenario`profile
      ensures r == Finalise(st, profTest)
      ensures scenario.profile == PrintedProfile(numEx, st)
    {
      if numEx > 0 {
        PrintExamples(st.examples);
      }
      r := Finalise(st, profTest);
    }

    /** print_examples without the printing: each buffered example's profile
        in turn becomes the scenario's profile, so the last one stays. */
    method PrintExamples(examples: seq<Example>)
      modifies scenario`profile
      ensures examples != [] ==> scenario.profile == examples[|examples| - 1].profile
      ensures examples == [] ==> scenario.profile == old(scenario.profile)
    {
      for idx := 0 to |examples|
        invariant idx == 0 ==> scenario.profile == old(scenario.profile)
        invariant idx > 0 ==> scenario.profile == examples[idx - 1].profile
      {
        scenario.profile := examples[idx].profile;
      }
    }
  }
}
