/** The lambda sweep: for every value of the Kemeny-Nash parameter lambda
    the four rules of all_rules are run over the same profile space, and
    the sizes of their winner sets and of five pairwise symmetric
    differences are summed and normalised per profile. */
module LambIter {
  import opened Wrappers
  import opened Dicts
  import opened Utils
  import opened BfSolver
  import opened CompareRules
  import Classes

  // ---------------------------------------------------------------------
  // The rules and the compared pairs

  /** The rules in the order solve_all returns them: Kemeny, Kemeny-Nash,
      Maxham, Maxeq. */
  const RuleCount: nat := 4

  /** The compared pairs, as positions in the rule order: Kem/KN,
      Kem/Maxham, Kem/Maxeq, KN/Maxham, KN/Maxeq. */
  const Pairs: seq<(nat, nat)> := [(0, 1), (0, 2), (0, 3), (1, 2), (1, 3)]

  /** The five pairs are every pair of distinct rules except Maxham/Maxeq,
      each taken once. */
  lemma PairsAreAllButMaxhamMaxeq()
    ensures Distinct(Pairs)
    ensures forall i: nat, j: nat :: (i, j) in Pairs <==> i < j < RuleCount && (i, j) != (2, 3)
  {
  }

  // ---------------------------------------------------------------------
  // quantitative_analysis

  /** The counters of cumQuan: sol<Rule> per rule and symdif<pair> per
      compared pair. */
  datatype QuanTotals = QuanTotals(sol: seq<nat>, symdif: seq<nat>)

  const Zero: QuanTotals := QuanTotals([0, 0, 0, 0], [0, 0, 0, 0, 0])

  predicate Shaped(t: QuanTotals) {
    |t.sol| == RuleCount && |t.symdif| == |Pairs|
  }

  /** `a.symmetric_difference(b)`. */
  function SymmetricDifference(a: set<nat>, b: set<nat>): (d: set<nat>)
    ensures forall x :: x in d <==> (x in a) != (x in b)
  {
    (a - b) + (b - a)
  }

  /** The size of a symmetric difference: the two sizes less twice the
      common part; it is 0 exactly for equal sets and never exceeds the two
      sizes together. */
  lemma SymmetricDifferenceSize(a: set<nat>, b: set<nat>)
    ensures |SymmetricDifference(a, b)| == |a| + |b| - 2 * |a * b|
    ensures |SymmetricDifference(a, b)| == 0 <==> a == b
    ensures |SymmetricDifference(a, b)| <= |a| + |b|
  {
    var d := SymmetricDifference(a, b);
    assert a - b !! b - a;
    assert |d| == |a - b| + |b - a|;
    assert |a - b| + |a * b| == |a| by {
      assert (a - b) + (a * b) == a;
      assert (a - b) !! (a * b);
    }
    assert |b - a| + |a * b| == |b| by {
      assert (b - a) + (a * b) == b;
      assert (b - a) !! (a * b);
    }
    if |d| == 0 {
      assert a - b == {} && b - a == {};
      assert a <= b && b <= a;
    }
  }

  /** The winner indices of each rule as a set (`set(idxs)`). */
  function WinnerSets(lists: seq<seq<nat>>): (r: seq<set<nat>>)
    ensures |r| == |lists|
    ensures forall k, x :: 0 <= k < |lists| ==> (x in r[k] <==> x in lists[k])
  {
    seq(|lists|, k requires 0 <= k < |lists| => Elements(lists[k]))
  }

  /** `set(s)`. */
  function Elements(s: seq<nat>): (r: set<nat>)
    ensures forall x :: x in r <==> x in s
  {
    set x | x in s
  }

  /** A list without repetitions has as many elements as its set. */
  lemma {:induction false} SetOfIncreasing(s: seq<nat>)
    requires StrictlyIncreasing(s)
    ensures |Elements(s)| == |s|
  {
    if s != [] {
      var init, last := s[..|s| - 1], s[|s| - 1];
      SetOfIncreasing(init);
      assert s == init + [last];
      assert Elements(s) == Elements(init) + {last};
      assert last !in Elements(init) by {
        forall i | 0 <= i < |init| ensures init[i] != last {
          assert s[i] < s[|s| - 1];
        }
      }
    }
  }

  /** cumQuan after one profile: each rule's number of winners, and the
      symmetric difference of each compared pair. */
  function QuanUpdate(cum: QuanTotals, winners: seq<set<nat>>): (r: QuanTotals)
    requires Shaped(cum) && |winners| == RuleCount
    ensures Shaped(r)
  {
    QuanTotals(
      seq(RuleCount, i requires 0 <= i < RuleCount => cum.sol[i] + |winners[i]|),
      seq(|Pairs|, c requires 0 <= c < |Pairs| =>
        cum.symdif[c] + |SymmetricDifference(winners[Pairs[c].0], winners[Pairs[c].1])|))
  }

  /** A pair's accumulated symmetric difference never exceeds the two
      rules' accumulated winner counts together. */
  predicate Bounded(t: QuanTotals) {
    && Shaped(t)
    && forall c :: 0 <= c < |Pairs| ==> t.symdif[c] <= t.sol[Pairs[c].0] + t.sol[Pairs[c].1]
  }

  lemma QuanUpdateBounded(cum: QuanTotals, winners: seq<set<nat>>)
    requires Bounded(cum) && |winners| == RuleCount
    ensures Bounded(QuanUpdate(cum, winners))
  {
    var r := QuanUpdate(cum, winners);
    forall c | 0 <= c < |Pairs| ensures r.symdif[c] <= r.sol[Pairs[c].0] + r.sol[Pairs[c].1] {
      SymmetricDifferenceSize(winners[Pairs[c].0], winners[Pairs[c].1]);
    }
  }

  /** quantitative_analysis: add the winner counts, then the symmetric
      differences of the pairs (idxs1[c], idxs2[c]). */
  method QuantitativeAnalysis(cumQuan: QuanTotals, idxs: seq<set<nat>>) returns (r: QuanTotals)
    requires Shaped(cumQuan) && |idxs| == RuleCount
    ensures r == QuanUpdate(cumQuan, idxs)
  {
    var sol := AddWinnerCounts(cumQuan, idxs);
    var idxKem, idxKN, idxMaxham, idxMaxeq := idxs[0], idxs[1], idxs[2], idxs[3];
    var idxs1 := [idxKem, idxKem, idxKem, idxKN, idxKN];
    var idxs2 := [idxKN, idxMaxham, idxMaxeq, idxMaxham, idxMaxeq];
    var symdif := AddPairDifferences(cumQuan, idxs, idxs1, idxs2);
    r := QuanTotals(sol, symdif);
  }

  /** The first loop of quantitative_analysis: sol<Rule> grows by the
      number of that rule's winners. */
  method AddWinnerCounts(cumQuan: QuanTotals, idxs: seq<set<nat>>) returns (sol: seq<nat>)
    requires Shaped(cumQuan) && |idxs| == RuleCount
    ensures sol == QuanUpdate(cumQuan, idxs).sol
  {
    sol := cumQuan.sol;
    for idx := 0 to RuleCount
      invariant |sol| == RuleCount
      invariant forall i :: 0 <= i < RuleCount ==>
                  sol[i] == cumQuan.sol[i] + (if i < idx then |idxs[i]| else 0)
    {
      sol := sol[idx := sol[idx] + |idxs[idx]|];
    }
  }

  /** The second loop: symdif<Pair> grows by the size of the symmetric
      difference of the pair's two winner sets. */
  method AddPairDifferences(cumQuan: QuanTotals, idxs: seq<set<nat>>, idxs1: seq<set<nat>>, idxs2: seq<set<nat>>)
    returns (symdif: seq<nat>)
    requires Shaped(cumQuan) && |idxs| == RuleCount
    requires |idxs1| == |idxs2| == |Pairs|
    requires forall c :: 0 <= c < |Pairs| ==> idxs1[c] == idxs[Pairs[c].0] && idxs2[c] == idxs[Pairs[c].1]
    ensures symdif == QuanUpdate(cumQuan, idxs).symdif
  {
    symdif := cumQuan.symdif;
    for idx := 0 to |Pairs|
      invariant |symdif| == |Pairs|
      invariant forall c :: 0 <= c < |Pairs| ==>
                  symdif[c] == cumQuan.symdif[c]
                    + (if c < idx then |SymmetricDifference(idxs1[c], idxs2[c])| else 0)
    {
      symdif := symdif[idx := symdif[idx] + |SymmetricDifference(idxs1[idx], idxs2[idx])|];
    }
  }

  // ---------------------------------------------------------------------
  // One profile

  /** What a sweep is fixed to: the scenario's agenda, judgments and
      electorate, the sampling mode and prof_test. */
  datatype Sweep = Sweep(
    agenda: seq<Formula>,
    ins: seq<JDict>,
    outs: seq<JDict>,
    numberVoters: nat,
    sampling: bool,
    profTest: nat)

  /** Every feasible outcome is complete on the agenda; the scenario has
      rational judgments to tally. */
  predicate SweepReady(w: Sweep) {
    && w.ins != []
    && forall o :: o in w.outs ==> CoversAgenda(w.agenda, o)
  }

  function SweepElection(w: Sweep, profile: Profile): (e: Election)
    requires SweepReady(w)
    ensures Covers(e)
  {
    Election(w.agenda, profile, w.outs, w.numberVoters)
  }

  /** What stops the sweep: the solver's errors, qualitative_analysis
      reading a voter the profile does not have (IndexError), and a
      division by zero (ZeroDivisionError). */
  datatype LambError = SolveFailed(cause: SolverError) | VoterIndexOutOfRange | DivisionByZero

  function IdxLists(ws: seq<Winners>): (r: seq<seq<nat>>)
    ensures |r| == |ws| && forall k :: 0 <= k < |ws| ==> r[k] == ws[k].idxs
  {
    seq(|ws|, k requires 0 <= k < |ws| => ws[k].idxs)
  }

  /** The float part of qualitative_analysis is not modelled; what it can
      raise is, in the order of its lines.  With no feasible outcome the
      zero-effect ratio divides by zero; with outcomes, a profile of no
      voters makes the means divide by zero, a profile with fewer voters than
      number_voters is indexed past its end, and number_voters = 0 makes the
      standard deviations divide by zero. */
  function QualitativeGuard(w: Sweep, profile: Profile): Option<LambError> {
    if w.outs == [] then Some(DivisionByZero)
    else if Voters(profile) == 0 then Some(DivisionByZero)
    else if Voters(profile) < w.numberVoters then Some(VoterIndexOutOfRange)
    else if w.numberVoters == 0 then Some(DivisionByZero)
    else None
  }

  // ---------------------------------------------------------------------
  // qualitative_analysis: the entries of cumQual that result() divides by

  /** cumQual['meanKem'], cumQual['lowMaxham'] and cumQual['maxdistMaxeq']. */
  datatype QualTotals = QualTotals(meanKem: real, lowMaxham: real, maxdistMaxeq: real)

  const NoQual: QualTotals := QualTotals(0.0, 0.0, 0.0)

  /** `sum(xs)/float(len(xs))`. */
  function Average(xs: seq<real>): real
    requires xs != []
  {
    Sum(xs) / |xs| as real
  }

  /** The mean agreement of every outcome. */
  function Means(vs: seq<seq<real>>): (r: seq<real>)
    requires NonEmptyVectors(vs)
    ensures |r| == |vs|
  {
    seq(|vs|, i requires 0 <= i < |vs| => Average(vs[i]))
  }

  /** The values at one rule's winning positions. */
  function At(vals: seq<real>, idxs: seq<nat>): (r: seq<real>)
    requires forall k :: 0 <= k < |idxs| ==> idxs[k] < |vals|
    ensures |r| == |idxs|
  {
    seq(|idxs|, k requires 0 <= k < |idxs| => vals[idxs[k]])
  }

  /** What one profile adds to the three entries: the average over the
      Kemeny winners of their mean agreement, over the Maxham winners of
      their lowest agreement, and over the Maxeq winners of their spread.
      `vs` are the λ = 0 agreement vectors of all feasible outcomes (`agr`
      is called with its default λ), so a winner's vector is the one at its
      index. */
  function QualOf(vs: seq<seq<real>>, kem: seq<nat>, maxham: seq<nat>, maxeq: seq<nat>): QualTotals
    requires NonEmptyVectors(vs)
    requires kem != [] && maxham != [] && maxeq != []
    requires forall k :: 0 <= k < |kem| ==> kem[k] < |vs|
    requires forall k :: 0 <= k < |maxham| ==> maxham[k] < |vs|
    requires forall k :: 0 <= k < |maxeq| ==> maxeq[k] < |vs|
  {
    QualTotals(Average(At(Means(vs), kem)), Average(At(Mins(vs), maxham)), Average(At(Spreads(vs), maxeq)))
  }

  function AddQual(a: QualTotals, b: QualTotals): QualTotals {
    QualTotals(a.meanKem + b.meanKem, a.lowMaxham + b.lowMaxham, a.maxdistMaxeq + b.maxdistMaxeq)
  }

  /** The average of equal values is that value. */
  lemma AverageConstant(xs: seq<real>, u: real)
    requires xs != [] && forall i :: 0 <= i < |xs| ==> xs[i] == u
    ensures Average(xs) == u
  {
    SumConstant(xs, u);
    var n := |xs| as real;
    assert Sum(xs) == n * u;
    assert (n * u) / n == u;
  }

  /** Every winner of an arg-max shares the maximum. */
  lemma ArgMaxAt(vals: seq<real>, idxs: seq<nat>)
    requires IsArgMax(vals, idxs) && idxs != []
    ensures vals != [] && forall k :: 0 <= k < |idxs| ==> idxs[k] < |vals| && vals[idxs[k]] == Max(vals)
  {
    assert idxs[0] in idxs;
    forall k | 0 <= k < |idxs| ensures idxs[k] < |vals| && vals[idxs[k]] == Max(vals) {
      assert idxs[k] in idxs;
    }
  }

  lemma ArgMinAt(vals: seq<real>, idxs: seq<nat>)
    requires IsArgMin(vals, idxs) && idxs != []
    ensures vals != [] && forall k :: 0 <= k < |idxs| ==> idxs[k] < |vals| && vals[idxs[k]] == Min(vals)
  {
    assert idxs[0] in idxs;
    forall k | 0 <= k < |idxs| ensures idxs[k] < |vals| && vals[idxs[k]] == Min(vals) {
      assert idxs[k] in idxs;
    }
  }

  /** Since the winners of each rule tie, a profile adds the largest
      agreement sum over the number of voters to meanKem, the largest lowest
      agreement to lowMaxham and the smallest spread to maxdistMaxeq. */
  lemma QualOfWinners(vs: seq<seq<real>>, v: nat, kem: seq<nat>, maxham: seq<nat>, maxeq: seq<nat>)
    requires v > 0 && forall i :: 0 <= i < |vs| ==> |vs[i]| == v
    requires kem != [] && maxham != [] && maxeq != []
    requires IsArgMax(Sums(vs), kem) && IsArgMax(Mins(vs), maxham) && IsArgMin(Spreads(vs), maxeq)
    ensures vs != []
    ensures forall k :: 0 <= k < |kem| ==> kem[k] < |vs|
    ensures forall k :: 0 <= k < |maxham| ==> maxham[k] < |vs|
    ensures forall k :: 0 <= k < |maxeq| ==> maxeq[k] < |vs|
    ensures QualOf(vs, kem, maxham, maxeq)
            == QualTotals(Max(Sums(vs)) / v as real, Max(Mins(vs)), Min(Spreads(vs)))
  {
    ArgMaxAt(Sums(vs), kem);
    ArgMaxAt(Mins(vs), maxham);
    ArgMinAt(Spreads(vs), maxeq);
    var means := At(Means(vs), kem);
    forall k | 0 <= k < |kem| ensures means[k] == Max(Sums(vs)) / v as real {
      assert Sums(vs)[kem[k]] == Sum(vs[kem[k]]);
    }
    AverageConstant(means, Max(Sums(vs)) / v as real);
    AverageConstant(At(Mins(vs), maxham), Max(Mins(vs)));
    AverageConstant(At(Spreads(vs), maxeq), Min(Spreads(vs)));
  }

  /** With λ = 0 no agreement is negative, so neither is anything a profile
      adds: the three entries never decrease. */
  lemma QualOfNonNegative(vs: seq<seq<real>>)
    requires NonEmptyVectors(vs) && vs != []
    requires forall i, j :: 0 <= i < |vs| && 0 <= j < |vs[i]| ==> vs[i][j] >= 0.0
    ensures Max(Sums(vs)) >= 0.0 && Max(Mins(vs)) >= 0.0 && Min(Spreads(vs)) >= 0.0
  {
    forall i | 0 <= i < |vs| ensures Sums(vs)[i] >= 0.0 && Mins(vs)[i] >= 0.0 && Spreads(vs)[i] >= 0.0 {
      SumNonNegative(vs[i]);
    }
  }

  lemma {:induction false} SumNonNegative(v: seq<real>)
    requires forall j :: 0 <= j < |v| ==> v[j] >= 0.0
    ensures Sum(v) >= 0.0
  {
    if v != [] {
      SumNonNegative(v[..|v| - 1]);
    }
  }

  /** A single voter's agreement vector has no spread. */
  lemma OneVoterNoSpread(vs: seq<seq<real>>)
    requires vs != [] && forall i :: 0 <= i < |vs| ==> |vs[i]| == 1
    ensures Min(Spreads(vs)) == 0.0
  {
    assert forall i :: 0 <= i < |vs| ==> Spreads(vs)[i] == 0.0;
  }

  // ---------------------------------------------------------------------
  // One profile of the loop

  /** cumQuan and the modelled entries of cumQual. */
  datatype Cum = Cum(quan: QuanTotals, qual: QualTotals)

  const Start: Cum := Cum(Zero, NoQual)

  /** The four winners all_rules reports for a profile, as the qualitative
      update relies on them: Kemeny, Maxham and Maxeq are the optima of the
      λ = 0 agreement vectors, and no rule is without a winner when there is
      a feasible outcome. */
  ghost predicate RuleWinners(w: Sweep, profile: Profile, ws: seq<seq<nat>>)
    requires SweepReady(w)
  {
    var vs := AgreementVectors(SweepElection(w, profile), 0.0);
    && |ws| == 4
    && (w.outs != [] ==> ws[0] != [] && ws[2] != [] && ws[3] != [])
    && IsArgMax(Sums(vs), ws[0])
    && (NonEmptyVectors(vs) ==> IsArgMax(Mins(vs), ws[2]) && IsArgMin(Spreads(vs), ws[3]))
  }

  /** qualitative_analysis: its errors, or cumQual with the profile's
      contributions added. */
  function QualStep(w: Sweep, profile: Profile, ws: seq<seq<nat>>, q: QualTotals): Result<QualTotals, LambError>
    requires SweepReady(w) && RuleWinners(w, profile, ws)
  {
    var guard := QualitativeGuard(w, profile);
    if guard.Some? then Failure(guard.value)
    else
      var vs := AgreementVectors(SweepElection(w, profile), 0.0);
      ArgMaxAt(Sums(vs), ws[0]);
      ArgMaxAt(Mins(vs), ws[2]);
      ArgMinAt(Spreads(vs), ws[3]);
      Success(AddQual(q, QualOf(vs, ws[0], ws[2], ws[3])))
  }

  /** all_rules's winners are what the qualitative update relies on. */
  lemma SolveAllRuleWinners(w: Sweep, profile: Profile, lamb: real)
    requires SweepReady(w) && SolveAll(SweepElection(w, profile), lamb).Success?
    ensures RuleWinners(w, profile, IdxLists(SolveAll(SweepElection(w, profile), lamb).value))
  {
    var e := SweepElection(w, profile);
    SolveAllMatchesSolvers(e, lamb);
  }

  /** One profile of the loop: all_rules with the current lambda, then the
      quantitative update, then the qualitative analysis. */
  function LambStep(w: Sweep, lamb: real, cum: Cum, profile: Profile): Result<Cum, LambError>
    requires SweepReady(w) && Shaped(cum.quan)
  {
    var e := SweepElection(w, profile);
    var solved := SolveAll(e, lamb);
    if solved.Failure? then Failure(SolveFailed(solved.error))
    else
    var ws := solved.value;
    var quan := QuanUpdate(cum.quan, WinnerSets(IdxLists(ws)));
    SolveAllRuleWinners(w, profile, lamb);
    var qual :- QualStep(w, profile, IdxLists(ws), cum.qual);
    Success(Cum(quan, qual))
  }

  /** The index sets `self.idxs` holds after all_rules succeeds on a profile. */
  function SolvedIdxs(w: Sweep, lamb: real, profile: Profile): Option<seq<set<nat>>>
    requires SweepReady(w)
  {
    var solved := SolveAll(SweepElection(w, profile), lamb);
    if solved.Failure? then None else Some(WinnerSets(IdxLists(solved.value)))
  }

  /** A successful qualitative update adds to each modelled entry what its
      rule's tie makes it: the best agreement sum per voter, the best lowest
      agreement and the least spread, none of them negative. */
  lemma QualStepAdds(w: Sweep, profile: Profile, ws: seq<seq<nat>>, q: QualTotals)
    requires SweepReady(w) && RuleWinners(w, profile, ws) && QualStep(w, profile, ws, q).Success?
    ensures var vs := AgreementVectors(SweepElection(w, profile), 0.0);
            var q' := QualStep(w, profile, ws, q).value;
            && Voters(profile) > 0 && vs != [] && NonEmptyVectors(vs)
            && q'.meanKem == q.meanKem + Max(Sums(vs)) / Voters(profile) as real
            && q'.lowMaxham == q.lowMaxham + Max(Mins(vs))
            && q'.maxdistMaxeq == q.maxdistMaxeq + Min(Spreads(vs))
            && Max(Sums(vs)) >= 0.0 && Max(Mins(vs)) >= 0.0 && Min(Spreads(vs)) >= 0.0
  {
    var e := SweepElection(w, profile);
    var vs := AgreementVectors(e, 0.0);
    forall i, j | 0 <= i < |vs| && 0 <= j < |vs[i]| ensures vs[i][j] >= 0.0 {
      AgreementEntries(e.agenda, profile, e.outConsistent[i], 0.0);
    }
    QualOfWinners(vs, Voters(profile), ws[0], ws[2], ws[3]);
    QualOfNonNegative(vs);
  }

  /** A successful step is a successful all_rules followed by a successful
      qualitative update. */
  lemma LambStepQual(w: Sweep, lamb: real, cum: Cum, profile: Profile)
    requires SweepReady(w) && Shaped(cum.quan) && LambStep(w, lamb, cum, profile).Success?
    ensures SolveAll(SweepElection(w, profile), lamb).Success? && SolvedIdxs(w, lamb, profile).Some?
    ensures var ws := IdxLists(SolveAll(SweepElection(w, profile), lamb).value);
            && RuleWinners(w, profile, ws) && QualStep(w, profile, ws, cum.qual).Success?
            && LambStep(w, lamb, cum, profile).value.qual == QualStep(w, profile, ws, cum.qual).value
  {
    SolveAllRuleWinners(w, profile, lamb);
  }

  /** The four winner sets of a step are the solvers' index lists with
      nothing lost, so sol<Rule> grows by each rule's number of winners. */
  lemma WinnerCounts(lists: seq<seq<nat>>)
    requires forall k :: 0 <= k < |lists| ==> StrictlyIncreasing(lists[k])
    ensures forall k :: 0 <= k < |lists| ==> |WinnerSets(lists)[k]| == |lists[k]|
  {
    forall k | 0 <= k < |lists| ensures |WinnerSets(lists)[k]| == |lists[k]| {
      SetOfIncreasing(lists[k]);
      assert WinnerSets(lists)[k] == Elements(lists[k]);
    }
  }

  /** all_rules returns four index lists, each without repetitions. */
  lemma SolveAllIncreasing(e: Election, lamb: real)
    requires Covers(e) && SolveAll(e, lamb).Success?
    ensures var ws := SolveAll(e, lamb).value;
            && |ws| == RuleCount
            && forall k :: 0 <= k < RuleCount ==> StrictlyIncreasing(IdxLists(ws)[k])
  {
    SolveAllMatchesSolvers(e, lamb);
    var kem, kn := SolveKemeny(e), SolveKemNash(e, lamb);
    var mh, me := SolveMaxham(e).value, SolveMaxeq(e).value;
    assert StrictlyIncreasing(kem.idxs) && StrictlyIncreasing(kn.idxs);
    assert StrictlyIncreasing(mh.idxs) && StrictlyIncreasing(me.idxs);
    FourIncreasing(SolveAll(e, lamb).value, kem, kn, mh, me);
  }

  lemma FourIncreasing(ws: seq<Winners>, a: Winners, b: Winners, c: Winners, d: Winners)
    requires ws == [a, b, c, d]
    requires StrictlyIncreasing(a.idxs) && StrictlyIncreasing(b.idxs)
    requires StrictlyIncreasing(c.idxs) && StrictlyIncreasing(d.idxs)
    ensures forall k :: 0 <= k < |ws| ==> StrictlyIncreasing(IdxLists(ws)[k])
  {
    forall k | 0 <= k < |ws| ensures StrictlyIncreasing(IdxLists(ws)[k]) {
      assert IdxLists(ws)[k] == ws[k].idxs;
    }
  }

  // ---------------------------------------------------------------------
  // Profile construction

  /** The number_voters draws of the k-th profile under the l-th lambda. */
  function SweepDraws(draw: (nat, nat, nat) -> nat, l: nat, k: nat, numberVoters: nat): (r: seq<nat>)
    ensures |r| == numberVoters
  {
    seq(numberVoters, j requires 0 <= j => draw(l, k, j))
  }

  /** The profile the k-th index becomes under the l-th lambda. */
  function SweepProfile(w: Sweep, index: Index, draw: (nat, nat, nat) -> nat, l: nat, k: nat): Profile
    requires SweepReady(w)
  {
    Tally(w.ins, Drawn(index, SweepDraws(draw, l, k, w.numberVoters)), |w.ins|)
  }

  /** A profile depends only on which indices occur how often, so sorting
      the draws first changes nothing. */
  lemma {:induction false} TallyOrderFree(ins: seq<JDict>, a: seq<nat>, b: seq<nat>, n: nat)
    requires n <= |ins| && multiset(a) == multiset(b)
    ensures Tally(ins, a, n) == Tally(ins, b, n)
  {
    if n > 0 {
      TallyOrderFree(ins, a, b, n - 1);
      assert CountOf(a, n - 1) == CountOf(b, n - 1);
    }
  }

  /** The draws as written: `random.choices(range(len(out_consistent)))`.
      Draws at or above len(in_consistent) match no judgment and are lost. */
  function SampledProfileAsWritten(ins: seq<JDict>, outs: seq<JDict>, draws: seq<nat>): (p: Profile)
    requires forall j :: 0 <= j < |draws| ==> draws[j] < |outs|
    ensures Voters(p) == CountBelow(draws, |ins|)
  {
    TallyVoters(ins, draws, |ins|);
    Tally(ins, draws, |ins|)
  }

  /** With two rational judgments, three feasible outcomes and two voters,
      the draws (0, 2) are allowed but give a one-voter profile, which
      qualitative_analysis then indexes past its end. */
  lemma SampledProfileLosesVoters()
    ensures var ins: seq<JDict> := [[("p", true)], [("p", false)]];
            var outs: seq<JDict> := [[("p", true)], [("p", false)], [("p", true)]];
            var p := SampledProfileAsWritten(ins, outs, [0, 2]);
            && Voters(p) == 1
            && QualitativeGuard(Sweep(["p"], ins, outs, 2, true, 1), p) == Some(VoterIndexOutOfRange)
  {
    var ins: seq<JDict> := [[("p", true)], [("p", false)]];
    assert CountOf([0, 2], 0) == 1;
    assert CountOf([0, 2], 1) == 0;
    assert CountBelow([0, 2], 2) == 1;
  }

  /** The draws as intended, over range(len(in_consistent)): the profile
      has exactly number_voters voters. */
  function SampledProfile(ins: seq<JDict>, draws: seq<nat>): (p: Profile)
    requires forall j :: 0 <= j < |draws| ==> draws[j] < |ins|
    ensures Voters(p) == |draws|
  {
    TallyWeight(ins, draws);
    Tally(ins, draws, |ins|)
  }

  // ---------------------------------------------------------------------
  // The sweep

  /** An index of the sweep: a random profile when sampling, every
      combination with replacement otherwise (rebuilt for each lambda). */
  function SweepIndices(w: Sweep): (r: seq<Index>)
    requires SweepReady(w)
    ensures w.sampling ==> |r| == w.profTest && forall k :: 0 <= k < |r| ==> r[k].Simulated?
    ensures !w.sampling ==> r == Chosen(Pool(|w.ins|, w.numberVoters), 0, [])
  {
    if w.sampling then seq(w.profTest, _ => Simulated)
    else Chosen(Pool(|w.ins|, w.numberVoters), 0, [])
  }

  /** The profile loop of one lambda, from the k-th index on. */
  function LambRunFrom(w: Sweep, lamb: real, l: nat, cum: Cum, indices: seq<Index>,
                       draw: (nat, nat, nat) -> nat, k: nat): (r: Result<Cum, LambError>)
    requires SweepReady(w) && Shaped(cum.quan)
    ensures r.Success? ==> Shaped(r.value.quan)
    decreases |indices|
  {
    if indices == [] then Success(cum)
    else
      var next :- LambStep(w, lamb, cum, SweepProfile(w, indices[0], draw, l, k));
      assert Shaped(next.quan);
      LambRunFrom(w, lamb, l, next, indices[1..], draw, k + 1)
  }

  lemma {:induction false} LambStepShaped(w: Sweep, lamb: real, cum: Cum, profile: Profile)
    requires SweepReady(w) && Shaped(cum.quan) && LambStep(w, lamb, cum, profile).Success?
    ensures Shaped(LambStep(w, lamb, cum, profile).value.quan)
  {
  }

  /** The accumulated counters stay bounded over a whole lambda. */
  lemma {:induction false} LambRunBounded(w: Sweep, lamb: real, l: nat, cum: Cum, indices: seq<Index>,
                                          draw: (nat, nat, nat) -> nat, k: nat)
    requires SweepReady(w) && Bounded(cum.quan)
    requires LambRunFrom(w, lamb, l, cum, indices, draw, k).Success?
    ensures Bounded(LambRunFrom(w, lamb, l, cum, indices, draw, k).value.quan)
    decreases |indices|
  {
    if indices != [] {
      var profile := SweepProfile(w, indices[0], draw, l, k);
      var ws := SolveAll(SweepElection(w, profile), lamb).value;
      QuanUpdateBounded(cum.quan, WinnerSets(IdxLists(ws)));
      LambRunBounded(w, lamb, l, LambStep(w, lamb, cum, profile).value, indices[1..], draw, k + 1);
    }
  }

  /** When every judge is drawn from in_consistent, no profile of the
      sweep falls short of number_voters voters. */
  lemma {:induction false} SweepProfileFull(w: Sweep, index: Index, draw: (nat, nat, nat) -> nat, l: nat, k: nat)
    requires SweepReady(w)
    requires index.Tuple? ==> IsCombination(index.t, 0, |w.ins|, w.numberVoters)
    requires forall j: nat :: draw(l, k, j) < |w.ins|
    ensures Voters(SweepProfile(w, index, draw, l, k)) == w.numberVoters
  {
    var ix := Drawn(index, SweepDraws(draw, l, k, w.numberVoters));
    if index.Tuple? {
      assert |ix| == w.numberVoters;
    }
    TallyWeight(w.ins, ix);
  }

  /** With the draws over in_consistent, no profile of the sweep makes
      qualitative_analysis index past the profile's end. */
  lemma SweepStepInRange(w: Sweep, lamb: real, cum: Cum, index: Index,
                         draw: (nat, nat, nat) -> nat, l: nat, k: nat)
    requires SweepReady(w) && Shaped(cum.quan)
    requires index.Tuple? ==> IsCombination(index.t, 0, |w.ins|, w.numberVoters)
    requires forall j: nat :: draw(l, k, j) < |w.ins|
    ensures LambStep(w, lamb, cum, SweepProfile(w, index, draw, l, k)) != Failure(VoterIndexOutOfRange)
  {
    SweepProfileFull(w, index, draw, l, k);
  }

  /** No more voters than indices: out-of-range draws only lose voters. */
  lemma {:induction false} CountBelowAtMost(index: seq<nat>, n: nat)
    ensures CountBelow(index, n) <= |index|
    decreases |index|
  {
    if index == [] {
      CountBelowEmpty(n);
    } else {
      var init := index[..|index| - 1];
      CountBelowAtMost(init, n);
      CountBelowAppend(init, index[|index| - 1], n);
      assert init + [index[|index| - 1]] == index;
    }
  }

  /** With maxdistMaxeq at zero, a run with one voter per profile leaves it
      at zero: a single agreement has no spread. */
  lemma {:induction false} OneVoterRunNoSpread(w: Sweep, lamb: real, l: nat, cum: Cum, indices: seq<Index>,
                                               draw: (nat, nat, nat) -> nat, k: nat)
    requires SweepReady(w) && Shaped(cum.quan) && cum.qual.maxdistMaxeq == 0.0
    requires forall i :: 0 <= i < |indices| && indices[i].Tuple? ==> |indices[i].t| == 1
    requires w.numberVoters == 1
    requires LambRunFrom(w, lamb, l, cum, indices, draw, k).Success?
    ensures LambRunFrom(w, lamb, l, cum, indices, draw, k).value.qual.maxdistMaxeq == 0.0
    decreases |indices|
  {
    if indices != [] {
      var next := OneVoterRunStep(w, lamb, l, cum, indices, draw, k);
      OneVoterRunNoSpread(w, lamb, l, next, indices[1..], draw, k + 1);
    }
  }

  /** The first profile of a one-voter run. */
  lemma OneVoterRunStep(w: Sweep, lamb: real, l: nat, cum: Cum, indices: seq<Index>,
                        draw: (nat, nat, nat) -> nat, k: nat) returns (next: Cum)
    requires SweepReady(w) && Shaped(cum.quan) && indices != []
    requires forall i :: 0 <= i < |indices| && indices[i].Tuple? ==> |indices[i].t| == 1
    requires w.numberVoters == 1
    requires LambRunFrom(w, lamb, l, cum, indices, draw, k).Success?
    ensures Shaped(next.quan) && next.qual.maxdistMaxeq == cum.qual.maxdistMaxeq
    ensures forall i :: 0 <= i < |indices[1..]| && indices[1..][i].Tuple? ==> |indices[1..][i].t| == 1
    ensures LambRunFrom(w, lamb, l, next, indices[1..], draw, k + 1) == LambRunFrom(w, lamb, l, cum, indices, draw, k)
  {
    var profile := SweepProfile(w, indices[0], draw, l, k);
    next := LambStep(w, lamb, cum, profile).value;
    SweepProfileAtMost(w, indices[0], draw, l, k);
    OneVoterStepNoSpread(w, lamb, cum, profile);
    assert forall i :: 0 <= i < |indices[1..]| ==> indices[1..][i] == indices[i + 1];
  }

  /** A profile has at most number_voters voters. */
  lemma SweepProfileAtMost(w: Sweep, index: Index, draw: (nat, nat, nat) -> nat, l: nat, k: nat)
    requires SweepReady(w)
    requires index.Tuple? ==> |index.t| == w.numberVoters
    ensures Voters(SweepProfile(w, index, draw, l, k)) <= w.numberVoters
  {
    var ix := Drawn(index, SweepDraws(draw, l, k, w.numberVoters));
    assert |ix| == w.numberVoters;
    TallyVoters(w.ins, ix, |w.ins|);
    CountBelowAtMost(ix, |w.ins|);
  }

  /** A successful step on a one-voter profile adds nothing to
      maxdistMaxeq. */
  lemma OneVoterStepNoSpread(w: Sweep, lamb: real, cum: Cum, profile: Profile)
    requires SweepReady(w) && Shaped(cum.quan) && Voters(profile) <= 1
    requires LambStep(w, lamb, cum, profile).Success?
    ensures LambStep(w, lamb, cum, profile).value.qual.maxdistMaxeq == cum.qual.maxdistMaxeq
  {
    LambStepQual(w, lamb, cum, profile);
    var ws := IdxLists(SolveAll(SweepElection(w, profile), lamb).value);
    QualStepAdds(w, profile, ws, cum.qual);
    OneVoterNoSpread(AgreementVectors(SweepElection(w, profile), 0.0));
  }

  /** With number_voters = 1 no lambda yields a row: every profile's Maxeq
      winners have spread 0, so when every profile is processed
      cumQual['maxdistMaxeq'] is 0 and result() divides by it. */
  lemma OneVoterNoRow(w: Sweep, lamb: real, l: nat, draw: (nat, nat, nat) -> nat)
    requires SweepReady(w) && w.numberVoters == 1
    ensures LambRow(w, lamb, l, SweepIndices(w), draw).Failure?
    ensures LambRunFrom(w, lamb, l, Start, SweepIndices(w), draw, 0).Success? ==>
              LambRow(w, lamb, l, SweepIndices(w), draw) == Failure(DivisionByZero)
  {
    var indices := SweepIndices(w);
    if !w.sampling {
      ChosenAreCombinations(|w.ins|, 1, 0, []);
    }
    if LambRunFrom(w, lamb, l, Start, indices, draw, 0).Success? {
      OneVoterRunNoSpread(w, lamb, l, Start, indices, draw, 0);
    }
  }

  /** One lambda's row of `final`: symdif<pair> / prof_test /
      len(out_consistent) and sol<Rule> / prof_test. */
  datatype Row = Row(symdif: seq<real>, solPerProf: seq<real>)

  /** The denominators of the R-ratios: a zero one raises ZeroDivisionError. */
  predicate RatioUndefined(q: QualTotals) {
    q.meanKem == 0.0 || q.lowMaxham == 0.0 || q.maxdistMaxeq == 0.0
  }

  /** The processing of one lambda's totals: the divisions by prof_test and
      len(out_consistent), then those by meanKem, lowMaxham and
      maxdistMaxeq. */
  function Normalise(w: Sweep, t: Cum): (r: Result<Row, LambError>)
    requires Shaped(t.quan)
    ensures r.Failure? <==> w.profTest == 0 || w.outs == [] || RatioUndefined(t.qual)
    ensures r.Failure? ==> r.error == DivisionByZero
    ensures r.Success? ==>
              && |r.value.symdif| == |Pairs| && |r.value.solPerProf| == RuleCount
              && (forall c :: 0 <= c < |Pairs| ==>
                    r.value.symdif[c] == t.quan.symdif[c] as real / w.profTest as real / |w.outs| as real)
              && (forall i :: 0 <= i < RuleCount ==> r.value.solPerProf[i] == t.quan.sol[i] as real / w.profTest as real)
  {
    if w.profTest == 0 || w.outs == [] then Failure(DivisionByZero)
    else if RatioUndefined(t.qual) then Failure(DivisionByZero)
    else
      Success(Row(
        seq(|Pairs|, c requires 0 <= c < |Pairs| => t.quan.symdif[c] as real / w.profTest as real / |w.outs| as real),
        seq(RuleCount, i requires 0 <= i < RuleCount => t.quan.sol[i] as real / w.profTest as real)))
  }

  /** A real fraction with a positive denominator is monotone in its
      numerator and distributes over a sum. */
  lemma FractionMonotone(a: real, b: real, c: real, d: real)
    requires 0.0 < d && a <= b + c
    ensures a / d <= b / d + c / d
  {
    assert b / d + c / d == (b + c) / d;
  }

  /** Normalised, a pair's symmetric difference per profile is at most the
      two rules' winners per profile together, over len(out_consistent). */
  lemma NormalisedBound(w: Sweep, t: Cum)
    requires Bounded(t.quan) && Normalise(w, t).Success?
    ensures var row := Normalise(w, t).value;
            forall c :: 0 <= c < |Pairs| ==>
              row.symdif[c] <= (row.solPerProf[Pairs[c].0] + row.solPerProf[Pairs[c].1]) / |w.outs| as real
  {
    var row := Normalise(w, t).value;
    var p, o := w.profTest as real, |w.outs| as real;
    forall c | 0 <= c < |Pairs|
      ensures row.symdif[c] <= (row.solPerProf[Pairs[c].0] + row.solPerProf[Pairs[c].1]) / o
    {
      var a, b := Pairs[c].0, Pairs[c].1;
      var q := t.quan;
      FractionMonotone(q.symdif[c] as real, q.sol[a] as real, q.sol[b] as real, p);
      FractionMonotone(q.symdif[c] as real / p, q.sol[a] as real / p, q.sol[b] as real / p, o);
      assert row.solPerProf[a] + row.solPerProf[b] == q.sol[a] as real / p + q.sol[b] as real / p;
      assert (q.sol[a] as real / p + q.sol[b] as real / p) / o == q.sol[a] as real / p / o + q.sol[b] as real / p / o;
    }
  }

  /** The `final` lists: one per compared pair and one per rule. */
  datatype Final = Final(symdif: seq<seq<real>>, solPerProf: seq<seq<real>>)

  const EmptyFinal: Final := Final(seq(|Pairs|, _ => []), seq(RuleCount, _ => []))

  /** Every list of `final` has m entries. */
  predicate FinalOfLength(f: Final, m: nat) {
    && |f.symdif| == |Pairs| && |f.solPerProf| == RuleCount
    && (forall c :: 0 <= c < |Pairs| ==> |f.symdif[c]| == m)
    && (forall i :: 0 <= i < RuleCount ==> |f.solPerProf[i]| == m)
  }

  function AppendRow(f: Final, row: Row): (r: Final)
    requires |f.symdif| == |row.symdif| == |Pairs| && |f.solPerProf| == |row.solPerProf| == RuleCount
    ensures forall m: nat :: FinalOfLength(f, m) ==> FinalOfLength(r, m + 1)
  {
    Final(seq(|Pairs|, c requires 0 <= c < |Pairs| => f.symdif[c] + [row.symdif[c]]),
          seq(RuleCount, i requires 0 <= i < RuleCount => f.solPerProf[i] + [row.solPerProf[i]]))
  }

  /** The row of the l-th lambda over the profile indices: its counters
      start from zero. */
  function LambRow(w: Sweep, lamb: real, l: nat, indices: seq<Index>, draw: (nat, nat, nat) -> nat): Result<Row, LambError>
    requires SweepReady(w)
  {
    var totals :- LambRunFrom(w, lamb, l, Start, indices, draw, 0);
    Normalise(w, totals)
  }

  predicate RowShaped(row: Row) {
    |row.symdif| == |Pairs| && |row.solPerProf| == RuleCount
  }

  /** The rows the for-loop over lambdas computes, the i-th under lambs[i]
      with its counters reset to zero. */
  function LambRows(w: Sweep, lambs: seq<real>, indices: seq<Index>, draw: (nat, nat, nat) -> nat): (rows: seq<Result<Row, LambError>>)
    requires SweepReady(w)
    ensures |rows| == |lambs|
    ensures forall i :: 0 <= i < |rows| ==> rows[i].Success? ==> RowShaped(rows[i].value)
  {
    seq(|lambs|, i requires 0 <= i < |lambs| => LambRow(w, lambs[i], i, indices, draw))
  }

  /** Appending the rows to `final` in order; the first failing lambda
      stops the sweep. */
  function Collect(f: Final, rows: seq<Result<Row, LambError>>): Result<Final, LambError>
    requires |f.symdif| == |Pairs| && |f.solPerProf| == RuleCount
    requires forall i :: 0 <= i < |rows| ==> rows[i].Success? ==> RowShaped(rows[i].value)
    decreases |rows|
  {
    if rows == [] then Success(f)
    else if rows[0].Failure? then Failure(rows[0].error)
    else
      assert RowShaped(rows[0].value);
      assert forall i :: 0 <= i < |rows[1..]| ==> rows[1..][i] == rows[i + 1];
      Collect(AppendRow(f, rows[0].value), rows[1..])
  }

  /** `r` holds `row` at position `pos` of every list. */
  predicate HoldsRow(r: Final, pos: nat, row: Row) {
    && |r.symdif| == |row.symdif| == |Pairs| && |r.solPerProf| == |row.solPerProf| == RuleCount
    && (forall c :: 0 <= c < |Pairs| ==> pos < |r.symdif[c]| && r.symdif[c][pos] == row.symdif[c])
    && (forall c :: 0 <= c < RuleCount ==> pos < |r.solPerProf[c]| && r.solPerProf[c][pos] == row.solPerProf[c])
  }

  /** `r` agrees with `f` on the first m positions of every list. */
  predicate KeepsPrefix(f: Final, r: Final, m: nat)
    requires FinalOfLength(f, m)
  {
    && |r.symdif| == |Pairs| && |r.solPerProf| == RuleCount
    && (forall c :: 0 <= c < |Pairs| ==> f.symdif[c] <= r.symdif[c])
    && (forall c :: 0 <= c < RuleCount ==> f.solPerProf[c] <= r.solPerProf[c])
  }

  lemma AppendRowKept(f: Final, row: Row, r: Final, m: nat)
    requires FinalOfLength(f, m) && |row.symdif| == |Pairs| && |row.solPerProf| == RuleCount
    requires KeepsPrefix(AppendRow(f, row), r, m + 1)
    ensures KeepsPrefix(f, r, m) && HoldsRow(r, m, row)
  {
    var f' := AppendRow(f, row);
    forall c | 0 <= c < |Pairs| ensures f.symdif[c] <= r.symdif[c] && r.symdif[c][m] == row.symdif[c] {
      assert f'.symdif[c] == f.symdif[c] + [row.symdif[c]];
      assert f'.symdif[c] <= r.symdif[c];
      assert r.symdif[c][m] == f'.symdif[c][m];
    }
    forall c | 0 <= c < RuleCount ensures f.solPerProf[c] <= r.solPerProf[c] && r.solPerProf[c][m] == row.solPerProf[c] {
      assert f'.solPerProf[c] == f.solPerProf[c] + [row.solPerProf[c]];
      assert f'.solPerProf[c] <= r.solPerProf[c];
      assert r.solPerProf[c][m] == f'.solPerProf[c][m];
    }
  }

  /** Entry i of every list that Collect appends to is row i, after the
      m entries that were there; every list gains one entry per row. */
  lemma {:induction false} CollectRows(f: Final, rows: seq<Result<Row, LambError>>, m: nat)
    requires FinalOfLength(f, m)
    requires forall i :: 0 <= i < |rows| ==> rows[i].Success? ==> RowShaped(rows[i].value)
    requires Collect(f, rows).Success?
    ensures var r := Collect(f, rows).value;
            && FinalOfLength(r, m + |rows|)
            && KeepsPrefix(f, r, m)
            && forall i :: 0 <= i < |rows| ==> rows[i].Success? && HoldsRow(r, m + i, rows[i].value)
    decreases |rows|
  {
    var r := Collect(f, rows).value;
    if rows == [] {
      assert r == f;
    } else {
      var row := rows[0].value;
      var f' := AppendRow(f, row);
      CollectRows(f', rows[1..], m + 1);
      assert r == Collect(f', rows[1..]).value;
      AppendRowKept(f, row, r, m);
      forall i | 0 <= i < |rows| ensures rows[i].Success? && HoldsRow(r, m + i, rows[i].value) {
        if i > 0 {
          assert rows[1..][i - 1] == rows[i];
          assert m + 1 + (i - 1) == m + i;
        }
      }
    }
  }

  /** The per-lambda reset: entry i of every `final` list is row i, the
      normalised result of a run for lambs[i] that started from zero
      counters, whatever the earlier lambdas accumulated; every list has one
      entry per lambda. */
  lemma LambdasIndependent(w: Sweep, lambs: seq<real>, indices: seq<Index>, draw: (nat, nat, nat) -> nat)
    requires SweepReady(w)
    requires Collect(EmptyFinal, LambRows(w, lambs, indices, draw)).Success?
    ensures var r := Collect(EmptyFinal, LambRows(w, lambs, indices, draw)).value;
            && FinalOfLength(r, |lambs|)
            && forall i :: 0 <= i < |lambs| ==>
                 && LambRow(w, lambs[i], i, indices, draw).Success?
                 && HoldsRow(r, i, LambRow(w, lambs[i], i, indices, draw).value)
  {
    var rows := LambRows(w, lambs, indices, draw);
    EmptyFinalShape();
    CollectFromEmpty(EmptyFinal, rows);
    forall i | 0 <= i < |lambs|
      ensures rows[i] == LambRow(w, lambs[i], i, indices, draw)
    {
    }
  }

  /** Collecting rows into a `final` with empty lists puts row i at
      position i. */
  lemma CollectFromEmpty(f: Final, rows: seq<Result<Row, LambError>>)
    requires FinalOfLength(f, 0)
    requires forall i :: 0 <= i < |rows| ==> rows[i].Success? ==> RowShaped(rows[i].value)
    requires Collect(f, rows).Success?
    ensures var r := Collect(f, rows).value;
            && FinalOfLength(r, |rows|)
            && forall i :: 0 <= i < |rows| ==> rows[i].Success? && HoldsRow(r, i, rows[i].value)
  {
    CollectRows(f, rows, 0);
    var r := Collect(f, rows).value;
    forall i | 0 <= i < |rows| ensures rows[i].Success? && HoldsRow(r, i, rows[i].value) {
      assert HoldsRow(r, 0 + i, rows[i].value);
    }
  }

  lemma EmptyFinalShape()
    ensures FinalOfLength(EmptyFinal, 0)
  {
  }

  // ---------------------------------------------------------------------
  // The class

  /** The sampling policy of __init__: sample when num_profs exceeds
      `sample`; prof_test is then `sample`, else num_profs. */
  function Policy(numProfs: nat, sample: nat): (p: (bool, nat))
    ensures p.0 <==> numProfs > sample
    ensures p.1 <= numProfs && p.1 <= sample && (p.1 == numProfs || p.1 == sample)
  {
    if numProfs > sample then (true, sample) else (false, numProfs)
  }

  /** What all_outcomes answers for "all_rules" with the index
      representation: the four index lists of solve_all. */
  lemma AllRulesReply(e: Election, lamb: real, legacy: seq<JDict>, rule: Rule, reply: Reply)
    requires Covers(e) && !MinUndefined(e) && rule == AllRules
    requires reply == Present(false, true, Solve(e, rule, lamb, legacy).0, Solve(e, rule, lamb, legacy).1)
    ensures SolveAll(e, lamb).Success?
    ensures reply.Indexed? && reply.idxs.PerRule? && reply.idxs.lists == IdxLists(SolveAll(e, lamb).value)
  {
    assert Solve(e, rule, lamb, legacy) == AllWinnersOf(SolveAll(e, lamb).value);
  }

  /** The profile step computed with the solver object, the method that
      updates cumQuan and the qualitative update; `idxs` are the winner sets
      when all_rules answers. */
  method SweepStep(bfs: BFSolver, w: Sweep, lamb: real, cum: Cum, profile: Profile)
    returns (idxs: Option<seq<set<nat>>>, r: Result<Cum, LambError>)
    requires !bfs.binrep && bfs.idxRep
    requires SweepReady(w) && Shaped(cum.quan)
    modifies bfs
    ensures r == LambStep(w, lamb, cum, profile)
    ensures idxs == SolvedIdxs(w, lamb, profile)
  {
    var e := SweepElection(w, profile);
    var rule := ParseRule("all_rules");
    assert rule == Some(AllRules);
    var reply := bfs.AllOutcomes(e, "all_rules", lamb);
    if reply.Failure? {
      assert MinUndefined(e) && reply.error == EmptyAgreement;
      return None, Failure(SolveFailed(reply.error));
    }
    AllRulesReply(e, lamb, Pick(e.outConsistent, LegacyFold(LegacyScores(e), |e.outConsistent|).1), rule.value, reply.value);
    var lists := reply.value.idxs.lists;
    var sets := WinnerSets(lists);
    idxs := Some(sets);
    var quan := QuantitativeAnalysis(cum.quan, sets);
    var guard := QualitativeGuard(w, profile);
    if guard.Some? {
      return idxs, Failure(guard.value);
    }
    SolveAllRuleWinners(w, profile, lamb);
    var qual := QualStep(w, profile, lists, cum.qual);
    assert qual.Success?;
    r := Success(Cum(quan, qual.value));
  }

  class CompareKemnash {
    const scenario: Classes.Scenario
    const lambs: seq<real>
    const single: bool
    const sample: bool
    const profTest: nat
    var indices: seq<Index>
    var idxs: seq<set<nat>>

    /** __init__: `single` marks a one-lambda sweep; sampling mode is on
        when num_profs exceeds `sample`. */
    constructor(scenario: Classes.Scenario, lambs: seq<real>, sample: nat)
      ensures this.scenario == scenario && this.lambs == lambs
      ensures single <==> |lambs| == 1
      ensures (this.sample, profTest) == Policy(scenario.numProfs, sample)
      ensures this.sample ==> indices == seq(sample, _ => Simulated)
      ensures idxs == []
    {
      this.scenario := scenario;
      this.lambs := lambs;
      single := |lambs| == 1;
      if scenario.numProfs > sample {
        this.sample := true;
        profTest := sample;
        indices := seq(sample, _ => Simulated);
      } else {
        this.sample := false;
        profTest := scenario.numProfs;
        indices := [];
      }
      idxs := [];
    }

    /** What the sweep reads of the scenario and of the object. */
    function SweepOf(): Sweep
      reads scenario`agenda, scenario`inConsistent, scenario`outConsistent, scenario`numberVoters
    {
      Sweep(Values(scenario.agenda), scenario.inConsistent, scenario.outConsistent,
            if scenario.numberVoters >= 0 then scenario.numberVoters else 0, sample, profTest)
    }

    /** The indices the object iterates: the sampling list it keeps, or
        the enumeration it rebuilds. */
    predicate IndicesFit()
      reads this`indices, scenario`agenda, scenario`inConsistent, scenario`outConsistent, scenario`numberVoters
      requires SweepReady(SweepOf())
    {
      sample ==> indices == SweepIndices(SweepOf())
    }

    /** What the first k profiles of the l-th lambda's loop leave in the
        scenario's profile and in `idxs`: the k-th index's profile and its
        winner sets, or, before the first, `p0` and `i0` as they were. */
    predicate LeftAfter(w: Sweep, lamb: real, l: nat, draw: (nat, nat, nat) -> nat, ix: seq<Index>, k: nat,
                        p0: Profile, i0: seq<set<nat>>)
      reads this`idxs, scenario`profile
      requires SweepReady(w) && k <= |ix|
    {
      if k == 0 then scenario.profile == p0 && idxs == i0
      else
        && scenario.profile == SweepProfile(w, ix[k - 1], draw, l, k - 1)
        && SolvedIdxs(w, lamb, scenario.profile) == Some(idxs)
    }

    /** What the l-th lambda's loop over a non-empty `ix` leaves when it
        runs to the end: the last index's profile and its winner sets. */
    predicate LeftAt(w: Sweep, lamb: real, l: nat, draw: (nat, nat, nat) -> nat, ix: seq<Index>)
      reads this`idxs, scenario`profile
      requires SweepReady(w) && ix != []
    {
      && scenario.profile == SweepProfile(w, ix[|ix| - 1], draw, l, |ix| - 1)
      && SolvedIdxs(w, lamb, scenario.profile) == Some(idxs)
    }

    /** One lambda: reset cumQuan and cumQual, rebuild the enumeration when
        not sampling, run every profile. */
    method RunLambda(bfs: BFSolver, lamb: real, l: nat, draw: (nat, nat, nat) -> nat)
      returns (r: Result<Cum, LambError>)
      requires !bfs.binrep && bfs.idxRep
      requires SweepReady(SweepOf()) && IndicesFit()
      requires scenario.numberVoters >= 0
      modifies this`indices, this`idxs, scenario`profile, bfs
      ensures indices == SweepIndices(SweepOf())
      ensures r == LambRunFrom(SweepOf(), lamb, l, Start, SweepIndices(SweepOf()), draw, 0)
      ensures r.Success? && indices != [] ==> LeftAt(SweepOf(), lamb, l, draw, indices)
      ensures indices == [] ==> scenario.profile == old(scenario.profile) && idxs == old(idxs)
    {
      if !sample {
        indices := Chosen(Pool(|scenario.inConsistent|, scenario.numberVoters), 0, []);
      }
      r := RunIndices(bfs, SweepOf(), lamb, l, draw);
    }

    /** The profile loop of one lambda over the indices, from zero counters. */
    method RunIndices(bfs: BFSolver, w: Sweep, lamb: real, l: nat, draw: (nat, nat, nat) -> nat)
      returns (r: Result<Cum, LambError>)
      requires !bfs.binrep && bfs.idxRep
      requires SweepReady(w) && w == SweepOf() && indices == SweepIndices(w)
      modifies this`idxs, scenario`profile, bfs
      ensures r == LambRunFrom(w, lamb, l, Start, indices, draw, 0)
      ensures r.Success? && indices != [] ==> LeftAt(w, lamb, l, draw, indices)
      ensures indices == [] ==> scenario.profile == old(scenario.profile) && idxs == old(idxs)
    {
      var cum := Start;
      for k := 0 to |indices|
        invariant Shaped(cum.quan)
        invariant LambRunFrom(w, lamb, l, Start, indices, draw, 0)
                  == LambRunFrom(w, lamb, l, cum, indices[k..], draw, k)
        invariant LeftAfter(w, lamb, l, draw, indices, k, old(scenario.profile), old(idxs))
      {
        assert indices[k..][1..] == indices[k + 1..];
        var step := RunProfile(bfs, w, lamb, l, indices, k, cum, draw, old(scenario.profile), old(idxs));
        if step.Failure? {
          return Failure(step.error);
        }
        cum := step.value;
      }
      assert indices[|indices|..] == [];
      r := Success(cum);
    }

    /** One profile of the loop: build it and store it in the scenario,
        solve it and keep the winner sets, and update the counters. */
    method RunProfile(bfs: BFSolver, w: Sweep, lamb: real, l: nat, ix: seq<Index>, k: nat, cum: Cum,
                      draw: (nat, nat, nat) -> nat, ghost p0: Profile, ghost i0: seq<set<nat>>)
      returns (r: Result<Cum, LambError>)
      requires !bfs.binrep && bfs.idxRep
      requires SweepReady(w) && Shaped(cum.quan) && k < |ix|
      modifies this`idxs, scenario`profile, bfs
      ensures scenario.profile == SweepProfile(w, ix[k], draw, l, k)
      ensures r == LambStep(w, lamb, cum, scenario.profile)
      ensures SolvedIdxs(w, lamb, scenario.profile).Some? ==> idxs == SolvedIdxs(w, lamb, scenario.profile).value
      ensures SolvedIdxs(w, lamb, scenario.profile).None? ==> idxs == old(idxs)
      ensures r.Success? ==> Shaped(r.value.quan) && LeftAfter(w, lamb, l, draw, ix, k + 1, p0, i0)
    {
      var index := ix[k];
      var profile := ConstructProfile(w.ins, w.numberVoters, index, SweepDraws(draw, l, k, w.numberVoters));
      assert profile == SweepProfile(w, index, draw, l, k);
      scenario.profile := profile;
      var stepIdxs, step := SweepStep(bfs, w, lamb, cum, profile);
      if stepIdxs.Some? {
        idxs := stepIdxs.value;
      }
      if step.Success? {
        LambStepShaped(w, lamb, cum, profile);
        LambStepQual(w, lamb, cum, profile);
      }
      r := step;
    }

    /** The processing of one lambda's totals into its row. */
    method LambdaRow(bfs: BFSolver, lamb: real, l: nat, draw: (nat, nat, nat) -> nat)
      returns (r: Result<Row, LambError>)
      requires !bfs.binrep && bfs.idxRep
      requires SweepReady(SweepOf()) && IndicesFit()
      requires scenario.numberVoters >= 0
      modifies this`indices, this`idxs, scenario`profile, bfs
      ensures SweepOf() == old(SweepOf()) && IndicesFit()
      ensures indices == SweepIndices(SweepOf())
      ensures r == LambRow(SweepOf(), lamb, l, SweepIndices(SweepOf()), draw)
      ensures r.Success? ==> RowShaped(r.value)
      ensures r.Success? && SweepIndices(SweepOf()) != [] ==> LeftAt(SweepOf(), lamb, l, draw, SweepIndices(SweepOf()))
      ensures SweepIndices(SweepOf()) == [] ==> scenario.profile == old(scenario.profile) && idxs == old(idxs)
    {
      var w := SweepOf();
      var totals := RunLambda(bfs, lamb, l, draw);
      if totals.Failure? {
        return Failure(totals.error);
      }
      r := Normalise(w, totals.value);
    }

    /** What the m-th lambda's loop leaves when it runs to the end. */
    predicate LeftAtLambda(draw: (nat, nat, nat) -> nat, m: nat)
      reads this`idxs, scenario`profile
      reads scenario`agenda, scenario`inConsistent, scenario`outConsistent, scenario`numberVoters
      requires SweepReady(SweepOf()) && SweepIndices(SweepOf()) != [] && 0 < m <= |lambs|
    {
      LeftAt(SweepOf(), lambs[m - 1], m - 1, draw, SweepIndices(SweepOf()))
    }

    /** result(), integer parts and the R-ratio denominators: one row of
        `final` per lambda.  `draw(l, k, j)` is the j-th judge of the k-th
        sampled profile under the l-th lambda, drawn, as written, from
        range(len(out_consistent)). */
    method Result(draw: (nat, nat, nat) -> nat) returns (r: Result<Final, LambError>)
      requires SweepReady(SweepOf()) && IndicesFit()
      requires scenario.outConsistent != [] ==>
                 forall l: nat, k: nat, j: nat :: draw(l, k, j) < |scenario.outConsistent|
      requires scenario.numberVoters >= 0
      modifies this`indices, this`idxs, scenario`profile
      ensures r == Collect(EmptyFinal, LambRows(SweepOf(), lambs, SweepIndices(SweepOf()), draw))
      ensures r.Success? ==> FinalOfLength(r.value, |lambs|)
      ensures r.Success? && lambs != [] && SweepIndices(SweepOf()) != [] ==> LeftAtLambda(draw, |lambs|)
      ensures lambs == [] || SweepIndices(SweepOf()) == [] ==>
                scenario.profile == old(scenario.profile) && idxs == old(idxs)
      ensures lambs != [] ==> indices == SweepIndices(SweepOf())
      ensures lambs == [] ==> indices == old(indices)
    {
      var bfs := new BFSolver(false, true);
      r := RunLambdas(bfs, draw);
    }

    /** The lambda loop of result(), from an empty `final`. */
    method RunLambdas(bfs: BFSolver, draw: (nat, nat, nat) -> nat) returns (r: Result<Final, LambError>)
      requires !bfs.binrep && bfs.idxRep
      requires SweepReady(SweepOf()) && IndicesFit()
      requires scenario.numberVoters >= 0
      modifies this`indices, this`idxs, scenario`profile, bfs
      ensures r == Collect(EmptyFinal, LambRows(SweepOf(), lambs, SweepIndices(SweepOf()), draw))
      ensures r.Success? ==> FinalOfLength(r.value, |lambs|)
      ensures r.Success? && lambs != [] && SweepIndices(SweepOf()) != [] ==> LeftAtLambda(draw, |lambs|)
      ensures lambs == [] || SweepIndices(SweepOf()) == [] ==>
                scenario.profile == old(scenario.profile) && idxs == old(idxs)
      ensures lambs != [] ==> indices == SweepIndices(SweepOf())
      ensures lambs == [] ==> indices == old(indices)
    {
      var w := SweepOf();
      var final := EmptyFinal;
      assert FinalOfLength(final, 0);
      ghost var rows := LambRows(w, lambs, SweepIndices(w), draw);
      for l := 0 to |lambs|
        invariant w == SweepOf() && IndicesFit()
        invariant FinalOfLength(final, l)
        invariant Collect(EmptyFinal, rows) == Collect(final, rows[l..])
        invariant l == 0 ==> scenario.profile == old(scenario.profile) && idxs == old(idxs) && indices == old(indices)
        invariant SweepIndices(w) == [] ==> scenario.profile == old(scenario.profile) && idxs == old(idxs)
        invariant l > 0 ==> indices == SweepIndices(w) && (SweepIndices(w) != [] ==> LeftAtLambda(draw, l))
      {
        assert rows[l..][1..] == rows[l + 1..];
        var row := LambdaRow(bfs, lambs[l], l, draw);
        assert row == rows[l];
        if row.Failure? {
          return Failure(row.error);
        }
        ghost var before := final;
        final := AppendRow(final, row.value);
        assert FinalOfLength(before, l);
      }
      assert rows[|lambs|..] == [];
      r := Success(final);
    }
  }
}
