/** The brute-force judgment-aggregation solver: per-voter agreement
    vectors, the Kemeny, (λ-)Kemeny-Nash, Maxham and Maxeq rules as
    arg-extreme selections over the feasible outcomes, their combined pass,
    the legacy support-count Kemeny, and the rule dispatch of BFSolver. */
module BfSolver {
  import opened Wrappers
  import opened Dicts
  import opened Utils

  /** What the solver reads of a scenario: the agenda formulas (the values
      of the label -> formula dict, in its insertion order, which is the
      order of the agenda file), the profile, the
      feasible outcomes and the declared number of voters. */
  datatype Election = Election(
    agenda: seq<Formula>,
    profile: Profile,
    outConsistent: seq<JDict>,
    numberVoters: int)

  /** Every feasible outcome assigns a value to every agenda formula (the
      source raises KeyError otherwise). */
  predicate Covers(e: Election) {
    forall o :: o in e.outConsistent ==> CoversAgenda(e.agenda, o)
  }

  // ---------------------------------------------------------------------
  // agr

  /** The outcome and the judgment set agree on `f`: accepted and True, or
      absent and False. */
  predicate Agrees(f: Formula, js: JudgmentSet, o: JDict)
    requires f in Keys(o)
  {
    (f in js && Get(o, f) == true) || (f !in js && Get(o, f) == false)
  }

  /** The raw agreement score: the number of agenda positions on which the
      outcome and the judgment set agree. */
  function Score(agenda: seq<Formula>, js: JudgmentSet, o: JDict): (r: nat)
    requires CoversAgenda(agenda, o)
    ensures r <= |agenda|
  {
    if agenda == [] then 0
    else
      var f := agenda[|agenda| - 1];
      Score(agenda[..|agenda| - 1], js, o) + (if Agrees(f, js, o) then 1 else 0)
  }

  /** The score is |agenda| iff the two agree on every issue, and 0 iff they
      disagree on every issue. */
  lemma {:induction false} ScoreExtremes(agenda: seq<Formula>, js: JudgmentSet, o: JDict)
    requires CoversAgenda(agenda, o)
    ensures Score(agenda, js, o) == |agenda| <==> forall i :: 0 <= i < |agenda| ==> Agrees(agenda[i], js, o)
    ensures Score(agenda, js, o) == 0 <==> forall i :: 0 <= i < |agenda| ==> !Agrees(agenda[i], js, o)
  {
    if agenda != [] {
      var init := agenda[..|agenda| - 1];
      ScoreExtremes(init, js, o);
      assert forall i :: 0 <= i < |init| ==> init[i] == agenda[i];
    }
  }

  /** A voter agrees with the outcome that is its own judgment on every issue. */
  lemma ScoreOfOwnJudgment(agenda: seq<Formula>, js: JudgmentSet)
    ensures CoversAgenda(agenda, JudgmentDict(agenda, js))
    ensures Score(agenda, js, JudgmentDict(agenda, js)) == |agenda|
  {
    JudgmentDictShape(agenda, js);
    ScoreExtremes(agenda, js, JudgmentDict(agenda, js));
  }

  /** The per-voter utility: the score, with a score of 0 replaced by λ. */
  function Utility(agenda: seq<Formula>, js: JudgmentSet, o: JDict, lamb: real): real
    requires CoversAgenda(agenda, o)
  {
    var score := Score(agenda, js, o);
    if score == 0 then lamb else score as real
  }

  /** The agreement vector: each profile entry's utility, repeated `times`
      times, in profile order. */
  function AgreementVector(agenda: seq<Formula>, profile: Profile, o: JDict, lamb: real): (v: seq<real>)
    requires CoversAgenda(agenda, o)
    ensures |v| == Voters(profile)
  {
    if profile == [] then []
    else
      var p := profile[|profile| - 1];
      AgreementVector(agenda, profile[..|profile| - 1], o, lamb)
        + seq(p.times, _ => Utility(agenda, p.js, o, lamb))
  }

  method Agr(agenda: seq<Formula>, profile: Profile, outcome: JDict, lamb: real) returns (agrVec: seq<real>)
    requires CoversAgenda(agenda, outcome)
    ensures agrVec == AgreementVector(agenda, profile, outcome, lamb)
  {
    agrVec := [];
    for j := 0 to |profile|
      invariant agrVec == AgreementVector(agenda, profile[..j], outcome, lamb)
    {
      assert profile[..j + 1][..j] == profile[..j];
      var score := 0;
      var timesOccur, js := profile[j].times, profile[j].js;
      for i := 0 to |agenda|
        invariant CoversAgenda(agenda[..i], outcome)
        invariant score == Score(agenda[..i], js, outcome)
      {
        assert agenda[..i + 1][..i] == agenda[..i];
        var formula := agenda[i];
        if formula in js && Get(outcome, formula) == true {
          score := score + 1;
        } else if formula !in js && Get(outcome, formula) == false {
          score := score + 1;
        }
      }
      assert agenda[..|agenda|] == agenda;
      var utility: real := if score == 0 then lamb else score as real;
      agrVec := agrVec + seq(timesOccur, _ => utility);
    }
    assert profile[..|profile|] == profile;
  }

  /** Every entry is λ (a voter agreeing on nothing) or a score in
      [1, |agenda|]. */
  lemma {:induction false} AgreementEntries(agenda: seq<Formula>, profile: Profile, o: JDict, lamb: real)
    requires CoversAgenda(agenda, o)
    ensures forall k :: 0 <= k < Voters(profile) ==>
              var x := AgreementVector(agenda, profile, o, lamb)[k];
              x == lamb || 1.0 <= x <= |agenda| as real
  {
    if profile != [] {
      AgreementEntries(agenda, profile[..|profile| - 1], o, lamb);
    }
  }

  lemma {:induction false} VotersPrefix(profile: Profile, n: nat)
    requires n <= |profile|
    ensures Voters(profile[..n]) <= Voters(profile)
    decreases |profile|
  {
    if n < |profile| {
      var init := profile[..|profile| - 1];
      assert init[..n] == profile[..n];
      VotersPrefix(init, n);
    } else {
      assert profile[..n] == profile;
    }
  }

  /** The vector of a profile prefix is a prefix of the whole vector. */
  lemma {:induction false} AgreementPrefix(agenda: seq<Formula>, profile: Profile, o: JDict, lamb: real, n: nat)
    requires CoversAgenda(agenda, o) && n <= |profile|
    ensures Voters(profile[..n]) <= Voters(profile)
    ensures forall k :: 0 <= k < Voters(profile[..n]) ==>
              AgreementVector(agenda, profile, o, lamb)[k] == AgreementVector(agenda, profile[..n], o, lamb)[k]
    decreases |profile|
  {
    if n < |profile| {
      var init := profile[..|profile| - 1];
      assert init[..n] == profile[..n];
      AgreementPrefix(agenda, init, o, lamb, n);
      VotersPrefix(init, n);
      assert Voters(profile[..n]) <= Voters(init) <= Voters(profile);
    } else {
      assert profile[..n] == profile;
    }
  }

  /** Voter positions Voters(profile[..j]) up to Voters(profile[..j + 1])
      hold the utility of entry j: the layout is in profile order. */
  lemma AgreementLayout(agenda: seq<Formula>, profile: Profile, o: JDict, lamb: real, j: nat)
    requires CoversAgenda(agenda, o) && j < |profile|
    ensures Voters(profile[..j + 1]) == Voters(profile[..j]) + profile[j].times
    ensures Voters(profile[..j + 1]) <= Voters(profile)
    ensures forall k :: Voters(profile[..j]) <= k < Voters(profile[..j + 1]) ==>
              AgreementVector(agenda, profile, o, lamb)[k] == Utility(agenda, profile[j].js, o, lamb)
  {
    assert profile[..j + 1][..j] == profile[..j];
    AgreementPrefix(agenda, profile, o, lamb, j + 1);
  }

  // ---------------------------------------------------------------------
  // Aggregates: sum, math.prod, min, max

  function Sum(v: seq<real>): real {
    if v == [] then 0.0 else Sum(v[..|v| - 1]) + v[|v| - 1]
  }

  /** math.prod: 1 for an empty vector. */
  function Prod(v: seq<real>): real {
    if v == [] then 1.0 else Prod(v[..|v| - 1]) * v[|v| - 1]
  }

  function Min(v: seq<real>): (m: real)
    requires v != []
    ensures m in v && forall i :: 0 <= i < |v| ==> m <= v[i]
  {
    if |v| == 1 then v[0]
    else
      var m := Min(v[..|v| - 1]);
      assert forall i :: 0 <= i < |v| - 1 ==> v[..|v| - 1][i] == v[i];
      if v[|v| - 1] < m then v[|v| - 1] else m
  }

  function Max(v: seq<real>): (m: real)
    requires v != []
    ensures m in v && forall i :: 0 <= i < |v| ==> v[i] <= m
  {
    if |v| == 1 then v[0]
    else
      var m := Max(v[..|v| - 1]);
      assert forall i :: 0 <= i < |v| - 1 ==> v[..|v| - 1][i] == v[i];
      if v[|v| - 1] > m then v[|v| - 1] else m
  }

  lemma {:induction false} SumAppend(a: seq<real>, b: seq<real>)
    ensures Sum(a + b) == Sum(a) + Sum(b)
    decreases |b|
  {
    if b == [] {
      assert a + b == a;
    } else {
      assert (a + b)[..|a + b| - 1] == a + b[..|b| - 1];
      SumAppend(a, b[..|b| - 1]);
    }
  }

  lemma {:induction false} SumConstant(block: seq<real>, u: real)
    requires forall i :: 0 <= i < |block| ==> block[i] == u
    ensures Sum(block) == |block| as real * u
  {
    if block != [] {
      SumConstant(block[..|block| - 1], u);
    }
  }

  /** The product is 0 exactly when some voter's utility is 0, which with
      λ = 0 means some voter agrees on nothing. */
  lemma {:induction false} ProdZeroIff(v: seq<real>)
    ensures Prod(v) == 0.0 <==> exists i :: 0 <= i < |v| && v[i] == 0.0
  {
    if v != [] {
      var init := v[..|v| - 1];
      ProdZeroIff(init);
      assert forall i :: 0 <= i < |init| ==> init[i] == v[i];
    }
  }

  // ---------------------------------------------------------------------
  // Arg-extreme index lists

  predicate StrictlyIncreasing(s: seq<nat>) {
    forall i, j :: 0 <= i < j < |s| ==> s[i] < s[j]
  }

  /** The indices i < n with vals[i] == target, in increasing order. */
  function MatchingIndices(vals: seq<real>, target: real, n: nat): (r: seq<nat>)
    requires n <= |vals|
    ensures forall k :: 0 <= k < |r| ==> r[k] < n
  {
    if n == 0 then []
    else MatchingIndices(vals, target, n - 1) + (if vals[n - 1] == target then [n - 1] else [])
  }

  lemma {:induction false} MatchingIndicesCorrect(vals: seq<real>, target: real, n: nat)
    requires n <= |vals|
    ensures StrictlyIncreasing(MatchingIndices(vals, target, n))
    ensures forall i: nat :: i in MatchingIndices(vals, target, n) <==> i < n && vals[i] == target
  {
    if n > 0 {
      MatchingIndicesCorrect(vals, target, n - 1);
    }
  }

  lemma {:induction false} MatchingIndicesNone(vals: seq<real>, target: real, n: nat)
    requires n <= |vals|
    requires forall j :: 0 <= j < n ==> vals[j] != target
    ensures MatchingIndices(vals, target, n) == []
  {
    if n > 0 {
      MatchingIndicesNone(vals, target, n - 1);
    }
  }

  /** `[idx for idx, x in enumerate(vals) if x == max(vals)]` (empty for an
      empty list, where max is never evaluated). */
  function ArgMax(vals: seq<real>): (r: seq<nat>)
    ensures forall k :: 0 <= k < |r| ==> r[k] < |vals|
  {
    if vals == [] then [] else MatchingIndices(vals, Max(vals), |vals|)
  }

  function ArgMin(vals: seq<real>): (r: seq<nat>)
    ensures forall k :: 0 <= k < |r| ==> r[k] < |vals|
  {
    if vals == [] then [] else MatchingIndices(vals, Min(vals), |vals|)
  }

  /** `idxs` lists, in increasing order, exactly the positions of the
      largest values. */
  ghost predicate IsArgMax(vals: seq<real>, idxs: seq<nat>) {
    && StrictlyIncreasing(idxs)
    && forall i: nat :: i in idxs <==> i < |vals| && forall j :: 0 <= j < |vals| ==> vals[j] <= vals[i]
  }

  ghost predicate IsArgMin(vals: seq<real>, idxs: seq<nat>) {
    && StrictlyIncreasing(idxs)
    && forall i: nat :: i in idxs <==> i < |vals| && forall j :: 0 <= j < |vals| ==> vals[i] <= vals[j]
  }

  lemma ArgMaxCorrect(vals: seq<real>)
    ensures IsArgMax(vals, ArgMax(vals))
    ensures ArgMax(vals) == [] <==> vals == []
  {
    if vals != [] {
      var m := Max(vals);
      MatchingIndicesCorrect(vals, m, |vals|);
      var i :| 0 <= i < |vals| && vals[i] == m;
      assert i in ArgMax(vals);
    }
  }

  lemma ArgMinCorrect(vals: seq<real>)
    ensures IsArgMin(vals, ArgMin(vals))
    ensures ArgMin(vals) == [] <==> vals == []
  {
    if vals != [] {
      var m := Min(vals);
      MatchingIndicesCorrect(vals, m, |vals|);
      var i :| 0 <= i < |vals| && vals[i] == m;
      assert i in ArgMin(vals);
    }
  }

  /** `[out_consistent[idx] for idx in idxs]`. */
  function Pick(out: seq<JDict>, idxs: seq<nat>): (r: seq<JDict>)
    requires forall k :: 0 <= k < |idxs| ==> idxs[k] < |out|
    ensures |r| == |idxs| && forall k :: 0 <= k < |idxs| ==> r[k] == out[idxs[k]]
  {
    seq(|idxs|, k requires 0 <= k < |idxs| => out[idxs[k]])
  }

  // ---------------------------------------------------------------------
  // The four rules

  datatype SolverError = UnknownRule(name: string) | EmptyAgreement

  /** A rule's winners: their indices in out_consistent and the outcomes. */
  datatype Winners = Winners(idxs: seq<nat>, outcomes: seq<JDict>)

  /** The agreement vector of every feasible outcome, in out_consistent order. */
  function AgreementVectors(e: Election, lamb: real): (vs: seq<seq<real>>)
    requires Covers(e)
    ensures |vs| == |e.outConsistent|
    ensures forall i :: 0 <= i < |vs| ==> |vs[i]| == Voters(e.profile)
  {
    seq(|e.outConsistent|, i requires 0 <= i < |e.outConsistent| =>
      AgreementVector(e.agenda, e.profile, e.outConsistent[i], lamb))
  }

  function Sums(vs: seq<seq<real>>): seq<real> {
    seq(|vs|, i requires 0 <= i < |vs| => Sum(vs[i]))
  }

  function Prods(vs: seq<seq<real>>): seq<real> {
    seq(|vs|, i requires 0 <= i < |vs| => Prod(vs[i]))
  }

  predicate NonEmptyVectors(vs: seq<seq<real>>) {
    forall i :: 0 <= i < |vs| ==> vs[i] != []
  }

  function Mins(vs: seq<seq<real>>): seq<real>
    requires NonEmptyVectors(vs)
  {
    seq(|vs|, i requires 0 <= i < |vs| => Min(vs[i]))
  }

  /** max - min of every vector. */
  function Spreads(vs: seq<seq<real>>): seq<real>
    requires NonEmptyVectors(vs)
  {
    seq(|vs|, i requires 0 <= i < |vs| => Max(vs[i]) - Min(vs[i]))
  }

  /** min() of an empty vector raises: that happens iff there is a feasible
      outcome and the profile describes no voter. */
  predicate MinUndefined(e: Election) {
    e.outConsistent != [] && Voters(e.profile) == 0
  }

  /** Kemeny: every feasible outcome whose agreement sum is maximal, in
      out_consistent order, ties kept. */
  function SolveKemeny(e: Election): (w: Winners)
    requires Covers(e)
    ensures IsArgMax(Sums(AgreementVectors(e, 0.0)), w.idxs)
    ensures forall k :: 0 <= k < |w.idxs| ==> w.idxs[k] < |e.outConsistent|
    ensures w.outcomes == Pick(e.outConsistent, w.idxs)
    ensures w.outcomes == [] <==> e.outConsistent == []
  {
    var sums := Sums(AgreementVectors(e, 0.0));
    ArgMaxCorrect(sums);
    Winners(ArgMax(sums), Pick(e.outConsistent, ArgMax(sums)))
  }

  /** Kemeny-Nash with parameter λ: the arg-max of the product of the
      λ-substituted agreements. */
  function SolveKemNash(e: Election, lamb: real): (w: Winners)
    requires Covers(e)
    ensures IsArgMax(Prods(AgreementVectors(e, lamb)), w.idxs)
    ensures forall k :: 0 <= k < |w.idxs| ==> w.idxs[k] < |e.outConsistent|
    ensures w.outcomes == Pick(e.outConsistent, w.idxs)
    ensures w.outcomes == [] <==> e.outConsistent == []
  {
    var prods := Prods(AgreementVectors(e, lamb));
    ArgMaxCorrect(prods);
    Winners(ArgMax(prods), Pick(e.outConsistent, ArgMax(prods)))
  }

  /** Maxham: the arg-max of the minimum agreement. */
  function SolveMaxham(e: Election): (r: Result<Winners, SolverError>)
    requires Covers(e)
    ensures r.Failure? <==> MinUndefined(e)
    ensures r.Failure? ==> r.error == EmptyAgreement
    ensures r.Success? ==>
              && NonEmptyVectors(AgreementVectors(e, 0.0))
              && IsArgMax(Mins(AgreementVectors(e, 0.0)), r.value.idxs)
              && (forall k :: 0 <= k < |r.value.idxs| ==> r.value.idxs[k] < |e.outConsistent|)
              && r.value.outcomes == Pick(e.outConsistent, r.value.idxs)
              && (r.value.outcomes == [] <==> e.outConsistent == [])
  {
    var vs := AgreementVectors(e, 0.0);
    if MinUndefined(e) then Failure(EmptyAgreement)
    else
      var mins := Mins(vs);
      ArgMaxCorrect(mins);
      Success(Winners(ArgMax(mins), Pick(e.outConsistent, ArgMax(mins))))
  }

  /** Maxeq: the arg-min of max - min of the agreement vector. */
  function SolveMaxeq(e: Election): (r: Result<Winners, SolverError>)
    requires Covers(e)
    ensures r.Failure? <==> MinUndefined(e)
    ensures r.Failure? ==> r.error == EmptyAgreement
    ensures r.Success? ==>
              && NonEmptyVectors(AgreementVectors(e, 0.0))
              && IsArgMin(Spreads(AgreementVectors(e, 0.0)), r.value.idxs)
              && (forall k :: 0 <= k < |r.value.idxs| ==> r.value.idxs[k] < |e.outConsistent|)
              && r.value.outcomes == Pick(e.outConsistent, r.value.idxs)
              && (r.value.outcomes == [] <==> e.outConsistent == [])
  {
    var vs := AgreementVectors(e, 0.0);
    if MinUndefined(e) then Failure(EmptyAgreement)
    else
      var spreads := Spreads(vs);
      ArgMinCorrect(spreads);
      Success(Winners(ArgMin(spreads), Pick(e.outConsistent, ArgMin(spreads))))
  }

  /** solve_all: both vector families computed once, the four optima taken
      over them.  Its index lists are those of the four single-rule solvers,
      with λ used only for Kemeny-Nash. */
  function SolveAll(e: Election, lamb: real): (r: Result<seq<Winners>, SolverError>)
    requires Covers(e)
    ensures r.Failure? <==> MinUndefined(e)
    ensures r.Failure? ==> r.error == EmptyAgreement
    ensures r.Success? ==> |r.value| == 4
  {
    var vecs := AgreementVectors(e, 0.0);
    var vecsLamb := AgreementVectors(e, lamb);
    var agrSums := Sums(vecs);
    var agrProds := Prods(vecsLamb);
    if MinUndefined(e) then Failure(EmptyAgreement)
    else
      var agrMins := Mins(vecs);
      var agrMaxDists := Spreads(vecs);
      var kem, kn := ArgMax(agrSums), ArgMax(agrProds);
      var maxham, maxeq := ArgMax(agrMins), ArgMin(agrMaxDists);
      Success([Winners(kem, Pick(e.outConsistent, kem)), Winners(kn, Pick(e.outConsistent, kn)),
               Winners(maxham, Pick(e.outConsistent, maxham)), Winners(maxeq, Pick(e.outConsistent, maxeq))])
  }

  /** solve_all's four index lists are those of the four single-rule
      solvers, with λ used only for Kemeny-Nash. */
  lemma SolveAllMatchesSolvers(e: Election, lamb: real)
    requires Covers(e) && SolveAll(e, lamb).Success?
    ensures SolveMaxham(e).Success? && SolveMaxeq(e).Success?
    ensures SolveAll(e, lamb).value
            == [SolveKemeny(e), SolveKemNash(e, lamb), SolveMaxham(e).value, SolveMaxeq(e).value]
  {
    SolveAllSumRules(e, lamb);
    SolveAllMinRules(e, lamb);
    var ws := SolveAll(e, lamb).value;
    assert ws == [ws[0], ws[1], ws[2], ws[3]];
  }

  lemma SolveAllSumRules(e: Election, lamb: real)
    requires Covers(e) && SolveAll(e, lamb).Success?
    ensures SolveAll(e, lamb).value[0] == SolveKemeny(e)
    ensures SolveAll(e, lamb).value[1] == SolveKemNash(e, lamb)
  {
    var kem, kn := ArgMax(Sums(AgreementVectors(e, 0.0))), ArgMax(Prods(AgreementVectors(e, lamb)));
    var ws := SolveAll(e, lamb).value;
    assert ws[0] == Winners(kem, Pick(e.outConsistent, kem));
    assert ws[1] == Winners(kn, Pick(e.outConsistent, kn));
  }

  lemma SolveAllMinRules(e: Election, lamb: real)
    requires Covers(e) && SolveAll(e, lamb).Success?
    ensures SolveMaxham(e).Success? && SolveMaxeq(e).Success?
    ensures SolveAll(e, lamb).value[2] == SolveMaxham(e).value
    ensures SolveAll(e, lamb).value[3] == SolveMaxeq(e).value
  {
    var vecs := AgreementVectors(e, 0.0);
    var maxham, maxeq := ArgMax(Mins(vecs)), ArgMin(Spreads(vecs));
    var ws := SolveAll(e, lamb).value;
    assert ws[2] == Winners(maxham, Pick(e.outConsistent, maxham));
    assert ws[3] == Winners(maxeq, Pick(e.outConsistent, maxeq));
  }

  // ---------------------------------------------------------------------
  // Legacy support-count Kemeny

  /** How many voters accept `f`: each occurrence of `f` in an entry's
      accepted list adds that entry's multiplicity. */
  function SupportCount(profile: Profile, f: Formula): nat {
    if profile == [] then 0
    else
      var p := profile[|profile| - 1];
      SupportCount(profile[..|profile| - 1], f) + p.times * multiset(p.js)[f]
  }

  /** Every accepted formula of the profile is an agenda formula (otherwise
      the source's support dict raises KeyError). */
  predicate ProfileWithinAgenda(agenda: seq<Formula>, profile: Profile) {
    forall j, f :: 0 <= j < |profile| && f in profile[j].js ==> f in agenda
  }

  method SupportNumber(agenda: seq<Formula>, profile: Profile) returns (supportCount: Dict<Formula, nat>)
    requires ProfileWithinAgenda(agenda, profile)
    ensures IsDict(supportCount) && Keys(supportCount) == Dedup(agenda)
    ensures forall f :: f in agenda ==> f in Keys(supportCount) && Get(supportCount, f) == SupportCount(profile, f)
  {
    supportCount := ZeroSupport(agenda);
    for j := 0 to |profile|
      invariant IsDict(supportCount) && Keys(supportCount) == Dedup(agenda)
      invariant forall f :: f in Keys(supportCount) ==> Get(supportCount, f) == SupportUpTo(profile, j, f)
    {
      supportCount := AddSupport(agenda, supportCount, profile, j);
    }
    forall f | f in Keys(supportCount) ensures Get(supportCount, f) == SupportCount(profile, f) {
      SupportUpToIsCount(profile, |profile|, f);
      assert profile[..|profile|] == profile;
    }
  }

  /** The support dict before any voter is counted: every agenda formula at 0. */
  method ZeroSupport(agenda: seq<Formula>) returns (supportCount: Dict<Formula, nat>)
    ensures IsDict(supportCount) && Keys(supportCount) == Dedup(agenda)
    ensures forall f :: f in Keys(supportCount) ==> Get(supportCount, f) == 0
  {
    supportCount := [];
    for i := 0 to |agenda|
      invariant IsDict(supportCount) && Keys(supportCount) == Dedup(agenda[..i])
      invariant forall f :: f in Keys(supportCount) ==> Get(supportCount, f) == 0
    {
      assert agenda[..i + 1][..i] == agenda[..i];
      supportCount := Put(supportCount, agenda[i], 0);
    }
    assert agenda[..|agenda|] == agenda;
  }

  /** Entry j of the profile adds its multiplicity once per accepted formula. */
  method AddSupport(agenda: seq<Formula>, sc: Dict<Formula, nat>, profile: Profile, j: nat)
    returns (supportCount: Dict<Formula, nat>)
    requires ProfileWithinAgenda(agenda, profile) && j < |profile|
    requires IsDict(sc) && Keys(sc) == Dedup(agenda)
    requires forall f :: f in Keys(sc) ==> Get(sc, f) == SupportUpTo(profile, j, f)
    ensures IsDict(supportCount) && Keys(supportCount) == Dedup(agenda)
    ensures forall f :: f in Keys(supportCount) ==> Get(supportCount, f) == SupportUpTo(profile, j + 1, f)
  {
    supportCount := sc;
    var timesAccepted, acceptedFormula := profile[j].times, profile[j].js;
    PartialSupportStart(supportCount, profile, j);
    for l := 0 to |acceptedFormula|
      invariant IsDict(supportCount) && Keys(supportCount) == Dedup(agenda)
      invariant PartialSupport(supportCount, profile, j, l)
    {
      var formula := acceptedFormula[l];
      assert formula in agenda;
      PartialSupportStep(supportCount, profile, j, l);
      supportCount := Put(supportCount, formula, Get(supportCount, formula) + timesAccepted);
    }
    PartialSupportDone(supportCount, profile, j);
  }

  /** `t` for every occurrence of `f` in `s`: what one profile entry adds
      to the support of `f`, formula by formula. */
  function Occurrences<T(==)>(s: seq<T>, f: T, t: nat): nat {
    if s == [] then 0 else Occurrences(s[..|s| - 1], f, t) + (if s[|s| - 1] == f then t else 0)
  }

  lemma {:induction false} OccurrencesWeighted<T>(s: seq<T>, f: T, t: nat)
    ensures Occurrences(s, f, t) == t * multiset(s)[f]
  {
    if s != [] {
      var init, x := s[..|s| - 1], s[|s| - 1];
      OccurrencesWeighted(init, f, t);
      assert s == init + [x];
      assert multiset(s) == multiset(init) + multiset{x};
      var m := multiset(init)[f];
      if x == f {
        assert multiset(s)[f] == m + 1;
        Distribute(t, m, 1);
      } else {
        assert multiset(s)[f] == m;
      }
    }
  }

  /** SupportCount over the first n entries, by position. */
  function SupportUpTo(profile: Profile, n: nat, f: Formula): nat
    requires n <= |profile|
  {
    if n == 0 then 0
    else SupportUpTo(profile, n - 1, f) + Occurrences(profile[n - 1].js, f, profile[n - 1].times)
  }

  lemma {:induction false} SupportUpToIsCount(profile: Profile, n: nat, f: Formula)
    requires n <= |profile|
    ensures SupportUpTo(profile, n, f) == SupportCount(profile[..n], f)
  {
    if n > 0 {
      SupportUpToIsCount(profile, n - 1, f);
      assert profile[..n][..n - 1] == profile[..n - 1];
      OccurrencesWeighted(profile[n - 1].js, f, profile[n - 1].times);
    }
  }

  /** After the first j entries and the first l formulas of entry j. */
  ghost predicate PartialSupport(sc: Dict<Formula, nat>, profile: Profile, j: nat, l: nat)
    requires j < |profile| && l <= |profile[j].js|
  {
    forall f :: f in Keys(sc) ==>
      Get(sc, f) == SupportUpTo(profile, j, f) + Occurrences(profile[j].js[..l], f, profile[j].times)
  }

  lemma PartialSupportStart(sc: Dict<Formula, nat>, profile: Profile, j: nat)
    requires j < |profile|
    requires forall f :: f in Keys(sc) ==> Get(sc, f) == SupportUpTo(profile, j, f)
    ensures PartialSupport(sc, profile, j, 0)
  {
    assert profile[j].js[..0] == [];
  }

  lemma PartialSupportDone(sc: Dict<Formula, nat>, profile: Profile, j: nat)
    requires j < |profile|
    requires PartialSupport(sc, profile, j, |profile[j].js|)
    ensures forall f :: f in Keys(sc) ==> Get(sc, f) == SupportUpTo(profile, j + 1, f)
  {
    assert profile[j].js[..|profile[j].js|] == profile[j].js;
  }

  lemma PartialSupportStep(sc: Dict<Formula, nat>, profile: Profile, j: nat, l: nat)
    requires j < |profile| && l < |profile[j].js|
    requires PartialSupport(sc, profile, j, l)
    requires profile[j].js[l] in Keys(sc)
    ensures PartialSupport(Put(sc, profile[j].js[l], Get(sc, profile[j].js[l]) + profile[j].times), profile, j, l + 1)
  {
    var js := profile[j].js;
    assert js[..l + 1][..l] == js[..l];
  }

  /** The legacy agreement score of an outcome over its first n issues: the
      support of each issue set True, number_voters minus the support of
      each issue set False. */
  function LegacyScore(profile: Profile, nv: int, o: JDict, n: nat): int
    requires n <= |o|
  {
    if n == 0 then 0
    else
      var s := SupportCount(profile, o[n - 1].0);
      LegacyScore(profile, nv, o, n - 1) + (if o[n - 1].1 then s else nv - s)
  }

  function LegacyScores(e: Election): (r: seq<real>)
    ensures |r| == |e.outConsistent|
  {
    seq(|e.outConsistent|, i requires 0 <= i < |e.outConsistent| =>
      LegacyScore(e.profile, e.numberVoters, e.outConsistent[i], |e.outConsistent[i]|) as real)
  }

  /** The legacy selection over the first n scores: the running maximum,
      starting at 0, and the indices collected for it (an equal score
      appends, a greater one restarts the list). */
  function LegacyFold(scores: seq<real>, n: nat): (r: (real, seq<nat>))
    requires n <= |scores|
    ensures forall k :: 0 <= k < |r.1| ==> r.1[k] < n
  {
    if n == 0 then (0.0, [])
    else
      var (m, w) := LegacyFold(scores, n - 1);
      var s := scores[n - 1];
      if s == m then (m, w + [n - 1])
      else if s > m then (s, [n - 1])
      else (m, w)
  }

  /** What solve_kemeny_original selects: the positions whose score equals
      the larger of 0 and the best score. */
  lemma {:induction false} LegacyFoldSelects(scores: seq<real>, n: nat)
    requires n <= |scores|
    ensures LegacyFold(scores, n).1 == MatchingIndices(scores, LegacyFold(scores, n).0, n)
    ensures LegacyFold(scores, n).0 >= 0.0
    ensures forall j :: 0 <= j < n ==> scores[j] <= LegacyFold(scores, n).0
    ensures LegacyFold(scores, n).0 == 0.0 || exists j :: 0 <= j < n && scores[j] == LegacyFold(scores, n).0
  {
    if n > 0 {
      LegacyFoldSelects(scores, n - 1);
      var (m, w) := LegacyFold(scores, n - 1);
      if scores[n - 1] > m {
        MatchingIndicesNone(scores, scores[n - 1], n - 1);
      }
    }
  }

  /** With no negative score the legacy selection is the arg-max. */
  lemma LegacyFoldIsArgMax(scores: seq<real>)
    requires forall j :: 0 <= j < |scores| ==> scores[j] >= 0.0
    ensures LegacyFold(scores, |scores|).1 == ArgMax(scores)
  {
    LegacyFoldSelects(scores, |scores|);
    if scores != [] {
      var m := LegacyFold(scores, |scores|).0;
      var i :| 0 <= i < |scores| && scores[i] == Max(scores);
      assert m == Max(scores);
    }
  }

  /** Every profile formula is on the agenda and every outcome's issues are
      agenda formulas (the support dict is keyed by the agenda). */
  predicate LegacyDefined(e: Election) {
    && ProfileWithinAgenda(e.agenda, e.profile)
    && forall o: JDict, k: int :: o in e.outConsistent && 0 <= k < |o| ==> o[k].0 in e.agenda
  }

  /** `support_number(agenda, profile)[issue]`. */
  method SupportOf(agenda: seq<Formula>, profile: Profile, issue: Formula) returns (support: nat)
    requires ProfileWithinAgenda(agenda, profile) && issue in agenda
    ensures support == SupportCount(profile, issue)
  {
    var supportCount := SupportNumber(agenda, profile);
    support := Get(supportCount, issue);
  }

  /** The inner loop of solve_kemeny_original: the support dict is rebuilt
      for every issue, as in the source. */
  method AgreementScore(e: Election, outcome: JDict) returns (agreementScore: int)
    requires LegacyDefined(e) && outcome in e.outConsistent
    ensures agreementScore == LegacyScore(e.profile, e.numberVoters, outcome, |outcome|)
  {
    agreementScore := 0;
    assert forall k :: 0 <= k < |outcome| ==> outcome[k].0 in e.agenda;
    for k := 0 to |outcome|
      invariant agreementScore == LegacyScore(e.profile, e.numberVoters, outcome, k)
    {
      var issue := outcome[k].0;
      var support := SupportOf(e.agenda, e.profile, issue);
      if outcome[k].1 {
        agreementScore := agreementScore + support;
      } else {
        agreementScore := agreementScore + (e.numberVoters - support);
      }
    }
  }

  method SolveKemenyOriginal(e: Election) returns (outcomes: seq<JDict>)
    requires LegacyDefined(e)
    ensures outcomes == Pick(e.outConsistent, LegacyFold(LegacyScores(e), |e.outConsistent|).1)
  {
    var maxAgreement: int := 0;
    outcomes := [];
    ghost var winners: seq<nat> := [];
    ghost var scores := LegacyScores(e);
    for i := 0 to |e.outConsistent|
      invariant (maxAgreement as real, winners) == LegacyFold(scores, i)
      invariant forall k :: 0 <= k < |winners| ==> winners[k] < |e.outConsistent|
      invariant outcomes == Pick(e.outConsistent, winners)
    {
      var outcome := e.outConsistent[i];
      var agreementScore := AgreementScore(e, outcome);
      assert scores[i] == agreementScore as real;
      if agreementScore == maxAgreement {
        outcomes := outcomes + [outcome];
        winners := winners + [i];
      } else if agreementScore > maxAgreement {
        maxAgreement := agreementScore;
        outcomes := [outcome];
        winners := [i];
      }
    }
  }

  // Equivalence of the legacy and the new Kemeny

  /** The hypotheses under which the two Kemeny implementations coincide:
      a duplicate-free agenda, outcomes keyed by exactly the agenda, no
      repeated formula within an accepted list, and multiplicities summing
      to number_voters. */
  predicate LegacyComparable(e: Election) {
    && Distinct(e.agenda)
    && (forall o :: o in e.outConsistent ==> Keys(o) == e.agenda)
    && (forall j :: 0 <= j < |e.profile| ==> Distinct(e.profile[j].js))
    && Voters(e.profile) == e.numberVoters
  }

  /** The voters agreeing with outcome o on issue f. */
  function IssueAgreement(profile: Profile, f: Formula, o: JDict): nat
    requires f in Keys(o)
  {
    if profile == [] then 0
    else
      var p := profile[|profile| - 1];
      IssueAgreement(profile[..|profile| - 1], f, o) + (if Agrees(f, p.js, o) then p.times else 0)
  }

  /** The multiplicity-weighted sum of the per-entry scores. */
  function WeightedScore(agenda: seq<Formula>, profile: Profile, o: JDict): nat
    requires CoversAgenda(agenda, o)
  {
    if profile == [] then 0
    else
      var p := profile[|profile| - 1];
      WeightedScore(agenda, profile[..|profile| - 1], o) + p.times * Score(agenda, p.js, o)
  }

  /** The per-issue agreement summed over a list of issues. */
  function IssueSum(fs: seq<Formula>, profile: Profile, o: JDict): nat
    requires CoversAgenda(fs, o)
  {
    if fs == [] then 0
    else IssueSum(fs[..|fs| - 1], profile, o) + IssueAgreement(profile, fs[|fs| - 1], o)
  }

  lemma MultiplicityOfDistinct(js: JudgmentSet, f: Formula)
    requires Distinct(js)
    ensures multiset(js)[f] == if f in js then 1 else 0
  {
    if f in js {
      var i := IndexOf(js, f);
      assert js == js[..i] + [f] + js[i + 1..];
      assert f !in js[i + 1..];
    }
  }

  /** Per issue, the legacy term is the number of voters agreeing on it. */
  lemma {:induction false} IssueTerm(profile: Profile, f: Formula, o: JDict)
    requires f in Keys(o)
    requires forall j :: 0 <= j < |profile| ==> Distinct(profile[j].js)
    ensures IssueAgreement(profile, f, o)
            == if Get(o, f) then SupportCount(profile, f) else Voters(profile) - SupportCount(profile, f)
    ensures SupportCount(profile, f) <= Voters(profile)
  {
    if profile != [] {
      var init, p := profile[..|profile| - 1], profile[|profile| - 1];
      IssueTerm(init, f, o);
      MultiplicityOfDistinct(p.js, f);
    }
  }

  lemma {:induction false} IssueSumAppend(fs: seq<Formula>, profile: Profile, p: ProfileEntry, o: JDict)
    requires CoversAgenda(fs, o)
    ensures IssueSum(fs, profile + [p], o) == IssueSum(fs, profile, o) + p.times * Score(fs, p.js, o)
  {
    var q := profile + [p];
    assert q[..|q| - 1] == profile;
    if fs != [] {
      var init, f := fs[..|fs| - 1], fs[|fs| - 1];
      IssueSumAppend(init, profile, p, o);
      var b := if Agrees(f, p.js, o) then 1 else 0;
      assert IssueAgreement(q, f, o) == IssueAgreement(profile, f, o) + p.times * b;
      assert Score(fs, p.js, o) == Score(init, p.js, o) + b;
      Distribute(p.times, Score(init, p.js, o), b);
    }
  }

  lemma {:induction false} IssueSumIsWeighted(fs: seq<Formula>, profile: Profile, o: JDict)
    requires CoversAgenda(fs, o)
    ensures IssueSum(fs, profile, o) == WeightedScore(fs, profile, o)
  {
    if profile != [] {
      var init, p := profile[..|profile| - 1], profile[|profile| - 1];
      IssueSumIsWeighted(fs, init, o);
      assert profile == init + [p];
      IssueSumAppend(fs, init, p, o);
    } else {
      IssueSumEmpty(fs, profile, o);
    }
  }

  lemma {:induction false} IssueSumEmpty(fs: seq<Formula>, profile: Profile, o: JDict)
    requires CoversAgenda(fs, o) && profile == []
    ensures IssueSum(fs, profile, o) == 0
  {
    if fs != [] {
      IssueSumEmpty(fs[..|fs| - 1], profile, o);
    }
  }

  /** The legacy score over the first n issues is the per-issue agreement
      summed over those issues. */
  lemma {:induction false} LegacyScoreIsIssueSum(profile: Profile, o: JDict, n: nat)
    requires IsDict(o) && n <= |o|
    requires forall j :: 0 <= j < |profile| ==> Distinct(profile[j].js)
    ensures CoversAgenda(Keys(o)[..n], o)
    ensures LegacyScore(profile, Voters(profile), o, n) == IssueSum(Keys(o)[..n], profile, o)
  {
    if n > 0 {
      LegacyScoreIsIssueSum(profile, o, n - 1);
      assert Keys(o)[..n][..n - 1] == Keys(o)[..n - 1];
      assert Keys(o)[..n][n - 1] == o[n - 1].0;
      GetAt(o, n - 1);
      IssueTerm(profile, o[n - 1].0, o);
    }
  }

  lemma {:induction false} AgreementSumIsWeighted(agenda: seq<Formula>, profile: Profile, o: JDict)
    requires CoversAgenda(agenda, o)
    ensures Sum(AgreementVector(agenda, profile, o, 0.0)) == WeightedScore(agenda, profile, o) as real
  {
    if profile != [] {
      var init, p := profile[..|profile| - 1], profile[|profile| - 1];
      AgreementSumIsWeighted(agenda, init, o);
      var u := Utility(agenda, p.js, o, 0.0);
      var front, block := AgreementVector(agenda, init, o, 0.0), seq(p.times, _ => u);
      assert AgreementVector(agenda, profile, o, 0.0) == front + block;
      AgreementSumStep(front, block, Score(agenda, p.js, o), WeightedScore(agenda, init, o), u);
    }
  }

  /** One entry's step: its `times` copies of the utility add times * score. */
  lemma AgreementSumStep(front: seq<real>, block: seq<real>, score: nat, w0: nat, u: real)
    requires Sum(front) == w0 as real && u == score as real
    requires forall i :: 0 <= i < |block| ==> block[i] == u
    ensures Sum(front + block) == (w0 + |block| * score) as real
  {
    SumAppend(front, block);
    SumConstant(block, u);
    RealOfProduct(|block|, score);
  }

  lemma Distribute(t: nat, a: nat, b: nat)
    ensures t * (a + b) == t * a + t * b
  {
  }

  lemma {:induction false} RealOfProduct(t: nat, s: nat)
    ensures t as real * s as real == (t * s) as real
  {
    if t > 0 {
      RealOfProduct(t - 1, s);
      assert t * s == (t - 1) * s + s;
    }
  }

  /** The legacy score of an outcome equals its agreement sum. */
  lemma LegacyScoreIsAgreementSum(e: Election, o: JDict)
    requires LegacyComparable(e) && o in e.outConsistent
    ensures CoversAgenda(e.agenda, o)
    ensures LegacyScore(e.profile, e.numberVoters, o, |o|) as real == Sum(AgreementVector(e.agenda, e.profile, o, 0.0))
  {
    assert Keys(o) == e.agenda;
    assert Keys(o)[..|o|] == Keys(o);
    LegacyScoreIsIssueSum(e.profile, o, |o|);
    IssueSumIsWeighted(e.agenda, e.profile, o);
    AgreementSumIsWeighted(e.agenda, e.profile, o);
  }

  /** solve_kemeny_original returns the same list as solve_kemeny. */
  lemma KemenyOriginalMatchesKemeny(e: Election)
    requires LegacyComparable(e)
    ensures Covers(e)
    ensures Pick(e.outConsistent, LegacyFold(LegacyScores(e), |e.outConsistent|).1) == SolveKemeny(e).outcomes
  {
    forall o | o in e.outConsistent ensures CoversAgenda(e.agenda, o) {
      assert Keys(o) == e.agenda;
    }
    var scores, sums := LegacyScores(e), Sums(AgreementVectors(e, 0.0));
    forall i | 0 <= i < |scores| ensures scores[i] == sums[i] && scores[i] >= 0.0 {
      var o := e.outConsistent[i];
      LegacyScoreIsAgreementSum(e, o);
      AgreementSumIsWeighted(e.agenda, e.profile, o);
    }
    assert scores == sums;
    LegacyFoldIsArgMax(scores);
  }

  // ---------------------------------------------------------------------
  // Dispatch

  datatype Rule = Kemeny | KemNash | LambKemNash | KemenyOriginal | Maxham | Maxeq | AllRules

  function ParseRule(name: string): (r: Option<Rule>)
  {
    match name
    case "kemeny" => Some(Kemeny)
    case "kemnash" => Some(KemNash)
    case "lamb-kemnash" => Some(LambKemNash)
    case "kemeny-original" => Some(KemenyOriginal)
    case "maxham" => Some(Maxham)
    case "maxeq" => Some(Maxeq)
    case "all_rules" => Some(AllRules)
    case _ => None
  }

  /** The value of `self.idxs`: 0 after the reset (and after the legacy
      rule, which does not set it), one index list, or the four lists of
      solve_all. */
  datatype Idxs = Unset | Single(idxs: seq<nat>) | PerRule(lists: seq<seq<nat>>)

  datatype Outcomes = OneRule(outcomes: seq<JDict>) | FourRules(perRule: seq<seq<JDict>>)

  /** What all_outcomes returns: binary strings, the (idxs, outcomes) pair,
      or the outcomes. */
  datatype Reply =
    | Binary(bins: seq<string>)
    | BinaryAll(perRule: seq<seq<string>>)
    | Indexed(idxs: Idxs, outcomes: Outcomes)
    | Plain(outcomes: Outcomes)

  function Signatures(ds: seq<JDict>): (r: seq<string>)
    ensures |r| == |ds| && forall k :: 0 <= k < |ds| ==> r[k] == Signature(ds[k])
  {
    seq(|ds|, k requires 0 <= k < |ds| => Signature(ds[k]))
  }

  function WinnersOf(w: Winners): (Idxs, Outcomes) {
    (Single(w.idxs), OneRule(w.outcomes))
  }

  /** The rule chain of all_outcomes, with the legacy rule's outcomes given
      (it is computed by a method). */
  function Solve(e: Election, rule: Rule, lamb: real, legacy: seq<JDict>): (Idxs, Outcomes)
    requires Covers(e)
    requires rule in {Maxham, Maxeq, AllRules} ==> !MinUndefined(e)
  {
    match rule
    case Kemeny => WinnersOf(SolveKemeny(e))
    case KemNash => WinnersOf(SolveKemNash(e, 0.0))
    case LambKemNash => WinnersOf(SolveKemNash(e, lamb))
    case KemenyOriginal => (Unset, OneRule(legacy))
    case Maxham => WinnersOf(SolveMaxham(e).value)
    case Maxeq => WinnersOf(SolveMaxeq(e).value)
    case AllRules => AllWinnersOf(SolveAll(e, lamb).value)
  }

  /** Every outcome a single rule returns is a feasible outcome. */
  lemma SolveFeasible(e: Election, rule: Rule, lamb: real, legacy: seq<JDict>)
    requires Covers(e)
    requires rule in {Maxham, Maxeq, AllRules} ==> !MinUndefined(e)
    requires forall o :: o in legacy ==> o in e.outConsistent
    ensures Solve(e, rule, lamb, legacy).1.OneRule? ==>
              forall o :: o in Solve(e, rule, lamb, legacy).1.outcomes ==> o in e.outConsistent
  {
    match rule
    case Kemeny => PickFeasible(e.outConsistent, SolveKemeny(e).idxs);
    case KemNash => PickFeasible(e.outConsistent, SolveKemNash(e, 0.0).idxs);
    case LambKemNash => PickFeasible(e.outConsistent, SolveKemNash(e, lamb).idxs);
    case KemenyOriginal =>
    case Maxham => PickFeasible(e.outConsistent, SolveMaxham(e).value.idxs);
    case Maxeq => PickFeasible(e.outConsistent, SolveMaxeq(e).value.idxs);
    case AllRules =>
  }

  lemma PickFeasible(out: seq<JDict>, idxs: seq<nat>)
    requires forall k :: 0 <= k < |idxs| ==> idxs[k] < |out|
    ensures forall o :: o in Pick(out, idxs) ==> o in out
  {
    forall o | o in Pick(out, idxs) ensures o in out {
      var k :| 0 <= k < |idxs| && Pick(out, idxs)[k] == o;
      assert out[idxs[k]] == o;
    }
  }

  /** solve_all's idxs and outcomes: one list per rule. */
  function AllWinnersOf(ws: seq<Winners>): (r: (Idxs, Outcomes))
    ensures r.0.PerRule? && |r.0.lists| == |ws|
    ensures forall k :: 0 <= k < |ws| ==> r.0.lists[k] == ws[k].idxs
  {
    (PerRule(seq(|ws|, k requires 0 <= k < |ws| => ws[k].idxs)),
     FourRules(seq(|ws|, k requires 0 <= k < |ws| => ws[k].outcomes)))
  }

  /** The reply format: binary strings take precedence over the index pair. */
  function Present(binrep: bool, idxRep: bool, idxs: Idxs, outcomes: Outcomes): (r: Reply)
    ensures binrep && outcomes.OneRule? ==> r == Binary(Signatures(outcomes.outcomes))
    ensures binrep && outcomes.FourRules? ==>
              && r.BinaryAll? && |r.perRule| == |outcomes.perRule|
              && forall k :: 0 <= k < |outcomes.perRule| ==> r.perRule[k] == Signatures(outcomes.perRule[k])
    ensures !binrep && idxRep ==> r == Indexed(idxs, outcomes)
    ensures !binrep && !idxRep ==> r == Plain(outcomes)
  {
    if binrep then
      match outcomes
      case OneRule(os) => Binary(Signatures(os))
      case FourRules(per) => BinaryAll(seq(|per|, k requires 0 <= k < |per| => Signatures(per[k])))
    else if idxRep then Indexed(idxs, outcomes)
    else Plain(outcomes)
  }

  class BFSolver {
    const binrep: bool
    const idxRep: bool
    var idxs: Idxs

    constructor(binrep: bool, idxRep: bool)
      ensures this.binrep == binrep && this.idxRep == idxRep && idxs == Unset
    {
      this.binrep := binrep;
      this.idxRep := idxRep;
      idxs := Unset;
    }

    /** all_outcomes: reset idxs, dispatch on the rule name, format the
        outcomes.  An unknown rule and min() of an empty vector are errors;
        idxs then stays reset. */
    method AllOutcomes(e: Election, rule: string, lamb: real) returns (r: Result<Reply, SolverError>)
      requires Covers(e)
      requires rule == "kemeny-original" ==> LegacyDefined(e)
      modifies this
      ensures ParseRule(rule).None? <==> r == Failure(UnknownRule(rule))
      ensures (ParseRule(rule).Some? && ParseRule(rule).value in {Maxham, Maxeq, AllRules} && MinUndefined(e))
              ==> r == Failure(EmptyAgreement)
      ensures r.Failure? <==> (ParseRule(rule).None?
                || (ParseRule(rule).value in {Maxham, Maxeq, AllRules} && MinUndefined(e)))
      ensures r.Failure? ==> idxs == Unset
      ensures r.Success? ==>
                var k := ParseRule(rule).value;
                var legacy := Pick(e.outConsistent, LegacyFold(LegacyScores(e), |e.outConsistent|).1);
                && !(k in {Maxham, Maxeq, AllRules} && MinUndefined(e))
                && (k == KemenyOriginal ==> LegacyDefined(e))
                && idxs == Solve(e, k, lamb, legacy).0
                && r.value == Present(binrep, idxRep, idxs, Solve(e, k, lamb, legacy).1)
    {
      idxs := Unset;
      var parsed := ParseRule(rule);
      if parsed.None? {
        return Failure(UnknownRule(rule));
      }
      var k := parsed.value;
      if k in {Maxham, Maxeq, AllRules} && MinUndefined(e) {
        return Failure(EmptyAgreement);
      }
      var legacy: seq<JDict> := [];
      if k == KemenyOriginal {
        legacy := SolveKemenyOriginal(e);
      }
      ghost var spec := Pick(e.outConsistent, LegacyFold(LegacyScores(e), |e.outConsistent|).1);
      assert k == KemenyOriginal ==> legacy == spec;
      assert Solve(e, k, lamb, legacy) == Solve(e, k, lamb, spec);
      var (newIdxs, outcomes) := Solve(e, k, lamb, legacy);
      idxs := newIdxs;
      r := Success(Present(binrep, idxRep, idxs, outcomes));
    }
  }
}
