/** Scenario post-processing: the comment filter on input lines, the
    translation of the satisfiability oracle's models into judgment dicts
    (clean_outcome), the reading and validation of voter lines, the
    num_voters override and the profile-space size. */
module Classes {
  import opened Wrappers
  import opened Dicts
  import opened Utils
  import BfSolver

  /** A model of the constraint formula: variable name -> truth value.  The
      agenda's label variables are named `l<label>`. */
  type Model = Dict<string, bool>

  /** label -> agenda formula. */
  type Agenda = Dict<int, Formula>

  datatype LoadError =
    | InputInconsistent              // the input constraint has no model
    | OutputInconsistent             // the output constraint has no model
    | BadLabel(key: string)          // int() of the text after 'l' fails
    | UnknownLabel(number: int)       // KeyError on the agenda
    | MissingIssue                   // order_dict: an agenda formula without a value
    | MissingLine                    // fewer voter lines than the header announces
    | InconsistentJudgmentSet(line: nat) // the voter line's ordinal among the voter lines, from 0
    | NegativeVoters                 // factorial of a negative number

  // ---------------------------------------------------------------------
  // Line filter

  predicate Kept(line: string) {
    line != "" && line[0] != '#'
  }

  /** The input lines without blank lines and comment lines, in order. */
  function StripLines(lines: seq<string>): (r: seq<string>)
    ensures forall i :: 0 <= i < |r| ==> Kept(r[i])
    ensures forall i :: 0 <= i < |lines| ==> (lines[i] in r <==> Kept(lines[i]))
    ensures forall i :: 0 <= i < |r| ==> r[i] in lines
  {
    if lines == [] then []
    else
      var init, last := lines[..|lines| - 1], lines[|lines| - 1];
      var r := StripLines(init) + (if Kept(last) then [last] else []);
      assert forall i :: 0 <= i < |init| ==> init[i] == lines[i];
      r
  }

  // ---------------------------------------------------------------------
  // Labels: int(key[1:])

  predicate IsDigit(c: char) {
    '0' <= c <= '9'
  }

  predicate AllDigits(s: string) {
    forall i :: 0 <= i < |s| ==> IsDigit(s[i])
  }

  function DigitsValue(s: string): nat
    requires AllDigits(s)
  {
    if s == [] then 0
    else 10 * DigitsValue(s[..|s| - 1]) + (s[|s| - 1] as int - '0' as int)
  }

  /** The label of a variable starting with 'l': the decimal number after
      it, or None where int() raises. */
  function ParseLabel(key: string): (r: Option<int>)
    requires key != []
    ensures r.Some? <==> |key| >= 2 && AllDigits(key[1..])
  {
    var rest := key[1..];
    if rest != [] && AllDigits(rest) then Some(DigitsValue(rest)) else None
  }

  /** The decimal spelling of n. */
  function DecimalString(n: nat): (s: string)
    ensures s != [] && AllDigits(s)
  {
    if n < 10 then [('0' as int + n) as char]
    else DecimalString(n / 10) + [('0' as int + n % 10) as char]
  }

  lemma {:induction false} DecimalRoundTrip(n: nat)
    ensures DigitsValue(DecimalString(n)) == n
  {
    if n >= 10 {
      DecimalRoundTrip(n / 10);
      var s := DecimalString(n);
      assert s[..|s| - 1] == DecimalString(n / 10);
    }
  }

  /** Multi-digit labels are read whole: the variable `l<n>` names label n. */
  lemma LabelRoundTrip(n: nat)
    ensures ParseLabel("l" + DecimalString(n)) == Some(n)
  {
    var key := "l" + DecimalString(n);
    assert key[1..] == DecimalString(n);
    DecimalRoundTrip(n);
  }

  // ---------------------------------------------------------------------
  // clean_outcome

  /** The oracle's variable names are never empty. */
  predicate NamedModel(model: Model) {
    forall k :: 0 <= k < |model| ==> model[k].0 != []
  }

  /** The key loop of clean_outcome from `acc` on: non-label variables are
      skipped, a label variable's value is stored under its agenda formula. */
  function TranslateFrom(agenda: Agenda, acc: JDict, model: Model): Result<JDict, LoadError>
    requires NamedModel(model)
    decreases |model|
  {
    if model == [] then Success(acc)
    else
      var key, value := model[0].0, model[0].1;
      if key[0] != 'l' then TranslateFrom(agenda, acc, model[1..])
      else match ParseLabel(key)
        case None => Failure(BadLabel(key))
        case Some(number) =>
          if number !in Keys(agenda) then Failure(UnknownLabel(number))
          else TranslateFrom(agenda, Put(acc, Get(agenda, number), value), model[1..])
  }

  /** One cleaned outcome: translated, then put in agenda order. */
  function Cleaned(agenda: Agenda, model: Model): Result<JDict, LoadError>
    requires NamedModel(model)
  {
    var translated :- TranslateFrom(agenda, [], model);
    if CoversAgenda(Values(agenda), translated) then Success(Reordered(Values(agenda), translated))
    else Failure(MissingIssue)
  }

  method TranslateOutcome(agenda: Agenda, model: Model) returns (r: Result<JDict, LoadError>)
    requires NamedModel(model)
    ensures r == Cleaned(agenda, model)
  {
    var translatedOutcomes: JDict := [];
    for k := 0 to |model|
      invariant TranslateFrom(agenda, [], model) == TranslateFrom(agenda, translatedOutcomes, model[k..])
    {
      assert model[k..][1..] == model[k + 1..];
      var formula, value := model[k].0, model[k].1;
      if formula[0] == 'l' {
        var parsed := ParseLabel(formula);
        if parsed.None? {
          return Failure(BadLabel(formula));
        }
        if parsed.value !in Keys(agenda) {
          return Failure(UnknownLabel(parsed.value));
        }
        var translation := Get(agenda, parsed.value);
        translatedOutcomes := Put(translatedOutcomes, translation, value);
      }
    }
    assert model[|model|..] == [];
    if !CoversAgenda(Values(agenda), translatedOutcomes) {
      return Failure(MissingIssue);
    }
    var ordered := OrderDict(Values(agenda), translatedOutcomes);
    r := Success(ordered);
  }

  /** A cleaned outcome is a complete judgment over the agenda formulas, in
      agenda order. */
  lemma CleanedShape(agenda: Agenda, model: Model)
    requires NamedModel(model) && Cleaned(agenda, model).Success?
    ensures IsDict(Cleaned(agenda, model).value)
    ensures Keys(Cleaned(agenda, model).value) == Dedup(Values(agenda))
  {
    ReorderedShape(Values(agenda), TranslateFrom(agenda, [], model).value);
  }

  /** The model loop of clean_outcome from `acc` on. */
  function CleanFrom(agenda: Agenda, acc: seq<JDict>, models: seq<Model>): Result<seq<JDict>, LoadError>
    requires forall i :: 0 <= i < |models| ==> NamedModel(models[i])
    decreases |models|
  {
    if models == [] then Success(acc)
    else
      var d :- Cleaned(agenda, models[0]);
      CleanFrom(agenda, acc + [d], models[1..])
  }

  /** Every model translated, in the oracle's order, duplicates kept. */
  function CleanAll(agenda: Agenda, models: seq<Model>): Result<seq<JDict>, LoadError>
    requires forall i :: 0 <= i < |models| ==> NamedModel(models[i])
  {
    CleanFrom(agenda, [], models)
  }

  /** clean_outcome.  The source drops duplicates through a set, so the
      order of the result is not specified; here it is first-occurrence. */
  method CleanOutcome(agenda: Agenda, models: seq<Model>) returns (r: Result<seq<JDict>, LoadError>)
    requires forall i :: 0 <= i < |models| ==> NamedModel(models[i])
    ensures r.Failure? <==> CleanAll(agenda, models).Failure?
    ensures r.Failure? ==> r.error == CleanAll(agenda, models).error
    ensures r.Success? ==> Distinct(r.value)
    ensures r.Success? ==> forall d :: d in r.value <==> d in CleanAll(agenda, models).value
  {
    var outcomes: seq<JDict> := [];
    for i := 0 to |models|
      invariant CleanAll(agenda, models) == CleanFrom(agenda, outcomes, models[i..])
    {
      assert models[i..][1..] == models[i + 1..];
      var cleaned := TranslateOutcome(agenda, models[i]);
      if cleaned.Failure? {
        return Failure(cleaned.error);
      }
      outcomes := outcomes + [cleaned.value];
    }
    assert models[|models|..] == [];
    var final := Dedup(outcomes);
    assert forall d :: d in final <==> d in outcomes by {
      forall d ensures d in final <==> d in outcomes {
        if d in outcomes {
          var i := IndexOf(outcomes, d);
          assert outcomes[i] in final;
        }
        if d in final {
          var i := IndexOf(final, d);
          assert final[i] in outcomes;
        }
      }
    }
    r := Success(final);
  }

  /** Every outcome clean_outcome returns is a complete judgment in agenda
      order. */
  lemma {:induction false} CleanFromShape(agenda: Agenda, acc: seq<JDict>, models: seq<Model>)
    requires forall i :: 0 <= i < |models| ==> NamedModel(models[i])
    requires forall d :: d in acc ==> Keys(d) == Dedup(Values(agenda)) && IsDict(d)
    requires CleanFrom(agenda, acc, models).Success?
    ensures forall d :: d in CleanFrom(agenda, acc, models).value ==> Keys(d) == Dedup(Values(agenda)) && IsDict(d)
    decreases |models|
  {
    if models != [] {
      CleanedShape(agenda, models[0]);
      var d := Cleaned(agenda, models[0]).value;
      CleanFromShape(agenda, acc + [d], models[1..]);
    }
  }

  // ---------------------------------------------------------------------
  // Voter lines

  /** A voter line `count, l1;...;ln`: `labels` is empty exactly when the
      text after the comma is empty. */
  datatype VoterLine = VoterLine(count: nat, labels: seq<int>)

  /** The profile header: number of voters, number of judgment-set lines. */
  datatype Header = Header(voters: int, numberOfJs: int)

  /** How many voter lines the header makes the loader read: the loop runs
      over `range(line_number+1, line_number+number_of_js+1)`, which is
      empty for a negative count. */
  function LineCount(header: Header): (n: nat)
    ensures header.numberOfJs >= 0 ==> n == header.numberOfJs
    ensures header.numberOfJs < 0 ==> n == 0
  {
    if header.numberOfJs < 0 then 0 else header.numberOfJs
  }

  /** `[agenda[label] for label in labels]`. */
  function JudgmentSetOf(agenda: Agenda, labels: seq<int>): (r: Result<JudgmentSet, LoadError>)
    ensures r.Success? <==> forall i :: 0 <= i < |labels| ==> labels[i] in Keys(agenda)
    ensures r.Success? ==> (|r.value| == |labels|
              && forall i :: 0 <= i < |labels| ==> r.value[i] == Get(agenda, labels[i]))
  {
    if labels == [] then Success([])
    else
      var init := JudgmentSetOf(agenda, labels[..|labels| - 1]);
      var last := labels[|labels| - 1];
      if init.Failure? then init
      else if last !in Keys(agenda) then Failure(UnknownLabel(last))
      else Success(init.value + [Get(agenda, last)])
  }

  /** The judgment set of a line is rational: its signature is that of a
      judgment consistent with the input constraints. */
  predicate Rational(agenda: Agenda, inBins: seq<string>, js: JudgmentSet) {
    JsToBin(Values(agenda), js) in inBins
  }

  /** One voter line as the source reads it.  A line with accepted formulas
      is checked against the rational signatures; a line accepting nothing
      becomes `[count, []]` without that check. */
  function VoterEntry(agenda: Agenda, inBins: seq<string>, line: VoterLine, pos: nat): (r: Result<ProfileEntry, LoadError>)
  {
    if line.labels == [] then Success(ProfileEntry(line.count, []))
    else
      var js :- JudgmentSetOf(agenda, line.labels);
      if Rational(agenda, inBins, js) then Success(ProfileEntry(line.count, js))
      else Failure(InconsistentJudgmentSet(pos))
  }

  /** A voter line keeps its multiplicity; an empty line is accepted as
      is; a non-empty one is accepted exactly when its judgment set is
      rational. */
  lemma VoterEntryMeaning(agenda: Agenda, inBins: seq<string>, line: VoterLine, pos: nat)
    ensures var r := VoterEntry(agenda, inBins, line, pos);
            && (r.Success? ==> r.value.times == line.count)
            && (line.labels == [] ==> r == Success(ProfileEntry(line.count, [])))
            && (line.labels != [] && r.Success? ==> Rational(agenda, inBins, r.value.js))
            && (line.labels != [] && JudgmentSetOf(agenda, line.labels).Success? ==>
                  (r.Failure? <==> !Rational(agenda, inBins, JudgmentSetOf(agenda, line.labels).value)))
  {
  }

  /** Reading n voter lines from `lines` on, after the entries `acc`. */
  function ReadFrom(agenda: Agenda, inBins: seq<string>, acc: Profile, lines: seq<VoterLine>, n: nat, pos: nat)
    : Result<Profile, LoadError>
    decreases n
  {
    if n == 0 then Success(acc)
    else if lines == [] then Failure(MissingLine)
    else
      var entry :- VoterEntry(agenda, inBins, lines[0], pos);
      ReadFrom(agenda, inBins, acc + [entry], lines[1..], n - 1, pos + 1)
  }

  /** Reading n lines appends exactly n entries to `acc`. */
  lemma {:induction false} ReadFromShape(agenda: Agenda, inBins: seq<string>, acc: Profile, lines: seq<VoterLine>, n: nat, pos: nat)
    requires ReadFrom(agenda, inBins, acc, lines, n, pos).Success?
    ensures n <= |lines|
    ensures |ReadFrom(agenda, inBins, acc, lines, n, pos).value| == |acc| + n
    ensures ReadFrom(agenda, inBins, acc, lines, n, pos).value[..|acc|] == acc
    decreases n
  {
    if n > 0 {
      ReadFromStep(agenda, inBins, acc, lines, n, pos);
      var entry := VoterEntry(agenda, inBins, lines[0], pos).value;
      var acc' := acc + [entry];
      var rest := ReadFrom(agenda, inBins, acc', lines[1..], n - 1, pos + 1);
      ReadFromShape(agenda, inBins, acc', lines[1..], n - 1, pos + 1);
      var p := rest.value;
      assert p[..|acc'|] == acc';
      assert p[..|acc|] == acc'[..|acc|] == acc;
    }
  }

  /** Entry k of the profile read is what voter line k gives. */
  lemma {:induction false} ReadFromEntry(agenda: Agenda, inBins: seq<string>, acc: Profile, lines: seq<VoterLine>,
                                          n: nat, pos: nat, k: nat)
    requires ReadFrom(agenda, inBins, acc, lines, n, pos).Success?
    requires k < n
    ensures k < |lines| && |acc| + k < |ReadFrom(agenda, inBins, acc, lines, n, pos).value|
    ensures VoterEntry(agenda, inBins, lines[k], pos + k).Success?
    ensures ReadFrom(agenda, inBins, acc, lines, n, pos).value[|acc| + k]
            == VoterEntry(agenda, inBins, lines[k], pos + k).value
    decreases n
  {
    ReadFromShape(agenda, inBins, acc, lines, n, pos);
    ReadFromStep(agenda, inBins, acc, lines, n, pos);
    var entry := VoterEntry(agenda, inBins, lines[0], pos).value;
    var acc' := acc + [entry];
    var rest := ReadFrom(agenda, inBins, acc', lines[1..], n - 1, pos + 1);
    var p := rest.value;
    if k == 0 {
      ReadFromShape(agenda, inBins, acc', lines[1..], n - 1, pos + 1);
      assert p[|acc|] == p[..|acc'|][|acc|];
      assert VoterEntry(agenda, inBins, lines[k], pos + k) == VoterEntry(agenda, inBins, lines[0], pos);
    } else {
      ReadFromEntry(agenda, inBins, acc', lines[1..], n - 1, pos + 1, k - 1);
      assert lines[1..][k - 1] == lines[k];
      assert |acc| + k == |acc'| + (k - 1) && pos + 1 + (k - 1) == pos + k;
    }
  }

  /** The profile read in full holds one entry per announced line with its
      line's multiplicity; every non-empty judgment set in it is rational,
      and a line accepting nothing gives an empty judgment set. */
  lemma ReadProfileEntries(agenda: Agenda, inBins: seq<string>, lines: seq<VoterLine>, n: nat)
    requires ReadFrom(agenda, inBins, [], lines, n, 0).Success?
    ensures n <= |lines| && |ReadFrom(agenda, inBins, [], lines, n, 0).value| == n
    ensures forall k :: 0 <= k < n ==>
              var e := ReadFrom(agenda, inBins, [], lines, n, 0).value[k];
              && e.times == lines[k].count
              && (lines[k].labels != [] ==> Rational(agenda, inBins, e.js))
              && (lines[k].labels == [] ==> e.js == [])
  {
    ReadFromShape(agenda, inBins, [], lines, n, 0);
    var p := ReadFrom(agenda, inBins, [], lines, n, 0).value;
    forall k | 0 <= k < n
      ensures && p[k].times == lines[k].count
              && (lines[k].labels != [] ==> Rational(agenda, inBins, p[k].js))
              && (lines[k].labels == [] ==> p[k].js == [])
    {
      ReadProfileEntry(agenda, inBins, lines, n, k);
    }
  }

  lemma ReadProfileEntry(agenda: Agenda, inBins: seq<string>, lines: seq<VoterLine>, n: nat, k: nat)
    requires ReadFrom(agenda, inBins, [], lines, n, 0).Success? && k < n
    ensures k < |lines| && k < |ReadFrom(agenda, inBins, [], lines, n, 0).value|
    ensures var e := ReadFrom(agenda, inBins, [], lines, n, 0).value[k];
            && e.times == lines[k].count
            && (lines[k].labels != [] ==> Rational(agenda, inBins, e.js))
            && (lines[k].labels == [] ==> e.js == [])
  {
    ReadFromEntry(agenda, inBins, [], lines, n, 0, k);
    VoterEntryMeaning(agenda, inBins, lines[k], 0 + k);
    var e := VoterEntry(agenda, inBins, lines[k], 0 + k);
    assert ReadFrom(agenda, inBins, [], lines, n, 0).value[0 + k] == e.value;
  }

  // ---------------------------------------------------------------------
  // load_from_file, from the oracle's models on

  /** The first error load_from_file raises, if any, in source order: the
      consistency checks, the translation of both model lists, then the
      voter lines and the profile-space size.  `oldVoters` is number_voters
      before the call. */
  function LoadStatus(agenda: Agenda, inModels: seq<Model>, outModels: seq<Model>,
                      numVoters: Option<int>, header: Header, lines: seq<VoterLine>, oldVoters: int)
    : Option<LoadError>
    requires forall i :: 0 <= i < |inModels| ==> NamedModel(inModels[i])
    requires forall i :: 0 <= i < |outModels| ==> NamedModel(outModels[i])
  {
    if inModels == [] then Some(InputInconsistent)
    else if outModels == [] then Some(OutputInconsistent)
    else if CleanAll(agenda, inModels).Failure? then Some(CleanAll(agenda, inModels).error)
    else if CleanAll(agenda, outModels).Failure? then Some(CleanAll(agenda, outModels).error)
    else VoterStatus(agenda, BfSolver.Signatures(CleanAll(agenda, inModels).value), numVoters, header, lines, oldVoters)
  }

  /** The error load_from_file raises, if any, once both model lists are
      translated: the voter lines, then a negative number_voters. */
  function VoterStatus(agenda: Agenda, inBins: seq<string>, numVoters: Option<int>, header: Header,
                       lines: seq<VoterLine>, oldVoters: int): Option<LoadError>
  {
    if numVoters.Some? then (if numVoters.value < 0 then Some(NegativeVoters) else None)
    else
      var read := ReadFrom(agenda, inBins, [], lines, LineCount(header), 0);
      if read.Failure? then Some(read.error)
      else if oldVoters + header.voters < 0 then Some(NegativeVoters)
      else None
  }

  /** Deduplicating the rational judgments does not change which signatures
      are rational. */
  lemma SignaturesOfSameSet(a: seq<JDict>, b: seq<JDict>)
    requires forall d :: d in a <==> d in b
    ensures forall x :: x in BfSolver.Signatures(a) <==> x in BfSolver.Signatures(b)
  {
    forall x | x in BfSolver.Signatures(a) ensures x in BfSolver.Signatures(b) {
      var i :| 0 <= i < |a| && BfSolver.Signatures(a)[i] == x;
      assert a[i] in b;
      var j :| 0 <= j < |b| && b[j] == a[i];
      assert BfSolver.Signatures(b)[j] == x;
    }
    forall x | x in BfSolver.Signatures(b) ensures x in BfSolver.Signatures(a) {
      var j :| 0 <= j < |b| && BfSolver.Signatures(b)[j] == x;
      assert b[j] in a;
      var i :| 0 <= i < |a| && a[i] == b[j];
      assert BfSolver.Signatures(a)[i] == x;
    }
  }

  lemma {:induction false} ReadFromSameBins(agenda: Agenda, bins1: seq<string>, bins2: seq<string>,
                                             acc: Profile, lines: seq<VoterLine>, n: nat, pos: nat)
    requires forall x :: x in bins1 <==> x in bins2
    ensures ReadFrom(agenda, bins1, acc, lines, n, pos) == ReadFrom(agenda, bins2, acc, lines, n, pos)
    decreases n
  {
    if n > 0 && lines != [] {
      var e1 := VoterEntry(agenda, bins1, lines[0], pos);
      assert e1 == VoterEntry(agenda, bins2, lines[0], pos);
      if e1.Success? {
        ReadFromSameBins(agenda, bins1, bins2, acc + [e1.value], lines[1..], n - 1, pos + 1);
      }
    }
  }

  class Scenario {
    var agenda: Agenda
    var profile: Profile
    var numberVoters: int
    var inConsistent: seq<JDict>
    var outConsistent: seq<JDict>
    var numProfs: nat

    constructor()
      ensures agenda == [] && profile == [] && numberVoters == 0
      ensures inConsistent == [] && outConsistent == [] && numProfs == 0
    {
      agenda := [];
      profile := [];
      numberVoters := 0;
      inConsistent := [];
      outConsistent := [];
      numProfs := 0;
    }

    /** The part of load_from_file after the formula machinery: the oracle's
        models of the input and output constraints are given, as are the
        agenda, the optional num_voters override, the profile header and the
        voter lines. */
    method LoadFromFile(agenda: Agenda, inModels: seq<Model>, outModels: seq<Model>,
                        numVoters: Option<int>, header: Header, lines: seq<VoterLine>)
      returns (r: Result<(), LoadError>)
      requires forall i :: 0 <= i < |inModels| ==> NamedModel(inModels[i])
      requires forall i :: 0 <= i < |outModels| ==> NamedModel(outModels[i])
      modifies this
      ensures r.Failure? <==> LoadStatus(agenda, inModels, outModels, numVoters, header, lines, old(numberVoters)).Some?
      ensures r.Failure? ==> r.error == LoadStatus(agenda, inModels, outModels, numVoters, header, lines, old(numberVoters)).value
      ensures r.Success? ==>
                && this.agenda == agenda
                && CleanAll(agenda, inModels).Success? && CleanAll(agenda, outModels).Success?
                && inConsistent != [] && outConsistent != []
                && Distinct(inConsistent) && Distinct(outConsistent)
                && (forall d :: d in inConsistent <==> d in CleanAll(agenda, inModels).value)
                && (forall d :: d in outConsistent <==> d in CleanAll(agenda, outModels).value)
                && (numVoters.Some? ==> numberVoters == numVoters.value && profile == old(profile))
                && (numVoters.None? ==>
                      && numberVoters == old(numberVoters) + header.voters
                      && profile == old(profile)
                           + ReadFrom(agenda, BfSolver.Signatures(CleanAll(agenda, inModels).value), [], lines, LineCount(header), 0).value)
                && numberVoters >= 0
                && numProfs == MultisetCoefficient(|inConsistent|, numberVoters)
    {
      this.agenda := agenda;
      if inModels == [] {
        return Failure(InputInconsistent);
      }
      if outModels == [] {
        return Failure(OutputInconsistent);
      }
      var ins := CleanOutcome(agenda, inModels);
      if ins.Failure? {
        return Failure(ins.error);
      }
      var outs := CleanOutcome(agenda, outModels);
      if outs.Failure? {
        return Failure(outs.error);
      }
      inConsistent := ins.value;
      outConsistent := outs.value;
      CleanAllNonEmpty(agenda, inModels);
      CleanAllNonEmpty(agenda, outModels);
      assert CleanAll(agenda, inModels).value[0] in inConsistent;
      assert CleanAll(agenda, outModels).value[0] in outConsistent;
      r := LoadVoters(agenda, CleanAll(agenda, inModels).value, numVoters, header, lines);
    }

    /** The tail of load_from_file: number_voters from the override or the
        header, the voter lines appended to the profile, then the size of
        the profile space.  `clean` is the translated input models, of
        which in_consistent holds the same judgments. */
    method LoadVoters(agenda: Agenda, clean: seq<JDict>, numVoters: Option<int>, header: Header,
                      lines: seq<VoterLine>)
      returns (r: Result<(), LoadError>)
      requires inConsistent != [] && forall d :: d in inConsistent <==> d in clean
      modifies this`numberVoters, this`profile, this`numProfs
      ensures r.Failure? <==> VoterStatus(agenda, BfSolver.Signatures(clean), numVoters, header, lines, old(numberVoters)).Some?
      ensures r.Failure? ==> r.error == VoterStatus(agenda, BfSolver.Signatures(clean), numVoters, header, lines, old(numberVoters)).value
      ensures r.Success? ==>
                && (numVoters.Some? ==> numberVoters == numVoters.value && profile == old(profile))
                && (numVoters.None? ==>
                      && numberVoters == old(numberVoters) + header.voters
                      && profile == old(profile)
                           + ReadFrom(agenda, BfSolver.Signatures(clean), [], lines, LineCount(header), 0).value)
                && numberVoters >= 0
                && numProfs == MultisetCoefficient(|inConsistent|, numberVoters)
    {
      var inConsistentBin := BfSolver.Signatures(inConsistent);
      if numVoters.Some? {
        numberVoters := numVoters.value;
      } else {
        numberVoters := numberVoters + header.voters;
        SignaturesOfSameSet(inConsistent, clean);
        ReadFromSameBins(agenda, inConsistentBin, BfSolver.Signatures(clean), [], lines, LineCount(header), 0);
        var read := ReadProfile(agenda, inConsistentBin, lines, LineCount(header));
        if read.Failure? {
          return Failure(read.error);
        }
        profile := profile + read.value;
      }
      if numberVoters < 0 {
        return Failure(NegativeVoters);
      }
      numProfs := MultisetCoefficient(|inConsistent|, numberVoters);
      r := Success(());
    }
  }

  /** A non-empty list of models cleans to a non-empty list. */
  lemma CleanAllNonEmpty(agenda: Agenda, models: seq<Model>)
    requires forall i :: 0 <= i < |models| ==> NamedModel(models[i])
    requires models != [] && CleanAll(agenda, models).Success?
    ensures CleanAll(agenda, models).value != []
  {
    var d := Cleaned(agenda, models[0]).value;
    assert [] + [d] == [d];
    CleanFromKeepsPrefix(agenda, [d], models[1..]);
  }

  lemma {:induction false} CleanFromKeepsPrefix(agenda: Agenda, acc: seq<JDict>, models: seq<Model>)
    requires forall i :: 0 <= i < |models| ==> NamedModel(models[i])
    requires CleanFrom(agenda, acc, models).Success?
    ensures |CleanFrom(agenda, acc, models).value| >= |acc|
    ensures CleanFrom(agenda, acc, models).value[..|acc|] == acc
    decreases |models|
  {
    if models != [] {
      var d := Cleaned(agenda, models[0]).value;
      CleanFromKeepsPrefix(agenda, acc + [d], models[1..]);
      assert (acc + [d])[..|acc|] == acc;
    }
  }

  /** One step of ReadFrom. */
  lemma ReadFromStep(agenda: Agenda, inBins: seq<string>, acc: Profile, lines: seq<VoterLine>, n: nat, pos: nat)
    requires n > 0 && lines != []
    ensures var entry := VoterEntry(agenda, inBins, lines[0], pos);
            ReadFrom(agenda, inBins, acc, lines, n, pos)
            == if entry.Failure? then Failure(entry.error)
               else ReadFrom(agenda, inBins, acc + [entry.value], lines[1..], n - 1, pos + 1)
  {
  }

  /** The body of the voter-line loop for the line at position `pos`. */
  method ReadVoterLine(agenda: Agenda, inBins: seq<string>, line: VoterLine, pos: nat)
    returns (r: Result<ProfileEntry, LoadError>)
    ensures r == VoterEntry(agenda, inBins, line, pos)
  {
    if line.labels == [] {
      return Success(ProfileEntry(line.count, []));
    }
    var js := JudgmentSetOf(agenda, line.labels);
    if js.Failure? {
      return Failure(js.error);
    }
    if JsToBin(Values(agenda), js.value) !in inBins {
      return Failure(InconsistentJudgmentSet(pos));
    }
    r := Success(ProfileEntry(line.count, js.value));
  }

  /** The voter-line loop of load_from_file. */
  method ReadProfile(agenda: Agenda, inBins: seq<string>, lines: seq<VoterLine>, numberOfJs: nat)
    returns (r: Result<Profile, LoadError>)
    ensures r == ReadFrom(agenda, inBins, [], lines, numberOfJs, 0)
  {
    var entries: Profile := [];
    var i := 0;
    assert lines[0..] == lines;
    while i < numberOfJs
      invariant 0 <= i <= numberOfJs
      invariant i <= |lines|
      invariant ReadFrom(agenda, inBins, [], lines, numberOfJs, 0)
                == ReadFrom(agenda, inBins, entries, lines[i..], numberOfJs - i, i)
    {
      if i == |lines| {
        assert lines[i..] == [];
        return Failure(MissingLine);
      }
      var rest := lines[i..];
      assert rest[1..] == lines[i + 1..] && rest[0] == lines[i];
      ReadFromStep(agenda, inBins, entries, rest, numberOfJs - i, i);
      var entry := ReadVoterLine(agenda, inBins, lines[i], i);
      if entry.Failure? {
        return Failure(entry.error);
      }
      assert ReadFrom(agenda, inBins, [], lines, numberOfJs, 0)
             == ReadFrom(agenda, inBins, entries + [entry.value], lines[i + 1..], numberOfJs - (i + 1), i + 1);
      entries := entries + [entry.value];
      i := i + 1;
    }
    r := Success(entries);
  }
}
