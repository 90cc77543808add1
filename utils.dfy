/** Representation helpers of the aggregation engine: judgments as
    dictionaries, accepted lists and binary signatures; negation and the
    antipodal test; the multiset coefficient and the enumeration of
    combinations with replacement it counts; multiplicity tallies. */
module Utils {
  import opened Dicts

  /** An agenda item.  The source uses negation-normal-form formula objects,
      compared structurally; here they are their text. */
  type Formula = string

  /** A complete judgment: issue -> accepted? */
  type JDict = Dict<Formula, bool>

  /** A judgment set: the list of accepted issues. */
  type JudgmentSet = seq<Formula>

  /** One line of a profile: `times` voters hold the judgment set `js`. */
  datatype ProfileEntry = ProfileEntry(times: nat, js: JudgmentSet)

  type Profile = seq<ProfileEntry>

  /** The number of voters a profile describes: the sum of its multiplicities. */
  function Voters(p: Profile): nat {
    if p == [] then 0 else Voters(p[..|p| - 1]) + p[|p| - 1].times
  }

  lemma {:induction false} VotersAppend(p: Profile, q: Profile)
    ensures Voters(p + q) == Voters(p) + Voters(q)
    decreases |q|
  {
    if q != [] {
      var last := q[|q| - 1];
      assert (p + q)[..|p + q| - 1] == p + q[..|q| - 1];
      VotersAppend(p, q[..|q| - 1]);
    } else {
      assert p + q == p;
    }
  }

  /** For a dict, the value stored under its i-th key. */
  lemma GetAt<K, V>(d: Dict<K, V>, i: nat)
    requires IsDict(d) && i < |d|
    ensures d[i].0 in Keys(d) && Get(d, d[i].0) == d[i].1
  {
    assert Keys(d)[i] == d[i].0;
    IndexOfUnique(Keys(d), i, d[i].0);
  }

  // ---------------------------------------------------------------------
  // jdict_to_js

  /** The keys mapped to True, in key order. */
  function Accepted(d: JDict): JudgmentSet {
    if d == [] then []
    else Accepted(d[..|d| - 1]) + (if d[|d| - 1].1 then [d[|d| - 1].0] else [])
  }

  method JdictToJs(d: JDict) returns (js: JudgmentSet)
    ensures js == Accepted(d)
  {
    js := [];
    for i := 0 to |d|
      invariant js == Accepted(d[..i])
    {
      assert d[..i + 1][..i] == d[..i];
      if d[i].1 {
        js := js + [d[i].0];
      }
    }
    assert d[..|d|] == d;
  }

  /** An issue is in the judgment set of a dict iff the dict maps it to True. */
  lemma {:induction false} AcceptedMembers(d: JDict)
    requires IsDict(d)
    ensures forall f :: f in Accepted(d) <==> f in Keys(d) && Get(d, f)
  {
    if d != [] {
      var init, k, v := d[..|d| - 1], d[|d| - 1].0, d[|d| - 1].1;
      assert Keys(init) == Keys(d)[..|d| - 1];
      assert IsDict(init);
      AcceptedMembers(init);
      assert d == init + [(k, v)];
      DistinctPrefixExcludes(Keys(d), |d| - 1);
      PutAppendedGets(init, k, v);
    }
  }

  // ---------------------------------------------------------------------
  // jdict_to_bin

  /** The binary signature: one character per entry, '1' exactly for True. */
  function Signature(d: JDict): (b: string)
    ensures |b| == |d|
    ensures forall i :: 0 <= i < |d| ==> b[i] == if d[i].1 then '1' else '0'
  {
    if d == [] then ""
    else Signature(d[..|d| - 1]) + [if d[|d| - 1].1 then '1' else '0']
  }

  method JdictToBin(d: JDict) returns (b: string)
    ensures b == Signature(d)
  {
    b := "";
    for i := 0 to |d|
      invariant b == Signature(d[..i])
    {
      assert d[..i + 1][..i] == d[..i];
      if d[i].1 {
        b := b + "1";
      } else {
        b := b + "0";
      }
    }
    assert d[..|d|] == d;
  }

  // ---------------------------------------------------------------------
  // js_to_jdict, js_to_bin

  /** `jdict[issue] = issue in js` for every agenda formula, in agenda order. */
  function JudgmentDict(agenda: seq<Formula>, js: JudgmentSet): JDict {
    if agenda == [] then []
    else
      var f := agenda[|agenda| - 1];
      Put(JudgmentDict(agenda[..|agenda| - 1], js), f, f in js)
  }

  method JsToJdict(agenda: seq<Formula>, js: JudgmentSet) returns (d: JDict)
    ensures d == JudgmentDict(agenda, js)
  {
    d := [];
    for i := 0 to |agenda|
      invariant d == JudgmentDict(agenda[..i], js)
    {
      assert agenda[..i + 1][..i] == agenda[..i];
      var issue := agenda[i];
      if issue in js {
        d := Put(d, issue, true);
      } else {
        d := Put(d, issue, false);
      }
    }
    assert agenda[..|agenda|] == agenda;
  }

  /** The dict has exactly the agenda formulas as keys, in agenda order, and
      maps each to whether it is in `js`. */
  lemma JudgmentDictShape(agenda: seq<Formula>, js: JudgmentSet)
    ensures IsDict(JudgmentDict(agenda, js))
    ensures Keys(JudgmentDict(agenda, js)) == Dedup(agenda)
    ensures forall f :: f in agenda ==> f in Keys(JudgmentDict(agenda, js))
    ensures forall f :: f in agenda ==> Get(JudgmentDict(agenda, js), f) == (f in js)
  {
    JudgmentDictKeys(agenda, js);
    JudgmentDictGets(agenda, js);
  }

  lemma {:induction false} JudgmentDictKeys(agenda: seq<Formula>, js: JudgmentSet)
    ensures IsDict(JudgmentDict(agenda, js))
    ensures Keys(JudgmentDict(agenda, js)) == Dedup(agenda)
  {
    if agenda != [] {
      var init, f := agenda[..|agenda| - 1], agenda[|agenda| - 1];
      JudgmentDictKeys(init, js);
      assert JudgmentDict(agenda, js) == Put(JudgmentDict(init, js), f, f in js);
      assert Dedup(agenda) == if f in Dedup(init) then Dedup(init) else Dedup(init) + [f];
    }
  }

  lemma {:induction false} JudgmentDictGets(agenda: seq<Formula>, js: JudgmentSet)
    ensures forall f :: f in agenda ==> f in Keys(JudgmentDict(agenda, js))
    ensures forall f :: f in agenda ==> Get(JudgmentDict(agenda, js), f) == (f in js)
  {
    if agenda != [] {
      var init, f := agenda[..|agenda| - 1], agenda[|agenda| - 1];
      JudgmentDictGets(init, js);
      var d := JudgmentDict(init, js);
      var r := Put(d, f, f in js);
      assert JudgmentDict(agenda, js) == r;
      assert f in Keys(r);
      forall g | g in agenda && g != f ensures g in Keys(r) && Get(r, g) == (g in js) {
        InFront(agenda, g);
      }
    }
  }

  function JsToBin(agenda: seq<Formula>, js: JudgmentSet): string {
    Signature(JudgmentDict(agenda, js))
  }

  /** Entry i of the judgment dict is the i-th distinct agenda formula with
      its membership in js. */
  lemma JudgmentDictEntries(agenda: seq<Formula>, js: JudgmentSet)
    ensures |JudgmentDict(agenda, js)| == |Dedup(agenda)|
    ensures forall i :: 0 <= i < |Dedup(agenda)| ==>
              JudgmentDict(agenda, js)[i] == (Dedup(agenda)[i], Dedup(agenda)[i] in js)
  {
    var d := JudgmentDict(agenda, js);
    JudgmentDictShape(agenda, js);
    forall i | 0 <= i < |d| ensures d[i] == (Dedup(agenda)[i], Dedup(agenda)[i] in js) {
      assert Keys(d)[i] == d[i].0;
      GetAt(d, i);
    }
  }

  /** Character i of js_to_bin is '1' iff the i-th distinct agenda formula is
      in js. */
  lemma JsToBinChars(agenda: seq<Formula>, js: JudgmentSet)
    ensures |JsToBin(agenda, js)| == |Dedup(agenda)|
    ensures forall i :: 0 <= i < |Dedup(agenda)| ==>
              JsToBin(agenda, js)[i] == if Dedup(agenda)[i] in js then '1' else '0'
  {
    JudgmentDictEntries(agenda, js);
  }

  /** Two judgment sets get the same signature iff they accept the same
      agenda formulas. */
  lemma SignatureIffSameMembers(agenda: seq<Formula>, js1: JudgmentSet, js2: JudgmentSet)
    ensures JsToBin(agenda, js1) == JsToBin(agenda, js2)
            <==> forall f :: f in agenda ==> (f in js1 <==> f in js2)
  {
    var ds := Dedup(agenda);
    var b1, b2 := JsToBin(agenda, js1), JsToBin(agenda, js2);
    JsToBinChars(agenda, js1);
    JsToBinChars(agenda, js2);
    if b1 == b2 {
      forall f | f in agenda ensures f in js1 <==> f in js2 {
        var i := IndexOf(ds, f);
        assert b1[i] == b2[i];
      }
    }
    if forall f :: f in agenda ==> (f in js1 <==> f in js2) {
      assert forall i :: 0 <= i < |ds| ==> ds[i] in agenda;
      assert b1 == b2;
    }
  }

  /** The formulas of `s` that occur in `js`, in the order of `s`. */
  function FilterIn(s: seq<Formula>, js: JudgmentSet): seq<Formula> {
    if s == [] then []
    else FilterIn(s[..|s| - 1], js) + (if s[|s| - 1] in js then [s[|s| - 1]] else [])
  }

  lemma {:induction false} AcceptedOfMembership(d: JDict, js: JudgmentSet)
    requires forall i :: 0 <= i < |d| ==> d[i].1 == (d[i].0 in js)
    ensures Accepted(d) == FilterIn(Keys(d), js)
  {
    if d != [] {
      var init := d[..|d| - 1];
      assert Keys(init) == Keys(d)[..|d| - 1];
      AcceptedOfMembership(init, js);
    }
  }

  /** jdict_to_js(js_to_jdict(js)): the agenda items, in agenda order, that
      occur in js. */
  lemma JudgmentRoundTrip(agenda: seq<Formula>, js: JudgmentSet)
    ensures Accepted(JudgmentDict(agenda, js)) == FilterIn(Dedup(agenda), js)
  {
    var d := JudgmentDict(agenda, js);
    JudgmentDictShape(agenda, js);
    forall i | 0 <= i < |d| ensures d[i].1 == (d[i].0 in js) {
      assert Keys(d)[i] == d[i].0;
      GetAt(d, i);
    }
    AcceptedOfMembership(d, js);
  }

  // ---------------------------------------------------------------------
  // order_dict

  predicate CoversAgenda(agenda: seq<Formula>, d: JDict) {
    forall f :: f in agenda ==> f in Keys(d)
  }

  /** `result[issue] = dict_in[issue]` for every agenda formula, in agenda order. */
  function Reordered(agenda: seq<Formula>, d: JDict): JDict
    requires CoversAgenda(agenda, d)
  {
    if agenda == [] then []
    else
      var f := agenda[|agenda| - 1];
      Put(Reordered(agenda[..|agenda| - 1], d), f, Get(d, f))
  }

  method OrderDict(agenda: seq<Formula>, d: JDict) returns (r: JDict)
    requires CoversAgenda(agenda, d)
    ensures r == Reordered(agenda, d)
  {
    r := [];
    for i := 0 to |agenda|
      invariant r == Reordered(agenda[..i], d)
    {
      assert agenda[..i + 1][..i] == agenda[..i];
      r := Put(r, agenda[i], Get(d, agenda[i]));
    }
    assert agenda[..|agenda|] == agenda;
  }

  /** The reordered dict is keyed by the agenda in agenda order and keeps the
      input's values. */
  lemma ReorderedShape(agenda: seq<Formula>, d: JDict)
    requires CoversAgenda(agenda, d)
    ensures IsDict(Reordered(agenda, d))
    ensures Keys(Reordered(agenda, d)) == Dedup(agenda)
    ensures forall f :: f in agenda ==> f in Keys(Reordered(agenda, d))
    ensures forall f :: f in agenda ==> Get(Reordered(agenda, d), f) == Get(d, f)
  {
    ReorderedKeys(agenda, d);
    ReorderedValues(agenda, d);
  }

  lemma {:induction false} ReorderedKeys(agenda: seq<Formula>, d: JDict)
    requires CoversAgenda(agenda, d)
    ensures IsDict(Reordered(agenda, d)) && Keys(Reordered(agenda, d)) == Dedup(agenda)
  {
    if agenda != [] {
      var init, f := agenda[..|agenda| - 1], agenda[|agenda| - 1];
      ReorderedKeys(init, d);
      assert agenda == init + [f];
    }
  }

  lemma {:induction false} ReorderedValues(agenda: seq<Formula>, d: JDict)
    requires CoversAgenda(agenda, d)
    ensures forall f :: f in agenda ==> f in Keys(Reordered(agenda, d)) && Get(Reordered(agenda, d), f) == Get(d, f)
  {
    if agenda != [] {
      var init, f := agenda[..|agenda| - 1], agenda[|agenda| - 1];
      ReorderedValues(init, d);
      ReorderedKeys(init, d);
      var r := Reordered(agenda, d);
      assert r == Put(Reordered(init, d), f, Get(d, f));
      forall g | g in agenda ensures g in Keys(r) && Get(r, g) == Get(d, g) {
        if g != f {
          InFront(agenda, g);
        }
      }
    }
  }

  // ---------------------------------------------------------------------
  // revert_jdict

  /** One-argument revert_jdict: every value negated, keys kept. */
  function Negated(d: JDict): JDict {
    seq(|d|, i requires 0 <= i < |d| => (d[i].0, !d[i].1))
  }

  method RevertJdict(d: JDict) returns (r: JDict)
    requires IsDict(d)
    ensures r == Negated(d)
  {
    r := [];
    for i := 0 to |d|
      invariant r == Negated(d[..i])
    {
      var (key, val) := d[i];
      assert Keys(r) == Keys(d)[..i];
      DistinctPrefixExcludes(Keys(d), i);
      if val == true {
        r := Put(r, key, false);
      } else {
        r := Put(r, key, true);
      }
    }
    assert d[..|d|] == d;
  }

  lemma NegatedInvolution(d: JDict)
    ensures Keys(Negated(d)) == Keys(d)
    ensures Negated(Negated(d)) == d
  {
  }

  /** Two-argument revert_jdict: every issue of `d1` has the other value in `d2`. */
  predicate Antipodal(d1: JDict, d2: JDict)
    requires forall i :: 0 <= i < |d1| ==> d1[i].0 in Keys(d2)
  {
    forall i :: 0 <= i < |d1| ==> d1[i].1 != Get(d2, d1[i].0)
  }

  method RevertJdictPair(d1: JDict, d2: JDict) returns (revert: bool)
    requires |d1| == |d2|
    requires forall i :: 0 <= i < |d1| ==> d1[i].0 in Keys(d2)
    ensures revert == Antipodal(d1, d2)
  {
    revert := true;
    var i := 0;
    while i < |d1|
      invariant 0 <= i <= |d1|
      invariant revert && forall j :: 0 <= j < i ==> d1[j].1 != Get(d2, d1[j].0)
    {
      var (issue, val) := d1[i];
      if val == Get(d2, issue) {
        revert := false;
        break;
      }
      i := i + 1;
    }
  }

  lemma AntipodalToNegated(d: JDict)
    requires IsDict(d)
    ensures forall i :: 0 <= i < |d| ==> d[i].0 in Keys(Negated(d))
    ensures Antipodal(d, Negated(d))
  {
    var n := Negated(d);
    assert Keys(n) == Keys(d);
    forall i | 0 <= i < |d| ensures d[i].0 in Keys(n) && d[i].1 != Get(n, d[i].0) {
      assert Keys(n)[i] == d[i].0;
      GetAt(n, i);
    }
  }

  /** Over the same key order, being antipodal is being the negation. */
  lemma AntipodalIsNegated(d1: JDict, d2: JDict)
    requires IsDict(d2) && Keys(d1) == Keys(d2)
    requires forall i :: 0 <= i < |d1| ==> d1[i].0 in Keys(d2)
    ensures Antipodal(d1, d2) <==> d2 == Negated(d1)
  {
    forall i | 0 <= i < |d1| ensures d2[i].0 == d1[i].0 && Get(d2, d1[i].0) == d2[i].1 {
      assert Keys(d1)[i] == Keys(d2)[i];
      GetAt(d2, i);
    }
    if d2 == Negated(d1) {
      assert forall i :: 0 <= i < |d1| ==> d2[i].1 == !d1[i].1;
    }
  }

  // ---------------------------------------------------------------------
  // count_consistentOpp

  /** What revert_jdict(all[i], all[j]) demands for every pair i < j. */
  predicate PairsComparable(all: seq<JDict>) {
    forall i, j :: 0 <= i < j < |all| ==>
      |all[i]| == |all[j]| && forall k :: 0 <= k < |all[i]| ==> all[i][k].0 in Keys(all[j])
  }

  /** Number of j with i < j < hi whose judgment is antipodal to all[i]. */
  function RowCount(all: seq<JDict>, i: nat, hi: nat): nat
    requires PairsComparable(all) && i < |all| && hi <= |all|
    decreases hi
  {
    if hi <= i + 1 then 0
    else RowCount(all, i, hi - 1) + (if Antipodal(all[i], all[hi - 1]) then 1 else 0)
  }

  /** Number of antipodal pairs (i, j), i < j, whose first index is below lo. */
  function PairCount(all: seq<JDict>, lo: nat): nat
    requires PairsComparable(all) && lo <= |all|
  {
    if lo == 0 then 0 else PairCount(all, lo - 1) + RowCount(all, lo - 1, |all|)
  }

  /** The number of index pairs i < j whose judgments are antipodal. */
  function AntipodalPairs(all: seq<JDict>): nat
    requires PairsComparable(all)
  {
    PairCount(all, |all|)
  }

  method CountConsistentOpp(all: seq<JDict>) returns (countOpp: nat)
    requires PairsComparable(all)
    ensures countOpp == AntipodalPairs(all)
  {
    countOpp := 0;
    for idx1 := 0 to |all|
      invariant countOpp == PairCount(all, idx1)
    {
      var row := CountRow(all, idx1);
      countOpp := countOpp + row;
    }
  }

  /** The inner loop of count_consistentOpp: the partners of all[idx1] after it. */
  method CountRow(all: seq<JDict>, idx1: nat) returns (c: nat)
    requires PairsComparable(all) && idx1 < |all|
    ensures c == RowCount(all, idx1, |all|)
  {
    c := 0;
    for idx2 := idx1 + 1 to |all|
      invariant c == RowCount(all, idx1, idx2)
    {
      var opp := RevertPairAt(all, idx1, idx2);
      if opp {
        c := c + 1;
      }
    }
  }

  /** revert_jdict(all[i], all[j]), and what it adds to the row count. */
  method RevertPairAt(all: seq<JDict>, i: nat, j: nat) returns (opp: bool)
    requires PairsComparable(all) && i < j < |all|
    ensures RowCount(all, i, j + 1) == RowCount(all, i, j) + (if opp then 1 else 0)
  {
    assert |all[i]| == |all[j]| && forall k :: 0 <= k < |all[i]| ==> all[i][k].0 in Keys(all[j]);
    opp := RevertJdictPair(all[i], all[j]);
  }

  /** Over one key order a judgment has at most one antipode. */
  lemma AntipodeUnique(x: JDict, y: JDict, z: JDict)
    requires IsDict(y) && IsDict(z) && Keys(y) == Keys(x) && Keys(z) == Keys(x)
    requires forall k :: 0 <= k < |x| ==> x[k].0 in Keys(y) && x[k].0 in Keys(z)
    requires Antipodal(x, y) && Antipodal(x, z)
    ensures y == z
  {
    AntipodalIsNegated(x, y);
    AntipodalIsNegated(x, z);
  }

  /** Among distinct judgments over one key order, each row of the count
      finds at most one antipodal partner. */
  lemma {:induction false} RowCountAtMostOne(all: seq<JDict>, i: nat, hi: nat)
    requires PairsComparable(all) && i < |all| && hi <= |all|
    requires Distinct(all)
    requires forall j :: 0 <= j < |all| ==> IsDict(all[j]) && Keys(all[j]) == Keys(all[i])
    ensures RowCount(all, i, hi) <= 1
    ensures RowCount(all, i, hi) == 1 ==> exists j :: i < j < hi && Antipodal(all[i], all[j])
    decreases hi
  {
    if hi > i + 1 {
      RowCountAtMostOne(all, i, hi - 1);
      var j := hi - 1;
      if Antipodal(all[i], all[j]) && RowCount(all, i, hi - 1) == 1 {
        var j' :| i < j' < hi - 1 && Antipodal(all[i], all[j']);
        AntipodeUnique(all[i], all[j'], all[j]);
        assert false;
      }
    }
  }

  // ---------------------------------------------------------------------
  // multiset_coefficient and combinations_with_replacement

  function Factorial(n: nat): (r: nat)
    ensures r >= 1
  {
    if n == 0 then 1 else n * Factorial(n - 1)
  }

  /** (n + k - 1)! / (k! (n - 1)!), the number of size-k multisets over n
      elements.  The source divides in floating point. */
  function MultisetCoefficient(n: nat, k: nat): nat
    requires n >= 1
  {
    Quotient(Factorial(n + k - 1), FactorialProduct(k, n - 1))
  }

  /** Division of naturals by a positive divisor. */
  function Quotient(x: nat, d: nat): (q: nat)
    requires d >= 1
    ensures q * d <= x < (q + 1) * d
  {
    assert x == (x / d) * d + x % d;
    x / d
  }

  function FactorialProduct(a: nat, b: nat): (r: nat)
    ensures r >= 1
  {
    MulBounds(Factorial(a), Factorial(b));
    Factorial(a) * Factorial(b)
  }

  /** The number of size-k multisets over m elements, by Pascal's rule. */
  function Multichoose(m: nat, k: nat): nat
    requires m >= 1
    decreases m + k
  {
    if k == 0 || m == 1 then 1 else Multichoose(m, k - 1) + Multichoose(m - 1, k)
  }

  lemma {:induction false} MultichooseFactorials(m: nat, k: nat)
    requires m >= 1
    ensures Multichoose(m, k) * (Factorial(k) * Factorial(m - 1)) == Factorial(m + k - 1)
    decreases m + k
  {
    if k > 0 && m > 1 {
      MultichooseFactorials(m, k - 1);
      MultichooseFactorials(m - 1, k);
      PascalArithmetic(Multichoose(m, k - 1), Multichoose(m - 1, k), k, m - 1,
                       Factorial(k - 1), Factorial(m - 2), Factorial(m + k - 2));
    }
  }

  /** The arithmetic step of MultichooseFactorials, kept apart from the
      factorial definitions. */
  lemma PascalArithmetic(a: nat, b: nat, k: nat, m1: nat, fk1: nat, fm2: nat, x: nat)
    requires a * (fk1 * (m1 * fm2)) == x
    requires b * ((k * fk1) * fm2) == x
    ensures (a + b) * ((k * fk1) * (m1 * fm2)) == (k + m1) * x
  {
    var p := (k * fk1) * (m1 * fm2);
    assert (a + b) * p == a * p + b * p;
    assert a * p == k * (a * (fk1 * (m1 * fm2)));
    assert b * p == m1 * (b * ((k * fk1) * fm2));
  }

  lemma ExactQuotient(x: int, q: int, d: int)
    requires d > 0 && x == q * d
    ensures x / d == q
  {
    var t, r := x / d, x % d;
    assert x == t * d + r && 0 <= r < d;
    assert (q - t) * d == r;
    MulBounds(q - t, d);
  }

  lemma MulBounds(e: int, d: int)
    requires d >= 0
    ensures e >= 1 ==> e * d >= d
    ensures e <= -1 ==> e * d <= -d
  {
  }

  lemma MultisetCoefficientIsMultichoose(n: nat, k: nat)
    requires n >= 1
    ensures MultisetCoefficient(n, k) == Multichoose(n, k)
  {
    MultichooseFactorials(n, k);
    ExactQuotient(Factorial(n + k - 1), Multichoose(n, k), Factorial(k) * Factorial(n - 1));
  }

  lemma MultisetCoefficientExample()
    ensures MultisetCoefficient(3, 2) == 6
  {
    assert Factorial(2) == 2;
    assert Factorial(4) == 24;
  }

  function Prepend(x: nat, ss: seq<seq<nat>>): seq<seq<nat>> {
    seq(|ss|, i requires 0 <= i < |ss| => [x] + ss[i])
  }

  /** itertools.combinations_with_replacement(range(lo, n), k): the
      non-decreasing length-k tuples over [lo, n), in lexicographic order. */
  function Combinations(lo: nat, n: nat, k: nat): seq<seq<nat>>
    decreases k, n - lo
  {
    if k == 0 then [[]]
    else if lo >= n then []
    else Prepend(lo, Combinations(lo, n, k - 1)) + Combinations(lo + 1, n, k)
  }

  function CombinationsWithReplacement(n: nat, k: nat): seq<seq<nat>> {
    Combinations(0, n, k)
  }

  /** A length-k non-decreasing sequence over [lo, n). */
  predicate IsCombination(s: seq<nat>, lo: nat, n: nat, k: nat) {
    && |s| == k
    && (forall i :: 0 <= i < |s| ==> lo <= s[i] < n)
    && (forall i, j :: 0 <= i < j < |s| ==> s[i] <= s[j])
  }

  lemma {:induction false} CombinationsExact(lo: nat, n: nat, k: nat)
    ensures forall s :: s in Combinations(lo, n, k) <==> IsCombination(s, lo, n, k)
    decreases k, n - lo
  {
    if k == 0 {
      assert forall s :: IsCombination(s, lo, n, 0) ==> s == [];
    } else if lo >= n {
      assert forall s: seq<nat> :: |s| == k ==> !(lo <= s[0] < n);
    } else {
      CombinationsExact(lo, n, k - 1);
      CombinationsExact(lo + 1, n, k);
      var left, right := Prepend(lo, Combinations(lo, n, k - 1)), Combinations(lo + 1, n, k);
      forall s ensures s in left + right <==> IsCombination(s, lo, n, k) {
        if s in left {
          var i :| 0 <= i < |left| && left[i] == s;
          assert IsCombination(Combinations(lo, n, k - 1)[i], lo, n, k - 1);
          assert s == [lo] + Combinations(lo, n, k - 1)[i];
        }
        if IsCombination(s, lo, n, k) {
          if s[0] == lo {
            var t := s[1..];
            assert IsCombination(t, lo, n, k - 1);
            var i :| 0 <= i < |Combinations(lo, n, k - 1)| && Combinations(lo, n, k - 1)[i] == t;
            assert left[i] == s;
          } else {
            assert IsCombination(s, lo + 1, n, k);
          }
        }
      }
    }
  }

  lemma {:induction false} CombinationsDistinct(lo: nat, n: nat, k: nat)
    ensures Distinct(Combinations(lo, n, k))
    decreases k, n - lo
  {
    if k > 0 && lo < n {
      CombinationsDistinct(lo, n, k - 1);
      CombinationsDistinct(lo + 1, n, k);
      CombinationsExact(lo + 1, n, k);
      var sub := Combinations(lo, n, k - 1);
      var left, right := Prepend(lo, sub), Combinations(lo + 1, n, k);
      var all: seq<seq<nat>> := left + right;
      forall i, j | 0 <= i < j < |all| ensures all[i] != all[j] {
        if j < |left| {
          assert left[i][1..] == sub[i] && left[j][1..] == sub[j];
        } else if i < |left| {
          assert IsCombination(right[j - |left|], lo + 1, n, k);
          assert left[i][0] == lo;
        }
      }
    }
  }

  lemma {:induction false} CombinationsLength(lo: nat, n: nat, k: nat)
    requires lo < n
    ensures |Combinations(lo, n, k)| == Multichoose(n - lo, k)
    decreases k, n - lo
  {
    if k > 0 {
      CombinationsLength(lo, n, k - 1);
      if lo + 1 < n {
        CombinationsLength(lo + 1, n, k);
      }
    }
  }

  /** The multiset coefficient counts combinations with replacement. */
  lemma CombinationsCount(n: nat, k: nat)
    requires n >= 1
    ensures |CombinationsWithReplacement(n, k)| == MultisetCoefficient(n, k)
  {
    CombinationsLength(0, n, k);
    MultisetCoefficientIsMultichoose(n, k);
  }

  // ---------------------------------------------------------------------
  // mset

  /** Distinct elements in first-occurrence order, each with its count. */
  function MsetOf<T(==,!new)>(list: seq<T>): seq<(T, nat)> {
    var es := Dedup(list);
    seq(|es|, i requires 0 <= i < |es| => (es[i], multiset(list)[es[i]]))
  }

  method Mset<T(==,!new)>(list: seq<T>) returns (m: seq<(T, nat)>)
    ensures m == MsetOf(list)
  {
    var elements := FirstOccurrences(list);
    m := [];
    for e := 0 to |elements|
      invariant |m| == e
      invariant forall j :: 0 <= j < e ==> m[j] == (elements[j], multiset(list)[elements[j]])
    {
      var c := Count(list, elements[e]);
      m := m + [(elements[e], c)];
    }
  }

  /** The loop collecting each element the first time it is seen. */
  method FirstOccurrences<T(==,!new)>(list: seq<T>) returns (elements: seq<T>)
    ensures elements == Dedup(list)
  {
    elements := [];
    for i := 0 to |list|
      invariant elements == Dedup(list[..i])
    {
      assert list[..i + 1][..i] == list[..i];
      if list[i] !in elements {
        elements := elements + [list[i]];
      }
    }
    assert list[..|list|] == list;
  }

  /** list.count(x). */
  method Count<T(==)>(list: seq<T>, x: T) returns (c: nat)
    ensures c == multiset(list)[x]
  {
    c := 0;
    for j := 0 to |list|
      invariant c == multiset(list[..j])[x]
    {
      assert list[..j + 1] == list[..j] + [list[j]];
      if list[j] == x {
        c := c + 1;
      }
    }
    assert list[..|list|] == list;
  }

  function TotalCount<T>(m: seq<(T, nat)>): nat {
    if m == [] then 0 else TotalCount(m[..|m| - 1]) + m[|m| - 1].1
  }

  function CountsIn<T(==)>(es: seq<T>, s: seq<T>): nat {
    if es == [] then 0 else CountsIn(es[..|es| - 1], s) + multiset(s)[es[|es| - 1]]
  }

  lemma {:induction false} CountsInAppend<T>(es: seq<T>, s: seq<T>, x: T)
    requires Distinct(es)
    ensures CountsIn(es, s + [x]) == CountsIn(es, s) + (if x in es then 1 else 0)
  {
    if es != [] {
      var init := es[..|es| - 1];
      CountsInAppend(init, s, x);
      assert es == init + [es[|es| - 1]];
      assert multiset(s + [x]) == multiset(s) + multiset{x};
    }
  }

  lemma {:induction false} CountsOverDedup<T(!new)>(s: seq<T>)
    ensures CountsIn(Dedup(s), s) == |s|
  {
    if s != [] {
      var init, x := s[..|s| - 1], s[|s| - 1];
      CountsOverDedup(init);
      assert s == init + [x];
      CountsOverDedupStep(init, x);
    }
  }

  lemma CountsOverDedupStep<T(!new)>(init: seq<T>, x: T)
    requires CountsIn(Dedup(init), init) == |init|
    ensures CountsIn(Dedup(init + [x]), init + [x]) == |init| + 1
  {
    var s := init + [x];
    var d := Dedup(init);
    assert s[..|s| - 1] == init;
    assert Dedup(s) == if x in d then d else d + [x];
    CountsInAppend(d, init, x);
    if x !in d {
      var d' := d + [x];
      assert d'[..|d'| - 1] == d;
      assert x !in init;
      assert multiset(s) == multiset(init) + multiset{x};
    }
  }

  lemma {:induction false} TotalCountOfTally<T>(es: seq<T>, s: seq<T>)
    ensures TotalCount(seq(|es|, i requires 0 <= i < |es| => (es[i], multiset(s)[es[i]])))
            == CountsIn(es, s)
  {
    if es != [] {
      var init := es[..|es| - 1];
      TotalCountOfTally(init, s);
      var t := seq(|es|, i requires 0 <= i < |es| => (es[i], multiset(s)[es[i]]));
      assert t[..|t| - 1] == seq(|init|, i requires 0 <= i < |init| => (init[i], multiset(s)[init[i]]));
    }
  }

  /** mset lists each distinct element once, in first-occurrence order, with
      a positive count, and the counts add up to the list length. */
  lemma MsetCounts<T(!new)>(list: seq<T>)
    ensures Keys(MsetOf(list)) == Dedup(list)
    ensures forall i :: 0 <= i < |MsetOf(list)| ==> MsetOf(list)[i].1 >= 1
    ensures TotalCount(MsetOf(list)) == |list|
  {
    var es := Dedup(list);
    assert Keys(MsetOf(list)) == es;
    TotalCountOfTally(es, list);
    CountsOverDedup(list);
  }
}
