/**
 The enrichment engine: from background association records, historical rank
 statistics and an input gene list to the ranked list of enriched kinases.

 A run parses the records into one kinase per name at the chosen resolution
 level, attaches rank statistics, restricts the upper-cased input to the
 substrates the background knows, keeps the kinases whose substrates meet that
 input, scores each with a right-tailed Fisher exact test, sorts by p-value,
 assigns 1-based ranks and z-scores, and finally reorders by the chosen key.

 Parameters stand for what is not modelled: `fisher` is the Fisher exact test
 (table size, then the four counts), `ln` the natural logarithm, and `order`
 the iteration order of the name-to-kinase hash map.
 */
module Enrichment {
  import opened Text
  import opened Sorting
  import opened Kinases

  datatype Option<T> = None | Some(value: T)

  // Setting values.
  const KinaseProteinOnly: string := "kinase-protein interactions only"
  const PhosphorylationOnly: string := "phosphorylation reactions only"
  const BothTypes: string := "both types"
  const CombinedScoreOrder: string := "combined score"
  const PValueOrder: string := "p-value"
  const RankOrder: string := "rank"
  const KinaseLevel: string := "kinase"
  const KinaseFamilyLevel: string := "kinase-family"
  const KinaseGroupLevel: string := "kinase-group"

  /** The three settings the engine reads, each as the string the settings hold. */
  datatype Settings = Settings(kinaseInteractions: string, sortBy: string, resolutionLevel: string)

  /** The Fisher exact test: table size, then the 2x2 counts; returns the right-tailed p-value. */
  type FisherTest = (nat, Table) -> real

  /** The four counts handed to the Fisher test. */
  datatype Table = Table(a: nat, b: nat, c: nat, d: nat)
  {
    function Total(): nat { a + b + c + d }
  }

  /** The field of a background record that names the kinase: 0 group, 1 family, 2 kinase. */
  function ResolutionLevel(setting: string): (level: nat)
    ensures level <= 2
    ensures level == 0 <==> setting == KinaseGroupLevel
    ensures level == 1 <==> setting == KinaseFamilyLevel
    ensures setting == KinaseLevel ==> level == 2
  {
    if setting == KinaseGroupLevel then 0
    else if setting == KinaseFamilyLevel then 1
    else 2
  }

  /** The background for an interaction-set selector; anything unrecognised takes both sources. */
  function AssembleBackground(setting: string, protein: seq<string>, phospho: seq<string>): (background: seq<string>)
    ensures setting == KinaseProteinOnly ==> background == protein
    ensures setting == PhosphorylationOnly ==> background == phospho
    ensures setting != KinaseProteinOnly && setting != PhosphorylationOnly ==>
              |background| == |protein| + |phospho| && background[..|protein|] == protein
              && background[|protein|..] == phospho
  {
    if setting == KinaseProteinOnly then protein
    else if setting == PhosphorylationOnly then phospho
    else protein + phospho
  }

  // ---------------------------------------------------------------------
  // Background records

  /** A record with the four fields group, family, kinase, substrate (more are ignored). */
  predicate WellFormed(record: string)
  {
    |JavaSplit(record, ',')| >= 4
  }

  predicate AllWellFormed(records: seq<string>)
  {
    forall r :: r in records ==> WellFormed(r)
  }

  /** The grouping name of a record at a resolution level. */
  function KeyOf(record: string, level: nat): (name: string)
    requires WellFormed(record) && level <= 2
    ensures ',' !in name
  {
    JavaSplit(record, ',')[level]
  }

  /** The substrate of a record. */
  function TargetOf(record: string): (target: string)
    requires WellFormed(record)
    ensures ',' !in target
  {
    JavaSplit(record, ',')[3]
  }

  /** Every name the records mention at `level`, gathered record by record. */
  function Names(records: seq<string>, level: nat): set<string>
    requires AllWellFormed(records) && level <= 2
  {
    if |records| == 0 then {}
    else Names(records[..|records| - 1], level) + {KeyOf(records[|records| - 1], level)}
  }

  /** The substrates of the records whose name at `level` is `name`, gathered record by record. */
  function TargetsOf(records: seq<string>, level: nat, name: string): set<string>
    requires AllWellFormed(records) && level <= 2
  {
    if |records| == 0 then {}
    else
      var record := records[|records| - 1];
      TargetsOf(records[..|records| - 1], level, name)
      + (if KeyOf(record, level) == name then {TargetOf(record)} else {})
  }

  /** Every substrate the records mention, whatever the level, gathered record by record. */
  function BackgroundUniverse(records: seq<string>): set<string>
    requires AllWellFormed(records)
  {
    if |records| == 0 then {}
    else BackgroundUniverse(records[..|records| - 1]) + {TargetOf(records[|records| - 1])}
  }

  /** A name is gathered exactly when some record has it at `level`. */
  lemma {:induction false} NamesMembership(records: seq<string>, level: nat, x: string)
    requires AllWellFormed(records) && level <= 2
    ensures x in Names(records, level) <==> exists r :: r in records && KeyOf(r, level) == x
  {
    if |records| > 0 {
      var prefix := records[..|records| - 1];
      assert records == prefix + [records[|records| - 1]];
      NamesMembership(prefix, level, x);
    }
  }

  /** A substrate is gathered for `name` exactly when some record pairs the two. */
  lemma {:induction false} TargetsOfMembership(records: seq<string>, level: nat, name: string, x: string)
    requires AllWellFormed(records) && level <= 2
    ensures x in TargetsOf(records, level, name) <==>
              exists r :: r in records && KeyOf(r, level) == name && TargetOf(r) == x
  {
    if |records| > 0 {
      var prefix := records[..|records| - 1];
      assert records == prefix + [records[|records| - 1]];
      TargetsOfMembership(prefix, level, name, x);
    }
  }

  /** A substrate is in the universe exactly when some record has it. */
  lemma {:induction false} BackgroundUniverseMembership(records: seq<string>, x: string)
    requires AllWellFormed(records)
    ensures x in BackgroundUniverse(records) <==> exists r :: r in records && TargetOf(r) == x
  {
    if |records| > 0 {
      var prefix := records[..|records| - 1];
      assert records == prefix + [records[|records| - 1]];
      BackgroundUniverseMembership(prefix, x);
    }
  }

  /** A name no record has gathers no substrates. */
  lemma {:induction false} TargetsOfUnknownName(records: seq<string>, level: nat, name: string)
    requires AllWellFormed(records) && level <= 2
    requires name !in Names(records, level)
    ensures TargetsOf(records, level, name) == {}
  {
    if |records| > 0 {
      TargetsOfUnknownName(records[..|records| - 1], level, name);
    }
  }

  /**
   Background parsing: one kinase per name, created at the name's first record
   and given the substrate of every later record with that name.
   */
  function ParseBackground(records: seq<string>, level: nat): (m: map<string, Kinase>)
    requires AllWellFormed(records) && level <= 2
    ensures forall n :: n in m ==> m[n].name == n && m[n].substrates != {}
    ensures forall n :: n in m ==> HasNoRankStats(m[n])
  {
    if |records| == 0 then map[]
    else
      var m := ParseBackground(records[..|records| - 1], level);
      var record := records[|records| - 1];
      var name := KeyOf(record, level);
      var target := TargetOf(record);
      if name in m then m[name := AddSubstrate(m[name], target)]
      else m[name := NewKinase(name, target)]
  }

  /** The parsed map holds, for each name in the records, exactly the substrates recorded for it. */
  lemma {:induction false} ParseBackgroundContents(records: seq<string>, level: nat)
    requires AllWellFormed(records) && level <= 2
    ensures ParseBackground(records, level).Keys == Names(records, level)
    ensures forall n :: n in ParseBackground(records, level) ==>
              ParseBackground(records, level)[n] == Unscored(n, TargetsOf(records, level, n))
  {
    if |records| > 0 {
      var prefix := records[..|records| - 1];
      var record := records[|records| - 1];
      ParseBackgroundContents(prefix, level);
      var m := ParseBackground(prefix, level);
      var m' := ParseBackground(records, level);
      var name := KeyOf(record, level);
      var target := TargetOf(record);
      assert Names(records, level) == Names(prefix, level) + {name};
      if name in m {
        assert m' == m[name := AddSubstrate(m[name], target)];
      } else {
        assert m' == m[name := NewKinase(name, target)];
        TargetsOfUnknownName(prefix, level, name);
      }
      forall n | n in m'
        ensures m'[n] == Unscored(n, TargetsOf(records, level, n))
      {
        if n == name {
          assert TargetsOf(records, level, n) == TargetsOf(prefix, level, n) + {target};
        } else {
          assert TargetsOf(records, level, n) == TargetsOf(prefix, level, n);
          assert m'[n] == m[n];
        }
      }
    }
  }

  lemma SameRecordsSameNames(r1: seq<string>, r2: seq<string>, level: nat)
    requires AllWellFormed(r1) && AllWellFormed(r2) && level <= 2
    requires forall r :: r in r1 <==> r in r2
    ensures Names(r1, level) == Names(r2, level)
  {
    forall x
      ensures x in Names(r1, level) <==> x in Names(r2, level)
    {
      NamesMembership(r1, level, x);
      NamesMembership(r2, level, x);
    }
  }

  lemma SameRecordsSameTargets(r1: seq<string>, r2: seq<string>, level: nat, name: string)
    requires AllWellFormed(r1) && AllWellFormed(r2) && level <= 2
    requires forall r :: r in r1 <==> r in r2
    ensures TargetsOf(r1, level, name) == TargetsOf(r2, level, name)
  {
    forall x
      ensures x in TargetsOf(r1, level, name) <==> x in TargetsOf(r2, level, name)
    {
      TargetsOfMembership(r1, level, name, x);
      TargetsOfMembership(r2, level, name, x);
    }
  }

  /** Parsing depends only on which records occur: their order and repetitions do not matter. */
  lemma ParseBackgroundIgnoresOrderAndRepeats(r1: seq<string>, r2: seq<string>, level: nat)
    requires AllWellFormed(r1) && AllWellFormed(r2) && level <= 2
    requires forall r :: r in r1 <==> r in r2
    ensures ParseBackground(r1, level) == ParseBackground(r2, level)
  {
    ParseBackgroundContents(r1, level);
    ParseBackgroundContents(r2, level);
    SameRecordsSameNames(r1, r2, level);
    var m1 := ParseBackground(r1, level);
    var m2 := ParseBackground(r2, level);
    forall n | n in m1
      ensures m1[n] == m2[n]
    {
      SameRecordsSameTargets(r1, r2, level, n);
    }
  }

  /** Parsing a repeated record changes nothing. */
  lemma ParseBackgroundRepeatedRecord(records: seq<string>, record: string, level: nat)
    requires AllWellFormed(records) && level <= 2
    requires record in records
    ensures AllWellFormed(records + [record])
    ensures ParseBackground(records + [record], level) == ParseBackground(records, level)
  {
    assert forall r :: r in records + [record] <==> r in records;
    ParseBackgroundIgnoresOrderAndRepeats(records + [record], records, level);
  }

  /** With both sources, each name gets the union of the substrates the two sources give it. */
  lemma ParseBackgroundBothTypes(protein: seq<string>, phospho: seq<string>, level: nat, name: string)
    requires AllWellFormed(protein) && AllWellFormed(phospho) && level <= 2
    ensures AllWellFormed(AssembleBackground(BothTypes, protein, phospho))
    ensures TargetsOf(AssembleBackground(BothTypes, protein, phospho), level, name)
              == TargetsOf(protein, level, name) + TargetsOf(phospho, level, name)
  {
    var both := AssembleBackground(BothTypes, protein, phospho);
    assert both == protein + phospho;
    assert forall r :: r in both <==> r in protein || r in phospho;
    forall x
      ensures x in TargetsOf(both, level, name) <==>
              x in TargetsOf(protein, level, name) || x in TargetsOf(phospho, level, name)
    {
      TargetsOfMembership(both, level, name, x);
      TargetsOfMembership(protein, level, name, x);
      TargetsOfMembership(phospho, level, name, x);
    }
  }

  // ---------------------------------------------------------------------
  // Rank statistics

  /** A rank-statistics line, already split into name, mean and standard deviation. */
  datatype RankStat = RankStat(name: string, mean: real, standardDeviation: real)

  /** The last line about `name`, the one whose values a run keeps. */
  function LastStat(stats: seq<RankStat>, name: string): (r: Option<RankStat>)
    ensures r.Some? ==> r.value.name == name && r.value in stats
    ensures r.None? <==> forall i :: 0 <= i < |stats| ==> stats[i].name != name
    ensures r.Some? ==> exists i :: 0 <= i < |stats| && stats[i] == r.value &&
                          forall j :: i < j < |stats| ==> stats[j].name != name
  {
    if |stats| == 0 then None
    else if stats[|stats| - 1].name == name then Some(stats[|stats| - 1])
    else
      var prefix := stats[..|stats| - 1];
      var r := LastStat(prefix, name);
      assert forall i :: 0 <= i < |prefix| ==> prefix[i] == stats[i];
      r
  }

  /** The kinase with the values of a statistics line, if there is one. */
  function WithStats(k: Kinase, stat: Option<RankStat>): (r: Kinase)
    ensures stat.None? ==> r == k
    ensures stat.Some? ==> r.mean == stat.value.mean && r.standardDeviation == stat.value.standardDeviation
    ensures r.(mean := k.mean, standardDeviation := k.standardDeviation) == k
  {
    match stat
    case None => k
    case Some(s) => SetRankStats(k, s.mean, s.standardDeviation)
  }

  /**
   Attaching rank statistics: each line whose name is a parsed kinase sets that
   kinase's mean and standard deviation; lines for unknown names are dropped.
   */
  function AttachRankStats(m: map<string, Kinase>, stats: seq<RankStat>): (r: map<string, Kinase>)
    ensures r.Keys == m.Keys
    ensures forall n :: n in r ==> r[n] == WithStats(m[n], LastStat(stats, n))
    ensures forall n :: n in r ==> r[n].(mean := m[n].mean, standardDeviation := m[n].standardDeviation) == m[n]
  {
    if |stats| == 0 then m
    else
      var r := AttachRankStats(m, stats[..|stats| - 1]);
      var s := stats[|stats| - 1];
      if s.name in r then r[s.name := SetRankStats(r[s.name], s.mean, s.standardDeviation)]
      else r
  }

  /** Lines about names the background does not know leave the map unchanged. */
  lemma AttachUnknownNames(m: map<string, Kinase>, stats: seq<RankStat>)
    requires forall i :: 0 <= i < |stats| ==> stats[i].name !in m
    ensures AttachRankStats(m, stats) == m
  {
    var r := AttachRankStats(m, stats);
    forall n | n in r
      ensures r[n] == m[n]
    {
      assert LastStat(stats, n).None?;
    }
  }

  /** A line has usable statistics: no standard deviation of zero with a non-zero mean. */
  predicate StatsDefined(s: RankStat)
  {
    s.standardDeviation != 0.0 || s.mean == 0.0
  }

  // ---------------------------------------------------------------------
  // The working list, the background universe and the restricted input

  /** The map's kinases in the map's iteration order. */
  function Materialize(m: map<string, Kinase>, order: seq<string>): (kinases: seq<Kinase>)
    requires forall i :: 0 <= i < |order| ==> order[i] in m
    ensures |kinases| == |order|
    ensures forall i :: 0 <= i < |order| ==> kinases[i] == m[order[i]]
  {
    if |order| == 0 then [] else [m[order[0]]] + Materialize(m, order[1..])
  }

  /** The union of the substrate sets of the kinases. */
  function Universe(kinases: seq<Kinase>): (u: set<string>)
    ensures forall i :: 0 <= i < |kinases| ==> kinases[i].substrates <= u
    ensures forall x :: x in u ==> exists i :: 0 <= i < |kinases| && x in kinases[i].substrates
  {
    if |kinases| == 0 then {}
    else kinases[0].substrates + Universe(kinases[1..])
  }

  /** The input genes upper-cased into a set. */
  function NormalizeInput(genes: seq<string>): (input: set<string>)
    ensures input == set g | g in genes :: ToUpper(g)
  {
    if |genes| == 0 then {}
    else
      var rest := NormalizeInput(genes[1..]);
      assert forall g :: g in genes <==> g == genes[0] || g in genes[1..];
      {ToUpper(genes[0])} + rest
  }

  /** The upper-cased input restricted to the substrates some kinase has. */
  function RestrictInput(genes: seq<string>, kinases: seq<Kinase>): (input: set<string>)
    ensures input <= Universe(kinases)
    ensures forall x :: x in input <==> x in Universe(kinases) && exists g :: g in genes && x == ToUpper(g)
  {
    NormalizeInput(genes) * Universe(kinases)
  }

  // ---------------------------------------------------------------------
  // Per-kinase counts and filtering

  lemma SubsetCardinality(a: set<string>, b: set<string>)
    requires a <= b
    ensures |a| <= |b|
  {
    assert b == a + (b - a);
  }

  /**
   The Fisher test's arguments for kinase `k`: the enriched count, the rest of
   the input, the kinase's substrate count and the rest of the background.
   */
  function Contingency(k: Kinase, input: set<string>, bg: set<string>): (t: Table)
    requires k.substrates <= bg
    ensures t.a == |k.substrates * input| && t.a + t.b == |input|
    ensures t.c == |k.substrates| && t.c + t.d == |bg|
    ensures t.Total() == |input| + |bg|
  {
    var a := |k.substrates * input|;
    SubsetCardinality(k.substrates * input, input);
    SubsetCardinality(k.substrates, bg);
    Table(a, |input| - a, |k.substrates|, |bg| - |k.substrates|)
  }

  lemma FractionBounds(x: nat, y: nat)
    requires 1 <= x <= y
    ensures 0.0 < x as real / y as real <= 1.0
    ensures (x as real / y as real) * y as real == x as real
  {
    var q := x as real / y as real;
    assert q * y as real == x as real;
  }

  /** The results of a run for a kinase whose substrates meet the input. */
  function Enrich(k: Kinase, input: set<string>, bg: set<string>, fisher: FisherTest): (e: Kinase)
    requires k.substrates <= bg
    requires k.substrates * input != {}
    ensures e.enrichedSubstrates == k.substrates * input
    ensures e.enrichedSubstrates != {} && e.enrichedSubstrates <= input
    ensures 0.0 < e.fractionInput <= 1.0 && 0.0 < e.fractionBackground <= 1.0
    ensures e.fractionInput * |input| as real == |e.enrichedSubstrates| as real
    ensures e.fractionBackground * |bg| as real == |k.substrates| as real
    ensures e.pvalue == fisher(|input| + |bg|, Contingency(k, input, bg))
    ensures e.(enrichedSubstrates := k.enrichedSubstrates, fractionInput := k.fractionInput,
               fractionBackground := k.fractionBackground, pvalue := k.pvalue) == k
  {
    var t := Contingency(k, input, bg);
    assert t.a >= 1 by {
      assert |k.substrates * input| != 0;
    }
    assert t.c >= 1 by {
      assert k.substrates != {};
    }
    FractionBounds(t.a, |input|);
    FractionBounds(t.c, |bg|);
    k.(enrichedSubstrates := k.substrates * input,
       fractionInput := t.a as real / |input| as real,
       fractionBackground := t.c as real / |bg| as real,
       pvalue := fisher(t.Total(), t))
  }

  predicate Meets(k: Kinase, input: set<string>)
  {
    k.substrates * input != {}
  }

  /** The kinases whose substrates meet the input, each with its results, in list order. */
  function Survivors(kinases: seq<Kinase>, input: set<string>, bg: set<string>, fisher: FisherTest): (r: seq<Kinase>)
    requires forall k :: k in kinases ==> k.substrates <= bg
    ensures |r| <= |kinases|
    ensures forall e :: e in r ==>
              exists k :: k in kinases && Meets(k, input) && e == Enrich(k, input, bg, fisher)
    ensures forall k :: k in kinases && Meets(k, input) ==> Enrich(k, input, bg, fisher) in r
    ensures (forall k :: k in kinases ==> ScoreDefined(k)) ==> forall e :: e in r ==> ScoreDefined(e)
    ensures forall e :: e in r ==> e.enrichedSubstrates != {}
  {
    if |kinases| == 0 then []
    else
      var rest := Survivors(kinases[1..], input, bg, fisher);
      assert forall k :: k in kinases <==> k == kinases[0] || k in kinases[1..];
      if Meets(kinases[0], input) then [Enrich(kinases[0], input, bg, fisher)] + rest else rest
  }

  // ---------------------------------------------------------------------
  // Ranking

  /** Scores the p-value-ordered kinases, the first one at rank `first`. */
  function AssignRanks(sorted: seq<Kinase>, first: int, ln: real -> real): (r: seq<Kinase>)
    requires forall i :: 0 <= i < |sorted| ==> ScoreDefined(sorted[i])
    ensures |r| == |sorted|
    ensures forall i :: 0 <= i < |r| ==>
              r[i] == sorted[i].(zscore := r[i].zscore, combinedScore := r[i].combinedScore)
    ensures forall i :: 0 <= i < |r| && HasNoRankStats(sorted[i]) ==> r[i].zscore == 0.0
    ensures forall i :: 0 <= i < |r| && !HasNoRankStats(sorted[i]) ==>
              sorted[i].mean + r[i].zscore * sorted[i].standardDeviation == (first + i) as real
    ensures forall i :: 0 <= i < |r| ==> r[i].combinedScore == ln(r[i].pvalue) * r[i].zscore
  {
    seq(|sorted|, i requires 0 <= i < |sorted| => ComputeScore(sorted[i], first + i, ln))
  }

  lemma AssignRanksAt(sorted: seq<Kinase>, first: int, ln: real -> real, i: nat)
    requires forall i :: 0 <= i < |sorted| ==> ScoreDefined(sorted[i])
    requires i < |sorted|
    ensures ScoreDefined(sorted[i]) && AssignRanks(sorted, first, ln)[i] == ComputeScore(sorted[i], first + i, ln)
  {
  }

  /** The comparator for the combined-score order: larger scores first. */
  function CompareCombinedScore(o1: Kinase, o2: Kinase): (r: int)
    ensures -1 <= r <= 1
    ensures r < 0 <==> o1.combinedScore > o2.combinedScore
    ensures r == 0 <==> o1.combinedScore == o2.combinedScore
  {
    if o1.combinedScore < o2.combinedScore then 1
    else if o1.combinedScore > o2.combinedScore then -1
    else 0
  }

  /** The comparator for the rank order: smaller z-scores first. */
  function CompareZScore(o1: Kinase, o2: Kinase): (r: int)
    ensures -1 <= r <= 1
    ensures r < 0 <==> o1.zscore < o2.zscore
    ensures r == 0 <==> o1.zscore == o2.zscore
  {
    if o1.zscore > o2.zscore then 1
    else if o1.zscore < o2.zscore then -1
    else 0
  }

  function CombinedScoreKey(k: Kinase): real
  {
    -k.combinedScore
  }

  function ZScoreKey(k: Kinase): real
  {
    k.zscore
  }

  /** Each comparator orders exactly as its sort key does. */
  lemma ComparatorsMatchKeys(a: Kinase, b: Kinase)
    ensures CompareCombinedScore(a, b) <= 0 <==> CombinedScoreKey(a) <= CombinedScoreKey(b)
    ensures CompareZScore(a, b) <= 0 <==> ZScoreKey(a) <= ZScoreKey(b)
    ensures CompareTo(a, b) <= 0 <==> PValueKey(a) <= PValueKey(b)
  {
  }

  /** The final reorder by the sort setting; the p-value order stays as it is. */
  function Reorder(ranked: seq<Kinase>, sortBy: string): (r: seq<Kinase>)
    ensures multiset(r) == multiset(ranked)
    ensures sortBy == CombinedScoreOrder ==>
              forall i, j :: 0 <= i < j < |r| ==> r[i].combinedScore >= r[j].combinedScore
    ensures sortBy == RankOrder ==> forall i, j :: 0 <= i < j < |r| ==> r[i].zscore <= r[j].zscore
    ensures sortBy != CombinedScoreOrder && sortBy != RankOrder ==> r == ranked
    ensures sortBy == CombinedScoreOrder ==>
              forall v :: WithKey(r, CombinedScoreKey, v) == WithKey(ranked, CombinedScoreKey, v)
    ensures sortBy == RankOrder ==> forall v :: WithKey(r, ZScoreKey, v) == WithKey(ranked, ZScoreKey, v)
  {
    if sortBy == CombinedScoreOrder then
      var r := SortBy(ranked, CombinedScoreKey);
      assert forall i, j :: 0 <= i < j < |r| ==> CombinedScoreKey(r[i]) <= CombinedScoreKey(r[j]);
      assert forall v :: WithKey(r, CombinedScoreKey, v) == WithKey(ranked, CombinedScoreKey, v) by {
        forall v
          ensures WithKey(r, CombinedScoreKey, v) == WithKey(ranked, CombinedScoreKey, v)
        {
          SortByStable(ranked, CombinedScoreKey, v);
        }
      }
      r
    else if sortBy == RankOrder then
      var r := SortBy(ranked, ZScoreKey);
      assert forall i, j :: 0 <= i < j < |r| ==> ZScoreKey(r[i]) <= ZScoreKey(r[j]);
      assert forall v :: WithKey(r, ZScoreKey, v) == WithKey(ranked, ZScoreKey, v) by {
        forall v
          ensures WithKey(r, ZScoreKey, v) == WithKey(ranked, ZScoreKey, v)
        {
          SortByStable(ranked, ZScoreKey, v);
        }
      }
      r
    else ranked
  }

  // ---------------------------------------------------------------------
  // A whole run

  /** What a run requires of its inputs. */
  predicate ValidRun(background: seq<string>, ranks: seq<RankStat>, level: nat, order: seq<string>)
  {
    && level <= 2
    && AllWellFormed(background)
    && (forall n :: n in ParseBackground(background, level) && LastStat(ranks, n).Some? ==>
          StatsDefined(LastStat(ranks, n).value))
    && Enumerates(order, ParseBackground(background, level).Keys)
  }

  /** The parsed kinases with their rank statistics, in hash-map order. */
  function WorkingList(background: seq<string>, ranks: seq<RankStat>, level: nat, order: seq<string>): (kinases: seq<Kinase>)
    requires ValidRun(background, ranks, level, order)
    ensures |kinases| == |order|
    ensures forall i :: 0 <= i < |kinases| ==> kinases[i].name == order[i] && ScoreDefined(kinases[i])
    ensures forall k :: k in kinases ==> ScoreDefined(k)
  {
    var m := AttachRankStats(ParseBackground(background, level), ranks);
    Materialize(m, order)
  }

  /** Sorting the survivors by p-value keeps their number and what holds of each of them. */
  lemma PValueSorted(survivors: seq<Kinase>, sorted: seq<Kinase>)
    requires sorted == SortBy(survivors, PValueKey)
    requires forall e :: e in survivors ==> ScoreDefined(e) && e.enrichedSubstrates != {}
    ensures |sorted| == |survivors|
    ensures forall i :: 0 <= i < |sorted| ==> ScoreDefined(sorted[i]) && sorted[i].enrichedSubstrates != {}
    ensures forall i, j :: 0 <= i < j < |sorted| ==> sorted[i].pvalue <= sorted[j].pvalue
  {
    PValueSortedMembers(survivors, sorted);
    PValueSortedOrder(survivors, sorted);
  }

  lemma PValueSortedMembers(survivors: seq<Kinase>, sorted: seq<Kinase>)
    requires sorted == SortBy(survivors, PValueKey)
    requires forall e :: e in survivors ==> ScoreDefined(e) && e.enrichedSubstrates != {}
    ensures forall i :: 0 <= i < |sorted| ==> ScoreDefined(sorted[i]) && sorted[i].enrichedSubstrates != {}
  {
    SortByElementsFrom(survivors, PValueKey);
  }

  lemma PValueSortedOrder(survivors: seq<Kinase>, sorted: seq<Kinase>)
    requires sorted == SortBy(survivors, PValueKey)
    ensures forall i, j :: 0 <= i < j < |sorted| ==> sorted[i].pvalue <= sorted[j].pvalue
  {
    assert SortedBy(sorted, PValueKey);
  }

  /** With one kinase per name in the list, the p-value-sorted survivors name each kinase once. */
  lemma SortedSurvivorsDistinct(kinases: seq<Kinase>, order: seq<string>, input: set<string>, bg: set<string>,
                                fisher: FisherTest)
    requires |kinases| == |order| && forall i :: 0 <= i < |kinases| ==> kinases[i].name == order[i]
    requires forall i, j :: 0 <= i < j < |order| ==> order[i] != order[j]
    requires forall k :: k in kinases ==> k.substrates <= bg
    ensures DistinctBy(SortBy(Survivors(kinases, input, bg, fisher), PValueKey), NameOf)
  {
    assert DistinctBy(kinases, NameOf) by {
      forall i, j | 0 <= i < j < |kinases|
        ensures NameOf(kinases[i]) != NameOf(kinases[j])
      {
        assert kinases[i].name == order[i] && kinases[j].name == order[j];
      }
    }
    SurvivorsDistinct(kinases, input, bg, fisher);
    SortByDistinct(Survivors(kinases, input, bg, fisher), PValueKey, NameOf);
  }

  /** Scoring keeps the names, so it keeps them distinct. */
  lemma AssignRanksDistinct(sorted: seq<Kinase>, first: int, ln: real -> real)
    requires forall i :: 0 <= i < |sorted| ==> ScoreDefined(sorted[i])
    requires DistinctBy(sorted, NameOf)
    ensures DistinctBy(AssignRanks(sorted, first, ln), NameOf)
  {
    var r := AssignRanks(sorted, first, ln);
    forall i, j | 0 <= i < j < |r|
      ensures NameOf(r[i]) != NameOf(r[j])
    {
      assert r[i].name == sorted[i].name && r[j].name == sorted[j].name;
    }
  }

  /** The survivors, sorted by p-value and scored by rank. */
  function Ranked(background: seq<string>, ranks: seq<RankStat>, genes: seq<string>, level: nat,
                  order: seq<string>, fisher: FisherTest, ln: real -> real): (r: seq<Kinase>)
    requires ValidRun(background, ranks, level, order)
    ensures |r| <= |order|
    ensures forall i :: 0 <= i < |r| ==> r[i].enrichedSubstrates != {}
    ensures forall i, j :: 0 <= i < j < |r| ==> r[i].pvalue <= r[j].pvalue
    ensures DistinctBy(r, NameOf)
  {
    var kinases := WorkingList(background, ranks, level, order);
    var bg := Universe(kinases);
    var input := RestrictInput(genes, kinases);
    var survivors := Survivors(kinases, input, bg, fisher);
    var sorted := SortBy(survivors, PValueKey);
    PValueSorted(survivors, sorted);
    SortedSurvivorsDistinct(kinases, order, input, bg, fisher);
    AssignRanksDistinct(sorted, 1, ln);
    AssignRanks(sorted, 1, ln)
  }

  /** `computeEnrichment`: the ranked survivors, reordered by the sort setting. */
  function ComputeEnrichment(background: seq<string>, ranks: seq<RankStat>, genes: seq<string>,
                             settings: Settings, order: seq<string>, fisher: FisherTest,
                             ln: real -> real): (r: seq<Kinase>)
    requires ValidRun(background, ranks, ResolutionLevel(settings.resolutionLevel), order)
    ensures multiset(r) == multiset(Ranked(background, ranks, genes, ResolutionLevel(settings.resolutionLevel), order, fisher, ln))
    ensures settings.sortBy == CombinedScoreOrder ==>
              forall i, j :: 0 <= i < j < |r| ==> r[i].combinedScore >= r[j].combinedScore
    ensures settings.sortBy == RankOrder ==> forall i, j :: 0 <= i < j < |r| ==> r[i].zscore <= r[j].zscore
    ensures settings.sortBy != CombinedScoreOrder && settings.sortBy != RankOrder ==>
              r == Ranked(background, ranks, genes, ResolutionLevel(settings.resolutionLevel), order, fisher, ln)
    ensures settings.sortBy == CombinedScoreOrder ==>
              forall v :: WithKey(r, CombinedScoreKey, v)
                          == WithKey(Ranked(background, ranks, genes, ResolutionLevel(settings.resolutionLevel), order, fisher, ln), CombinedScoreKey, v)
    ensures settings.sortBy == RankOrder ==>
              forall v :: WithKey(r, ZScoreKey, v)
                          == WithKey(Ranked(background, ranks, genes, ResolutionLevel(settings.resolutionLevel), order, fisher, ln), ZScoreKey, v)
  {
    var level := ResolutionLevel(settings.resolutionLevel);
    Reorder(Ranked(background, ranks, genes, level, order, fisher, ln), settings.sortBy)
  }

  // ---------------------------------------------------------------------
  // Top-ranked prefixes

  function Min(a: int, b: int): int { if a < b then a else b }

  /** `getTopRanked`: the first `ranks` kinases of the result, or all of them if there are fewer. */
  method GetTopRanked(kinases: seq<Kinase>, ranks: int) returns (top: seq<Kinase>)
    ensures |top| == if ranks <= 0 then 0 else Min(ranks, |kinases|)
    ensures top == kinases[..|top|]
  {
    top := [];
    var i := 0;
    while i < |kinases| && |top| < ranks
      invariant 0 <= i <= |kinases|
      invariant top == kinases[..i]
      invariant ranks <= 0 ==> i == 0
      invariant ranks > 0 ==> i <= ranks
    {
      top := top + [kinases[i]];
      i := i + 1;
    }
  }

  /** `getTopRankedList`: the names of the first `ranks` kinases of the result. */
  method GetTopRankedList(kinases: seq<Kinase>, ranks: int) returns (names: seq<string>)
    ensures |names| == if ranks <= 0 then 0 else Min(ranks, |kinases|)
    ensures forall i :: 0 <= i < |names| ==> names[i] == kinases[i].name
  {
    names := [];
    var i := 0;
    while i < |kinases| && |names| < ranks
      invariant 0 <= i <= |kinases|
      invariant |names| == i
      invariant forall j :: 0 <= j < i ==> names[j] == kinases[j].name
      invariant ranks <= 0 ==> i == 0
      invariant ranks > 0 ==> i <= ranks
    {
      names := names + [kinases[i].name];
      i := i + 1;
    }
  }

  // ---------------------------------------------------------------------
  // What a run reports

  /** Each working-list entry is its name's parsed substrates with that name's last statistics line. */
  lemma WorkingListContents(background: seq<string>, ranks: seq<RankStat>, level: nat, order: seq<string>)
    requires ValidRun(background, ranks, level, order)
    ensures forall i :: 0 <= i < |order| ==>
              WorkingList(background, ranks, level, order)[i]
              == WithStats(Unscored(order[i], TargetsOf(background, level, order[i])), LastStat(ranks, order[i]))
    ensures forall i :: 0 <= i < |order| ==> order[i] in Names(background, level)
  {
    ParseBackgroundContents(background, level);
  }

  /** Each substrate of the working list is a substrate some record mentions. */
  lemma WorkingListSubstrateRecorded(background: seq<string>, ranks: seq<RankStat>, level: nat,
                                     order: seq<string>, x: string)
    requires ValidRun(background, ranks, level, order)
    requires x in Universe(WorkingList(background, ranks, level, order))
    ensures x in BackgroundUniverse(background)
  {
    var kinases := WorkingList(background, ranks, level, order);
    WorkingListContents(background, ranks, level, order);
    var i :| 0 <= i < |kinases| && x in kinases[i].substrates;
    assert kinases[i].substrates == TargetsOf(background, level, order[i]);
    TargetsOfMembership(background, level, order[i], x);
    BackgroundUniverseMembership(background, x);
  }

  /** Each substrate some record mentions belongs to the working-list entry of that record's name. */
  lemma RecordedSubstrateListed(background: seq<string>, ranks: seq<RankStat>, level: nat,
                                order: seq<string>, x: string)
    requires ValidRun(background, ranks, level, order)
    requires x in BackgroundUniverse(background)
    ensures x in Universe(WorkingList(background, ranks, level, order))
  {
    var kinases := WorkingList(background, ranks, level, order);
    BackgroundUniverseMembership(background, x);
    var r :| r in background && TargetOf(r) == x;
    var n := KeyOf(r, level);
    NamesMembership(background, level, n);
    ParseBackgroundContents(background, level);
    assert n in order;
    var i :| 0 <= i < |order| && order[i] == n;
    WorkingListContents(background, ranks, level, order);
    TargetsOfMembership(background, level, n, x);
    assert x in kinases[i].substrates;
  }

  /** The substrates of the working list are exactly the substrates the records mention, at any level. */
  lemma WorkingListUniverse(background: seq<string>, ranks: seq<RankStat>, level: nat, order: seq<string>)
    requires ValidRun(background, ranks, level, order)
    ensures Universe(WorkingList(background, ranks, level, order)) == BackgroundUniverse(background)
  {
    forall x
      ensures x in Universe(WorkingList(background, ranks, level, order)) <==> x in BackgroundUniverse(background)
    {
      if x in Universe(WorkingList(background, ranks, level, order)) {
        WorkingListSubstrateRecorded(background, ranks, level, order, x);
      }
      if x in BackgroundUniverse(background) {
        RecordedSubstrateListed(background, ranks, level, order, x);
      }
    }
  }

  /**
   Kinase `e` scored at 1-based position `rank` against the restricted input
   `input` and the background `bg`: it holds `substrates`, shares some with the
   input, carries the values of the statistics line `stat` (none: zero), and
   its fractions, p-value and scores are computed from those counts.
   */
  ghost predicate Scored(e: Kinase, substrates: set<string>, stat: Option<RankStat>, rank: int,
                         input: set<string>, bg: set<string>, fisher: FisherTest, ln: real -> real)
  {
    && e.substrates == substrates
    && e.substrates <= bg
    && e.enrichedSubstrates == e.substrates * input && e.enrichedSubstrates != {}
    && (match stat
        case None => e.mean == 0.0 && e.standardDeviation == 0.0
        case Some(s) => e.mean == s.mean && e.standardDeviation == s.standardDeviation)
    && e.fractionInput * |input| as real == |e.enrichedSubstrates| as real
    && e.fractionBackground * |bg| as real == |e.substrates| as real
    && e.pvalue == fisher(|input| + |bg|, Contingency(e, input, bg))
    && (HasNoRankStats(e) ==> e.zscore == 0.0)
    && (!HasNoRankStats(e) ==> e.mean + e.zscore * e.standardDeviation == rank as real)
    && e.combinedScore == ln(e.pvalue) * e.zscore
  }

  /**
   What the report says of kinase `e` at position `rank`: its name is one the
   records give at `level`, and it is scored with the substrates recorded for
   that name and that name's last statistics line.
   */
  ghost predicate Reported(e: Kinase, rank: int, background: seq<string>, ranks: seq<RankStat>, level: nat,
                           input: set<string>, bg: set<string>, fisher: FisherTest, ln: real -> real)
    requires AllWellFormed(background) && level <= 2
  {
    && e.name in Names(background, level)
    && Scored(e, TargetsOf(background, level, e.name), LastStat(ranks, e.name), rank, input, bg, fisher, ln)
  }

  /** Enriching and then scoring a kinase with statistics `stat` gives a `Scored` kinase. */
  lemma EnrichScored(e: Kinase, s: Kinase, k: Kinase, stat: Option<RankStat>, rank: int,
                     input: set<string>, bg: set<string>, fisher: FisherTest, ln: real -> real)
    requires k == WithStats(Unscored(k.name, k.substrates), stat)
    requires k.substrates <= bg && Meets(k, input)
    requires s == Enrich(k, input, bg, fisher)
    requires ScoreDefined(s) && e == ComputeScore(s, rank, ln)
    ensures Scored(e, k.substrates, stat, rank, input, bg, fisher, ln)
  {
    assert Contingency(e, input, bg) == Contingency(k, input, bg);
  }

  /** The pieces of `Ranked`, named. */
  lemma RankedUnfold(background: seq<string>, ranks: seq<RankStat>, genes: seq<string>, level: nat,
                     order: seq<string>, fisher: FisherTest, ln: real -> real)
    returns (kinases: seq<Kinase>, survivors: seq<Kinase>, sorted: seq<Kinase>)
    requires ValidRun(background, ranks, level, order)
    ensures kinases == WorkingList(background, ranks, level, order)
    ensures Universe(kinases) == BackgroundUniverse(background)
    ensures RestrictInput(genes, kinases) == NormalizeInput(genes) * BackgroundUniverse(background)
    ensures survivors == Survivors(kinases, RestrictInput(genes, kinases), Universe(kinases), fisher)
    ensures sorted == SortBy(survivors, PValueKey)
    ensures forall i :: 0 <= i < |sorted| ==> ScoreDefined(sorted[i])
    ensures Ranked(background, ranks, genes, level, order, fisher, ln) == AssignRanks(sorted, 1, ln)
  {
    kinases := WorkingList(background, ranks, level, order);
    WorkingListUniverse(background, ranks, level, order);
    survivors := Survivors(kinases, RestrictInput(genes, kinases), Universe(kinases), fisher);
    sorted := SortBy(survivors, PValueKey);
    forall i | 0 <= i < |sorted|
      ensures ScoreDefined(sorted[i])
    {
      SortByMembers(survivors, PValueKey, sorted[i]);
    }
  }

  /** The entry at each position of the ranked list is reported as the `Reported` predicate says. */
  lemma RankedEntry(background: seq<string>, ranks: seq<RankStat>, genes: seq<string>, level: nat,
                    order: seq<string>, fisher: FisherTest, ln: real -> real, i: nat)
    requires ValidRun(background, ranks, level, order)
    requires i < |Ranked(background, ranks, genes, level, order, fisher, ln)|
    ensures Reported(Ranked(background, ranks, genes, level, order, fisher, ln)[i], i + 1,
                     background, ranks, level, NormalizeInput(genes) * BackgroundUniverse(background),
                     BackgroundUniverse(background), fisher, ln)
  {
    var kinases, survivors, sorted := RankedUnfold(background, ranks, genes, level, order, fisher, ln);
    var bg := BackgroundUniverse(background);
    var input := NormalizeInput(genes) * bg;
    var r := Ranked(background, ranks, genes, level, order, fisher, ln);
    SortByMembers(survivors, PValueKey, sorted[i]);
    var k :| k in kinases && Meets(k, input) && sorted[i] == Enrich(k, input, bg, fisher);
    var j :| 0 <= j < |kinases| && kinases[j] == k;
    WorkingListContents(background, ranks, level, order);
    var n := order[j];
    var targets := TargetsOf(background, level, n);
    var stat := LastStat(ranks, n);
    assert k == WithStats(Unscored(n, targets), stat);
    assert k.name == n && k.substrates == targets;
    AssignRanksAt(sorted, 1, ln, i);
    assert k == WithStats(Unscored(k.name, k.substrates), stat);
    assert k.substrates <= bg;
    assert ScoreDefined(sorted[i]);
    assert r[i] == ComputeScore(sorted[i], i + 1, ln);
    EnrichScored(r[i], sorted[i], k, stat, i + 1, input, bg, fisher, ln);
    assert r[i].name == n;
  }

  /** The ranked list holds a kinase for every name whose recorded substrates meet the restricted input. */
  lemma RankedCoversMeetingNames(background: seq<string>, ranks: seq<RankStat>, genes: seq<string>, level: nat,
                                 order: seq<string>, fisher: FisherTest, ln: real -> real, n: string)
    requires ValidRun(background, ranks, level, order)
    requires n in Names(background, level)
    requires TargetsOf(background, level, n) * (NormalizeInput(genes) * BackgroundUniverse(background)) != {}
    ensures exists i :: 0 <= i < |Ranked(background, ranks, genes, level, order, fisher, ln)|
                        && Ranked(background, ranks, genes, level, order, fisher, ln)[i].name == n
  {
    var kinases, survivors, sorted := RankedUnfold(background, ranks, genes, level, order, fisher, ln);
    var bg := BackgroundUniverse(background);
    var input := NormalizeInput(genes) * bg;
    var r := Ranked(background, ranks, genes, level, order, fisher, ln);
    ParseBackgroundContents(background, level);
    WorkingListContents(background, ranks, level, order);
    assert n in order;
    var j :| 0 <= j < |order| && order[j] == n;
    assert kinases[j].substrates == TargetsOf(background, level, n);
    assert kinases[j] in kinases && Meets(kinases[j], input);
    var e := Enrich(kinases[j], input, bg, fisher);
    assert e in survivors;
    SortByMembers(survivors, PValueKey, e);
    var i :| 0 <= i < |sorted| && sorted[i] == e;
    AssignRanksAt(sorted, 1, ln, i);
    assert r[i].name == n;
  }

  /** The position in the list of the kinase a survivor came from. */
  lemma SurvivorSource(kinases: seq<Kinase>, input: set<string>, bg: set<string>, fisher: FisherTest, e: Kinase)
    returns (j: nat)
    requires forall k :: k in kinases ==> k.substrates <= bg
    requires e in Survivors(kinases, input, bg, fisher)
    ensures j < |kinases| && e.name == kinases[j].name
  {
    var k :| k in kinases && Meets(k, input) && e == Enrich(k, input, bg, fisher);
    j :| 0 <= j < |kinases| && kinases[j] == k;
  }

  /** Filtering keeps names distinct: each survivor has the name of a different kinase. */
  lemma {:induction false} SurvivorsDistinct(kinases: seq<Kinase>, input: set<string>, bg: set<string>, fisher: FisherTest)
    requires forall k :: k in kinases ==> k.substrates <= bg
    requires DistinctBy(kinases, NameOf)
    ensures DistinctBy(Survivors(kinases, input, bg, fisher), NameOf)
  {
    if |kinases| > 0 {
      var tail := kinases[1..];
      assert DistinctBy(tail, NameOf) by {
        forall i, j | 0 <= i < j < |tail|
          ensures NameOf(tail[i]) != NameOf(tail[j])
        {
          assert tail[i] == kinases[i + 1] && tail[j] == kinases[j + 1];
        }
      }
      SurvivorsDistinct(tail, input, bg, fisher);
      var rest := Survivors(tail, input, bg, fisher);
      if Meets(kinases[0], input) {
        var r := [Enrich(kinases[0], input, bg, fisher)] + rest;
        forall i | 0 <= i < |rest|
          ensures NameOf(rest[i]) != kinases[0].name
        {
          var j := SurvivorSource(tail, input, bg, fisher, rest[i]);
          assert kinases[j + 1] == tail[j];
        }
        ConsDistinct(Enrich(kinases[0], input, bg, fisher), rest, NameOf);
        assert Survivors(kinases, input, bg, fisher) == r;
      }
    }
  }

  /** The ranked list names each kinase at most once. */
  lemma RankedNamesDistinct(background: seq<string>, ranks: seq<RankStat>, genes: seq<string>, level: nat,
                            order: seq<string>, fisher: FisherTest, ln: real -> real)
    requires ValidRun(background, ranks, level, order)
    ensures DistinctBy(Ranked(background, ranks, genes, level, order, fisher, ln), NameOf)
  {
    var kinases, survivors, sorted := RankedUnfold(background, ranks, genes, level, order, fisher, ln);
    assert DistinctBy(kinases, NameOf) by {
      forall i, j | 0 <= i < j < |kinases|
        ensures NameOf(kinases[i]) != NameOf(kinases[j])
      {
        assert kinases[i].name == order[i] && kinases[j].name == order[j];
      }
    }
    SurvivorsDistinct(kinases, RestrictInput(genes, kinases), Universe(kinases), fisher);
    SortByDistinct(survivors, PValueKey, NameOf);
    var r := Ranked(background, ranks, genes, level, order, fisher, ln);
    forall i, j | 0 <= i < j < |r|
      ensures NameOf(r[i]) != NameOf(r[j])
    {
      assert r[i].name == sorted[i].name && r[j].name == sorted[j].name;
    }
  }

  /** The final reorder keeps the names distinct. */
  lemma ReorderNamesDistinct(ranked: seq<Kinase>, sortBy: string)
    requires DistinctBy(ranked, NameOf)
    ensures DistinctBy(Reorder(ranked, sortBy), NameOf)
  {
    if sortBy == CombinedScoreOrder {
      SortByDistinct(ranked, CombinedScoreKey, NameOf);
    } else if sortBy == RankOrder {
      SortByDistinct(ranked, ZScoreKey, NameOf);
    }
  }

  /** `computeEnrichment` reports each kinase at most once, whatever the sort setting. */
  lemma ComputeEnrichmentNamesDistinct(background: seq<string>, ranks: seq<RankStat>, genes: seq<string>,
                                       settings: Settings, order: seq<string>, fisher: FisherTest,
                                       ln: real -> real)
    requires ValidRun(background, ranks, ResolutionLevel(settings.resolutionLevel), order)
    ensures DistinctBy(ComputeEnrichment(background, ranks, genes, settings, order, fisher, ln), NameOf)
  {
    var level := ResolutionLevel(settings.resolutionLevel);
    RankedNamesDistinct(background, ranks, genes, level, order, fisher, ln);
    ReorderNamesDistinct(Ranked(background, ranks, genes, level, order, fisher, ln), settings.sortBy);
  }

  /** A kinase with no statistics line gets a z-score and a combined score of zero, wherever it ranks. */
  lemma RankedUnrankedScoresZero(background: seq<string>, ranks: seq<RankStat>, genes: seq<string>, level: nat,
                                 order: seq<string>, fisher: FisherTest, ln: real -> real, i: nat)
    requires ValidRun(background, ranks, level, order)
    requires i < |Ranked(background, ranks, genes, level, order, fisher, ln)|
    requires forall j :: 0 <= j < |ranks| ==> ranks[j].name != Ranked(background, ranks, genes, level, order, fisher, ln)[i].name
    ensures Ranked(background, ranks, genes, level, order, fisher, ln)[i].zscore == 0.0
    ensures Ranked(background, ranks, genes, level, order, fisher, ln)[i].combinedScore == 0.0
  {
    RankedEntry(background, ranks, genes, level, order, fisher, ln, i);
  }

  /** With the p-value sort setting the result is in ascending p-value order, whatever the scores. */
  lemma ComputeEnrichmentPValueOrder(background: seq<string>, ranks: seq<RankStat>, genes: seq<string>,
                                     settings: Settings, order: seq<string>, fisher: FisherTest,
                                     ln: real -> real)
    requires ValidRun(background, ranks, ResolutionLevel(settings.resolutionLevel), order)
    requires settings.sortBy == PValueOrder
    ensures var r := ComputeEnrichment(background, ranks, genes, settings, order, fisher, ln);
            forall i, j :: 0 <= i < j < |r| ==> r[i].pvalue <= r[j].pvalue
  {
  }

  /** The sort setting only reorders: every setting reports the same kinases with the same values. */
  lemma ComputeEnrichmentSortIndependent(background: seq<string>, ranks: seq<RankStat>, genes: seq<string>,
                                         s1: Settings, s2: Settings, order: seq<string>, fisher: FisherTest,
                                         ln: real -> real)
    requires s1.resolutionLevel == s2.resolutionLevel
    requires ValidRun(background, ranks, ResolutionLevel(s1.resolutionLevel), order)
    ensures multiset(ComputeEnrichment(background, ranks, genes, s1, order, fisher, ln))
            == multiset(ComputeEnrichment(background, ranks, genes, s2, order, fisher, ln))
  {
  }

  lemma RunFacts(background: seq<string>, ranks: seq<RankStat>, genes: seq<string>,
                 settings: Settings, order: seq<string>, fisher: FisherTest, ln: real -> real)
    requires ValidRun(background, ranks, ResolutionLevel(settings.resolutionLevel), order)
    ensures var r := ComputeEnrichment(background, ranks, genes, settings, order, fisher, ln);
            && DistinctBy(r, NameOf)
            && (settings.sortBy == PValueOrder ==> forall i, j :: 0 <= i < j < |r| ==> r[i].pvalue <= r[j].pvalue)
  {
    ComputeEnrichmentNamesDistinct(background, ranks, genes, settings, order, fisher, ln);
    if settings.sortBy == PValueOrder {
      ComputeEnrichmentPValueOrder(background, ranks, genes, settings, order, fisher, ln);
    }
  }

  /**
   `run`: assemble the background from the two sources, then compute the
   enrichment: the ranked kinases, each reported once, in the order the sort
   setting asks for.
   */
  function Run(settings: Settings, protein: seq<string>, phospho: seq<string>, ranks: seq<RankStat>,
               genes: seq<string>, order: seq<string>, fisher: FisherTest, ln: real -> real): (r: seq<Kinase>)
    requires ValidRun(AssembleBackground(settings.kinaseInteractions, protein, phospho), ranks,
                      ResolutionLevel(settings.resolutionLevel), order)
    ensures multiset(r) == multiset(Ranked(AssembleBackground(settings.kinaseInteractions, protein, phospho), ranks,
                                           genes, ResolutionLevel(settings.resolutionLevel), order, fisher, ln))
    ensures DistinctBy(r, NameOf)
    ensures settings.sortBy == PValueOrder ==> forall i, j :: 0 <= i < j < |r| ==> r[i].pvalue <= r[j].pvalue
    ensures settings.sortBy == CombinedScoreOrder ==>
              forall i, j :: 0 <= i < j < |r| ==> r[i].combinedScore >= r[j].combinedScore
    ensures settings.sortBy == RankOrder ==> forall i, j :: 0 <= i < j < |r| ==> r[i].zscore <= r[j].zscore
    ensures settings.sortBy != CombinedScoreOrder && settings.sortBy != RankOrder ==>
              r == Ranked(AssembleBackground(settings.kinaseInteractions, protein, phospho), ranks,
                          genes, ResolutionLevel(settings.resolutionLevel), order, fisher, ln)
    ensures settings.sortBy == CombinedScoreOrder ==>
              forall v :: WithKey(r, CombinedScoreKey, v)
                          == WithKey(Ranked(AssembleBackground(settings.kinaseInteractions, protein, phospho), ranks,
                                            genes, ResolutionLevel(settings.resolutionLevel), order, fisher, ln),
                                     CombinedScoreKey, v)
    ensures settings.sortBy == RankOrder ==>
              forall v :: WithKey(r, ZScoreKey, v)
                          == WithKey(Ranked(AssembleBackground(settings.kinaseInteractions, protein, phospho), ranks,
                                            genes, ResolutionLevel(settings.resolutionLevel), order, fisher, ln),
                                     ZScoreKey, v)
  {
    var background := AssembleBackground(settings.kinaseInteractions, protein, phospho);
    RunFacts(background, ranks, genes, settings, order, fisher, ln);
    ComputeEnrichment(background, ranks, genes, settings, order, fisher, ln)
  }

}
