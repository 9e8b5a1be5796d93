/**
 The kinase record of the enrichment engine: a name, the set of its
 background substrates, historical rank statistics, and the results one
 enrichment run attaches to it. Java doubles are modelled as reals; the
 natural logarithm is a parameter, and so is the formatting of a double.
 */
module Kinases {
  import opened Text

  datatype Kinase = Kinase(
    name: string,
    substrates: set<string>,
    mean: real,
    standardDeviation: real,
    fractionInput: real,
    fractionBackground: real,
    pvalue: real,
    zscore: real,
    combinedScore: real,
    enrichedSubstrates: set<string>)

  /** A kinase holding `substrates` with every other field at its default. */
  function Unscored(name: string, substrates: set<string>): Kinase
  {
    Kinase(name, substrates, 0.0, 0.0, 0.0, 0.0, 0.0, 0.0, 0.0, {})
  }

  /** The constructor: a kinase that knows one substrate. */
  function NewKinase(name: string, substrate: string): (k: Kinase)
    ensures k.name == name
    ensures k.substrates == {substrate} && k.substrates != {}
    ensures k.mean == 0.0 && k.standardDeviation == 0.0
    ensures k.enrichedSubstrates == {}
  {
    Unscored(name, {substrate})
  }

  /** Adds one substrate to the set; nothing else changes. */
  function AddSubstrate(k: Kinase, substrate: string): (r: Kinase)
    ensures r.substrates == k.substrates + {substrate}
    ensures substrate in r.substrates && k.substrates <= r.substrates
    ensures r.(substrates := k.substrates) == k
  {
    k.(substrates := k.substrates + {substrate})
  }

  /** Adding a substrate that is already there changes nothing. */
  lemma AddSubstrateIdempotent(k: Kinase, substrate: string)
    ensures AddSubstrate(AddSubstrate(k, substrate), substrate) == AddSubstrate(k, substrate)
    ensures substrate in k.substrates ==> AddSubstrate(k, substrate) == k
  {
  }

  /** The order in which substrates are added does not matter. */
  lemma AddSubstrateCommutes(k: Kinase, s: string, t: string)
    ensures AddSubstrate(AddSubstrate(k, s), t) == AddSubstrate(AddSubstrate(k, t), s)
  {
  }

  /** Records the historical mean and standard deviation of the kinase's rank. */
  function SetRankStats(k: Kinase, mean: real, standardDeviation: real): (r: Kinase)
    ensures r.mean == mean && r.standardDeviation == standardDeviation
    ensures r.(mean := k.mean, standardDeviation := k.standardDeviation) == k
  {
    k.(mean := mean, standardDeviation := standardDeviation)
  }

  /**
   The z-score is defined over the reals: either there are no statistics
   (both zero) or the standard deviation is not zero.
   */
  predicate ScoreDefined(k: Kinase)
  {
    k.standardDeviation != 0.0 || k.mean == 0.0
  }

  predicate HasNoRankStats(k: Kinase)
  {
    k.mean == 0.0 && k.standardDeviation == 0.0
  }

  /**
   Scores the kinase at 1-based position `currentRank` of the p-value order:
   the z-score is zero without statistics and otherwise the number of standard
   deviations the rank lies from the mean; the combined score multiplies it by
   the logarithm of the p-value.
   */
  function ComputeScore(k: Kinase, currentRank: int, ln: real -> real): (r: Kinase)
    requires ScoreDefined(k)
    ensures r == k.(zscore := r.zscore, combinedScore := r.combinedScore)
    ensures HasNoRankStats(k) ==> r.zscore == 0.0
    ensures !HasNoRankStats(k) ==> k.mean + r.zscore * k.standardDeviation == currentRank as real
    ensures r.combinedScore == ln(k.pvalue) * r.zscore
    ensures r.zscore == 0.0 ==> r.combinedScore == 0.0
  {
    var z := if HasNoRankStats(k) then 0.0 else (currentRank as real - k.mean) / k.standardDeviation;
    k.(zscore := z, combinedScore := ln(k.pvalue) * z)
  }

  /** Without statistics the score does not depend on the rank. */
  lemma ScoreWithoutStatsIgnoresRank(k: Kinase, r1: int, r2: int, ln: real -> real)
    requires HasNoRankStats(k)
    ensures ComputeScore(k, r1, ln) == ComputeScore(k, r2, ln)
    ensures ComputeScore(k, r1, ln).zscore == 0.0 && ComputeScore(k, r1, ln).combinedScore == 0.0
  {
  }

  /** The natural order of kinases: by p-value, -1, 0 or 1. */
  function CompareTo(a: Kinase, b: Kinase): (r: int)
    ensures -1 <= r <= 1
    ensures r < 0 <==> a.pvalue < b.pvalue
    ensures r == 0 <==> a.pvalue == b.pvalue
    ensures r > 0 <==> a.pvalue > b.pvalue
  {
    if a.pvalue > b.pvalue then 1
    else if a.pvalue < b.pvalue then -1
    else 0
  }

  /** The sort key that `CompareTo` orders by. */
  function PValueKey(k: Kinase): real
  {
    k.pvalue
  }

  /** `CompareTo` is antisymmetric and transitive, and agrees with the p-value key. */
  lemma CompareToIsTotalPreorder(a: Kinase, b: Kinase, c: Kinase)
    ensures CompareTo(a, b) == -CompareTo(b, a)
    ensures CompareTo(a, b) <= 0 && CompareTo(b, c) <= 0 ==> CompareTo(a, c) <= 0
    ensures CompareTo(a, b) < 0 && CompareTo(b, c) < 0 ==> CompareTo(a, c) < 0
    ensures CompareTo(a, b) <= 0 <==> PValueKey(a) <= PValueKey(b)
  {
  }

  function NameOf(k: Kinase): string
  {
    k.name
  }

  /** Kinases are equal when their names are. */
  predicate Equals(a: Kinase, b: Kinase): (eq: bool)
    ensures eq <==> NameOf(a) == NameOf(b)
    ensures eq ==> HashCode(a) == HashCode(b)
  {
    a.name == b.name
  }

  /** Reduces an integer to the signed 32-bit value Java's `int` arithmetic leaves. */
  function Wrap32(x: int): (r: int)
    ensures -0x8000_0000 <= r < 0x8000_0000
    ensures (r - x) % 0x1_0000_0000 == 0
  {
    (x + 0x8000_0000) % 0x1_0000_0000 - 0x8000_0000
  }

  /** `String.hashCode`: h = 31 * h + c over the characters, in 32-bit arithmetic. */
  function StringHash(s: string): (h: int)
    ensures -0x8000_0000 <= h < 0x8000_0000
  {
    if |s| == 0 then 0 else Wrap32(31 * StringHash(s[..|s| - 1]) + s[|s| - 1] as int)
  }

  function Pow31(k: nat): (p: nat)
    ensures p >= 1
  {
    if k == 0 then 1 else 31 * Pow31(k - 1)
  }

  /** The hash as a plain sum: character i weighted by 31 to the power of the characters after it. */
  function PolyHash(s: string): int
  {
    if |s| == 0 then 0 else s[0] as int * Pow31(|s| - 1) + PolyHash(s[1..])
  }

  lemma {:induction false} PolyHashSnoc(s: string, c: char)
    ensures PolyHash(s + [c]) == 31 * PolyHash(s) + c as int
    decreases |s|
  {
    if |s| == 0 {
      assert (s + [c])[1..] == [];
    } else {
      assert (s + [c])[1..] == s[1..] + [c];
      PolyHashSnoc(s[1..], c);
      assert Pow31(|s|) == 31 * Pow31(|s| - 1);
      assert s[0] as int * Pow31(|s|) == 31 * (s[0] as int * Pow31(|s| - 1));
    }
  }

  lemma Wrap32Congruent(x: int, y: int, q: int)
    requires x == y + 0x1_0000_0000 * q
    ensures Wrap32(x) == Wrap32(y)
  {
  }

  /** The multiple of 2^32 that wrapping subtracts. */
  lemma Wrap32Multiple(x: int) returns (q: int)
    ensures Wrap32(x) == x + 0x1_0000_0000 * q
  {
    q := (Wrap32(x) - x) / 0x1_0000_0000;
  }

  /** Wrapping an addend first changes nothing once the sum is wrapped. */
  lemma Wrap32Shift(x: int, c: int)
    ensures Wrap32(c + Wrap32(x)) == Wrap32(c + x)
  {
    var q := Wrap32Multiple(x);
    Wrap32Congruent(c + Wrap32(x), c + x, q);
  }

  /**
   `String.hashCode` with wrap-around at every step equals the full sum of
   character times power of 31, reduced once to a signed 32-bit value.
   */
  lemma {:induction false} StringHashIsPolyHash(s: string)
    ensures StringHash(s) == Wrap32(PolyHash(s))
    decreases |s|
  {
    if |s| > 0 {
      var p := s[..|s| - 1];
      var c := s[|s| - 1];
      assert p + [c] == s;
      StringHashIsPolyHash(p);
      PolyHashSnoc(p, c);
      Wrap32Step(PolyHash(p), c as int);
    }
  }

  /** Wrapping before one Horner step changes nothing once the step's result is wrapped. */
  lemma Wrap32Step(x: int, c: int)
    ensures Wrap32(31 * Wrap32(x) + c) == Wrap32(31 * x + c)
  {
    var q := Wrap32Multiple(x);
    Wrap32Congruent(31 * Wrap32(x) + c, 31 * x + c, 31 * q);
  }

  /** `hashCode`: 31 * 1 + the name's hash, in 32-bit arithmetic. */
  function HashCode(k: Kinase): (h: int)
    ensures -0x8000_0000 <= h < 0x8000_0000
  {
    Wrap32(31 * 1 + StringHash(k.name))
  }

  /** `hashCode` is 31 plus the name's full polynomial hash, reduced once to a signed 32-bit value. */
  lemma HashCodeIsPolyHash(k: Kinase)
    ensures HashCode(k) == Wrap32(31 + PolyHash(k.name))
  {
    StringHashIsPolyHash(k.name);
    Wrap32Shift(PolyHash(k.name), 31);
  }

  /** Equality is an equivalence decided by the name alone, and equal kinases hash alike. */
  lemma EqualsConsistentWithHashCode(a: Kinase, b: Kinase, c: Kinase)
    ensures Equals(a, a)
    ensures Equals(a, b) ==> Equals(b, a)
    ensures Equals(a, b) && Equals(b, c) ==> Equals(a, c)
    ensures Equals(a, b) ==> HashCode(a) == HashCode(b)
    ensures Equals(a, b) <==> Equals(Unscored(a.name, {}), b)
  {
  }

  /** `s` lists each element of `elements` exactly once. */
  predicate Enumerates(s: seq<string>, elements: set<string>)
  {
    && (forall i, j :: 0 <= i < j < |s| ==> s[i] != s[j])
    && (forall i :: 0 <= i < |s| ==> s[i] in elements)
    && (forall x :: x in elements ==> x in s)
  }

  /**
   The first nine report columns: name, enriched count, substrate count, the
   two fractions, their difference, p-value, z-score and combined score.
   `format` stands for Java's rendering of a double.
   */
  function Columns(k: Kinase, format: real -> string): (cols: seq<string>)
    ensures |cols| == 9
    ensures cols[0] == k.name
    ensures (forall j :: 0 <= j < |cols[1]| ==> IsDigit(cols[1][j])) && DigitsValue(cols[1]) == |k.enrichedSubstrates|
    ensures (forall j :: 0 <= j < |cols[2]| ==> IsDigit(cols[2][j])) && DigitsValue(cols[2]) == |k.substrates|
    ensures ',' !in cols[1] && ',' !in cols[2]
    ensures cols[3..] == [format(k.fractionInput), format(k.fractionBackground),
                          format(k.fractionInput - k.fractionBackground),
                          format(k.pvalue), format(k.zscore), format(k.combinedScore)]
  {
    NatToStringRoundTrip(|k.enrichedSubstrates|);
    NatToStringRoundTrip(|k.substrates|);
    [k.name, NatToString(|k.enrichedSubstrates|), NatToString(|k.substrates|),
     format(k.fractionInput), format(k.fractionBackground),
     format(k.fractionInput - k.fractionBackground),
     format(k.pvalue), format(k.zscore), format(k.combinedScore)]
  }

  /** Each column followed by `sep`. */
  function Terminated(cols: seq<string>, sep: char): string
  {
    if |cols| == 0 then "" else cols[0] + [sep] + Terminated(cols[1..], sep)
  }

  /**
   `toString`: the nine columns, each followed by a comma, then the enriched
   substrates joined by semicolons. `substrateOrder` is the set's iteration order.
   */
  function ToString(k: Kinase, substrateOrder: seq<string>, format: real -> string): (row: string)
    requires Enumerates(substrateOrder, k.enrichedSubstrates)
    ensures row == JoinWith(Columns(k, format) + [JoinWith(substrateOrder, ';')], ',')
  {
    TerminatedJoin(Columns(k, format), JoinWith(substrateOrder, ';'), ',');
    Terminated(Columns(k, format), ',') + JoinWith(substrateOrder, ';')
  }

  lemma {:induction false} TerminatedJoin(cols: seq<string>, last: string, sep: char)
    ensures Terminated(cols, sep) + last == JoinWith(cols + [last], sep)
  {
    if |cols| > 0 {
      TerminatedJoin(cols[1..], last, sep);
      assert (cols + [last])[1..] == cols[1..] + [last];
    }
  }

  /**
   A row reads back: split on commas it gives the nine columns and the
   substrate column, and that column split on semicolons gives the substrates
   in their iteration order, provided no name contains a separator.
   */
  lemma ToStringReadsBack(k: Kinase, substrateOrder: seq<string>, format: real -> string)
    requires Enumerates(substrateOrder, k.enrichedSubstrates)
    requires ',' !in k.name
    requires forall x :: ',' !in format(x)
    requires forall s :: s in k.enrichedSubstrates ==> ',' !in s && ';' !in s
    ensures SplitAll(ToString(k, substrateOrder, format), ',')
            == Columns(k, format) + [JoinWith(substrateOrder, ';')]
    ensures |substrateOrder| > 0 ==> SplitAll(JoinWith(substrateOrder, ';'), ';') == substrateOrder
  {
    var cols := Columns(k, format);
    var subs := JoinWith(substrateOrder, ';');
    if |substrateOrder| > 0 {
      SplitAllJoin(substrateOrder, ';');
    }
    NoSeparatorInJoin(substrateOrder, ';', ',');
    NoCommaInColumns(k, format);
    FreeOfAppend(cols, subs, ',');
    SplitAllJoin(cols + [subs], ',');
  }

  lemma FreeOfAppend(parts: seq<string>, last: string, c: char)
    requires forall i :: 0 <= i < |parts| ==> c !in parts[i]
    requires c !in last
    ensures forall i :: 0 <= i < |parts + [last]| ==> c !in (parts + [last])[i]
  {
    var all := parts + [last];
    forall i | 0 <= i < |all|
      ensures c !in all[i]
    {
      if i < |parts| {
        assert all[i] == parts[i];
      }
    }
  }

  lemma NoCommaInColumns(k: Kinase, format: real -> string)
    requires ',' !in k.name
    requires forall x :: ',' !in format(x)
    ensures forall i :: 0 <= i < 9 ==> ',' !in Columns(k, format)[i]
  {
    var cols := Columns(k, format);
    var doubles := cols[3..];
    assert forall i :: 0 <= i < 6 ==> ',' !in doubles[i];
    forall i | 3 <= i < 9
      ensures ',' !in cols[i]
    {
      assert cols[i] == doubles[i - 3];
    }
  }

  lemma {:induction false} NoSeparatorInJoin(parts: seq<string>, sep: char, c: char)
    requires c != sep
    requires forall i :: 0 <= i < |parts| ==> c !in parts[i]
    ensures c !in JoinWith(parts, sep)
  {
    if |parts| > 1 {
      NoSeparatorInJoin(parts[1..], sep, c);
    }
  }
}
