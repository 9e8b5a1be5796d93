# KEA enrichment engine, modelled in Dafny

KEA (Kinase Enrichment Analysis) takes a list of gene symbols. It reports
which upstream kinases phosphorylate more of those genes than chance would
predict. The engine works in these steps:

1. It reads background association records of the form
   `group,family,kinase,substrate`.
2. It groups the records into one kinase per name, at the chosen resolution
   level (group, family or kinase).
3. It attaches historical rank statistics (a mean and a standard deviation)
   to the kinases.
4. It upper-cases the input genes and keeps only those that some kinase has
   as a substrate.
5. It drops every kinase that shares no substrate with that restricted input.
6. It scores each remaining kinase with a right-tailed Fisher exact test.
7. It sorts the kinases by p-value and gives each a 1-based rank.
8. It turns the rank into a z-score and a combined score (`ln(p) · z`).
9. It finally reorders the list by combined score, by z-score, or leaves it
   in p-value order.

The model has four modules:

- `Text` (text.dfy): Java's `String.split` on a one-character separator,
  joining with a separator, ASCII upper-casing, and decimal rendering of
  counts.
- `Sorting` (sorting.dfy): the stable sort that `Collections.sort`
  guarantees, over a real-valued key.
- `Kinases` (kinase.dfy): the `Kinase` record and its operations.
- `Enrichment` (kea.dfy): settings, background assembly, parsing, rank
  statistics, input restriction, filtering, scoring, the final reorder, the
  whole run, and the top-ranked prefixes.

Some things the engine uses are not modelled. They become parameters of the
model:

- `fisher` stands for the Fisher exact test: it takes the table size and the
  2×2 counts and returns a p-value.
- `ln` stands for `Math.log`.
- `format` stands for Java's rendering of a `double`.
- `order` stands for the iteration order of the name-to-kinase `HashMap`.
  It must list every parsed name exactly once.
- `substrateOrder` stands for the iteration order of the enriched-substrate
  set in `toString`.

The main guarantees are stated about `Enrichment.Ranked`, which is the list
before the final reorder, and about `Enrichment.ComputeEnrichment`. They are:

- every reported kinase is `Reported`: its substrates, statistics,
  fractions, p-value and scores are exactly what the records and the
  restricted input determine;
- every name whose recorded substrates meet the input is reported;
- no name is reported twice;
- the list before the final reorder is in ascending p-value order;
- the final reorder is a stable permutation, ordered by the chosen key.

## Model

| member | source | states |
|---|---|---|
| `Text.SplitAll` | src/main/java/edu/mssm/pharm/maayanlab/KEA/KEA.java:192 | splitting gives at least one piece, and no piece contains the separator |
| `Text.DropTrailingEmpty` | src/main/java/edu/mssm/pharm/maayanlab/KEA/KEA.java:192 | the result is a prefix of the pieces, ends in a non-empty piece (or is empty), and only empty pieces were dropped |
| `Text.JavaSplit` | src/main/java/edu/mssm/pharm/maayanlab/KEA/KEA.java:192 | `record.split(",")` yields separator-free fields; without the separator the result is the whole string as the only field; with it, the fields are all the pieces up to the last non-empty one, and only empty pieces are dropped |
| `Text.JoinSplitAll` | src/main/java/edu/mssm/pharm/maayanlab/KEA/KEA.java:192 | joining the split pieces with the separator gives back the original string |
| `Text.SplitAllJoin` | src/main/java/edu/mssm/pharm/maayanlab/KEA/Kinase.java:109-117 | joining separator-free parts and splitting again gives back the parts |
| `Text.UpperChar` | src/main/java/edu/mssm/pharm/maayanlab/KEA/KEA.java:217 | the upper-cased character is never a lower-case ASCII letter; lower-case letters shift by 32 and everything else is kept |
| `Text.ToUpper` | src/main/java/edu/mssm/pharm/maayanlab/KEA/KEA.java:217 | `toUpperCase` keeps the length and upper-cases every position |
| `Text.ToUpperIdempotent` | src/main/java/edu/mssm/pharm/maayanlab/KEA/KEA.java:217 | upper-casing twice equals upper-casing once |
| `Text.ToUpperIgnoresCase` | src/main/java/edu/mssm/pharm/maayanlab/KEA/KEA.java:215-218 | genes that differ only in ASCII letter case, position by position, become the same input symbol |
| `Text.NatToString` | src/main/java/edu/mssm/pharm/maayanlab/KEA/Kinase.java:102-103 | an appended count is a non-empty string of decimal digits without a leading zero |
| `Text.NatToStringRoundTrip` | src/main/java/edu/mssm/pharm/maayanlab/KEA/Kinase.java:102-103 | reading the digits back gives the count |
| `Sorting.InsertBy` | src/main/java/edu/mssm/pharm/maayanlab/KEA/KEA.java:261 | inserting into a key-sorted list keeps it sorted and adds exactly that element |
| `Sorting.SortBy` | src/main/java/edu/mssm/pharm/maayanlab/KEA/KEA.java:261 | the result is sorted by the key and is a permutation of the input |
| `Sorting.SortByMembers` | src/main/java/edu/mssm/pharm/maayanlab/KEA/KEA.java:261 | sorting keeps exactly the elements it was given |
| `Sorting.SortByStable` | src/main/java/edu/mssm/pharm/maayanlab/KEA/KEA.java:272-281 | the sort is stable: elements with equal keys keep their relative order |
| `Sorting.SortBySorted` | src/main/java/edu/mssm/pharm/maayanlab/KEA/KEA.java:261 | sorting a list already in key order leaves it unchanged |
| `Sorting.SortByConstantKey` | src/main/java/edu/mssm/pharm/maayanlab/KEA/KEA.java:285-294 | when all keys are equal, the sort changes nothing |
| `Sorting.InsertByDistinct` | src/main/java/edu/mssm/pharm/maayanlab/KEA/KEA.java:261 | inserting an element that differs from all others on `f` keeps the list free of duplicates on `f` |
| `Sorting.SortByDistinct` | src/main/java/edu/mssm/pharm/maayanlab/KEA/KEA.java:261 | sorting keeps elements with distinct `f` values distinct |
| `Kinases.NewKinase` | src/main/java/edu/mssm/pharm/maayanlab/KEA/Kinase.java:28-35 | a new kinase has the given name, exactly the one substrate, zero statistics and no enriched substrates |
| `Kinases.AddSubstrate` | src/main/java/edu/mssm/pharm/maayanlab/KEA/Kinase.java:41-43 | the substrate set becomes the old set plus the substrate; nothing else changes |
| `Kinases.AddSubstrateIdempotent` | src/main/java/edu/mssm/pharm/maayanlab/KEA/Kinase.java:41-43 | adding a substrate twice equals adding it once, and adding a known substrate changes nothing |
| `Kinases.AddSubstrateCommutes` | src/main/java/edu/mssm/pharm/maayanlab/KEA/Kinase.java:41-43 | the order in which substrates are added does not matter |
| `Kinases.SetRankStats` | src/main/java/edu/mssm/pharm/maayanlab/KEA/Kinase.java:49-52 | mean and standard deviation take the given values; nothing else changes |
| `Kinases.ComputeScore` | src/main/java/edu/mssm/pharm/maayanlab/KEA/Kinase.java:157-163 | only z and the combined score change; z is 0 when both statistics are 0, otherwise `mean + z·sd` equals the rank; the combined score is `ln(p)·z` |
| `Kinases.ScoreWithoutStatsIgnoresRank` | src/main/java/edu/mssm/pharm/maayanlab/KEA/Kinase.java:158-159 | without statistics the score does not depend on the rank, and both scores are 0 |
| `Kinases.CompareTo` | src/main/java/edu/mssm/pharm/maayanlab/KEA/Kinase.java:123-130 | the result is −1, 0 or 1, exactly when this p-value is below, equal to or above the other |
| `Kinases.CompareToIsTotalPreorder` | src/main/java/edu/mssm/pharm/maayanlab/KEA/Kinase.java:123-130 | `compareTo` is antisymmetric and transitive, and it agrees with ordering by p-value |
| `Kinases.Wrap32` | src/main/java/edu/mssm/pharm/maayanlab/KEA/Kinase.java:134-136 | the result is a signed 32-bit value congruent to its argument modulo 2^32 |
| `Kinases.StringHash` | src/main/java/edu/mssm/pharm/maayanlab/KEA/Kinase.java:136 | the name's hash is a signed 32-bit value |
| `Kinases.HashCode` | src/main/java/edu/mssm/pharm/maayanlab/KEA/Kinase.java:132-138 | `hashCode` is a signed 32-bit value |
| `Kinases.StringHashIsPolyHash` | src/main/java/edu/mssm/pharm/maayanlab/KEA/Kinase.java:136 | the name's hash, `h = 31·h + c` in 32-bit arithmetic, is the sum of each character times 31 to the power of the number of characters after it, reduced to a signed 32-bit value |
| `Kinases.HashCodeIsPolyHash` | src/main/java/edu/mssm/pharm/maayanlab/KEA/Kinase.java:132-138 | `hashCode` is 31 plus that sum for the name, reduced to a signed 32-bit value |
| `Kinases.EqualsConsistentWithHashCode` | src/main/java/edu/mssm/pharm/maayanlab/KEA/Kinase.java:132-155 | equality is an equivalence decided by the name alone, and equal kinases have equal hash codes |
| `Kinases.Columns` | src/main/java/edu/mssm/pharm/maayanlab/KEA/Kinase.java:99-107 | the first column is the name; the two count columns contain no comma and read back as the enriched and the substrate count; the other six are the formatted fractions, their difference, the p-value, z and the combined score, in that order |
| `Kinases.ToString` | src/main/java/edu/mssm/pharm/maayanlab/KEA/Kinase.java:99-120 | a report row is the nine columns and the semicolon-joined enriched substrates, separated by commas, with no comma after the last column |
| `Kinases.Equals` | src/main/java/edu/mssm/pharm/maayanlab/KEA/Kinase.java:140-155 | two kinases are equal exactly when their names are, and equal kinases have equal hash codes |
| `Kinases.ToStringReadsBack` | src/main/java/edu/mssm/pharm/maayanlab/KEA/Kinase.java:99-120 | a report row split on commas gives the nine columns plus the substrate column, and that column split on semicolons gives the enriched substrates |
| `Enrichment.ResolutionLevel` | src/main/java/edu/mssm/pharm/maayanlab/KEA/KEA.java:181-187 | the level is 0 exactly for "kinase-group", 1 exactly for "kinase-family", and 2 for anything else, "kinase" included |
| `Enrichment.AssembleBackground` | src/main/java/edu/mssm/pharm/maayanlab/KEA/KEA.java:161-176 | protein-only gives the protein records, phosphorylation-only gives the phospho records, and any other setting gives protein followed by phospho |
| `Enrichment.KeyOf` | src/main/java/edu/mssm/pharm/maayanlab/KEA/KEA.java:192-193 | the name a record gives at a level contains no comma |
| `Enrichment.TargetOf` | src/main/java/edu/mssm/pharm/maayanlab/KEA/KEA.java:194 | a record's substrate contains no comma |
| `Enrichment.NamesMembership` | src/main/java/edu/mssm/pharm/maayanlab/KEA/KEA.java:191-193 | a name is gathered exactly when some record has it at the level |
| `Enrichment.TargetsOfMembership` | src/main/java/edu/mssm/pharm/maayanlab/KEA/KEA.java:191-201 | a substrate is gathered for a name exactly when some record pairs the two |
| `Enrichment.BackgroundUniverseMembership` | src/main/java/edu/mssm/pharm/maayanlab/KEA/KEA.java:219-222 | a substrate is in the background universe exactly when some record has it |
| `Enrichment.TargetsOfUnknownName` | src/main/java/edu/mssm/pharm/maayanlab/KEA/KEA.java:199-201 | a name that no record has gathers no substrates |
| `Enrichment.ParseBackground` | src/main/java/edu/mssm/pharm/maayanlab/KEA/KEA.java:190-202 | each parsed kinase is stored under its own name, has at least one substrate, and has no statistics |
| `Enrichment.ParseBackgroundContents` | src/main/java/edu/mssm/pharm/maayanlab/KEA/KEA.java:190-202 | the map's keys are exactly the record names, and each kinase holds exactly the substrates recorded for its name |
| `Enrichment.ParseBackgroundIgnoresOrderAndRepeats` | src/main/java/edu/mssm/pharm/maayanlab/KEA/KEA.java:190-202 | the parsed map depends only on which records occur, not on their order or repetitions |
| `Enrichment.ParseBackgroundRepeatedRecord` | src/main/java/edu/mssm/pharm/maayanlab/KEA/KEA.java:196-198 | parsing a record a second time changes nothing |
| `Enrichment.ParseBackgroundBothTypes` | src/main/java/edu/mssm/pharm/maayanlab/KEA/KEA.java:172-173 | with both sources, each name's substrates are the union of what the two sources give it |
| `Enrichment.LastStat` | src/main/java/edu/mssm/pharm/maayanlab/KEA/KEA.java:206-210 | the chosen statistics line is about the name and is the last line naming it, since no later line does; there is none exactly when no line names it |
| `Enrichment.WithStats` | src/main/java/edu/mssm/pharm/maayanlab/KEA/KEA.java:208-209 | no line leaves the kinase unchanged; a line sets exactly its mean and standard deviation |
| `Enrichment.AttachRankStats` | src/main/java/edu/mssm/pharm/maayanlab/KEA/KEA.java:204-210 | the key set is unchanged; each kinase gets the values of the last line naming it; nothing but the statistics changes |
| `Enrichment.AttachUnknownNames` | src/main/java/edu/mssm/pharm/maayanlab/KEA/KEA.java:208 | lines for names the background lacks leave the map unchanged |
| `Enrichment.Materialize` | src/main/java/edu/mssm/pharm/maayanlab/KEA/KEA.java:212 | the list holds the map's kinases in the given iteration order |
| `Enrichment.Universe` | src/main/java/edu/mssm/pharm/maayanlab/KEA/KEA.java:219-222 | every kinase's substrates are in the universe, and every member of the universe is some kinase's substrate |
| `Enrichment.NormalizeInput` | src/main/java/edu/mssm/pharm/maayanlab/KEA/KEA.java:215-218 | the input set is exactly the upper-cased genes |
| `Enrichment.RestrictInput` | src/main/java/edu/mssm/pharm/maayanlab/KEA/KEA.java:214-223 | a symbol is kept exactly when it is an upper-cased gene and some kinase has it as a substrate |
| `Enrichment.Contingency` | src/main/java/edu/mssm/pharm/maayanlab/KEA/KEA.java:241-248 | the test gets the enriched count, the rest of the input, the kinase's substrate count and the rest of the background; the total is input size plus background size |
| `Enrichment.Enrich` | src/main/java/edu/mssm/pharm/maayanlab/KEA/KEA.java:230-253 | enriched substrates are the substrates that are in the input and are non-empty; both fractions lie in (0, 1] and equal the count divided by the size; the p-value is the test on the contingency table; nothing else changes |
| `Enrichment.Survivors` | src/main/java/edu/mssm/pharm/maayanlab/KEA/KEA.java:225-258 | every survivor is an enriched kinase that meets the input, every kinase that meets the input survives, and defined scores stay defined |
| `Enrichment.AssignRanks` | src/main/java/edu/mssm/pharm/maayanlab/KEA/KEA.java:263-268 | the i-th kinase is scored at rank `first + i`: z is 0 without statistics, otherwise `mean + z·sd` equals that rank; nothing else changes |
| `Enrichment.CompareCombinedScore` | src/main/java/edu/mssm/pharm/maayanlab/KEA/KEA.java:272-281 | the comparator returns −1, 0 or 1, and is negative exactly when the first combined score is larger |
| `Enrichment.CompareZScore` | src/main/java/edu/mssm/pharm/maayanlab/KEA/KEA.java:285-294 | the comparator returns −1, 0 or 1, and is negative exactly when the first z-score is smaller |
| `Enrichment.ComparatorsMatchKeys` | src/main/java/edu/mssm/pharm/maayanlab/KEA/KEA.java:270-295 | each comparator orders exactly as its sort key does |
| `Enrichment.Reorder` | src/main/java/edu/mssm/pharm/maayanlab/KEA/KEA.java:270-295 | the reorder is a permutation: combined-score order is descending, rank order is ascending by z, and any other setting leaves the list as it is; the sort is stable, so kinases with equal keys keep their p-value order |
| `Enrichment.WorkingList` | src/main/java/edu/mssm/pharm/maayanlab/KEA/KEA.java:190-212 | the working list has one entry per name in iteration order, and every entry has a defined score when the last statistics line of each parsed name is usable |
| `Enrichment.WorkingListContents` | src/main/java/edu/mssm/pharm/maayanlab/KEA/KEA.java:190-212 | each entry holds its name's recorded substrates and the values of that name's last statistics line |
| `Enrichment.WorkingListUniverse` | src/main/java/edu/mssm/pharm/maayanlab/KEA/KEA.java:219-222 | the background substrate set is exactly the substrates the records mention, at any resolution level |
| `Enrichment.Ranked` | src/main/java/edu/mssm/pharm/maayanlab/KEA/KEA.java:225-268 | the list before the final reorder has no more entries than parsed names and names each kinase at most once; every entry has some enriched substrate, and it is in ascending p-value order |
| `Enrichment.RankedEntry` | src/main/java/edu/mssm/pharm/maayanlab/KEA/KEA.java:225-268 | the kinase at position i is `Reported` at rank i+1 (see the bullet list above) |
| `Enrichment.RankedCoversMeetingNames` | src/main/java/edu/mssm/pharm/maayanlab/KEA/KEA.java:239-257 | every name whose substrates meet the restricted input is in the list; with `RankedEntry`, the names in the list are exactly those names |
| `Enrichment.SurvivorsDistinct` | src/main/java/edu/mssm/pharm/maayanlab/KEA/KEA.java:225-258 | filtering keeps kinase names distinct |
| `Enrichment.RankedNamesDistinct` | src/main/java/edu/mssm/pharm/maayanlab/KEA/KEA.java:190-268 | the ranked list names each kinase at most once |
| `Enrichment.ReorderNamesDistinct` | src/main/java/edu/mssm/pharm/maayanlab/KEA/KEA.java:270-295 | the final reorder keeps the names distinct |
| `Enrichment.ComputeEnrichment` | src/main/java/edu/mssm/pharm/maayanlab/KEA/KEA.java:178-296 | the result is a permutation of the ranked list: descending combined score, ascending z, or unchanged p-value order, depending on the setting; the sort is stable, so ties keep their p-value order |
| `Enrichment.ComputeEnrichmentNamesDistinct` | src/main/java/edu/mssm/pharm/maayanlab/KEA/KEA.java:178-296 | whatever the setting, no kinase is reported twice |
| `Enrichment.ComputeEnrichmentPValueOrder` | src/main/java/edu/mssm/pharm/maayanlab/KEA/KEA.java:260-295 | with the p-value setting the result is in ascending p-value order, whatever the combined scores |
| `Enrichment.ComputeEnrichmentSortIndependent` | src/main/java/edu/mssm/pharm/maayanlab/KEA/KEA.java:270-295 | two sort settings with the same resolution level report the same kinases with the same values |
| `Enrichment.RankedUnrankedScoresZero` | src/main/java/edu/mssm/pharm/maayanlab/KEA/Kinase.java:157-163 | a reported kinase with no statistics line has z-score 0 and combined score 0, wherever it ranks |
| `Enrichment.RunFacts` | src/main/java/edu/mssm/pharm/maayanlab/KEA/KEA.java:178-296 | the computed enrichment has distinct names, and with the p-value setting it is in ascending p-value order |
| `Enrichment.Run` | src/main/java/edu/mssm/pharm/maayanlab/KEA/KEA.java:122-124 | `run` reports the kinases of the ranked list for the assembled background, each once and with the same values; they are in descending combined score or ascending z-score order, ties keeping their p-value order, or, for any other setting, exactly the ranked list |
| `Enrichment.GetTopRanked` | src/main/java/edu/mssm/pharm/maayanlab/KEA/KEA.java:130-138 | the result is the first `min(ranks, n)` kinases, or none when `ranks` ≤ 0 |
| `Enrichment.GetTopRankedList` | src/main/java/edu/mssm/pharm/maayanlab/KEA/KEA.java:140-148 | the result is the names of the first `min(ranks, n)` kinases, or none when `ranks` ≤ 0 |

## Left out

- The Swing panel, file reading and writing, settings persistence, logging and
  `main` are not part of this model. The record sources and the gene list
  are plain sequences of strings.
- Rank-statistics lines come already split into name, mean and standard
  deviation. Splitting a line on `\s` and `Double.parseDouble` are not
  modelled. The rank file is always the KEA ranks file. The iPTMnet
  background and rank constants are declared in the source but never used,
  so they are left out.
- The Fisher exact test, `Math.log` and the formatting of a `double` are
  function parameters. Nothing is assumed about the values of the Fisher
  test or the logarithm. `Kinases.ToStringReadsBack` requires that a
  formatted double contains no comma, as Java's rendering never does.
- Doubles are real numbers. Infinity and NaN are not modelled. A run
  therefore requires that the statistics line Java keeps for a parsed name,
  the last one naming it, has a non-zero standard deviation or a zero mean.
  In Java, a zero deviation with a non-zero mean gives an infinite or NaN
  z-score. Lines for names the background does not have are read but change
  nothing, and they are not constrained.
- `Enrichment.ComputeEnrichment`: its requirement `ValidRun` also
  constrains the kept line of a parsed kinase that shares no substrate with
  the input. Java drops such a kinase before scoring it, so it never
  computes that z-score. The condition is stated without the gene list so
  that the working list can carry it. The lemmas about a run share it.
- `Enrichment.WorkingList`: requires `ValidRun`, so it carries the same extra
  condition on kinases that never meet the input.
- `Enrichment.Ranked`: requires `ValidRun`, so it carries the same extra
  condition on kinases that never meet the input.
- `Enrichment.Run`: requires `ValidRun` of the assembled background, so it
  carries the same extra condition on kinases that never meet the input.
- `SetOps.intersection` is not part of this model. The model takes it to
  return a new set holding the common elements and to leave both arguments
  unchanged. This matters because `targetBgSubstrates.size()` is read after
  the call, for the substrate count and the background fraction.
- `Kinases.ComputeScore`: does not model `ln(0) = −∞`, so "z = 0 gives a
  combined score of 0" holds in the model, where Java computes
  `−∞ · 0 = NaN` for a zero p-value.
- The iteration orders of `HashMap` and `HashSet` are parameters. Any order
  that lists each element once is allowed.
- A background record with fewer than four comma-separated fields makes Java
  throw `ArrayIndexOutOfBoundsException`. The model requires well-formed
  records rather than modelling the exception.
- `toUpperCase` is modelled on ASCII letters only. Unicode case mapping is
  left out. The model also assumes a default locale whose case mapping of
  ASCII letters is the plain one, such as the root locale or English. Under a
  Turkish or Azerbaijani locale, Java maps `i` to `İ`, not to `I`.
- `Kinases.StringHash`: hashes characters as code points. Java hashes UTF-16
  code units, which differ only outside the Basic Multilingual Plane.
- Null names, and the null enriched set of a kinase that never survived, are
  not modelled. Only survivors are ever reported.
- The getters, the setters and `getRankedList` only expose fields. They are
  represented by the datatype's fields.
- The Fisher test compares the input with the background as two samples:
  (a, |input| − a) against (|kinase substrates|, |background| − |kinase
  substrates|), where a is the number of enriched substrates. The table size
  is |input| + |background|. The model passes the same four counts; what the
  test computes from them is a parameter.
