# BIAnexus analysis engine in Dafny

A model of the query engine behind BIAnexus. The engine takes a free-text
biology question and returns a typed result record. `processQuery`
lowercases the question and computes a list of "processing steps" from the
keywords the question mentions. It then tests five regular-expression
predicates in a fixed priority order: disease/gene, sequence analysis, gene
expression, protein, pathway. The first predicate that holds picks the
handler. Each handler extracts an entity from the question by a
case-insensitive leftmost match over a small vocabulary. It then looks the
entity up in the constant mock database and assembles the record.

The sequence handler is the one with real computation. It extracts the first
run of at least four `A/T/C/G` letters and upper-cases it. Then
`analyzeDNASequence` reports:

- the base counts and their percentages;
- the GC content;
- the complement and the reverse complement;
- a molecular-weight estimate and a melting-temperature estimate;
- the open reading frames (ORFs): `findORFs` scans the three forward frames
  and keeps each ATG-to-stop stretch of at least 30 bases.

Files:

- `text.dfy` (`Text`): the JavaScript string operations the engine uses.
  These are ASCII `toLowerCase`/`toUpperCase`, `includes`, the leftmost match
  of a word alternation, the global match (`/g`), `replace` of the first
  occurrence, and `parseInt`.
- `router.dfy` (`Router`): the five predicates. Each of their patterns is
  written as a chain of atoms joined by `.*` gaps, and the classification
  follows their priority.
- `dna.dfy` (`Dna`): the sequence analyser.
  - The ORF scan is given twice: as the recursive specification `ScanFrame`,
    and as the nested `while` loops of `findORFs`, which are proved against
    it.
  - The base-counting loop of `analyzeDNASequence` likewise becomes the
    method `AnalyzeDNASequence`, proved against the function `Analysis`.
- `database.dfy` (`MockDatabase`): the diseases, genes and proteins tables,
  and facts about them that the handlers rely on.
- `engine.dfy` (`Engine`): the step list (`GetProcessingSteps` is a method,
  as the source pushes onto an array), the six handlers and `processQuery`.
  - Each handler takes the table it reads as a parameter. The general
    lemmas hold for any table; a second set of lemmas is stated on the
    stored tables.
  - `Process` is `processQuery` against the stored database.
- `scenarios.dfy` (`Scenarios`): the sample sequences the server suggests,
  worked through the model.

About the numbers, and how `undefined` is modelled:

- Percentages, GC content and melting temperature are exact reals, before
  the `toFixed` rounding the engine applies.
- A division by a zero length (NaN in JavaScript) is `None`.
- `tissueData[0]` of an empty list (`undefined`) is also `None`.

## Model

| member | source | states |
|---|---|---|
| Text.ToLower | server/utils/analysisEngine.js:5 | The result has the input's length, maps each character through the ASCII lower-case map, and contains no upper-case letter. |
| Text.ToUpper | server/utils/analysisEngine.js:158 | The result has the input's length, maps each character through the ASCII upper-case map, and contains no lower-case letter. |
| Text.ToLowerAppend | server/utils/analysisEngine.js:5 | Lower-casing distributes over concatenation. |
| Text.ToLowerSlice | server/utils/analysisEngine.js:331 | Lower-casing a slice gives the same slice of the lower-cased text, so a match found in the lower-cased query covers the same place in the query as typed. |
| Text.UpperOfLower | server/utils/analysisEngine.js:276 | Upper-casing after lower-casing is the same as upper-casing directly. |
| Text.ContainsIff | server/utils/analysisEngine.js:29 | `includes(w)` holds exactly when `w` occurs at some index. |
| Text.ContainsIntro | server/utils/analysisEngine.js:29 | An occurrence at any index makes `includes` true. |
| Text.LeftmostFrom | server/utils/analysisEngine.js:99 | A match of an alternation is an occurrence of one of its words, at or after the start index. |
| Text.LeftmostFromIsFirst | server/utils/analysisEngine.js:99 | The match is the leftmost one: no word occurs earlier, and at the match position no earlier alternative occurs. When there is no match, no word occurs anywhere. |
| Text.AllMatchesFrom | server/utils/analysisEngine.js:335 | The global match lists occurrences of the words in order, each starting after the previous one ends. It is non-empty exactly when there is a match, and its first entry is the leftmost match. |
| Text.AllMatchesChained | server/utils/analysisEngine.js:335 | The global match is a chain: it starts with the leftmost match, each later entry is the leftmost match after the previous entry ends, and no match follows the last entry. So it holds every successive match of `/g`. |
| Text.ChainedNext | server/utils/analysisEngine.js:335 | In a chain, entry `n` is the leftmost match after entry `n - 1` ends. |
| Text.ChainedLast | server/utils/analysisEngine.js:335 | In a non-empty chain, no match starts after the last entry ends. |
| Text.TwoMentionsTwoMatches | server/utils/analysisEngine.js:335-336 | Take a vocabulary in which no word occurs inside another. Two non-overlapping mentions of its words then give the global match at least two entries. |
| Text.TwoMentionsIff | server/utils/analysisEngine.js:335-336 | For such a vocabulary, the global match has more than one entry exactly when the text mentions its words twice without overlap. |
| Text.RemoveFirst | server/utils/analysisEngine.js:100 | `replace("'s", '')` leaves text without `'s` unchanged. Otherwise it removes the first occurrence: the result is the text before and after the leftmost `'s`, one occurrence shorter. |
| Text.ParseIntLeadingDigits | server/utils/analysisEngine.js:348 | `parseInt` of a text that starts with digits is the value of its leading digit run. |
| Text.ParseIntDigitsThen | server/utils/analysisEngine.js:348 | `parseInt` of digits followed by a non-digit reads exactly those digits. |
| Text.DigitsValuePrefix | server/utils/analysisEngine.js:348 | The value of a digit prefix depends only on the prefix. |
| Text.DigitRunExact | server/utils/analysisEngine.js:348 | The digit run at `i` ends exactly at the first non-digit. |
| Router.ClassifyFirstMatch | server/utils/analysisEngine.js:11-23 | The handler chosen is the first rule in order whose predicate holds. For each intent: it is chosen iff its predicate holds and no earlier one does, and unknown iff no predicate holds. |
| Router.MatchesWords | server/utils/analysisEngine.js:52-95 | A pattern matches only if each of its word atoms has an alternative occurring in the text. |
| Router.SequenceRuleHasRun | server/utils/analysisEngine.js:64 | The rule `/sequence.*[ATCG]{4,}/i` holds only if four nucleotide letters occur. |
| Router.DiseaseNeedsGene | server/utils/analysisEngine.js:52-59 | The disease predicate implies the query contains `gene`. |
| Router.ProteinNeedsProtein | server/utils/analysisEngine.js:79-86 | The protein predicate implies the query contains `protein`. |
| Router.PathwayWordSuffices | server/utils/analysisEngine.js:90 | Any occurrence of `pathway` satisfies the pathway predicate. |
| Router.ExpressWordSuffices | server/utils/analysisEngine.js:72 | Any occurrence of `express` satisfies the expression predicate. |
| Router.SequenceWordSuffices | server/utils/analysisEngine.js:65 | Any occurrence of `gc`, `orf`, `blast` or `complement` satisfies the sequence predicate. |
| Dna.BaseCountsSum | server/utils/analysisEngine.js:187-191 | On an A/T/G/C string the four counts add up to the length. |
| Dna.CountBound | server/utils/analysisEngine.js:193 | Two distinct base counts together never exceed the length. |
| Dna.ComplementAt | server/utils/analysisEngine.js:219-222 | On A/T/G/C input the complement has the same length, is again A/T/G/C, and substitutes A<->T and G<->C position by position. |
| Dna.ComplementDropsOthers | server/utils/analysisEngine.js:221 | A character outside A/T/G/C maps to `undefined` and vanishes from the joined complement. |
| Dna.ComplementInvolution | server/utils/analysisEngine.js:219-222 | Complementing an A/T/G/C string twice gives it back. |
| Dna.ReverseComplementInvolution | server/utils/analysisEngine.js:195 | The reverse complement of an A/T/G/C string has the same length and, taken twice, gives the string back. |
| Dna.CodonTests | server/utils/analysisEngine.js:232-237 | Testing a codon base by base is the same as comparing `substr(i, 3)` with `ATG` and looking it up in the stop codons. |
| Dna.FirstStop | server/utils/analysisEngine.js:235-251 | A stop found by the inner search lies in frame after the start, with three bases, and is a stop codon. |
| Dna.FirstStopIsFirst | server/utils/analysisEngine.js:235-251 | No in-frame stop codon lies before the one found; when none is found, there is none in frame at all. |
| Dna.OrfsCorrect | server/utils/analysisEngine.js:224-258 | The result is exactly the placeholder, or a non-empty list of ORFs. Each ORF is well formed: frame 1 to 3, 1-based inclusive bounds in frame, length a multiple of 3 and at least 30, the text between its bounds, ATG first, a stop codon last, no in-frame stop in between. The list goes frame by frame, and within a frame its ORFs are disjoint and in increasing position. |
| Dna.ScanFrameHead | server/utils/analysisEngine.js:238-246 | The record emitted at an ATG whose first stop gives at least 30 bases is well formed. |
| Dna.ScanFrameAtStart | server/utils/analysisEngine.js:232-251 | At an ATG, the scan emits the candidate if it spans at least 30 bases, then resumes after its stop codon. |
| Dna.UnterminatedEndsFrame | server/utils/analysisEngine.js:235-251 | A candidate with no in-frame stop ends the frame: nothing is emitted from it on, whatever ATGs follow. |
| Dna.ScanSkipsNonStart | server/utils/analysisEngine.js:253 | Codons that are not ATG are stepped over. |
| Dna.FirstStartReported | server/utils/analysisEngine.js:232-249 | The first in-frame ATG opens the first candidate. If the stop that closes it gives at least 30 bases, that ORF heads the frame's list and the scan continues after the stop codon. |
| Dna.NoStartNoOrfs | server/utils/analysisEngine.js:257 | Without any ATG the result is the placeholder alone. |
| Dna.FindORFs | server/utils/analysisEngine.js:224-258 | The three-frame loop returns the ORF list of the scan specification, or the placeholder. |
| Dna.ScanFrameLoop | server/utils/analysisEngine.js:230-254 | The nested `while` loops of one frame append exactly what the scan specification emits for that frame. |
| Dna.ScanFrameCandidate | server/utils/analysisEngine.js:233-251 | What one candidate appends, followed by the rest of the frame after its stop, equals what the scan emits from its start. |
| Dna.AnalyzeDNASequence | server/utils/analysisEngine.js:185-217 | The counting loop and the derived values give the report of the analysis specification. |
| Dna.PercentSum | server/utils/analysisEngine.js:193 | Percentages of the same length add up. |
| Dna.PercentBounds | server/utils/analysisEngine.js:202 | A part of the length is between 0 and 100 percent, and the whole is 100. |
| Dna.CompositionFacts | server/utils/analysisEngine.js:193-209 | The percentages and the GC content are defined exactly for non-empty input. GC content is the G plus the C percentage and lies between 0 and 100. On A/T/G/C input the four percentages add up to 100. |
| Dna.MeltingTempMonotone | server/utils/analysisEngine.js:215 | For a fixed length, the melting-temperature estimate increases strictly with the G+C count. |
| MockDatabase.DiseaseKeys | server/data/mockDatabase.js:2-123 | The disease keys are exactly alzheimer, breast cancer and diabetes, so `cancer` and `parkinson` are not keys. |
| MockDatabase.Symbols | server/data/mockDatabase.js:3-50 | The symbol list has one entry per gene, in order. |
| MockDatabase.AlzheimerGenes | server/data/mockDatabase.js:3-50 | The Alzheimer record lists APOE, PSEN1, APP, PSEN2 and MAPT, in this order. |
| MockDatabase.AssociationsKnown | server/data/mockDatabase.js:11 | Every stored association is Strong, Causative or Moderate. |
| MockDatabase.GeneKeys | server/data/mockDatabase.js:125-206 | The gene keys are exactly BRCA1, TP53, APOE and EGFR. |
| MockDatabase.GeneSymbols | server/data/mockDatabase.js:125-206 | Each gene is stored under its own symbol. |
| MockDatabase.TissuesDistinct | server/data/mockDatabase.js:133-142 | Each gene lists eight tissues, with pairwise distinct names and values. |
| MockDatabase.Brca1Extremes | server/data/mockDatabase.js:133-142 | BRCA1's tissues list breast at 85 and brain at 25, every value lies between 25 and 85, and names and values are pairwise distinct. |
| MockDatabase.ProteinKeys | server/data/mockDatabase.js:208-236 | The protein keys are exactly insulin, glucagon and p53. |
| MockDatabase.InsulinLength | server/data/mockDatabase.js:212 | `parseInt` of insulin's length text is 51. |
| MockDatabase.GlucagonLength | server/data/mockDatabase.js:221 | `parseInt` of glucagon's length text is 29. |
| MockDatabase.P53Length | server/data/mockDatabase.js:230 | `parseInt` of p53's length text is 393. |
| Engine.GetProcessingSteps | server/utils/analysisEngine.js:26-50 | The pushes produce the step list of the specification function. |
| Engine.ProcessingStepsShape | server/utils/analysisEngine.js:26-50 | The list has an odd length from 3 to 11, parsing first, and validating and visualising last. |
| Engine.StepMembers | server/utils/analysisEngine.js:26-50 | A text is listed iff it is the parsing or a closing step, or belongs to a group whose keyword condition holds. |
| Engine.GenomicGroup | server/utils/analysisEngine.js:29-32 | Both genomic steps are listed iff the query contains `gene` or `disease`. |
| Engine.SequenceGroup | server/utils/analysisEngine.js:33-36 | Both sequence steps are listed iff the query contains `sequence`. |
| Engine.ExpressionGroup | server/utils/analysisEngine.js:37-40 | Both expression steps are listed iff the query contains `expression` or `tissue`. |
| Engine.NetworkGroup | server/utils/analysisEngine.js:41-44 | Both network steps are listed iff the query contains `protein` or `pathway`. |
| Engine.MatchedText | server/utils/analysisEngine.js:99 | The text a case-insensitive match covers lower-cases to the matched vocabulary word. |
| Engine.MatchedUpper | server/utils/analysisEngine.js:276 | The upper case of the matched text is the upper case of the vocabulary word. |
| Engine.ChartData | server/utils/analysisEngine.js:125-128 | One point per gene, in order, carrying the symbol; the strength is 90 iff Strong, 95 iff Causative, and otherwise 70. |
| Engine.NoApostrophe | server/utils/analysisEngine.js:100 | A word without an apostrophe is unchanged by removing `'s`. |
| Engine.DiseaseKeyIsWord | server/utils/analysisEngine.js:99-100 | The lookup key is the leftmost disease word mentioned, or none. |
| Engine.DiseaseQueryResult | server/utils/analysisEngine.js:97-144 | For any table, a record is found iff the leftmost disease word is a key. The record carries that entry's fields, its gene count, and one chart point per gene with its symbol. Otherwise the result is the not-found record with its three suggestions. |
| Engine.DiseaseTableQuery | server/utils/analysisEngine.js:102-104 | On the stored table, a record is found iff the word is alzheimer, breast cancer or diabetes. Chart strengths are 90, 95 and 70 exactly for Strong, Causative and Moderate. |
| Engine.AlzheimerQuery | server/utils/analysisEngine.js:109-128 | An Alzheimer query reports five genes, in the stored order, with chart points in the same order. |
| Engine.FirstRunFrom | server/utils/analysisEngine.js:148 | The index found is the first one at which four nucleotide letters start; none means there is no such index. |
| Engine.RunEnd | server/utils/analysisEngine.js:148 | The greedy end of the run: every letter before it is a nucleotide letter, and the one at the end is not. |
| Engine.UpperNucleotide | server/utils/analysisEngine.js:158 | An upper-cased nucleotide letter is a base. |
| Engine.ExtractedSequence | server/utils/analysisEngine.js:148-158 | There is nothing to extract iff no run of four nucleotide letters occurs. Otherwise the result is the upper case of the leftmost maximal run: A/T/G/C only, at least four long, and no run starts earlier. |
| Engine.SequenceQueryResult | server/utils/analysisEngine.js:146-183 | An analysis is returned iff a nucleotide run occurs. It analyses the extracted sequence and carries its length and the steps. Otherwise the result is the error with its two suggestions. |
| Engine.RunAtLower | server/utils/analysisEngine.js:5 | A run in the lower-cased query is a run in the query as typed. |
| Engine.InsertByExpression | server/utils/analysisEngine.js:282 | Insertion adds the entry and keeps every other entry (a multiset equality). |
| Engine.InsertKeepsOrder | server/utils/analysisEngine.js:282 | Insertion keeps a non-increasing list non-increasing. |
| Engine.SortByExpression | server/utils/analysisEngine.js:280-282 | Sorting returns a permutation of the entries. |
| Engine.SortIsOrdered | server/utils/analysisEngine.js:282 | The sorted list is non-increasing in expression. |
| Engine.SortedEnds | server/utils/analysisEngine.js:294-295 | The first and last entries of the sorted list are stored entries, and every stored value lies between theirs. |
| Engine.SortedBounds | server/utils/analysisEngine.js:294-295 | Every entry lies between the ends of a non-increasing permutation. |
| Engine.SortedOnly | server/utils/analysisEngine.js:280-282 | When values determine entries, the sorted list is the only non-increasing arrangement. |
| Engine.SortedUnique | server/utils/analysisEngine.js:282 | When values determine entries, any two non-increasing arrangements of the same entries are equal. |
| Engine.ExpressionQueryRouting | server/utils/analysisEngine.js:262-279 | No gene mentioned gives the not-specified error. Otherwise the upper-cased leftmost mention is looked up: a symbol in the table gives a record with that gene, symbol, query and steps, and any other symbol gives the no-data error. |
| Engine.ExpressionRecord | server/utils/analysisEngine.js:280-307 | A record lists the gene's tissues as a permutation, in non-increasing order, with the tissue count. Its highest entry is the first and its lowest the last, and both are defined iff there are tissues. They are stored entries bounding every value. When values determine entries, this order is the only non-increasing one. |
| Engine.DistinctDetermines | server/data/mockDatabase.js:133-142 | Pairwise distinct values determine the entries. |
| Engine.ExpressionTableQuery | server/utils/analysisEngine.js:277-279 | On the stored table, BRCA1, TP53, APOE and EGFR give a record. BRCA2, INS and GCG give the no-data error. |
| Engine.ExpressionSymbolStored | server/utils/analysisEngine.js:276-277 | A vocabulary word's symbol is in the stored table iff it is not BRCA2, INS or GCG. |
| Engine.ExpressionTableRecord | server/utils/analysisEngine.js:299 | A record from the stored table covers eight tissues, and its order is the only non-increasing one. |
| Engine.ExpressionExtremes | server/utils/analysisEngine.js:294-295 | When values determine entries, the highest and lowest are the stored entries of greatest and least value. |
| Engine.Brca1Stored | server/data/mockDatabase.js:126-145 | The stored table keeps BRCA1's record under `BRCA1`, with the profile of `MockDatabase.Brca1Extremes`. |
| Engine.Brca1Determines | server/data/mockDatabase.js:133-142 | The stored BRCA1 values determine their tissue entries, so BRCA1's sorted order is unique. |
| Engine.Brca1Expression | server/utils/analysisEngine.js:294-295 | For any table holding a record with that profile under `BRCA1`, as the stored one does, a BRCA1 query reports the record with breast (85) highest and brain (25) lowest. |
| Engine.ProteinWordsStored | server/data/mockDatabase.js:208-236 | The stored table has every protein the handler can match. |
| Engine.LengthDiff | server/utils/analysisEngine.js:348 | The difference is defined iff both lengths parse (otherwise it is NaN), and it is the absolute difference of the parsed values. |
| Engine.MatchedProtein | server/utils/analysisEngine.js:331-332 | The record looked up is the table's entry for the matched word. |
| Engine.ProteinWordsSubstringFree | server/utils/analysisEngine.js:318 | No protein word (`insulin`, `glucagon`, `p53`) occurs inside another, or inside itself at another offset. |
| Engine.ProteinComparisonTrigger | server/utils/analysisEngine.js:334-336 | A comparison is returned exactly when the query as typed contains `compare` and mentions proteins twice without overlap. |
| Engine.ProteinNotFound | server/utils/analysisEngine.js:318-330 | The not-found error, with its message and the two suggestions, is returned exactly when the lower-cased query mentions no protein word. |
| Engine.ProteinComparisonChosen | server/utils/analysisEngine.js:334-354 | A comparison is returned exactly when the query as typed contains `compare` and the global match over the lower-cased query has at least two entries; it carries the query as typed and the steps. |
| Engine.ProteinInfoChosen | server/utils/analysisEngine.js:331-367 | Otherwise, when some protein is mentioned, and only then, the info record is returned; it holds the table entry of the leftmost mention and carries the query and the steps. |
| Engine.ProteinComparisonRecord | server/utils/analysisEngine.js:335-348 | When a comparison is asked for, the record compares the first two entries of the global match: the first is the leftmost mention, the second starts at or after the end of the first. `protein1` and `protein2` are their table entries and `lengthDiff` is the absolute difference of their parsed lengths. |
| Engine.StoredLengthsParse | server/data/mockDatabase.js:208-236 | Every stored length text parses to a number. |
| Engine.ComparisonLengths | server/utils/analysisEngine.js:348 | In a table whose length texts all parse, as the stored one's do, any two proteins of the table have a defined length difference, the same in both orders. |
| Engine.InsulinGlucagonDiff | server/utils/analysisEngine.js:348 | Insulin (51) against glucagon (29) gives a length difference of 22. |
| Engine.PathwayQueryResult | server/utils/analysisEngine.js:374-408 | A pathway record is returned iff the leftmost of BRCA1/EGFR/TP53/APOE is in the table, upper-cased. It carries that gene's pathways, function and diseases. Otherwise the result is the error. |
| Engine.PathwayTableQuery | server/utils/analysisEngine.js:377-381 | On the stored table, any mention of one of the four genes gives its record. |
| Engine.ExpressionSymbols | server/utils/analysisEngine.js:276 | The upper cases of the expression vocabulary are the seven gene symbols. |
| Engine.PathwaySymbols | server/utils/analysisEngine.js:378 | The upper cases of the pathway vocabulary are the four gene symbols. |
| Engine.MessagesDistinct | server/utils/analysisEngine.js:153 | The error messages of different handlers differ in their first letters. |
| Engine.ErrorOrigins | server/utils/analysisEngine.js:150-156 | Each handler's error record is traced back to that handler. |
| Engine.DiseaseOrigin | server/utils/analysisEngine.js:97-144 | The disease handler's records are traced back to it. |
| Engine.SequenceOrigin | server/utils/analysisEngine.js:146-183 | The sequence handler's records are traced back to it. |
| Engine.ExpressionOrigin | server/utils/analysisEngine.js:260-315 | The expression handler's records are traced back to it. |
| Engine.ProteinOrigin | server/utils/analysisEngine.js:317-372 | The protein handler's records are traced back to it. |
| Engine.PathwayOrigin | server/utils/analysisEngine.js:374-408 | The pathway handler's records are traced back to it. |
| Engine.ProcessRoutes | server/utils/analysisEngine.js:4-24 | For any database, the record `processQuery` returns comes from the handler the classification of the lower-cased query picks. The unknown record comes from the unknown branch. |
| Engine.ProcessEchoes | server/utils/analysisEngine.js:4-24 | Every record with processing steps carries those of the lower-cased query, and every non-error record echoes the query as typed. |
| Engine.DiseaseTakesPriority | server/utils/analysisEngine.js:11-12 | A query the disease predicate accepts is answered by the disease handler, whatever else it mentions. |
| Engine.SequenceRuleAnalyses | server/utils/analysisEngine.js:13-14 | A query routed through `/sequence.*[ATCG]{4,}/i` always gets an analysis, never the no-sequence error. |
| Scenarios.SampleFirstStop | server/index.js:69 | In the ORF sample, the first stop after the ATG at 0 is at index 21. |
| Scenarios.SampleFrame0 | server/index.js:69 | Frame 1 of the ORF sample emits nothing: its candidate is 24 bases long. |
| Scenarios.SampleFrame1 | server/index.js:69 | Frame 2 of the ORF sample has no start codon. |
| Scenarios.SampleFrame2 | server/index.js:69 | Frame 3 of the ORF sample has no start codon. |
| Scenarios.SampleOrfs | server/index.js:69 | `findORFs` on the ORF sample returns the placeholder. |
| Scenarios.SampleQueryExtracts | server/index.js:68 | From `Analyze sequence ATCGATCGATCG` the extracted sequence is `ATCGATCGATCG`. |
| Scenarios.UpperOfDna | server/utils/analysisEngine.js:158 | Upper-casing leaves A/T/G/C text unchanged. |
| Scenarios.SampleCounts | server/index.js:68 | The sample sequence has three of each base. |
| Scenarios.SampleComplement | server/index.js:68 | The sample sequence's complement is `TAGCTAGCTAGC`. |
| Scenarios.SampleQueryAnalysis | server/index.js:68 | The sample's analysis: length 12, three of each base, GC content 50, weight 3960, complement `TAGCTAGCTAGC`. The ORF list is the placeholder, since the sample has no ATG. |
| Scenarios.SampleQueryHandled | server/index.js:68 | The sequence handler answers the sample query with the twelve-base analysis: GC content 50 and complement `TAGCTAGCTAGC`. |

The remaining suggested queries follow from the general lemmas above:

- `Compare protein structures of insulin and glucagon` starts with a capital
  `C`, so the query as typed does not contain `compare`. By
  `Engine.ProteinInfoChosen` it therefore gives the insulin record, not a
  comparison.
- `Show me the function of p53 protein` mentions none of the four pathway
  genes. By `Engine.PathwayTableQuery` it therefore gives the pathway error.

## Left out

- `toFixed` rounding of the percentages, GC content, molecular weight and
  melting temperature: the values are kept as exact reals, and the rendering
  to strings is not modelled.
- The cosmetic constants of every record are not modelled: `metrics` timing
  strings and counters, `visualization.type`, the comparison's
  `structuralSimilarity` of 23.5, and `functionalRelation`. The
  sequence-stats chart repeats the composition and is not modelled either.
  The expression record's `visualization.chartData` (analysisEngine.js:303-305)
  repeats the sorted tissue list and is left out for the same reason.
  The counters that depend on the input are kept as fields: `geneCount`,
  `sequenceLength` and `tissuesAnalyzed`.
- `async` and the Promise wrapping of `processQuery`: the model is a plain
  function.
- Case mapping beyond ASCII: `toLowerCase`/`toUpperCase` are modelled on
  A-Z only.
- `parseInt` is modelled for decimal text after leading white space. The white
  space covered is the ASCII set plus U+00A0 and U+FEFF (`Text.IsWhiteSpace`).
  Hexadecimal prefixes and the other Unicode space separators and line
  terminators are not modelled. The stored lengths use none of them.
- Engine.HandleProteinQuery: requires every matchable protein to be in the
  table, so a table without one is not modelled. On the comparison path the
  code then throws a TypeError, because it reads `.length` of `undefined`. On
  the info path it throws nothing and returns `results: undefined`. The model
  gives neither case a value. The stored table has all three proteins
  (`Engine.ProteinWordsStored`).
- The `sequences` table of the mock database: the core handlers do not read
  it.
- The HTTP routes of `server/index.js` and the module export: only its
  sample queries are used, as inputs to the scenarios.
- Scenarios: the routing of the concrete sample question texts through the
  five predicates is not proved query by query. Matching the regular
  expressions on these ~50-character literals is too costly for the
  verifier. The routing facts are stated on arbitrary queries instead
  (`Router.ClassifyFirstMatch` and the `...Suffices`/`...Needs...` lemmas).
- Dna.ComplementInvolution, Dna.ReverseComplementInvolution: stated for A/T/G/C
  input only. On other characters the complement drops them
  (`Dna.ComplementDropsOthers`), so no involution holds there. The engine
  only ever complements an extracted A/T/G/C run.

## Behaviour of the code worth noting

- After a candidate ORF is closed by a stop codon, the scan of that frame
  resumes right after the stop codon (`break` and then `i += 3` at
  server/utils/analysisEngine.js:248-253). It does not resume after the start
  codon, so an ATG inside a closed candidate does not open a new one.
- The ORF sample `ATGGCCATTGTAATGGGCCGCTGAAAGGGTGCCCGATAG` has no ORF of 30
  bases: the only frame-1 candidate ends at the TGA at positions 22-24
  (`Scenarios.SampleOrfs`).
- The comparison test `query.includes('compare')` is made on the query as
  typed (case-sensitive). It is not made on the lower-cased query.
