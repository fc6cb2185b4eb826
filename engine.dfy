/** `AnalysisEngine`: `processQuery` lowercases the query, records the
    processing steps, routes the query to the first handler whose predicate
    holds and returns the handler's tagged result record.

    Each handler extracts an entity by a case-insensitive leftmost match over a
    small fixed vocabulary, looks it up in the constant tables and assembles
    the record. The cosmetic `metrics` and `visualization.type` constants are
    not part of the records here. */
module Engine {
  import opened Text
  import opened Dna
  import opened Router
  import opened MockDatabase

  // ---------------------------------------------------------------------------
  // Result records

  /** One point `{ gene, association }` of the disease chart. */
  datatype ChartPoint = ChartPoint(gene: string, association: nat)

  /** The record `processQuery` returns, one variant per shape; the `type`
      field is `TypeTag`. */
  datatype Result =
    | DiseaseGenes(
        query: string, processingSteps: seq<string>, disease: string,
        genes: seq<DiseaseGene>, description: string, prevalence: string,
        pathways: seq<string>, geneCount: nat, chartData: seq<ChartPoint>)
    | DiseaseNotFound(query: string, error: string, suggestions: seq<string>)
    | SequenceAnalysis(
        query: string, processingSteps: seq<string>, sequence: string,
        analysis: Report, sequenceLength: nat)
    | GeneExpression(
        query: string, processingSteps: seq<string>, gene: Gene, symbol: string,
        name: string, geneFunction: string, tissueExpression: seq<TissueLevel>,
        highestExpression: Option<TissueLevel>, lowestExpression: Option<TissueLevel>,
        tissuesAnalyzed: nat)
    | ProteinComparison(
        query: string, processingSteps: seq<string>, protein1: Protein, protein2: Protein,
        lengthDiff: Option<nat>)
    | ProteinInfo(query: string, processingSteps: seq<string>, protein: Protein)
    | PathwayInfo(
        query: string, processingSteps: seq<string>, symbol: string,
        pathways: seq<string>, geneFunction: string, diseases: seq<string>)
    | Error(content: string, suggestions: seq<string>)
    | Unknown(query: string, content: string, suggestions: seq<string>)

  /** The record's `type` field. */
  function TypeTag(r: Result): string
  {
    match r
    case DiseaseGenes(_, _, _, _, _, _, _, _, _) => "disease-genes"
    case DiseaseNotFound(_, _, _) => "disease-genes"
    case SequenceAnalysis(_, _, _, _, _) => "sequence-analysis"
    case GeneExpression(_, _, _, _, _, _, _, _, _, _) => "gene-expression"
    case ProteinComparison(_, _, _, _, _) => "protein-comparison"
    case ProteinInfo(_, _, _) => "protein-info"
    case PathwayInfo(_, _, _, _, _, _) => "pathway-info"
    case Error(_, _) => "error"
    case Unknown(_, _, _) => "unknown"
  }

  // ---------------------------------------------------------------------------
  // Processing steps

  const ParsingStep: string := "Parsing natural " + "language query..."
  const GenomicSteps: seq<string> :=
    ["Accessing genomic " + "databases (NCBI, " + "Ensembl, OMIM)...", "Cross-referencing " + "4 major databases..."]
  const SequenceSteps: seq<string> :=
    ["Running sequence " + "analysis pipeline...", "Computing nucleotide " + "statistics..."]
  const ExpressionSteps: seq<string> :=
    ["Querying GTEx expression " + "database...", "Analyzing tissue-specific " + "patterns..."]
  const NetworkSteps: seq<string> :=
    ["Searching protein " + "interaction networks...", "Mapping biological " + "pathways..."]
  const ClosingSteps: seq<string> := ["Validating results...", "Generating visualization..."]

  predicate GenomicTrigger(lq: string) { Contains(lq, "gene") || Contains(lq, "disease") }
  predicate SequenceTrigger(lq: string) { Contains(lq, "sequence") }
  predicate ExpressionTrigger(lq: string) { Contains(lq, "expression") || Contains(lq, "tissue") }
  predicate NetworkTrigger(lq: string) { Contains(lq, "protein") || Contains(lq, "pathway") }

  /** `acc`, followed by `pair` when `cond` holds. */
  function PushPairIf(acc: seq<string>, cond: bool, pair: seq<string>): (r: seq<string>)
    ensures |r| == |acc| + (if cond then |pair| else 0)
    ensures forall x :: x in r <==> x in acc || (cond && x in pair)
  {
    if cond then acc + pair else acc
  }

  /** The step list of `getProcessingSteps(lq)`. */
  function ProcessingSteps(lq: string): seq<string>
  {
    var s1 := PushPairIf([ParsingStep], GenomicTrigger(lq), GenomicSteps);
    var s2 := PushPairIf(s1, SequenceTrigger(lq), SequenceSteps);
    var s3 := PushPairIf(s2, ExpressionTrigger(lq), ExpressionSteps);
    PushPairIf(s3, NetworkTrigger(lq), NetworkSteps) + ClosingSteps
  }

  lemma PushPair(acc: seq<string>, pair: seq<string>)
    requires |pair| == 2
    ensures acc + [pair[0]] + [pair[1]] == acc + pair
  {
  }

  /** `getProcessingSteps(query)`: one fixed first step, a pair of steps for
      each keyword group the query mentions, two fixed closing steps. */
  method GetProcessingSteps(lq: string) returns (steps: seq<string>)
    ensures steps == ProcessingSteps(lq)
  {
    steps := [ParsingStep];
    ghost var before := steps;
    if Contains(lq, "gene") || Contains(lq, "disease") {
      steps := steps + [GenomicSteps[0]];
      steps := steps + [GenomicSteps[1]];
      PushPair(before, GenomicSteps);
    }
    assert steps == PushPairIf(before, GenomicTrigger(lq), GenomicSteps);
    before := steps;
    if Contains(lq, "sequence") {
      steps := steps + [SequenceSteps[0]];
      steps := steps + [SequenceSteps[1]];
      PushPair(before, SequenceSteps);
    }
    assert steps == PushPairIf(before, SequenceTrigger(lq), SequenceSteps);
    before := steps;
    if Contains(lq, "expression") || Contains(lq, "tissue") {
      steps := steps + [ExpressionSteps[0]];
      steps := steps + [ExpressionSteps[1]];
      PushPair(before, ExpressionSteps);
    }
    assert steps == PushPairIf(before, ExpressionTrigger(lq), ExpressionSteps);
    before := steps;
    if Contains(lq, "protein") || Contains(lq, "pathway") {
      steps := steps + [NetworkSteps[0]];
      steps := steps + [NetworkSteps[1]];
      PushPair(before, NetworkSteps);
    }
    assert steps == PushPairIf(before, NetworkTrigger(lq), NetworkSteps);
    before := steps;
    steps := steps + [ClosingSteps[0]];
    steps := steps + [ClosingSteps[1]];
    PushPair(before, ClosingSteps);
  }

  /** Parsing comes first and validating and visualising last; the list has
      between three and eleven steps; each keyword group's steps are listed
      exactly when the query mentions one of the group's words. */
  lemma ProcessingStepsShape(lq: string)
    ensures var s := ProcessingSteps(lq);
      && 3 <= |s| <= 11 && |s| % 2 == 1
      && s[0] == ParsingStep && s[|s| - 2..] == ClosingSteps
  {
  }

  /** The first two letters of the eleven step texts, which tell them apart. */
  lemma StepLetters()
    ensures ParsingStep[..2] == "Pa"
    ensures GenomicSteps[0][..2] == "Ac" && GenomicSteps[1][..2] == "Cr"
    ensures SequenceSteps[0][..2] == "Ru" && SequenceSteps[1][..2] == "Co"
    ensures ExpressionSteps[0][..2] == "Qu" && ExpressionSteps[1][..2] == "An"
    ensures NetworkSteps[0][..2] == "Se" && NetworkSteps[1][..2] == "Ma"
    ensures ClosingSteps[0][..2] == "Va" && ClosingSteps[1][..2] == "Ge"
  {
  }

  /** Every step of the list is one of the eleven texts, and a group's
      step is listed exactly when its condition holds. */
  lemma StepMembers(lq: string, x: string)
    ensures var s := ProcessingSteps(lq);
      x in s <==>
        || x == ParsingStep || x in ClosingSteps
        || (GenomicTrigger(lq) && x in GenomicSteps) || (SequenceTrigger(lq) && x in SequenceSteps)
        || (ExpressionTrigger(lq) && x in ExpressionSteps) || (NetworkTrigger(lq) && x in NetworkSteps)
  {
  }

  /** The genomic pair is listed exactly when the query mentions `gene` or
      `disease`. */
  lemma GenomicGroup(lq: string)
    ensures var s := ProcessingSteps(lq);
      (GenomicSteps[0] in s <==> GenomicTrigger(lq)) && (GenomicSteps[1] in s <==> GenomicTrigger(lq))
  {
    StepLetters();
    StepMembers(lq, GenomicSteps[0]);
    StepMembers(lq, GenomicSteps[1]);
  }

  /** The sequence pair is listed exactly when the query mentions `sequence`. */
  lemma SequenceGroup(lq: string)
    ensures var s := ProcessingSteps(lq);
      (SequenceSteps[0] in s <==> SequenceTrigger(lq)) && (SequenceSteps[1] in s <==> SequenceTrigger(lq))
  {
    StepLetters();
    StepMembers(lq, SequenceSteps[0]);
    StepMembers(lq, SequenceSteps[1]);
  }

  /** The expression pair is listed exactly when the query mentions
      `expression` or `tissue`. */
  lemma ExpressionGroup(lq: string)
    ensures var s := ProcessingSteps(lq);
      (ExpressionSteps[0] in s <==> ExpressionTrigger(lq)) && (ExpressionSteps[1] in s <==> ExpressionTrigger(lq))
  {
    StepLetters();
    StepMembers(lq, ExpressionSteps[0]);
    StepMembers(lq, ExpressionSteps[1]);
  }

  /** The network pair is listed exactly when the query mentions `protein`
      or `pathway`. */
  lemma NetworkGroup(lq: string)
    ensures var s := ProcessingSteps(lq);
      (NetworkSteps[0] in s <==> NetworkTrigger(lq)) && (NetworkSteps[1] in s <==> NetworkTrigger(lq))
  {
    StepLetters();
    StepMembers(lq, NetworkSteps[0]);
    StepMembers(lq, NetworkSteps[1]);
  }

  // ---------------------------------------------------------------------------
  // Entity extraction

  /** The text of `query` a case-insensitive match of `vocab` covers; its lower
      case is the matched word. */
  function MatchedText(query: string, vocab: seq<string>, h: Hit): (m: string)
    requires h.index < |vocab| && OccursAt(ToLower(query), h.pos, vocab[h.index])
    ensures ToLower(m) == vocab[h.index]
  {
    OccursAtSlice(ToLower(query), h.pos, vocab[h.index]);
    ToLowerSlice(query, h.pos, h.pos + |vocab[h.index]|);
    query[h.pos..h.pos + |vocab[h.index]|]
  }

  /** The upper case of a matched text is the upper case of the word. */
  lemma MatchedUpper(query: string, vocab: seq<string>, h: Hit)
    requires h.index < |vocab| && OccursAt(ToLower(query), h.pos, vocab[h.index])
    ensures ToUpper(MatchedText(query, vocab, h)) == ToUpper(vocab[h.index])
  {
    UpperOfLower(MatchedText(query, vocab, h));
  }

  // ---------------------------------------------------------------------------
  // Disease genes

  const DiseaseVocabulary: seq<string> := ["alzheimer", "breast cancer", "diabetes", "cancer", "parkinson"]
  const DiseaseNotFoundMessage: string := "Disease not found " + "in database"
  const DiseaseSuggestions: seq<string> := [
    "Find genes associated " + "with Alzheimer's " + "disease",
    "What genes are linked " + "to breast cancer?",
    "Show me genes involved " + "in diabetes"]

  /** The chart strength of an association tier. */
  function Strength(association: string): nat
  {
    if association == "Strong" then 90 else if association == "Causative" then 95 else 70
  }

  /** `genes.map(g => ({ gene: g.symbol, association: strength }))`: one point
      per gene in the same order. */
  function ChartData(genes: seq<DiseaseGene>): (c: seq<ChartPoint>)
    ensures |c| == |genes|
    ensures forall k :: 0 <= k < |c| ==> c[k].gene == genes[k].symbol && c[k].association in {70, 90, 95}
    ensures forall k :: 0 <= k < |c| ==> (c[k].association == 90 <==> genes[k].association == "Strong")
    ensures forall k :: 0 <= k < |c| ==> (c[k].association == 95 <==> genes[k].association == "Causative")
  {
    if genes == [] then []
    else [ChartPoint(genes[0].symbol, Strength(genes[0].association))] + ChartData(genes[1..])
  }

  /** The table key the handler looks up: the lower-cased match with its first
      `'s` removed, or none when no disease is mentioned. */
  function DiseaseKey(query: string): Option<string>
  {
    match Leftmost(ToLower(query), DiseaseVocabulary)
    case None => None
    case Some(h) => Some(RemoveFirst(ToLower(MatchedText(query, DiseaseVocabulary, h)), "'s"))
  }

  /** `handleDiseaseGeneQuery` against the disease table `diseases`. */
  function HandleDiseaseGeneQuery(diseases: map<string, Disease>, query: string, steps: seq<string>): Result
  {
    var key := DiseaseKey(query);
    if key.Some? && key.value in diseases then
      var d := diseases[key.value];
      DiseaseGenes(query, steps, d.name, d.genes, d.description, d.prevalence, d.pathways,
                   |d.genes|, ChartData(d.genes))
    else
      DiseaseNotFound(query, DiseaseNotFoundMessage, DiseaseSuggestions)
  }

  /** No apostrophe, so nothing for `replace("'s", '')` to remove. */
  lemma NoApostrophe(s: string)
    requires forall i :: 0 <= i < |s| ==> s[i] != '\''
    ensures RemoveFirst(s, "'s") == s
  {
    forall j: nat ensures !OccursAt(s, j, "'s") {
      OccursAtSlice(s, j, "'s");
      if j + 2 <= |s| {
        assert s[j..j + 2][0] == s[j];
      }
    }
    ContainsIff(s, "'s");
  }

  /** The key is the leftmost disease word mentioned. */
  lemma DiseaseKeyIsWord(query: string)
    ensures match Leftmost(ToLower(query), DiseaseVocabulary)
      case None => DiseaseKey(query).None?
      case Some(h) => DiseaseKey(query) == Some(DiseaseVocabulary[h.index])
  {
    match Leftmost(ToLower(query), DiseaseVocabulary)
    case None =>
    case Some(h) =>
      var w := DiseaseVocabulary[h.index];
      assert forall i :: 0 <= i < |w| ==> w[i] != '\'';
      NoApostrophe(w);
  }

  /** The disease handler finds a record exactly when the leftmost disease
      word mentioned is a key of the table; otherwise (no mention, or a word
      the table lacks) it gives the not-found record. A found record carries
      the table's entry, its gene count and a chart with one point per gene,
      in the table's order. */
  lemma DiseaseQueryResult(diseases: map<string, Disease>, query: string, steps: seq<string>)
    ensures var r := HandleDiseaseGeneQuery(diseases, query, steps);
      var hit := Leftmost(ToLower(query), DiseaseVocabulary);
      && (r.DiseaseGenes? <==> hit.Some? && DiseaseVocabulary[hit.value.index] in diseases)
      && (r.DiseaseGenes? ==>
            var d := diseases[DiseaseVocabulary[hit.value.index]];
            && r.query == query && r.processingSteps == steps && r.disease == d.name && r.genes == d.genes
            && r.description == d.description && r.prevalence == d.prevalence && r.pathways == d.pathways
            && r.geneCount == |d.genes| && |r.chartData| == |d.genes|
            && forall k :: 0 <= k < |d.genes| ==> r.chartData[k].gene == d.genes[k].symbol)
      && (!r.DiseaseGenes? ==> r == DiseaseNotFound(query, DiseaseNotFoundMessage, DiseaseSuggestions))
  {
    DiseaseKeyIsWord(query);
  }

  /** Against the stored table: a record is found exactly for `alzheimer`,
      `breast cancer` and `diabetes`, while `cancer` and `parkinson` are
      extracted but miss; each chart strength is 90, 95 or 70 exactly for a
      Strong, Causative or Moderate association. */
  lemma DiseaseTableQuery(query: string, steps: seq<string>)
    ensures var r := HandleDiseaseGeneQuery(Diseases, query, steps);
      var hit := Leftmost(ToLower(query), DiseaseVocabulary);
      && (r.DiseaseGenes? <==> hit.Some? && hit.value.index < 3)
      && (r.DiseaseGenes? ==> forall k :: 0 <= k < |r.chartData| ==>
            && (r.chartData[k].association == 90 <==> r.genes[k].association == "Strong")
            && (r.chartData[k].association == 95 <==> r.genes[k].association == "Causative")
            && (r.chartData[k].association == 70 <==> r.genes[k].association == "Moderate"))
  {
    DiseaseQueryResult(Diseases, query, steps);
    DiseaseKeys();
    AssociationsKnown();
  }

  /** An Alzheimer's query reports the five stored genes in the stored order. */
  lemma AlzheimerQuery(query: string, steps: seq<string>)
    requires var hit := Leftmost(ToLower(query), DiseaseVocabulary); hit.Some? && hit.value.index == 0
    ensures var r := HandleDiseaseGeneQuery(Diseases, query, steps);
      && r.DiseaseGenes? && r.geneCount == 5
      && Symbols(r.genes) == ["APOE", "PSEN1", "APP", "PSEN2", "MAPT"]
      && forall k :: 0 <= k < 5 ==> r.chartData[k].gene == Symbols(r.genes)[k]
  {
    DiseaseQueryResult(Diseases, query, steps);
    AlzheimerGenes();
  }

  // ---------------------------------------------------------------------------
  // Sequence analysis

  const NoSequenceMessage: string :=
    "No valid DNA sequence " + "found. Please provide " + "a sequence with " + "A, T, C, G nucleotides."
  const SequenceSuggestions: seq<string> :=
    ["Analyze sequence " + "ATCGATCGATCG", "Find ORFs in sequence " + "ATGGCCATTGTAATGGGCCGC"]

  /** The first index `>= i` where four nucleotide letters start. */
  function FirstRunFrom(s: string, i: nat): (r: Option<nat>)
    requires i <= |s|
    decreases |s| - i
    ensures r.Some? ==> i <= r.value && RunAt(s, r.value)
    ensures r.Some? ==> forall p :: i <= p < r.value ==> !RunAt(s, p)
    ensures r.None? ==> forall p :: i <= p ==> !RunAt(s, p)
  {
    if i + 4 > |s| then None
    else if RunAt(s, i) then Some(i)
    else FirstRunFrom(s, i + 1)
  }

  /** The end of the run of nucleotide letters starting at `i`. */
  function RunEnd(s: string, i: nat): (j: nat)
    requires i <= |s|
    decreases |s| - i
    ensures i <= j <= |s|
    ensures forall k :: i <= k < j ==> IsNucleotide(s[k])
    ensures j == |s| || !IsNucleotide(s[j])
  {
    if i < |s| && IsNucleotide(s[i]) then RunEnd(s, i + 1) else i
  }

  /** `query.match(/[ATCG]{4,}/i)[0].toUpperCase()`: the leftmost run, taken
      greedily. */
  function ExtractSequence(query: string): Option<string>
  {
    match FirstRunFrom(query, 0)
    case None => None
    case Some(p) => Some(ToUpper(query[p..RunEnd(query, p)]))
  }

  function HandleSequenceAnalysis(query: string, steps: seq<string>): Result
  {
    match ExtractSequence(query)
    case None => Error(NoSequenceMessage, SequenceSuggestions)
    case Some(sequence) => SequenceAnalysis(query, steps, sequence, Analysis(sequence), |sequence|)
  }

  lemma UpperNucleotide(c: char)
    requires IsNucleotide(c)
    ensures IsBase(UpperChar(c))
  {
  }

  /** The extracted sequence is the upper case of the leftmost maximal run of
      at least four nucleotide letters: it has only A, C, G, T, and no run
      begins earlier; when the query has no such run there is nothing. */
  lemma ExtractedSequence(query: string)
    ensures var e := ExtractSequence(query);
      && (e.None? <==> forall p :: !RunAt(query, p))
      && (e.Some? ==> IsDna(e.value) && |e.value| >= 4)
      && (e.Some? ==> exists p, q ::
            && 0 <= p && p + 4 <= q <= |query| && e.value == ToUpper(query[p..q])
            && (forall k :: p <= k < q ==> IsNucleotide(query[k]))
            && (p == 0 || !IsNucleotide(query[p - 1])) && (q == |query| || !IsNucleotide(query[q]))
            && forall p' :: 0 <= p' < p ==> !RunAt(query, p'))
  {
    match FirstRunFrom(query, 0)
    case None =>
    case Some(p) =>
      var q := RunEnd(query, p);
      var e := ToUpper(query[p..q]);
      forall i | 0 <= i < |e| ensures IsBase(e[i]) {
        UpperNucleotide(query[p + i]);
      }
      if p > 0 && IsNucleotide(query[p - 1]) {
        assert RunAt(query, p - 1);
        assert false;
      }
  }

  /** The sequence handler returns an analysis of the extracted sequence, or
      the error with its two suggestions when there is none. */
  lemma SequenceQueryResult(query: string, steps: seq<string>)
    ensures var r := HandleSequenceAnalysis(query, steps);
      && (r.SequenceAnalysis? <==> exists p :: RunAt(query, p))
      && (r.SequenceAnalysis? ==>
            && Some(r.sequence) == ExtractSequence(query) && r.processingSteps == steps
            && r.analysis == Analysis(r.sequence) && r.sequenceLength == |r.sequence| >= 4
            && IsDna(r.sequence))
      && (!r.SequenceAnalysis? ==> r == Error(NoSequenceMessage, SequenceSuggestions))
  {
    ExtractedSequence(query);
  }

  /** Lower-casing keeps nucleotide runs where they are. */
  lemma RunAtLower(query: string, p: nat)
    requires RunAt(ToLower(query), p)
    ensures RunAt(query, p)
  {
  }

  // ---------------------------------------------------------------------------
  // Gene expression

  const ExpressionVocabulary: seq<string> := ["brca1", "brca2", "tp53", "apoe", "egfr", "ins", "gcg"]
  const GeneNotSpecifiedMessage: string := "Gene not specified " + "or not found in " + "database."
  const GeneNotSpecifiedSuggestions: seq<string> := [
    "Which tissues express " + "BRCA1 the highest?",
    "Show expression " + "levels of TP53 across " + "tissues",
    "Compare expression " + "of APOE in brain " + "vs liver"]
  const NoExpressionMessage: string := "Gene expression " + "data not available."
  const NoExpressionSuggestions: seq<string> := ["Try BRCA1, TP53, " + "APOE, or EGFR"]

  predicate NonIncreasing(t: seq<TissueLevel>)
  {
    forall i, j :: 0 <= i < j < |t| ==> t[i].expression >= t[j].expression
  }

  /** Inserts `x` before the first entry whose value is not above its own, so
      that among equal values the earlier input stays first. */
  function InsertByExpression(x: TissueLevel, ys: seq<TissueLevel>): (r: seq<TissueLevel>)
    ensures multiset(r) == multiset{x} + multiset(ys)
  {
    if ys == [] || ys[0].expression <= x.expression then
      [x] + ys
    else
      assert ys == [ys[0]] + ys[1..];
      [ys[0]] + InsertByExpression(x, ys[1..])
  }

  /** Insertion keeps a non-increasing list non-increasing. */
  lemma {:induction false} InsertKeepsOrder(x: TissueLevel, ys: seq<TissueLevel>)
    requires NonIncreasing(ys)
    ensures NonIncreasing(InsertByExpression(x, ys))
  {
    if ys != [] && ys[0].expression > x.expression {
      var rest := InsertByExpression(x, ys[1..]);
      InsertKeepsOrder(x, ys[1..]);
      forall k | 0 <= k < |rest| ensures rest[k].expression <= ys[0].expression {
        assert rest[k] in multiset(rest);
        if rest[k] != x {
          assert rest[k] in multiset(ys[1..]);
          var m :| 0 <= m < |ys[1..]| && ys[1..][m] == rest[k];
          assert ys[m + 1] == rest[k];
        }
      }
      assert InsertByExpression(x, ys) == [ys[0]] + rest;
    }
  }

  /** `entries.sort((a, b) => b.expression - a.expression)`: a stable sort by
      decreasing expression. */
  function SortByExpression(xs: seq<TissueLevel>): (r: seq<TissueLevel>)
    ensures multiset(r) == multiset(xs)
  {
    if xs == [] then []
    else
      assert xs == [xs[0]] + xs[1..];
      InsertByExpression(xs[0], SortByExpression(xs[1..]))
  }

  /** The sorted list is non-increasing. */
  lemma {:induction false} SortIsOrdered(xs: seq<TissueLevel>)
    ensures NonIncreasing(SortByExpression(xs))
  {
    if xs != [] {
      SortIsOrdered(xs[1..]);
      InsertKeepsOrder(xs[0], SortByExpression(xs[1..]));
    }
  }

  /** Entries with the same value are the same entry. */
  predicate ValueDetermines(t: seq<TissueLevel>)
  {
    forall i, j :: 0 <= i < |t| && 0 <= j < |t| && t[i].expression == t[j].expression ==> t[i] == t[j]
  }

  lemma ValueDeterminesPermutation(a: seq<TissueLevel>, b: seq<TissueLevel>)
    requires multiset(a) == multiset(b) && ValueDetermines(a)
    ensures ValueDetermines(b)
  {
    forall i, j | 0 <= i < |b| && 0 <= j < |b| && b[i].expression == b[j].expression ensures b[i] == b[j] {
      assert b[i] in multiset(a) && b[j] in multiset(a);
    }
  }

  /** When values determine entries, a non-increasing arrangement of a list
      is unique: any two are equal. */
  lemma {:induction false} SortedUnique(a: seq<TissueLevel>, b: seq<TissueLevel>)
    requires NonIncreasing(a) && NonIncreasing(b) && multiset(a) == multiset(b)
    requires ValueDetermines(a)
    ensures a == b
    decreases |a|
  {
    if |a| == 0 {
      assert |b| == |multiset(b)| == 0;
    } else {
      SortedHeads(a, b);
      TailsPermutation(a, b);
      SortedUnique(a[1..], b[1..]);
      assert a == [a[0]] + a[1..] && b == [b[0]] + b[1..];
    }
  }

  /** Two such arrangements start with the same entry. */
  lemma SortedHeads(a: seq<TissueLevel>, b: seq<TissueLevel>)
    requires |a| > 0 && NonIncreasing(a) && NonIncreasing(b) && multiset(a) == multiset(b)
    requires ValueDetermines(a)
    ensures |b| > 0 && a[0] == b[0]
  {
    assert |a| == |multiset(a)| == |multiset(b)| == |b|;
    var i :| 0 <= i < |a| && a[i] == b[0] by { assert b[0] in multiset(a); }
    var j :| 0 <= j < |b| && b[j] == a[0] by { assert a[0] in multiset(b); }
    assert a[0].expression >= a[i].expression;
    assert b[0].expression >= b[j].expression;
  }

  lemma TailsPermutation(a: seq<TissueLevel>, b: seq<TissueLevel>)
    requires |a| > 0 && |b| > 0 && a[0] == b[0] && multiset(a) == multiset(b)
    ensures multiset(a[1..]) == multiset(b[1..])
  {
    assert a == [a[0]] + a[1..] && b == [b[0]] + b[1..];
    assert multiset(a[1..]) == multiset(a) - multiset{a[0]};
    assert multiset(b[1..]) == multiset(b) - multiset{b[0]};
  }

  /** `tissueData[0]` and `tissueData[tissueData.length - 1]`. */
  function First(t: seq<TissueLevel>): Option<TissueLevel>
  {
    if t == [] then None else Some(t[0])
  }

  function Last(t: seq<TissueLevel>): Option<TissueLevel>
  {
    if t == [] then None else Some(t[|t| - 1])
  }

  /** `handleGeneExpression` against the gene table `genes`. */
  function HandleExpressionQuery(genes: map<string, Gene>, query: string, steps: seq<string>): Result
  {
    match Leftmost(ToLower(query), ExpressionVocabulary)
    case None => Error(GeneNotSpecifiedMessage, GeneNotSpecifiedSuggestions)
    case Some(h) =>
      var symbol := ToUpper(MatchedText(query, ExpressionVocabulary, h));
      if symbol in genes then
        var g := genes[symbol];
        var t := SortByExpression(g.tissues);
        GeneExpression(query, steps, g, symbol, g.name, g.geneFunction, t, First(t), Last(t), |t|)
      else
        Error(NoExpressionMessage, NoExpressionSuggestions)
  }

  /** The upper case of each expression vocabulary word. */
  lemma ExpressionSymbols()
    ensures ToUpper(ExpressionVocabulary[0]) == "BRCA1"
    ensures ToUpper(ExpressionVocabulary[1]) == "BRCA2"
    ensures ToUpper(ExpressionVocabulary[2]) == "TP53"
    ensures ToUpper(ExpressionVocabulary[3]) == "APOE"
    ensures ToUpper(ExpressionVocabulary[4]) == "EGFR"
    ensures ToUpper(ExpressionVocabulary[5]) == "INS"
    ensures ToUpper(ExpressionVocabulary[6]) == "GCG"
  {
  }

  /** With no gene mentioned the result is the not-specified error; the
      leftmost gene mentioned, upper-cased, is looked up, and a symbol the
      table lacks gives the no-data error. */
  lemma ExpressionQueryRouting(genes: map<string, Gene>, query: string, steps: seq<string>)
    ensures var r := HandleExpressionQuery(genes, query, steps);
      var hit := Leftmost(ToLower(query), ExpressionVocabulary);
      && (hit.None? ==> r == Error(GeneNotSpecifiedMessage, GeneNotSpecifiedSuggestions))
      && (hit.Some? ==>
            var symbol := ToUpper(ExpressionVocabulary[hit.value.index]);
            if symbol in genes then
              r.GeneExpression? && r.query == query && r.processingSteps == steps
              && r.symbol == symbol && r.gene == genes[symbol]
            else r == Error(NoExpressionMessage, NoExpressionSuggestions))
  {
    match Leftmost(ToLower(query), ExpressionVocabulary)
    case None =>
    case Some(h) =>
      MatchedUpper(query, ExpressionVocabulary, h);
  }

  /** The ends of a sorted list are entries of greatest and least value. */
  lemma SortedEnds(t: seq<TissueLevel>)
    ensures var sorted := SortByExpression(t);
      |sorted| == |t|
      && (|t| > 0 ==>
            && sorted[0] in t && sorted[|t| - 1] in t
            && forall k :: 0 <= k < |t| ==> sorted[|t| - 1].expression <= t[k].expression <= sorted[0].expression)
  {
    var sorted := SortByExpression(t);
    assert |sorted| == |multiset(sorted)| == |multiset(t)| == |t|;
    if |t| > 0 {
      assert sorted[0] in multiset(t) && sorted[|t| - 1] in multiset(t);
      SortIsOrdered(t);
      SortedBounds(t, sorted);
    }
  }

  /** Every entry lies between the ends of a non-increasing permutation. */
  lemma SortedBounds(t: seq<TissueLevel>, sorted: seq<TissueLevel>)
    requires 0 < |t| == |sorted| && NonIncreasing(sorted) && multiset(sorted) == multiset(t)
    ensures forall k :: 0 <= k < |t| ==> sorted[|t| - 1].expression <= t[k].expression <= sorted[0].expression
  {
    var n := |t| - 1;
    forall k | 0 <= k < |t| ensures sorted[n].expression <= t[k].expression <= sorted[0].expression {
      assert t[k] in multiset(sorted);
      var m :| 0 <= m < |sorted| && sorted[m] == t[k];
      if 0 < m { assert sorted[0].expression >= sorted[m].expression; }
      if m < n { assert sorted[m].expression >= sorted[n].expression; }
    }
  }

  /** When values determine entries, the sorted list is the only
      non-increasing arrangement. */
  lemma SortedOnly(t: seq<TissueLevel>)
    requires ValueDetermines(t)
    ensures forall b :: NonIncreasing(b) && multiset(b) == multiset(t) ==> b == SortByExpression(t)
  {
    var sorted := SortByExpression(t);
    SortIsOrdered(t);
    ValueDeterminesPermutation(t, sorted);
    forall b | NonIncreasing(b) && multiset(b) == multiset(t) ensures b == sorted {
      SortedUnique(sorted, b);
    }
  }

  /** An expression record lists the gene's tissues, each as often as
      stored, in non-increasing order of expression; the first entry is a
      highest and the last a lowest of the gene's values, and the count is
      the number of tissues. When values determine entries, the listed order
      is the only non-increasing one. */
  lemma ExpressionRecord(genes: map<string, Gene>, query: string, steps: seq<string>)
    ensures var r := HandleExpressionQuery(genes, query, steps);
      r.GeneExpression? ==>
        var t := r.gene.tissues;
        && r.symbol in genes && r.gene == genes[r.symbol]
        && multiset(r.tissueExpression) == multiset(t)
        && NonIncreasing(r.tissueExpression)
        && r.tissuesAnalyzed == |r.tissueExpression| == |t|
        && r.highestExpression == First(r.tissueExpression)
        && r.lowestExpression == Last(r.tissueExpression)
        && (r.highestExpression.Some? <==> |t| > 0)
        && (|t| > 0 ==>
              && r.highestExpression.value in t && r.lowestExpression.value in t
              && forall k :: 0 <= k < |t| ==>
                   r.lowestExpression.value.expression <= t[k].expression <= r.highestExpression.value.expression)
        && (ValueDetermines(t) ==>
              forall b :: NonIncreasing(b) && multiset(b) == multiset(t) ==> b == r.tissueExpression)
  {
    var r := HandleExpressionQuery(genes, query, steps);
    if r.GeneExpression? {
      ExpressionQueryRouting(genes, query, steps);
      var t := r.gene.tissues;
      assert r.tissueExpression == SortByExpression(t);
      SortIsOrdered(t);
      SortedEnds(t);
      if ValueDetermines(t) {
        SortedOnly(t);
      }
    }
  }

  lemma DistinctDetermines(t: seq<TissueLevel>)
    requires DistinctTissues(t)
    ensures ValueDetermines(t)
  {
    forall i, j | 0 <= i < |t| && 0 <= j < |t| && t[i].expression == t[j].expression ensures i == j {
      assert !(i < j) && !(j < i);
    }
  }

  /** Against the stored table: BRCA1, TP53, APOE and EGFR give a record;
      BRCA2, INS and GCG, which have no entry, give the no-data error. */
  lemma ExpressionTableQuery(query: string, steps: seq<string>)
    ensures var r := HandleExpressionQuery(Genes, query, steps);
      var hit := Leftmost(ToLower(query), ExpressionVocabulary);
      && (r.GeneExpression? <==> hit.Some? && hit.value.index !in {1, 5, 6})
      && (hit.Some? && hit.value.index in {1, 5, 6} ==> r == Error(NoExpressionMessage, NoExpressionSuggestions))
  {
    ExpressionQueryRouting(Genes, query, steps);
    match Leftmost(ToLower(query), ExpressionVocabulary)
    case None =>
    case Some(h) => ExpressionSymbolStored(h.index);
  }

  /** The symbols of the expression vocabulary that the stored table has. */
  lemma ExpressionSymbolStored(k: nat)
    requires k < |ExpressionVocabulary|
    ensures ToUpper(ExpressionVocabulary[k]) in Genes <==> k !in {1, 5, 6}
  {
    ExpressionSymbols();
    GeneKeys();
  }

  /** A record from the stored table covers eight tissues, and its order is
      the only non-increasing one. */
  lemma ExpressionTableRecord(query: string, steps: seq<string>)
    ensures var r := HandleExpressionQuery(Genes, query, steps);
      r.GeneExpression? ==> r.tissuesAnalyzed == 8 && ValueDetermines(r.gene.tissues)
  {
    ExpressionRecord(Genes, query, steps);
    var r := HandleExpressionQuery(Genes, query, steps);
    if r.GeneExpression? {
      TissuesDistinct();
      DistinctDetermines(r.gene.tissues);
    }
  }

  /** When a gene's values determine its entries, its record's first and
      last entries are the gene's entries of greatest and least value. */
  lemma ExpressionExtremes(genes: map<string, Gene>, query: string, steps: seq<string>, hi: TissueLevel, lo: TissueLevel)
    requires var r := HandleExpressionQuery(genes, query, steps);
      && r.GeneExpression? && ValueDetermines(r.gene.tissues) && hi in r.gene.tissues && lo in r.gene.tissues
      && forall k :: 0 <= k < |r.gene.tissues| ==> lo.expression <= r.gene.tissues[k].expression <= hi.expression
    ensures var r := HandleExpressionQuery(genes, query, steps);
      r.highestExpression == Some(hi) && r.lowestExpression == Some(lo)
  {
    ExpressionRecord(genes, query, steps);
    var r := HandleExpressionQuery(genes, query, steps);
    var t := r.gene.tissues;
    var h, l := r.highestExpression.value, r.lowestExpression.value;
    var i :| 0 <= i < |t| && t[i] == hi;
    var j :| 0 <= j < |t| && t[j] == lo;
    var m :| 0 <= m < |t| && t[m] == h;
    var n :| 0 <= n < |t| && t[n] == l;
    assert t[i].expression == t[m].expression;
    assert t[j].expression == t[n].expression;
  }

  /** The stored table keeps BRCA1's record, with its profile, under its
      symbol. */
  lemma Brca1Stored()
    ensures "BRCA1" in Genes && Genes["BRCA1"] == Brca1 && Brca1Profile(Genes["BRCA1"].tissues)
  {
    Brca1Extremes();
  }

  /** BRCA1's stored expression values determine its tissue entries, so its
      sorted order is unique. */
  lemma Brca1Determines()
    ensures ValueDetermines(Genes["BRCA1"].tissues)
  {
    Brca1Stored();
    DistinctDetermines(Genes["BRCA1"].tissues);
  }

  /** With a BRCA1 record of the stored profile (`Brca1Stored`), a BRCA1
      query lists breast (85) first and brain (25) last. */
  lemma Brca1Expression(genes: map<string, Gene>, query: string, steps: seq<string>)
    requires "BRCA1" in genes && Brca1Profile(genes["BRCA1"].tissues)
    requires var hit := Leftmost(ToLower(query), ExpressionVocabulary); hit.Some? && hit.value.index == 0
    ensures var r := HandleExpressionQuery(genes, query, steps);
      && r.GeneExpression? && r.gene == genes["BRCA1"]
      && r.highestExpression == Some(TissueLevel("breast", 85)) && r.lowestExpression == Some(TissueLevel("brain", 25))
  {
    ExpressionQueryRouting(genes, query, steps);
    ExpressionSymbols();
    DistinctDetermines(genes["BRCA1"].tissues);
    ExpressionExtremes(genes, query, steps, TissueLevel("breast", 85), TissueLevel("brain", 25));
  }

  // ---------------------------------------------------------------------------
  // Proteins

  const ProteinVocabulary: Vocabulary := ["insulin", "glucagon", "p53"]
  const ProteinNotFoundMessage: string := "Protein not found " + "in database."
  const ProteinSuggestions: seq<string> :=
    ["Compare protein " + "structures of insulin " + "and glucagon", "Show me the function " + "of p53 protein"]

  /** Every protein the handler can match has an entry (the handler reads
      the length of what it looks up). */
  predicate HasProteinWords(proteins: map<string, Protein>)
  {
    forall i :: 0 <= i < |ProteinVocabulary| ==> ProteinVocabulary[i] in proteins
  }

  lemma ProteinWordsStored()
    ensures HasProteinWords(Proteins) && HasProteinWords(Mock.proteins)
  {
    ProteinKeys();
  }

  /** `Math.abs(parseInt(p1.length) - parseInt(p2.length))`; `None` is NaN. */
  function LengthDiff(p1: Protein, p2: Protein): (d: Option<nat>)
    ensures d.Some? <==> ParseInt(p1.length).Some? && ParseInt(p2.length).Some?
    ensures d.Some? ==> (ParseInt(p1.length).value == ParseInt(p2.length).value + d.value
                         || ParseInt(p2.length).value == ParseInt(p1.length).value + d.value)
  {
    match (ParseInt(p1.length), ParseInt(p2.length))
    case (Some(a), Some(b)) => Some(if a >= b then a - b else b - a)
    case _ => None
  }

  /** The protein record of a match of the protein vocabulary. */
  function MatchedProtein(proteins: map<string, Protein>, query: string, h: Hit): (p: Protein)
    requires HasProteinWords(proteins)
    requires h.index < |ProteinVocabulary| && OccursAt(ToLower(query), h.pos, ProteinVocabulary[h.index])
    ensures p == proteins[ProteinVocabulary[h.index]]
  {
    proteins[ToLower(MatchedText(query, ProteinVocabulary, h))]
  }

  /** `handleProteinQuery` against the protein table `proteins`. */
  function HandleProteinQuery(proteins: map<string, Protein>, query: string, steps: seq<string>): Result
    requires HasProteinWords(proteins)
  {
    var lq := ToLower(query);
    match Leftmost(lq, ProteinVocabulary)
    case None => Error(ProteinNotFoundMessage, ProteinSuggestions)
    case Some(h) =>
      var matches := AllMatches(lq, ProteinVocabulary);
      if Contains(query, "compare") && |matches| > 1 then
        var p1, p2 := MatchedProtein(proteins, query, matches[0]), MatchedProtein(proteins, query, matches[1]);
        ProteinComparison(query, steps, p1, p2, LengthDiff(p1, p2))
      else
        ProteinInfo(query, steps, MatchedProtein(proteins, query, h))
  }

  /** The handler asks for a comparison when the query, as typed, contains the
      lower-case word `compare` and mentions proteins at least twice (the same
      one twice counts). */
  predicate WantsComparison(query: string)
  {
    Contains(query, "compare") && |AllMatches(ToLower(query), ProteinVocabulary)| > 1
  }

  /** No protein mentioned, and only then, gives the not-found error. */
  lemma ProteinNotFound(proteins: map<string, Protein>, query: string, steps: seq<string>)
    requires HasProteinWords(proteins)
    ensures var r := HandleProteinQuery(proteins, query, steps);
      && (Leftmost(ToLower(query), ProteinVocabulary).None? <==> r.Error?)
      && (r.Error? ==> r.content == ProteinNotFoundMessage && r.suggestions == ProteinSuggestions)
  {
  }

  /** A comparison is returned exactly when one is asked for; it carries the
      query as typed and the steps. */
  lemma ProteinComparisonChosen(proteins: map<string, Protein>, query: string, steps: seq<string>)
    requires HasProteinWords(proteins)
    ensures var r := HandleProteinQuery(proteins, query, steps);
      && (r.ProteinComparison? <==> WantsComparison(query))
      && (r.ProteinComparison? ==> r.query == query && r.processingSteps == steps)
  {
  }

  /** Otherwise a mentioned protein gives the record of the leftmost mention. */
  lemma ProteinInfoChosen(proteins: map<string, Protein>, query: string, steps: seq<string>)
    requires HasProteinWords(proteins)
    ensures var r := HandleProteinQuery(proteins, query, steps);
      var hit := Leftmost(ToLower(query), ProteinVocabulary);
      && (r.ProteinInfo? <==> hit.Some? && !WantsComparison(query))
      && (r.ProteinInfo? ==>
            r.protein == proteins[ProteinVocabulary[hit.value.index]] && r.query == query && r.processingSteps == steps)
  {
  }

  /** A comparison compares the first two mentions: the leftmost one and the
      next one after it ends, with the difference of their lengths. */
  lemma ProteinComparisonRecord(proteins: map<string, Protein>, query: string, steps: seq<string>)
    requires HasProteinWords(proteins)
    requires WantsComparison(query)
    ensures var r := HandleProteinQuery(proteins, query, steps);
      var ms := AllMatches(ToLower(query), ProteinVocabulary);
      && r.ProteinComparison? && Leftmost(ToLower(query), ProteinVocabulary) == Some(ms[0])
      && ms[0].pos + |ProteinVocabulary[ms[0].index]| <= ms[1].pos
      && r.protein1 == proteins[ProteinVocabulary[ms[0].index]]
      && r.protein2 == proteins[ProteinVocabulary[ms[1].index]]
      && r.lengthDiff == LengthDiff(r.protein1, r.protein2)
  {
  }

  /** No protein word occurs inside another, or inside itself elsewhere. */
  lemma ProteinWordsSubstringFree()
    ensures SubstringFree(ProteinVocabulary)
  {
    forall a, b, o | 0 <= a < |ProteinVocabulary| && 0 <= b < |ProteinVocabulary| && 0 <= o <= |ProteinVocabulary[a]|
      && OccursAt(ProteinVocabulary[a], o, ProteinVocabulary[b])
      ensures a == b && o == 0
    {
      var w, v := ProteinVocabulary[a], ProteinVocabulary[b];
      OccursAtSlice(w, o, v);
      assert w[o] == v[0];
      assert o + |v| <= |w|;
    }
  }

  /** A comparison is returned exactly when the query, as typed, contains
      `compare` and mentions proteins twice without overlap. */
  lemma ProteinComparisonTrigger(proteins: map<string, Protein>, query: string, steps: seq<string>)
    requires HasProteinWords(proteins)
    ensures HandleProteinQuery(proteins, query, steps).ProteinComparison?
            <==> Contains(query, "compare") && TwoMentions(ToLower(query), ProteinVocabulary)
  {
    ProteinComparisonChosen(proteins, query, steps);
    ProteinWordsSubstringFree();
    TwoMentionsIff(ToLower(query), ProteinVocabulary);
  }

  /** Every length text of the table parses to a number. */
  predicate LengthsParse(proteins: map<string, Protein>)
  {
    forall p :: p in proteins.Values ==> ParseInt(p.length).Some?
  }

  /** The stored length texts all parse. */
  lemma StoredLengthsParse()
    ensures LengthsParse(Proteins)
  {
    InsulinLength();
    GlucagonLength();
    P53Length();
  }

  /** In a table whose lengths parse, as the stored one's do
      (`StoredLengthsParse`), every comparison has a defined length
      difference, the same in both orders. */
  lemma ComparisonLengths(proteins: map<string, Protein>, p1: Protein, p2: Protein)
    requires LengthsParse(proteins) && p1 in proteins.Values && p2 in proteins.Values
    ensures LengthDiff(p1, p2).Some? && LengthDiff(p1, p2) == LengthDiff(p2, p1)
  {
  }

  /** Insulin (51) and glucagon (29) differ by 22. */
  lemma InsulinGlucagonDiff()
    ensures LengthDiff(Proteins["insulin"], Proteins["glucagon"]) == Some(22)
  {
    InsulinLength();
    GlucagonLength();
  }

  // ---------------------------------------------------------------------------
  // Pathways

  const PathwayVocabulary: seq<string> := ["brca1", "egfr", "tp53", "apoe"]
  const PathwayErrorMessage: string := "Could not identify " + "gene or pathway " + "in query."
  const PathwaySuggestions: seq<string> := ["What pathways involve EGFR?", "Show me the function " + "of TP53"]

  /** `handlePathwayQuery` against the gene table `genes`. */
  function HandlePathwayQuery(genes: map<string, Gene>, query: string, steps: seq<string>): Result
  {
    match Leftmost(ToLower(query), PathwayVocabulary)
    case None => Error(PathwayErrorMessage, PathwaySuggestions)
    case Some(h) =>
      var symbol := ToUpper(MatchedText(query, PathwayVocabulary, h));
      if symbol in genes then
        var g := genes[symbol];
        PathwayInfo(query, steps, symbol, g.pathways, g.geneFunction, g.diseases)
      else
        Error(PathwayErrorMessage, PathwaySuggestions)
  }

  /** The pathway record of the leftmost of BRCA1, EGFR, TP53, APOE
      mentioned, when the table has it; otherwise the error. */
  lemma PathwayQueryResult(genes: map<string, Gene>, query: string, steps: seq<string>)
    ensures var r := HandlePathwayQuery(genes, query, steps);
      var hit := Leftmost(ToLower(query), PathwayVocabulary);
      && (r.PathwayInfo? <==> hit.Some? && ToUpper(PathwayVocabulary[hit.value.index]) in genes)
      && (r.PathwayInfo? ==>
            var g := genes[r.symbol];
            && r.symbol == ToUpper(PathwayVocabulary[hit.value.index])
            && r.pathways == g.pathways && r.geneFunction == g.geneFunction && r.diseases == g.diseases
            && r.query == query && r.processingSteps == steps)
      && (!r.PathwayInfo? ==> r == Error(PathwayErrorMessage, PathwaySuggestions))
  {
    match Leftmost(ToLower(query), PathwayVocabulary)
    case None =>
    case Some(h) =>
      MatchedUpper(query, PathwayVocabulary, h);
  }

  /** Against the stored table every mention of BRCA1, EGFR, TP53 or APOE
      gives its record; without one (a mention of p53 as a protein only,
      say) the result is the error. */
  lemma PathwayTableQuery(query: string, steps: seq<string>)
    ensures var r := HandlePathwayQuery(Genes, query, steps);
      r.PathwayInfo? <==> Leftmost(ToLower(query), PathwayVocabulary).Some?
  {
    PathwayQueryResult(Genes, query, steps);
    PathwaySymbols();
    GeneKeys();
  }

  /** The upper case of each pathway vocabulary word. */
  lemma PathwaySymbols()
    ensures ToUpper(PathwayVocabulary[0]) == "BRCA1"
    ensures ToUpper(PathwayVocabulary[1]) == "EGFR"
    ensures ToUpper(PathwayVocabulary[2]) == "TP53"
    ensures ToUpper(PathwayVocabulary[3]) == "APOE"
  {
  }

  // ---------------------------------------------------------------------------
  // Unknown queries

  const UnknownContent: string :=
    "I'm not sure how " + "to answer that question. " + "I can help you with:\n\n"
    + "\U{2022} Finding genes " + "associated with " + "diseases\n"
    + "\U{2022} Analyzing DNA sequences\n"
    + "\U{2022} Checking gene " + "expression in different " + "tissues\n"
    + "\U{2022} Comparing protein " + "structures\n"
    + "\U{2022} Exploring biological " + "pathways"
  const UnknownSuggestions: seq<string> := [
    "Find genes associated " + "with Alzheimer's " + "disease",
    "Analyze sequence " + "ATCGATCGATCG",
    "Which tissues express " + "BRCA1 the highest?",
    "What pathways involve EGFR?"]

  function HandleUnknownQuery(query: string): Result
  {
    Unknown(query, UnknownContent, UnknownSuggestions)
  }

  // ---------------------------------------------------------------------------
  // processQuery

  /** `processQuery` against the database `db`: route the lower-cased query
      and hand the query as typed, with its processing steps, to the chosen
      handler. */
  function ProcessWith(db: Database, query: string): Result
    requires HasProteinWords(db.proteins)
  {
    var lq := ToLower(query);
    var steps := ProcessingSteps(lq);
    match Classify(lq)
    case DiseaseGeneIntent => HandleDiseaseGeneQuery(db.diseases, query, steps)
    case SequenceIntent => HandleSequenceAnalysis(query, steps)
    case ExpressionIntent => HandleExpressionQuery(db.genes, query, steps)
    case ProteinIntent => HandleProteinQuery(db.proteins, query, steps)
    case PathwayIntent => HandlePathwayQuery(db.genes, query, steps)
    case UnknownIntent => HandleUnknownQuery(query)
  }

  /** `processQuery` against the stored database. */
  function Process(query: string): Result
  {
    ProteinWordsStored();
    ProcessWith(Mock, query)
  }

  /** The handler a record comes from, read off its shape and, for an error,
      its message. */
  function Origin(r: Result): Option<Intent>
  {
    match r
    case DiseaseGenes(_, _, _, _, _, _, _, _, _) => Some(DiseaseGeneIntent)
    case DiseaseNotFound(_, _, _) => Some(DiseaseGeneIntent)
    case SequenceAnalysis(_, _, _, _, _) => Some(SequenceIntent)
    case GeneExpression(_, _, _, _, _, _, _, _, _, _) => Some(ExpressionIntent)
    case ProteinComparison(_, _, _, _, _) => Some(ProteinIntent)
    case ProteinInfo(_, _, _) => Some(ProteinIntent)
    case PathwayInfo(_, _, _, _, _, _) => Some(PathwayIntent)
    case Unknown(_, _, _) => Some(UnknownIntent)
    case Error(content, _) =>
      if content == NoSequenceMessage then Some(SequenceIntent)
      else if content == GeneNotSpecifiedMessage || content == NoExpressionMessage then Some(ExpressionIntent)
      else if content == ProteinNotFoundMessage then Some(ProteinIntent)
      else if content == PathwayErrorMessage then Some(PathwayIntent)
      else None
  }

  /** The error messages of different handlers differ. */
  lemma MessagesDistinct()
    ensures NoSequenceMessage[0] == 'N' && GeneNotSpecifiedMessage[..6] == "Gene n"
    ensures NoExpressionMessage[..6] == "Gene e" && ProteinNotFoundMessage[0] == 'P'
    ensures PathwayErrorMessage[0] == 'C'
  {
  }

  /** Each handler's error record is traced back to that handler. */
  lemma ErrorOrigins()
    ensures Origin(Error(NoSequenceMessage, SequenceSuggestions)) == Some(SequenceIntent)
    ensures Origin(Error(GeneNotSpecifiedMessage, GeneNotSpecifiedSuggestions)) == Some(ExpressionIntent)
    ensures Origin(Error(NoExpressionMessage, NoExpressionSuggestions)) == Some(ExpressionIntent)
    ensures Origin(Error(ProteinNotFoundMessage, ProteinSuggestions)) == Some(ProteinIntent)
    ensures Origin(Error(PathwayErrorMessage, PathwaySuggestions)) == Some(PathwayIntent)
  {
    MessagesDistinct();
  }

  lemma DiseaseOrigin(diseases: map<string, Disease>, query: string, steps: seq<string>)
    ensures Origin(HandleDiseaseGeneQuery(diseases, query, steps)) == Some(DiseaseGeneIntent)
  {
  }

  lemma SequenceOrigin(query: string, steps: seq<string>)
    ensures Origin(HandleSequenceAnalysis(query, steps)) == Some(SequenceIntent)
  {
    ErrorOrigins();
  }

  lemma ExpressionOrigin(genes: map<string, Gene>, query: string, steps: seq<string>)
    ensures Origin(HandleExpressionQuery(genes, query, steps)) == Some(ExpressionIntent)
  {
    ErrorOrigins();
  }

  lemma ProteinRecordOrigin(r: Result)
    requires r.ProteinComparison? || r.ProteinInfo? || (r.Error? && r.content == ProteinNotFoundMessage)
    ensures Origin(r) == Some(ProteinIntent)
  {
    MessagesDistinct();
  }

  lemma ProteinOrigin(proteins: map<string, Protein>, query: string, steps: seq<string>)
    requires HasProteinWords(proteins)
    ensures Origin(HandleProteinQuery(proteins, query, steps)) == Some(ProteinIntent)
  {
    var r := HandleProteinQuery(proteins, query, steps);
    ProteinNotFound(proteins, query, steps);
    ProteinComparisonChosen(proteins, query, steps);
    ProteinInfoChosen(proteins, query, steps);
    ProteinRecordOrigin(r);
  }

  lemma PathwayOrigin(genes: map<string, Gene>, query: string, steps: seq<string>)
    ensures Origin(HandlePathwayQuery(genes, query, steps)) == Some(PathwayIntent)
  {
    ErrorOrigins();
  }

  /** Every record names the handler the router chose for the lower-cased
      query. */
  lemma ProcessRoutes(db: Database, query: string)
    requires HasProteinWords(db.proteins)
    ensures Origin(ProcessWith(db, query)) == Some(Classify(ToLower(query)))
  {
    var lq := ToLower(query);
    var steps := ProcessingSteps(lq);
    match Classify(lq)
    case DiseaseGeneIntent => DiseaseOrigin(db.diseases, query, steps);
    case SequenceIntent => SequenceOrigin(query, steps);
    case ExpressionIntent => ExpressionOrigin(db.genes, query, steps);
    case ProteinIntent => ProteinOrigin(db.proteins, query, steps);
    case PathwayIntent => PathwayOrigin(db.genes, query, steps);
    case UnknownIntent =>
  }

  /** Records that carry processing steps carry those of the lower-cased
      query, and the query as typed is echoed wherever the record has one. */
  lemma ProcessEchoes(db: Database, query: string)
    requires HasProteinWords(db.proteins)
    ensures var r := ProcessWith(db, query);
      && ((r.DiseaseGenes? || r.SequenceAnalysis? || r.GeneExpression? || r.ProteinComparison?
           || r.ProteinInfo? || r.PathwayInfo?) ==> r.processingSteps == ProcessingSteps(ToLower(query)))
      && (!r.Error? ==> r.query == query)
  {
    var lq := ToLower(query);
    var steps := ProcessingSteps(lq);
    match Classify(lq)
    case DiseaseGeneIntent => DiseaseQueryResult(db.diseases, query, steps);
    case SequenceIntent => SequenceQueryResult(query, steps);
    case ExpressionIntent => ExpressionQueryRouting(db.genes, query, steps);
    case ProteinIntent =>
      ProteinComparisonChosen(db.proteins, query, steps);
      ProteinInfoChosen(db.proteins, query, steps);
    case PathwayIntent => PathwayQueryResult(db.genes, query, steps);
    case UnknownIntent =>
  }

  /** A query the disease predicate accepts is answered by the disease
      handler, whatever else it mentions (a DNA sequence, say). */
  lemma DiseaseTakesPriority(db: Database, query: string)
    requires HasProteinWords(db.proteins)
    requires IsDiseaseGeneQuery(ToLower(query))
    ensures var r := ProcessWith(db, query); r.DiseaseGenes? || r.DiseaseNotFound?
  {
  }

  /** A query that reaches the sequence analyser through its rule
      `sequence.*[ATCG]{4,}` always has a sequence to analyse. */
  lemma SequenceRuleAnalyses(db: Database, query: string)
    requires HasProteinWords(db.proteins)
    requires !IsDiseaseGeneQuery(ToLower(query)) && Matches(ToLower(query), SequencePatterns[1])
    ensures ProcessWith(db, query).SequenceAnalysis?
  {
    var lq := ToLower(query);
    assert IsSequenceAnalysis(lq);
    assert ProcessWith(db, query) == HandleSequenceAnalysis(query, ProcessingSteps(lq));
    SequenceRuleHasRun(lq);
    var p :| RunAt(lq, p);
    RunAtLower(query, p);
    SequenceQueryResult(query, ProcessingSteps(lq));
  }
}
