/** The intent router of `AnalysisEngine`: the five `is*Query` predicates and
    the first-match classification `processQuery` makes on the lowercased
    query.

    Each pattern the predicates test is a chain `a0.*a1.*...` of atoms, and
    `pattern.test(query)` holds when such a chain occurs anywhere in the query.
    An atom is an alternation of words, or a run of nucleotide letters. The
    `.*` gaps match any characters except line terminators, as `.` does in a
    JavaScript regular expression without the `s` flag. */
module Router {
  import opened Text

  /** `(w0|w1|...)`, or `[ATCG]{4,}` under the `i` flag. The run occurs last in
      its pattern, so matching exactly four letters is the same as matching
      four or more: the gap or the end of the match absorbs the rest. An
      optional suffix as in `genes?` or `analyz[e]?` is left out for the same
      reason: the following gap absorbs it. */
  datatype Atom = Word(alternatives: seq<string>) | NucleotideRun

  /** The characters `.` does not match. */
  predicate IsLineTerminator(c: char)
  {
    c == '\n' || c == '\r' || c == '\U{2028}' || c == '\U{2029}'
  }

  /** `[ATCG]` under the `i` flag. */
  predicate IsNucleotide(c: char)
  {
    c == 'A' || c == 'T' || c == 'C' || c == 'G' || c == 'a' || c == 't' || c == 'c' || c == 'g'
  }

  /** Four nucleotide letters start at `i`. */
  predicate RunAt(s: string, i: nat)
  {
    i + 4 <= |s| && IsNucleotide(s[i]) && IsNucleotide(s[i + 1]) && IsNucleotide(s[i + 2]) && IsNucleotide(s[i + 3])
  }

  /** The chain `atoms` matches with its first atom at index `i`. */
  predicate MatchAt(s: string, atoms: seq<Atom>, i: nat)
    requires |atoms| > 0
    decreases |atoms|, 0
  {
    match atoms[0]
    case Word(alts) =>
      exists k :: 0 <= k < |alts| && OccursAt(s, i, alts[k]) && GapThen(s, atoms[1..], i + |alts[k]|)
    case NucleotideRun =>
      RunAt(s, i) && GapThen(s, atoms[1..], i + 4)
  }

  /** `.*` followed by the chain `atoms`, from index `i`. */
  predicate GapThen(s: string, atoms: seq<Atom>, i: nat)
    decreases |atoms|, |s| - i + 1
  {
    if atoms == [] then true
    else if i > |s| then false
    else MatchAt(s, atoms, i) || (i < |s| && !IsLineTerminator(s[i]) && GapThen(s, atoms, i + 1))
  }

  /** The chain matches with its first atom at some index `>= i`. */
  predicate SearchFrom(s: string, atoms: seq<Atom>, i: nat)
    decreases |s| - i
  {
    if atoms == [] then true
    else MatchAt(s, atoms, i) || (i < |s| && SearchFrom(s, atoms, i + 1))
  }

  /** `pattern.test(s)` for the pattern `atoms`. */
  predicate Matches(s: string, atoms: seq<Atom>)
  {
    SearchFrom(s, atoms, 0)
  }

  /** `patterns.some(pattern => pattern.test(s))`. */
  predicate AnyMatches(s: string, patterns: seq<seq<Atom>>)
  {
    exists k :: 0 <= k < |patterns| && Matches(s, patterns[k])
  }

  // ---------------------------------------------------------------------------
  // The patterns, in their written order

  const DiseasePatterns: seq<seq<Atom>> := [
    [Word(["gene"]), Word(["associated", "linked", "related", "involved"]), Word(["with", "to", "in"])],
    [Word(["find", "show", "list", "what"]), Word(["gene"]), Word(["disease", "condition"])],
    [Word(["disease"]), Word(["gene"])]
  ]

  const SequencePatterns: seq<seq<Atom>> := [
    [Word(["analyz"]), Word(["sequence", "dna", "rna"])],
    [Word(["sequence"]), NucleotideRun],
    [Word(["gc", "orf", "blast", "complement"])]
  ]

  const ExpressionPatterns: seq<seq<Atom>> := [
    [Word(["expression", "express", "expressed"])],
    [Word(["tissue", "organ", "cell"]), Word(["express", "level"])],
    [Word(["which"]), Word(["tissue", "organ", "cell"])]
  ]

  const ProteinPatterns: seq<seq<Atom>> := [
    [Word(["protein"]), Word(["structure", "compare", "function"])],
    [Word(["compare"]), Word(["protein"])],
    [Word(["structure", "fold", "domain"]), Word(["protein"])]
  ]

  const PathwayPatterns: seq<seq<Atom>> := [
    [Word(["pathway"])],
    [Word(["function"]), Word(["of"])],
    [Word(["what"]), Word(["do", "does", "is", "are"])]
  ]

  predicate IsDiseaseGeneQuery(q: string) { AnyMatches(q, DiseasePatterns) }
  predicate IsSequenceAnalysis(q: string) { AnyMatches(q, SequencePatterns) }
  predicate IsExpressionQuery(q: string) { AnyMatches(q, ExpressionPatterns) }
  predicate IsProteinQuery(q: string) { AnyMatches(q, ProteinPatterns) }
  predicate IsPathwayQuery(q: string) { AnyMatches(q, PathwayPatterns) }

  // ---------------------------------------------------------------------------
  // Classification

  datatype Intent = DiseaseGeneIntent | SequenceIntent | ExpressionIntent | ProteinIntent | PathwayIntent | UnknownIntent

  /** The handler `processQuery` picks for the lowercased query `lq`. */
  function Classify(lq: string): (r: Intent)
  {
    if IsDiseaseGeneQuery(lq) then DiseaseGeneIntent
    else if IsSequenceAnalysis(lq) then SequenceIntent
    else if IsExpressionQuery(lq) then ExpressionIntent
    else if IsProteinQuery(lq) then ProteinIntent
    else if IsPathwayQuery(lq) then PathwayIntent
    else UnknownIntent
  }

  /** The rule table in priority order: each intent with the predicate that
      selects it. */
  function Rules(): seq<(Intent, seq<seq<Atom>>)>
  {
    [ (DiseaseGeneIntent, DiseasePatterns), (SequenceIntent, SequencePatterns),
      (ExpressionIntent, ExpressionPatterns), (ProteinIntent, ProteinPatterns),
      (PathwayIntent, PathwayPatterns) ]
  }

  /** The intent of the first rule from `k` on whose patterns match. */
  function FirstRule(lq: string, rules: seq<(Intent, seq<seq<Atom>>)>, k: nat): (r: Intent)
    requires k <= |rules|
    decreases |rules| - k
    ensures r == UnknownIntent || exists m :: k <= m < |rules| && rules[m].0 == r
  {
    if k == |rules| then UnknownIntent
    else if AnyMatches(lq, rules[k].1) then rules[k].0
    else FirstRule(lq, rules, k + 1)
  }

  /** The intent depends on which predicates hold exactly by priority: an
      intent is chosen iff its predicate holds and no earlier one does, and the
      query is unknown iff no predicate holds. So a query that satisfies the
      disease predicate is routed there whatever else it contains. */
  lemma ClassifyFirstMatch(lq: string)
    ensures Classify(lq) == FirstRule(lq, Rules(), 0)
    ensures Classify(lq) == DiseaseGeneIntent <==> IsDiseaseGeneQuery(lq)
    ensures Classify(lq) == SequenceIntent <==> !IsDiseaseGeneQuery(lq) && IsSequenceAnalysis(lq)
    ensures Classify(lq) == ExpressionIntent <==>
      !IsDiseaseGeneQuery(lq) && !IsSequenceAnalysis(lq) && IsExpressionQuery(lq)
    ensures Classify(lq) == ProteinIntent <==>
      !IsDiseaseGeneQuery(lq) && !IsSequenceAnalysis(lq) && !IsExpressionQuery(lq) && IsProteinQuery(lq)
    ensures Classify(lq) == PathwayIntent <==>
      !IsDiseaseGeneQuery(lq) && !IsSequenceAnalysis(lq) && !IsExpressionQuery(lq) && !IsProteinQuery(lq)
      && IsPathwayQuery(lq)
    ensures Classify(lq) == UnknownIntent <==>
      !IsDiseaseGeneQuery(lq) && !IsSequenceAnalysis(lq) && !IsExpressionQuery(lq) && !IsProteinQuery(lq)
      && !IsPathwayQuery(lq)
  {
  }

  // ---------------------------------------------------------------------------
  // Introducing and eliminating matches

  /** No line terminator in `s[i..j]`. */
  predicate SameLine(s: string, i: nat, j: nat)
  {
    forall k :: i <= k < j && k < |s| ==> !IsLineTerminator(s[k])
  }

  lemma {:induction false} GapThenIntro(s: string, atoms: seq<Atom>, i: nat, j: nat)
    requires |atoms| > 0 && i <= j <= |s| && SameLine(s, i, j) && MatchAt(s, atoms, j)
    ensures GapThen(s, atoms, i)
    decreases j - i
  {
    if i < j {
      GapThenIntro(s, atoms, i + 1, j);
    }
  }

  lemma {:induction false} SearchFromIntro(s: string, atoms: seq<Atom>, i: nat, j: nat)
    requires |atoms| > 0 && i <= j && MatchAt(s, atoms, j)
    ensures SearchFrom(s, atoms, i)
    decreases j - i
  {
    if i < j {
      assert i < |s| by { MatchAtBound(s, atoms, j); }
      SearchFromIntro(s, atoms, i + 1, j);
    }
  }

  lemma MatchAtBound(s: string, atoms: seq<Atom>, i: nat)
    requires |atoms| > 0 && MatchAt(s, atoms, i)
    ensures i <= |s|
  {
    match atoms[0]
    case Word(alts) =>
      var k :| 0 <= k < |alts| && OccursAt(s, i, alts[k]) && GapThen(s, atoms[1..], i + |alts[k]|);
      OccursAtSlice(s, i, alts[k]);
    case NucleotideRun =>
  }

  /** A word of the alternation `alts` at `i`, then on the same line a word of
      `alts'` at `j`, is a match of the two-atom pattern. */
  lemma TwoWordsIntro(s: string, alts: seq<string>, k: nat, i: nat, alts': seq<string>, k': nat, j: nat)
    requires k < |alts| && k' < |alts'|
    requires OccursAt(s, i, alts[k]) && OccursAt(s, j, alts'[k'])
    requires i + |alts[k]| <= j && SameLine(s, i + |alts[k]|, j)
    ensures Matches(s, [Word(alts), Word(alts')])
  {
    var p := [Word(alts), Word(alts')];
    OccursAtSlice(s, j, alts'[k']);
    assert p[1..][1..] == [];
    assert MatchAt(s, p[1..], j);
    GapThenIntro(s, p[1..], i + |alts[k]|, j);
    assert MatchAt(s, p, i);
    SearchFromIntro(s, p, 0, i);
  }

  /** A word of the alternation `alts` anywhere matches the one-atom pattern. */
  lemma OneWordIntro(s: string, alts: seq<string>, k: nat, i: nat)
    requires k < |alts| && OccursAt(s, i, alts[k])
    ensures Matches(s, [Word(alts)])
  {
    var p := [Word(alts)];
    assert p[1..] == [];
    assert MatchAt(s, p, i);
    SearchFromIntro(s, p, 0, i);
  }

  /** Some alternative of the alternation occurs in `s`. */
  predicate SomeContained(s: string, alts: seq<string>)
  {
    exists k :: 0 <= k < |alts| && Contains(s, alts[k])
  }

  /** Every word atom of a matching chain has an alternative that occurs in the
      text: the necessary condition used to show that a pattern fails. */
  lemma {:induction false} GapThenWords(s: string, atoms: seq<Atom>, i: nat)
    requires GapThen(s, atoms, i)
    ensures forall n :: 0 <= n < |atoms| && atoms[n].Word? ==> SomeContained(s, atoms[n].alternatives)
    decreases |atoms|, |s| - i + 1
  {
    if atoms != [] {
      if MatchAt(s, atoms, i) {
        MatchAtWords(s, atoms, i);
      } else {
        GapThenWords(s, atoms, i + 1);
      }
    }
  }

  lemma {:induction false} MatchAtWords(s: string, atoms: seq<Atom>, i: nat)
    requires |atoms| > 0 && MatchAt(s, atoms, i)
    ensures forall n :: 0 <= n < |atoms| && atoms[n].Word? ==> SomeContained(s, atoms[n].alternatives)
    decreases |atoms|, 0
  {
    var rest := atoms[1..];
    match atoms[0]
    case Word(alts) =>
      var k :| 0 <= k < |alts| && OccursAt(s, i, alts[k]) && GapThen(s, rest, i + |alts[k]|);
      ContainsIntro(s, alts[k], i);
      GapThenWords(s, rest, i + |alts[k]|);
      forall n | 0 < n < |atoms| && atoms[n].Word? ensures SomeContained(s, atoms[n].alternatives) {
        assert atoms[n] == rest[n - 1];
      }
    case NucleotideRun =>
      GapThenWords(s, rest, i + 4);
      forall n | 0 < n < |atoms| && atoms[n].Word? ensures SomeContained(s, atoms[n].alternatives) {
        assert atoms[n] == rest[n - 1];
      }
  }

  lemma {:induction false} SearchFromWords(s: string, atoms: seq<Atom>, i: nat)
    requires SearchFrom(s, atoms, i)
    ensures forall n :: 0 <= n < |atoms| && atoms[n].Word? ==> SomeContained(s, atoms[n].alternatives)
    decreases |s| - i
  {
    if atoms != [] {
      if MatchAt(s, atoms, i) {
        MatchAtWords(s, atoms, i);
      } else {
        SearchFromWords(s, atoms, i + 1);
      }
    }
  }

  /** A pattern matches only if each of its word atoms has an alternative in
      the text. */
  lemma MatchesWords(s: string, atoms: seq<Atom>)
    requires Matches(s, atoms)
    ensures forall n :: 0 <= n < |atoms| && atoms[n].Word? ==> SomeContained(s, atoms[n].alternatives)
  {
    SearchFromWords(s, atoms, 0);
  }

  /** A chain with a nucleotide-run atom matches only if four nucleotide
      letters occur somewhere. */
  lemma {:induction false} GapThenRun(s: string, atoms: seq<Atom>, i: nat)
    requires GapThen(s, atoms, i) && NucleotideRun in atoms
    ensures exists p :: RunAt(s, p)
    decreases |atoms|, |s| - i + 1
  {
    if MatchAt(s, atoms, i) {
      MatchAtRun(s, atoms, i);
    } else {
      GapThenRun(s, atoms, i + 1);
    }
  }

  lemma {:induction false} MatchAtRun(s: string, atoms: seq<Atom>, i: nat)
    requires |atoms| > 0 && MatchAt(s, atoms, i) && NucleotideRun in atoms
    ensures exists p :: RunAt(s, p)
    decreases |atoms|, 0
  {
    var rest := atoms[1..];
    assert atoms == [atoms[0]] + rest;
    match atoms[0]
    case Word(alts) =>
      var k :| 0 <= k < |alts| && OccursAt(s, i, alts[k]) && GapThen(s, rest, i + |alts[k]|);
      GapThenRun(s, rest, i + |alts[k]|);
    case NucleotideRun =>
  }

  /** The second sequence rule `/sequence.*[ATCG]{4,}/i` holds only if a run
      of four nucleotide letters occurs. */
  lemma SequenceRuleHasRun(lq: string)
    requires Matches(lq, SequencePatterns[1])
    ensures exists p :: RunAt(lq, p)
  {
    var atoms := SequencePatterns[1];
    var i :| MatchAt(lq, atoms, i) by {
      SearchFromHit(lq, atoms, 0);
    }
    MatchAtRun(lq, atoms, i);
  }

  lemma {:induction false} SearchFromHit(s: string, atoms: seq<Atom>, i: nat)
    requires |atoms| > 0 && SearchFrom(s, atoms, i)
    ensures exists j :: i <= j && MatchAt(s, atoms, j)
    decreases |s| - i
  {
    if !MatchAt(s, atoms, i) {
      SearchFromHit(s, atoms, i + 1);
    }
  }

  // ---------------------------------------------------------------------------
  // What the individual predicates need and what suffices

  /** Every disease pattern has the atom `genes?`: without `gene` in the
      query there is no disease-gene routing. */
  lemma DiseaseNeedsGene(lq: string)
    requires IsDiseaseGeneQuery(lq)
    ensures Contains(lq, "gene")
  {
    var k :| 0 <= k < |DiseasePatterns| && Matches(lq, DiseasePatterns[k]);
    MatchesWords(lq, DiseasePatterns[k]);
    var n := if k == 0 then 0 else 1;
    assert DiseasePatterns[k][n] == Word(["gene"]);
  }

  /** Every protein pattern has the atom `protein`. */
  lemma ProteinNeedsProtein(lq: string)
    requires IsProteinQuery(lq)
    ensures Contains(lq, "protein")
  {
    var k :| 0 <= k < |ProteinPatterns| && Matches(lq, ProteinPatterns[k]);
    MatchesWords(lq, ProteinPatterns[k]);
    var n := if k == 0 then 0 else 1;
    assert ProteinPatterns[k][n] == Word(["protein"]);
  }

  /** `pathway` anywhere satisfies the pathway predicate. */
  lemma PathwayWordSuffices(lq: string)
    requires Contains(lq, "pathway")
    ensures IsPathwayQuery(lq)
  {
    ContainsIff(lq, "pathway");
    var i :| OccursAt(lq, i, "pathway");
    OneWordIntro(lq, ["pathway"], 0, i);
    assert Matches(lq, PathwayPatterns[0]);
  }

  /** `express` anywhere (and so `expression` and `expressed`) satisfies the
      expression predicate. */
  lemma ExpressWordSuffices(lq: string)
    requires Contains(lq, "express")
    ensures IsExpressionQuery(lq)
  {
    ContainsIff(lq, "express");
    var i :| OccursAt(lq, i, "express");
    OneWordIntro(lq, ["expression", "express", "expressed"], 1, i);
    assert Matches(lq, ExpressionPatterns[0]);
  }

  /** `gc`, `orf`, `blast` or `complement` anywhere satisfies the sequence
      predicate. */
  lemma SequenceWordSuffices(lq: string, k: nat)
    requires k < 4 && Contains(lq, ["gc", "orf", "blast", "complement"][k])
    ensures IsSequenceAnalysis(lq)
  {
    var alts := ["gc", "orf", "blast", "complement"];
    ContainsIff(lq, alts[k]);
    var i :| OccursAt(lq, i, alts[k]);
    OneWordIntro(lq, alts, k, i);
    assert Matches(lq, SequencePatterns[2]);
  }
}
