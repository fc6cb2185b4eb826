/** Worked examples: concrete inputs run through the model. */
module Scenarios {
  import opened Text
  import opened Dna
  import opened Router
  import opened Engine

  /** A 39-base sequence whose only start codon in frame 0 is closed by a
      stop codon 24 bases in, below the 30-base minimum. */
  const Sample: string := "ATGGCCATTGTA" + "ATGGGCCGCTGA" + "AAGGGTGCCCGA" + "TAG"

  lemma SampleFirstStop()
    ensures FirstStop(Sample, 3) == Some(21)
  {
    assert FirstStop(Sample, 21) == Some(21);
    assert FirstStop(Sample, 18) == Some(21);
    assert FirstStop(Sample, 15) == Some(21);
    assert FirstStop(Sample, 12) == Some(21);
    assert FirstStop(Sample, 9) == Some(21);
    assert FirstStop(Sample, 6) == Some(21);
  }

  /** Frame 0: the open frame from 0 to 24 is too short, and the scan
      resumes after its stop codon, where no start codon follows. */
  lemma SampleFrame0()
    ensures ScanFrame(Sample, 0, 0) == []
  {
    SampleFirstStop();
    assert IsStartAt(Sample, 0);
    ScanFrameAtStart(Sample, 0, 0, 21);
    assert ScanFrame(Sample, 0, 0) == ScanFrame(Sample, 0, 24);
    ScanSkipsNonStart(Sample, 0, 24, 6);
  }

  /** Frames 1 and 2 hold no start codon. */
  lemma SampleFrame1()
    ensures ScanFrame(Sample, 1, 1) == []
  {
    ScanSkipsNonStart(Sample, 1, 1, 13);
  }

  lemma SampleFrame2()
    ensures ScanFrame(Sample, 2, 2) == []
  {
    ScanSkipsNonStart(Sample, 2, 2, 13);
  }

  /** The sample has no significant ORF. */
  lemma SampleOrfs()
    ensures Orfs(Sample) == [NoOrfs(NoOrfMessage)]
  {
    SampleFrame0();
    SampleFrame1();
    SampleFrame2();
    assert OrfsFrom(Sample, 0) == ScanFrame(Sample, 0, 0) + ScanFrame(Sample, 1, 1) + ScanFrame(Sample, 2, 2) + OrfsFrom(Sample, 3);
  }

  /** The sequence suggestion `Analyze sequence ATCGATCGATCG`. */
  const SampleQuery: string := "Analyze sequence " + "ATCGATCGATCG"

  /** The leading `A` and the `ce` of `sequence` are too short to count; the
      sequence extracted is the twelve-base run. */
  lemma SampleQueryExtracts()
    ensures ExtractSequence(SampleQuery) == Some("ATCGATCGATCG")
  {
    var q := SampleQuery;
    assert |q| == 29;
    assert forall p :: 0 <= p < 17 ==> !RunAt(q, p) by {
      assert q[..17] == "Analyze sequence ";
      forall p | 0 <= p < 17 ensures !RunAt(q, p) {
        assert q[p] == q[..17][p];
        if p + 3 < 17 {
          assert q[p + 3] == q[..17][p + 3];
        }
      }
    }
    assert q[17..] == "ATCGATCGATCG";
    assert RunAt(q, 17) by {
      assert q[17] == q[17..][0] && q[18] == q[17..][1] && q[19] == q[17..][2] && q[20] == q[17..][3];
    }
    assert forall k :: 17 <= k < 29 ==> IsNucleotide(q[k]) by {
      forall k | 17 <= k < 29 ensures IsNucleotide(q[k]) {
        assert q[k] == q[17..][k - 17];
      }
    }
    assert RunEnd(q, 17) == 29;
    assert FirstRunFrom(q, 0) == Some(17);
    assert q[17..29] == "ATCGATCGATCG";
    UpperOfDna("ATCGATCGATCG");
    assert ExtractSequence(q) == Some(ToUpper(q[17..29]));
  }

  /** Upper case leaves A/T/C/G text as it is. */
  lemma UpperOfDna(s: string)
    requires IsDna(s)
    ensures ToUpper(s) == s
  {
  }

  /** Three each of A, T, G and C. */
  lemma SampleCounts(b: char)
    requires b in "ATCG"
    ensures Count("ATCG" + "ATCG" + "ATCG", b) == 3
  {
    UnitCount(b);
    TripleCount("ATCG", b);
  }

  lemma UnitCount(b: char)
    ensures Count("ATCG", b) == (if b in "ATCG" then 1 else 0)
  {
    assert Count("G", b) == (if b == 'G' then 1 else 0) by { assert "G"[1..] == []; }
    assert Count("CG", b) == (if b == 'C' then 1 else 0) + Count("G", b) by { assert "CG"[1..] == "G"; }
    assert Count("TCG", b) == (if b == 'T' then 1 else 0) + Count("CG", b) by { assert "TCG"[1..] == "CG"; }
    assert Count("ATCG", b) == (if b == 'A' then 1 else 0) + Count("TCG", b) by { assert "ATCG"[1..] == "TCG"; }
  }

  lemma TripleCount(unit: string, b: char)
    ensures Count(unit + unit + unit, b) == 3 * Count(unit, b)
  {
    CountAppend(unit + unit, unit, b);
    CountAppend(unit, unit, b);
  }

  /** The complement swaps A with T and G with C. */
  lemma SampleComplement()
    ensures Complement("ATCG" + "ATCG" + "ATCG") == "TAGCTAGCTAGC"
  {
    var unit := "ATCG";
    assert Complement(unit) == "TAGC";
    ComplementAppend(unit + unit, unit);
    ComplementAppend(unit, unit);
    assert "TAGC" + "TAGC" + "TAGC" == "TAGCTAGCTAGC";
  }

  /** Half of the bases are G or C, and the weight is 12 * 330. */
  lemma SampleQueryAnalysis(s: string)
    requires s == "ATCG" + "ATCG" + "ATCG"
    ensures var r := Analysis(s);
      && r.length == 12 && r.composition.a == 3 && r.composition.t == 3 && r.composition.g == 3 && r.composition.c == 3
      && r.gcContent == Some(50.0) && r.molecularWeight == 3960
      && r.complement == "TAGCTAGCTAGC" && r.orfs == [NoOrfs(NoOrfMessage)]
  {
    forall q: nat | q + 3 <= |s| ensures !IsStartAt(s, q) {
      assert s[q] != 'A' || s[q + 2] != 'G';
    }
    NoStartNoOrfs(s);
    SampleCounts('A');
    SampleCounts('T');
    SampleCounts('G');
    SampleCounts('C');
    SampleComplement();
  }

  /** The sequence handler answers the sample query with the analysis of
      its twelve bases. */
  lemma SampleQueryHandled(query: string, steps: seq<string>)
    requires query == SampleQuery
    ensures var r := HandleSequenceAnalysis(query, steps);
      && r.SequenceAnalysis? && r.sequence == "ATCGATCGATCG" && r.sequenceLength == 12
      && r.analysis.gcContent == Some(50.0) && r.analysis.complement == "TAGCTAGCTAGC"
  {
    SampleQueryExtracts();
    var r := HandleSequenceAnalysis(query, steps);
    ThreeUnits();
    SampleQueryAnalysis(r.sequence);
  }

  lemma ThreeUnits()
    ensures "ATCGATCGATCG" == "ATCG" + "ATCG" + "ATCG"
  {
  }
}
