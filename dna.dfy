/** The DNA sequence analyser of `AnalysisEngine`: base composition, GC
    content, melting-temperature estimate, complement and reverse complement,
    molecular-weight estimate and the three-frame open-reading-frame scan.

    Percentages, GC content and melting temperature are kept as exact reals;
    the engine renders them with `toFixed`, which is not modelled. */
module Dna {
  import opened Text

  // ---------------------------------------------------------------------------
  // Bases

  predicate IsBase(c: char) { c == 'A' || c == 'T' || c == 'G' || c == 'C' }

  /** Every character is one of A, T, G, C (upper case). */
  predicate IsDna(s: string) { forall i :: 0 <= i < |s| ==> IsBase(s[i]) }

  /** Number of occurrences of `b` in `s`. */
  function Count(s: string, b: char): nat
  {
    if s == [] then 0 else (if s[0] == b then 1 else 0) + Count(s[1..], b)
  }

  lemma {:induction false} CountAppend(s: string, t: string, b: char)
    ensures Count(s + t, b) == Count(s, b) + Count(t, b)
  {
    if s == [] {
      assert s + t == t;
    } else {
      assert (s + t)[1..] == s[1..] + t;
      CountAppend(s[1..], t, b);
    }
  }

  lemma CountSnoc(s: string, c: char, b: char)
    ensures Count(s + [c], b) == Count(s, b) + (if c == b then 1 else 0)
  {
    CountAppend(s, [c], b);
    assert Count([c], b) == (if c == b then 1 else 0) + Count([], b);
  }

  /** On an A/T/G/C string the four base counts add up to its length. */
  lemma {:induction false} BaseCountsSum(s: string)
    requires IsDna(s)
    ensures Count(s, 'A') + Count(s, 'T') + Count(s, 'G') + Count(s, 'C') == |s|
  {
    if s != [] {
      BaseCountsSum(s[1..]);
    }
  }

  // ---------------------------------------------------------------------------
  // Complement and reverse complement

  /** `complementMap[base]`, joined: a character outside A/T/G/C maps to
      `undefined`, which `join('')` renders as the empty string. */
  function ComplementBase(c: char): string
  {
    if c == 'A' then "T" else if c == 'T' then "A" else if c == 'G' then "C" else if c == 'C' then "G" else ""
  }

  /** `getComplement(sequence)`. */
  function Complement(s: string): string
  {
    if s == [] then [] else ComplementBase(s[0]) + Complement(s[1..])
  }

  /** `split('').reverse().join('')`. */
  function Reverse(s: string): string
  {
    if s == [] then [] else Reverse(s[1..]) + [s[0]]
  }

  function ReverseComplement(s: string): string
  {
    Reverse(Complement(s))
  }

  lemma {:induction false} ComplementAppend(s: string, t: string)
    ensures Complement(s + t) == Complement(s) + Complement(t)
  {
    if s == [] {
      assert s + t == t;
    } else {
      assert (s + t)[1..] == s[1..] + t;
      ComplementAppend(s[1..], t);
    }
  }

  /** On A/T/G/C input the complement substitutes base by base (A<->T, G<->C):
      same length, again A/T/G/C. */
  lemma {:induction false} ComplementAt(s: string)
    requires IsDna(s)
    ensures |Complement(s)| == |s| && IsDna(Complement(s))
    ensures forall i :: 0 <= i < |s| ==> Complement(s)[i] == ComplementBase(s[i])[0]
  {
    if s != [] {
      ComplementAt(s[1..]);
      assert Complement(s) == [ComplementBase(s[0])[0]] + Complement(s[1..]);
    }
  }

  /** A character outside A/T/G/C is dropped from the complement. */
  lemma ComplementDropsOthers(s: string, t: string, c: char)
    requires !IsBase(c)
    ensures Complement(s + [c] + t) == Complement(s) + Complement(t)
  {
    var u := s + [c];
    ComplementAppend(u, t);
    ComplementAppend(s, [c]);
    assert [c][1..] == [];
    assert Complement([c]) == ComplementBase(c) + Complement([]) == [];
    assert Complement(u) == Complement(s);
  }

  /** Complementing twice gives back an A/T/G/C string. */
  lemma {:induction false} ComplementInvolution(s: string)
    requires IsDna(s)
    ensures Complement(Complement(s)) == s
  {
    if s != [] {
      ComplementInvolution(s[1..]);
      ComplementAppend(ComplementBase(s[0]), Complement(s[1..]));
      assert Complement(ComplementBase(s[0])) == [s[0]];
      assert s == [s[0]] + s[1..];
    }
  }

  lemma {:induction false} ReverseAppend(s: string, t: string)
    ensures Reverse(s + t) == Reverse(t) + Reverse(s)
  {
    if s == [] {
      assert s + t == t;
    } else {
      assert (s + t)[1..] == s[1..] + t;
      ReverseAppend(s[1..], t);
    }
  }

  lemma {:induction false} ReverseLength(s: string)
    ensures |Reverse(s)| == |s|
  {
    if s != [] { ReverseLength(s[1..]); }
  }

  lemma {:induction false} ReverseInvolution(s: string)
    ensures Reverse(Reverse(s)) == s
  {
    if s != [] {
      ReverseInvolution(s[1..]);
      ReverseAppend(Reverse(s[1..]), [s[0]]);
      assert Reverse([s[0]]) == Reverse([]) + [s[0]];
      assert s == [s[0]] + s[1..];
    }
  }

  /** Complement and reversal commute. */
  lemma {:induction false} ComplementReverse(s: string)
    ensures Complement(Reverse(s)) == Reverse(Complement(s))
  {
    if s != [] {
      ComplementReverse(s[1..]);
      ComplementAppend(Reverse(s[1..]), [s[0]]);
      ReverseAppend(ComplementBase(s[0]), Complement(s[1..]));
      assert Complement([s[0]]) == ComplementBase(s[0]) + Complement([]);
      var b := ComplementBase(s[0]);
      if b != [] {
        assert b == [b[0]];
        assert Reverse(b) == Reverse([]) + [b[0]];
      }
    }
  }

  /** The reverse complement of an A/T/G/C string has the same length, is again
      A/T/G/C, and taking it twice gives back the input. */
  lemma ReverseComplementInvolution(s: string)
    requires IsDna(s)
    ensures |ReverseComplement(s)| == |s|
    ensures ReverseComplement(ReverseComplement(s)) == s
  {
    ComplementAt(s);
    ReverseLength(Complement(s));
    ComplementReverse(Complement(s));
    ComplementInvolution(s);
    ReverseInvolution(s);
  }

  // ---------------------------------------------------------------------------
  // Open reading frames

  /** One entry of the ORF list: a found ORF (1-based inclusive positions), or
      the single placeholder returned when none qualifies. */
  datatype OrfEntry =
    | Orf(frame: nat, start: nat, end: nat, length: nat, sequence: string)
    | NoOrfs(message: string)

  const StartCodon: string := "ATG"
  const StopCodons: seq<string> := ["TAA", "TAG", "TGA"]
  const MinOrfLength: nat := 30
  const NoOrfMessage: string := "No significant ORFs " + "found (minimum 30bp)"

  /** `sequence.substr(i, 3)` for an index with three characters left. */
  function CodonAt(s: string, i: nat): string
    requires i + 3 <= |s|
  {
    s[i..i + 3]
  }

  /** The codon at `i` is ATG, tested base by base. */
  predicate IsStartAt(s: string, i: nat)
    requires i + 3 <= |s|
  {
    s[i] == 'A' && s[i + 1] == 'T' && s[i + 2] == 'G'
  }

  /** The codon at `i` is TAA, TAG or TGA, tested base by base. */
  predicate IsStopAt(s: string, i: nat)
    requires i + 3 <= |s|
  {
    s[i] == 'T' && ((s[i + 1] == 'A' && (s[i + 2] == 'A' || s[i + 2] == 'G')) || (s[i + 1] == 'G' && s[i + 2] == 'A'))
  }

  /** The base-by-base tests are the codon comparisons the engine makes. */
  lemma CodonTests(s: string, i: nat)
    requires i + 3 <= |s|
    ensures CodonAt(s, i) == StartCodon <==> IsStartAt(s, i)
    ensures CodonAt(s, i) in StopCodons <==> IsStopAt(s, i)
  {
    var c := CodonAt(s, i);
    assert c == [s[i], s[i + 1], s[i + 2]];
  }

  /** The inner loop's search: the first in-frame stop codon at or after `i`. */
  function FirstStop(s: string, i: nat): (r: Option<nat>)
    decreases |s| - i
    ensures r.Some? ==> i <= r.value && r.value + 3 <= |s| && (r.value - i) % 3 == 0 && IsStopAt(s, r.value)
  {
    if i + 3 > |s| then None
    else if IsStopAt(s, i) then Some(i)
    else FirstStop(s, i + 3)
  }

  /** `FirstStop` finds the first in-frame stop: none lies between `i` and the
      one it returns, and when it returns none there is none in frame at all. */
  lemma {:induction false} FirstStopIsFirst(s: string, i: nat)
    ensures FirstStop(s, i).Some? ==>
      forall k: nat :: i + 3 * k < FirstStop(s, i).value ==> !IsStopAt(s, i + 3 * k)
    ensures FirstStop(s, i).None? ==>
      forall k: nat :: i + 3 * k + 3 <= |s| ==> !IsStopAt(s, i + 3 * k)
    decreases |s| - i
  {
    if i + 3 <= |s| && !IsStopAt(s, i) {
      FirstStopIsFirst(s, i + 3);
      var r := FirstStop(s, i + 3);
      assert FirstStop(s, i) == r;
      if r.Some? {
        forall k: nat | i + 3 * k < r.value ensures !IsStopAt(s, i + 3 * k) {
          if k > 0 { assert i + 3 * k == (i + 3) + 3 * (k - 1); }
        }
      } else {
        forall k: nat | i + 3 * k + 3 <= |s| ensures !IsStopAt(s, i + 3 * k) {
          if k > 0 { assert i + 3 * k == (i + 3) + 3 * (k - 1); }
        }
      }
    }
  }

  /** ORFs that the scan of frame `f` (0-based) emits from index `i` on:
      an ATG opens a candidate, the first in-frame stop closes it, the
      candidate is kept if it spans at least 30 bases, and the scan resumes
      right after the stop codon; a candidate without a stop ends the frame. */
  function ScanFrame(s: string, f: nat, i: nat): seq<OrfEntry>
    decreases |s| - i
  {
    if i + 3 > |s| then []
    else if IsStartAt(s, i) then
      match FirstStop(s, i + 3)
      case None => []
      case Some(j) =>
        var length := j - i + 3;
        (if length >= MinOrfLength then [Orf(f + 1, i + 1, j + 3, length, s[i..j + 3])] else [])
        + ScanFrame(s, f, j + 3)
    else ScanFrame(s, f, i + 3)
  }

  /** ORFs of frames `f`, `f + 1`, ..., 2 (0-based), frame by frame. */
  function OrfsFrom(s: string, f: nat): seq<OrfEntry>
    decreases 3 - f
  {
    if f >= 3 then [] else ScanFrame(s, f, f) + OrfsFrom(s, f + 1)
  }

  /** The result of `findORFs(sequence)`. */
  function Orfs(s: string): seq<OrfEntry>
  {
    var found := OrfsFrom(s, 0);
    if |found| > 0 then found else [NoOrfs(NoOrfMessage)]
  }

  /** What every emitted ORF record satisfies: its frame, 1-based inclusive
      bounds in frame, length a multiple of three and at least 30, the text
      between its bounds, ATG first, a stop codon last and no in-frame stop
      codon in between. */
  ghost predicate WellFormedOrf(s: string, o: OrfEntry)
  {
    o.Orf? && OrfPlacement(s, o) && OrfContent(s, o)
  }

  /** Frame, bounds and length of an ORF record. */
  predicate OrfPlacement(s: string, o: OrfEntry)
    requires o.Orf?
  {
    && 1 <= o.frame <= 3
    && 1 <= o.start && (o.start - 1) % 3 == o.frame - 1
    && o.start + 5 <= o.end <= |s|
    && o.length == o.end - o.start + 1
    && o.length % 3 == 0 && o.length >= MinOrfLength
  }

  /** The text of an ORF record and its codons. */
  ghost predicate OrfContent(s: string, o: OrfEntry)
    requires o.Orf? && OrfPlacement(s, o)
  {
    && o.sequence == s[o.start - 1..o.end]
    && o.sequence[..3] == StartCodon
    && o.sequence[o.length - 3..] in StopCodons
    && forall k: nat :: o.start + 2 + 3 * k < o.end - 3 ==> !IsStopAt(s, o.start + 2 + 3 * k)
  }

  ghost predicate AllWellFormed(s: string, r: seq<OrfEntry>)
  {
    forall k :: 0 <= k < |r| ==> WellFormedOrf(s, r[k])
  }

  /** Every entry of `r` is an ORF of frame `f + 1` starting after index `lo`. */
  predicate InFrame(r: seq<OrfEntry>, f: nat, lo: nat)
  {
    forall k :: 0 <= k < |r| ==> r[k].Orf? && r[k].frame == f + 1 && lo < r[k].start
  }

  /** Every entry of `r` is an ORF of frame `lo` or later. */
  predicate FramesFrom(r: seq<OrfEntry>, lo: nat)
  {
    forall k :: 0 <= k < |r| ==> r[k].Orf? && lo <= r[k].frame
  }

  /** Entries listed frame by frame, and within a frame disjoint and by
      increasing position. */
  predicate Ordered(r: seq<OrfEntry>)
  {
    forall a, b :: 0 <= a < b < |r| && r[a].Orf? && r[b].Orf? ==>
      r[a].frame < r[b].frame || (r[a].frame == r[b].frame && r[a].end < r[b].start)
  }

  lemma AllWellFormedAppend(s: string, a: seq<OrfEntry>, b: seq<OrfEntry>)
    requires AllWellFormed(s, a) && AllWellFormed(s, b)
    ensures AllWellFormed(s, a + b)
  {
    forall k | 0 <= k < |a + b| ensures WellFormedOrf(s, (a + b)[k]) {
      if k >= |a| { assert (a + b)[k] == b[k - |a|]; }
    }
  }

  lemma InFrameCons(o: OrfEntry, rest: seq<OrfEntry>, f: nat, lo: nat)
    requires o.Orf? && o.frame == f + 1 && lo < o.start <= o.end
    requires InFrame(rest, f, o.end) && Ordered(rest)
    ensures InFrame([o] + rest, f, lo) && Ordered([o] + rest)
  {
    var r := [o] + rest;
    forall k | 0 <= k < |r| ensures r[k].Orf? && r[k].frame == f + 1 && lo < r[k].start {
      if k > 0 { assert r[k] == rest[k - 1]; }
    }
    forall x, y | 0 <= x < y < |r| && r[x].Orf? && r[y].Orf?
      ensures r[x].frame < r[y].frame || (r[x].frame == r[y].frame && r[x].end < r[y].start)
    {
      assert r[y] == rest[y - 1];
      if x > 0 { assert r[x] == rest[x - 1]; }
    }
  }

  lemma InFrameWeaken(r: seq<OrfEntry>, f: nat, lo: nat, lo': nat)
    requires InFrame(r, f, lo) && lo' <= lo
    ensures InFrame(r, f, lo')
  {
  }

  /** Frame `f + 1` in front of frames `f + 2` and later keeps the order. */
  lemma OrderedAppend(a: seq<OrfEntry>, b: seq<OrfEntry>, f: nat)
    requires InFrame(a, f, 0) && Ordered(a) && FramesFrom(b, f + 2) && Ordered(b)
    ensures FramesFrom(a + b, f + 1) && Ordered(a + b)
  {
    var r := a + b;
    forall k | 0 <= k < |r| ensures r[k].Orf? && f + 1 <= r[k].frame {
      if k >= |a| { assert r[k] == b[k - |a|]; }
    }
    forall x, y | 0 <= x < y < |r| && r[x].Orf? && r[y].Orf?
      ensures r[x].frame < r[y].frame || (r[x].frame == r[y].frame && r[x].end < r[y].start)
    {
      if y < |a| {
        assert r[x] == a[x] && r[y] == a[y];
      } else if x >= |a| {
        assert r[x] == b[x - |a|] && r[y] == b[y - |a|];
      } else {
        assert r[x] == a[x] && r[y] == b[y - |a|];
      }
    }
  }

  lemma ScanFrameHead(s: string, f: nat, i: nat, j: nat)
    requires f < 3 && i % 3 == f && i + 3 <= |s| && IsStartAt(s, i)
    requires FirstStop(s, i + 3) == Some(j) && j - i + 3 >= MinOrfLength
    ensures WellFormedOrf(s, Orf(f + 1, i + 1, j + 3, j - i + 3, s[i..j + 3]))
  {
    HeadPlacement(s, f, i, j);
    HeadContent(s, f, i, j);
  }

  lemma HeadPlacement(s: string, f: nat, i: nat, j: nat)
    requires f < 3 && i % 3 == f && i + 3 <= |s|
    requires FirstStop(s, i + 3) == Some(j) && j - i + 3 >= MinOrfLength
    ensures OrfPlacement(s, Orf(f + 1, i + 1, j + 3, j - i + 3, s[i..j + 3]))
  {
    assert (j - (i + 3)) % 3 == 0;
  }

  lemma HeadContent(s: string, f: nat, i: nat, j: nat)
    requires f < 3 && i % 3 == f && i + 3 <= |s| && IsStartAt(s, i)
    requires FirstStop(s, i + 3) == Some(j) && j - i + 3 >= MinOrfLength
    requires OrfPlacement(s, Orf(f + 1, i + 1, j + 3, j - i + 3, s[i..j + 3]))
    ensures OrfContent(s, Orf(f + 1, i + 1, j + 3, j - i + 3, s[i..j + 3]))
  {
    var o := Orf(f + 1, i + 1, j + 3, j - i + 3, s[i..j + 3]);
    OrfCodons(s, i, j);
    OrfInterior(s, i, j);
    forall k: nat | o.start + 2 + 3 * k < o.end - 3 ensures !IsStopAt(s, o.start + 2 + 3 * k) {
      assert o.start + 2 + 3 * k == i + 3 + 3 * k;
    }
  }

  /** The text from an ATG through a stop codon starts with the start codon
      and ends with that stop codon. */
  lemma OrfCodons(s: string, i: nat, j: nat)
    requires i + 3 <= j && j + 3 <= |s| && IsStartAt(s, i) && IsStopAt(s, j)
    ensures s[i..j + 3][..3] == StartCodon && s[i..j + 3][j - i..] in StopCodons
  {
    CodonTests(s, i);
    CodonTests(s, j);
    assert s[i..j + 3][..3] == CodonAt(s, i);
    assert s[i..j + 3][j - i..] == CodonAt(s, j);
  }

  /** No in-frame stop codon lies between an ATG and the first stop found. */
  lemma OrfInterior(s: string, i: nat, j: nat)
    requires FirstStop(s, i + 3) == Some(j)
    ensures forall k: nat :: i + 3 + 3 * k < j ==> !IsStopAt(s, i + 3 + 3 * k)
  {
    FirstStopIsFirst(s, i + 3);
  }

  /** The emitted record at an ATG whose first stop codon is at `j`. */
  lemma ScanFrameAtStart(s: string, f: nat, i: nat, j: nat)
    requires i + 3 <= |s| && IsStartAt(s, i) && FirstStop(s, i + 3) == Some(j)
    ensures ScanFrame(s, f, i) ==
      (if j - i + 3 >= MinOrfLength then [Orf(f + 1, i + 1, j + 3, j - i + 3, s[i..j + 3])] else [])
      + ScanFrame(s, f, j + 3)
  {
  }

  /** A candidate without an in-frame stop codon is dropped and ends its
      frame: nothing from index `i` on is reported, whatever ATGs follow. */
  lemma UnterminatedEndsFrame(s: string, f: nat, i: nat)
    requires i + 3 <= |s| && IsStartAt(s, i) && FirstStop(s, i + 3).None?
    ensures ScanFrame(s, f, i) == []
    ensures forall k: nat :: i + 3 + 3 * k + 3 <= |s| ==> !IsStopAt(s, i + 3 + 3 * k)
  {
    FirstStopIsFirst(s, i + 3);
  }

  lemma {:induction false} ScanFrameWellFormed(s: string, f: nat, i: nat)
    requires f < 3 && i % 3 == f
    ensures AllWellFormed(s, ScanFrame(s, f, i))
    decreases |s| - i
  {
    if i + 3 <= |s| {
      if IsStartAt(s, i) {
        var stop := FirstStop(s, i + 3);
        if stop.Some? {
          var j := stop.value;
          ScanFrameWellFormed(s, f, j + 3);
          ScanFrameAtStart(s, f, i, j);
          if j - i + 3 >= MinOrfLength {
            ScanFrameHead(s, f, i, j);
            AllWellFormedAppend(s, [Orf(f + 1, i + 1, j + 3, j - i + 3, s[i..j + 3])], ScanFrame(s, f, j + 3));
          }
        }
      } else {
        ScanFrameWellFormed(s, f, i + 3);
      }
    }
  }

  lemma {:induction false} ScanFrameOrdered(s: string, f: nat, i: nat)
    ensures InFrame(ScanFrame(s, f, i), f, i) && Ordered(ScanFrame(s, f, i))
    decreases |s| - i
  {
    if i + 3 <= |s| {
      if IsStartAt(s, i) {
        var stop := FirstStop(s, i + 3);
        if stop.Some? {
          var j := stop.value;
          ScanFrameOrdered(s, f, j + 3);
          ScanFrameAtStart(s, f, i, j);
          var rest := ScanFrame(s, f, j + 3);
          if j - i + 3 >= MinOrfLength {
            InFrameCons(Orf(f + 1, i + 1, j + 3, j - i + 3, s[i..j + 3]), rest, f, i);
          } else {
            InFrameWeaken(rest, f, j + 3, i);
          }
        }
      } else {
        ScanFrameOrdered(s, f, i + 3);
        InFrameWeaken(ScanFrame(s, f, i + 3), f, i + 3, i);
      }
    }
  }

  lemma {:induction false} OrfsFromProps(s: string, f: nat)
    requires f <= 3
    ensures AllWellFormed(s, OrfsFrom(s, f))
    ensures FramesFrom(OrfsFrom(s, f), f + 1) && Ordered(OrfsFrom(s, f))
    decreases 3 - f
  {
    if f < 3 {
      OrfsFromProps(s, f + 1);
      ScanFrameWellFormed(s, f, f);
      ScanFrameOrdered(s, f, f);
      InFrameWeaken(ScanFrame(s, f, f), f, f, 0);
      AllWellFormedAppend(s, ScanFrame(s, f, f), OrfsFrom(s, f + 1));
      OrderedAppend(ScanFrame(s, f, f), OrfsFrom(s, f + 1), f);
    }
  }

  /** Every ORF `findORFs` emits is well formed; the list is either a non-empty
      list of ORFs, ordered by frame and, within a frame, disjoint and by
      increasing start, or exactly the one placeholder. */
  lemma OrfsCorrect(s: string)
    ensures var r := Orfs(s);
      || (|r| > 0 && AllWellFormed(s, r) && Ordered(r))
      || r == [NoOrfs(NoOrfMessage)]
  {
    OrfsFromProps(s, 0);
  }

  /** The `n` codons in frame from `i` that are not ATG are skipped. */
  lemma {:induction false} ScanSkipsNonStart(s: string, f: nat, i: nat, n: nat)
    requires forall k: nat :: k < n && i + 3 * k + 3 <= |s| ==> !IsStartAt(s, i + 3 * k)
    ensures ScanFrame(s, f, i) == ScanFrame(s, f, i + 3 * n)
    decreases n
  {
    if n > 0 {
      if i + 3 > |s| {
        assert ScanFrame(s, f, i + 3 * n) == [];
      } else {
        assert !IsStartAt(s, i + 3 * 0);
        forall k: nat | k < n - 1 && (i + 3) + 3 * k + 3 <= |s| ensures !IsStartAt(s, (i + 3) + 3 * k) {
          assert (i + 3) + 3 * k == i + 3 * (k + 1);
        }
        ScanSkipsNonStart(s, f, i + 3, n - 1);
      }
    }
  }

  /** The first in-frame ATG of a frame opens its first candidate: when the
      stop codon that closes it gives at least 30 bases, that ORF heads the
      frame's list and the scan goes on right after its stop codon. */
  lemma FirstStartReported(s: string, f: nat, n: nat, j: nat)
    requires f < 3 && f + 3 * n + 3 <= |s|
    requires forall k: nat :: k < n ==> !IsStartAt(s, f + 3 * k)
    requires IsStartAt(s, f + 3 * n)
    requires FirstStop(s, f + 3 * n + 3) == Some(j) && j + 3 - (f + 3 * n) >= MinOrfLength
    ensures ScanFrame(s, f, f) ==
      [Orf(f + 1, f + 3 * n + 1, j + 3, j + 3 - (f + 3 * n), s[f + 3 * n..j + 3])] + ScanFrame(s, f, j + 3)
  {
    ScanSkipsNonStart(s, f, f, n);
  }

  /** Without any ATG the result is the placeholder alone. */
  lemma NoStartNoOrfs(s: string)
    requires forall q: nat :: q + 3 <= |s| ==> !IsStartAt(s, q)
    ensures Orfs(s) == [NoOrfs(NoOrfMessage)]
  {
    forall f: nat | f < 3 ensures ScanFrame(s, f, f) == [] {
      ScanSkipsNonStart(s, f, f, |s| / 3 + 1);
    }
    assert OrfsFrom(s, 0) == ScanFrame(s, 0, 0) + ScanFrame(s, 1, 1) + ScanFrame(s, 2, 2) + OrfsFrom(s, 3);
  }

  /** `findORFs(sequence)`: the loop over the three reading frames. */
  method FindORFs(s: string) returns (orfs: seq<OrfEntry>)
    ensures orfs == Orfs(s)
  {
    var found: seq<OrfEntry> := [];
    for frame := 0 to 3
      invariant found + OrfsFrom(s, frame) == OrfsFrom(s, 0)
    {
      found := ScanFrameLoop(s, frame, found);
    }
    orfs := if |found| > 0 then found else [NoOrfs(NoOrfMessage)];
  }

  /** The body of the frame loop of `findORFs`: the outer `while` walks the
      codons of frame `frame`; at an ATG the inner `while` looks for the first
      in-frame stop codon, pushes the ORF if it spans at least 30 bases and
      leaves the scan right after the stop codon. */
  method ScanFrameLoop(s: string, frame: nat, found0: seq<OrfEntry>) returns (found: seq<OrfEntry>)
    ensures found == found0 + ScanFrame(s, frame, frame)
  {
    found := found0;
    var i := frame;
    while i + 2 < |s|
      invariant found + ScanFrame(s, frame, i) == found0 + ScanFrame(s, frame, frame)
      decreases |s| - i
    {
      CodonTests(s, i);
      if CodonAt(s, i) == StartCodon {
        var start := i;
        ghost var before := found;
        i := i + 3;
        while i + 2 < |s|
          invariant start + 3 <= i && found == before
          invariant FirstStop(s, i) == FirstStop(s, start + 3)
          decreases |s| - i
        {
          var codon := CodonAt(s, i);
          CodonTests(s, i);
          if codon in StopCodons {
            var length := i - start + 3;
            if length >= MinOrfLength {
              found := found + [Orf(frame + 1, start + 1, i + 3, length, s[start..i + 3])];
            }
            break;
          }
          i := i + 3;
        }
        ScanFrameCandidate(s, frame, start, i, before, found);
      }
      i := i + 3;
    }
  }

  /** The candidate opened by the ATG at `start` whose inner loop stopped at
      `i`: what `findORFs` appends, followed by the rest of the frame from
      `i + 3`, is what the scan emits from `start`. */
  lemma ScanFrameCandidate(s: string, f: nat, start: nat, i: nat, before: seq<OrfEntry>, found: seq<OrfEntry>)
    requires start + 3 <= |s| && IsStartAt(s, start) && start + 3 <= i
    requires FirstStop(s, i) == FirstStop(s, start + 3)
    requires i + 2 < |s| ==> IsStopAt(s, i)
    requires i + 2 < |s| ==> (found == before
      + (if i - start + 3 >= MinOrfLength then [Orf(f + 1, start + 1, i + 3, i - start + 3, s[start..i + 3])] else []))
    requires i + 2 >= |s| ==> found == before
    ensures found + ScanFrame(s, f, i + 3) == before + ScanFrame(s, f, start)
  {
    if i + 2 < |s| {
      CandidateClosed(s, f, start, i, before, found);
    } else {
      CandidateUnclosed(s, f, start, i, before, found);
    }
  }

  lemma CandidateClosed(s: string, f: nat, start: nat, i: nat, before: seq<OrfEntry>, found: seq<OrfEntry>)
    requires start + 3 <= |s| && IsStartAt(s, start) && start + 3 <= i && i + 2 < |s| && IsStopAt(s, i)
    requires FirstStop(s, i) == FirstStop(s, start + 3)
    requires found == before
      + (if i - start + 3 >= MinOrfLength then [Orf(f + 1, start + 1, i + 3, i - start + 3, s[start..i + 3])] else [])
    ensures found + ScanFrame(s, f, i + 3) == before + ScanFrame(s, f, start)
  {
    assert FirstStop(s, i) == Some(i);
    ScanFrameAtStart(s, f, start, i);
  }

  lemma CandidateUnclosed(s: string, f: nat, start: nat, i: nat, before: seq<OrfEntry>, found: seq<OrfEntry>)
    requires start + 3 <= |s| && IsStartAt(s, start) && start + 3 <= i && i + 2 >= |s|
    requires FirstStop(s, i) == FirstStop(s, start + 3) && found == before
    ensures found + ScanFrame(s, f, i + 3) == before + ScanFrame(s, f, start)
  {
    assert FirstStop(s, i) == None;
    assert ScanFrame(s, f, start) == [];
  }

  // ---------------------------------------------------------------------------
  // Composition report

  /** `n / length * 100`; `None` stands for the NaN of a zero length. */
  function Percent(n: nat, length: nat): Option<real>
  {
    if length == 0 then None else Some(n as real / length as real * 100.0)
  }

  datatype Composition = Composition(
    a: nat, aPct: Option<real>,
    t: nat, tPct: Option<real>,
    g: nat, gPct: Option<real>,
    c: nat, cPct: Option<real>)

  /** The object `analyzeDNASequence` returns, before `toFixed` rounding;
      `None` stands for a NaN or infinite value. */
  datatype Report = Report(
    length: nat,
    composition: Composition,
    gcContent: Option<real>,
    complement: string,
    reverseComplement: string,
    orfs: seq<OrfEntry>,
    molecularWeight: nat,
    meltingTemp: Option<real>)

  const WeightPerBase: nat := 330

  /** `64.9 + 41 * (G + C - 16.4) / length`. */
  function MeltingTemp(gc: nat, length: nat): Option<real>
  {
    if length == 0 then None else Some(64.9 + 41.0 * (gc as real - 16.4) / length as real)
  }

  /** The `composition` field: the four base counts and their percentages. */
  function CompositionOf(s: string): Composition
  {
    var a, t, g, c := Count(s, 'A'), Count(s, 'T'), Count(s, 'G'), Count(s, 'C');
    Composition(a, Percent(a, |s|), t, Percent(t, |s|), g, Percent(g, |s|), c, Percent(c, |s|))
  }

  /** The `gcContent` field: the share of G and C bases, in percent. */
  function GcContent(s: string): Option<real>
  {
    Percent(Count(s, 'G') + Count(s, 'C'), |s|)
  }

  /** `analyzeDNASequence(sequence)`. */
  function Analysis(s: string): Report
  {
    Report(
      |s|,
      CompositionOf(s),
      GcContent(s),
      Complement(s),
      ReverseComplement(s),
      Orfs(s),
      |s| * WeightPerBase,
      MeltingTemp(Count(s, 'G') + Count(s, 'C'), |s|))
  }

  /** `analyzeDNASequence(sequence)`: the counting loop over a table with one
      entry per base, then the derived values. */
  method AnalyzeDNASequence(s: string) returns (r: Report)
    ensures r == Analysis(s)
  {
    var counts: map<char, nat> := map['A' := 0, 'T' := 0, 'G' := 0, 'C' := 0];
    for k := 0 to |s|
      invariant counts.Keys == {'A', 'T', 'G', 'C'}
      invariant forall b :: b in counts ==> counts[b] == Count(s[..k], b)
    {
      var base := s[k];
      assert s[..k + 1] == s[..k] + [base];
      forall b | b in counts ensures Count(s[..k + 1], b) == Count(s[..k], b) + (if base == b then 1 else 0) {
        CountSnoc(s[..k], base, b);
      }
      if base in counts {
        counts := counts[base := counts[base] + 1];
      }
    }
    assert s[..|s|] == s;
    var complement := Complement(s);
    var orfs := FindORFs(s);
    var a, t, g, c := counts['A'], counts['T'], counts['G'], counts['C'];
    r := Report(
      |s|,
      Composition(a, Percent(a, |s|), t, Percent(t, |s|), g, Percent(g, |s|), c, Percent(c, |s|)),
      Percent(g + c, |s|),
      complement,
      Reverse(complement),
      orfs,
      |s| * WeightPerBase,
      MeltingTemp(g + c, |s|));
  }

  /** Two distinct counts never exceed the length together. */
  lemma {:induction false} CountBound(s: string, b: char, b': char)
    requires b != b'
    ensures Count(s, b) + Count(s, b') <= |s|
  {
    if s != [] { CountBound(s[1..], b, b'); }
  }

  lemma PercentSum(x: nat, y: nat, n: nat)
    requires n > 0
    ensures Percent(x, n).value + Percent(y, n).value == Percent(x + y, n).value
  {
    var d := n as real;
    var qx, qy := x as real / d, y as real / d;
    assert qx * d == x as real && qy * d == y as real;
    assert (qx + qy) * d == (x + y) as real;
    assert (x + y) as real / d == qx + qy;
    assert qx * 100.0 + qy * 100.0 == (qx + qy) * 100.0;
  }

  lemma PercentBounds(x: nat, n: nat)
    requires 0 < n && x <= n
    ensures 0.0 <= Percent(x, n).value <= 100.0
    ensures x == n ==> Percent(x, n).value == 100.0
  {
    var d := n as real;
    var q := x as real / d;
    assert q * d == x as real && x as real <= d;
    assert x == n ==> q == 1.0;
  }

  /** The percentages are defined exactly for a non-empty sequence; the G and
      C percentages add up to the GC content, which lies between 0 and 100;
      on an A/T/G/C sequence the four percentages add up to 100. */
  lemma CompositionFacts(s: string)
    ensures var m := CompositionOf(s);
      (m.aPct.Some? && m.tPct.Some? && m.gPct.Some? && m.cPct.Some? && GcContent(s).Some?) <==> |s| > 0
    ensures var m := CompositionOf(s); |s| > 0 ==>
      && GcContent(s).value == m.gPct.value + m.cPct.value
      && 0.0 <= GcContent(s).value <= 100.0
    ensures var m := CompositionOf(s); |s| > 0 && IsDna(s) ==>
      m.aPct.value + m.tPct.value + m.gPct.value + m.cPct.value == 100.0
  {
    var a, t, g, c := Count(s, 'A'), Count(s, 'T'), Count(s, 'G'), Count(s, 'C');
    var n := |s|;
    if n > 0 {
      PercentSum(g, c, n);
      CountBound(s, 'G', 'C');
      PercentBounds(g + c, n);
      if IsDna(s) {
        BaseCountsSum(s);
        PercentSum(a, t, n);
        PercentSum(a + t, g, n);
        PercentSum(a + t + g, c, n);
        PercentBounds(n, n);
      }
    }
  }

  /** For a fixed length the melting-temperature estimate grows with the G+C
      count. */
  lemma MeltingTempMonotone(gc: nat, gc': nat, n: nat)
    requires n > 0 && gc < gc'
    ensures MeltingTemp(gc, n).value < MeltingTemp(gc', n).value
  {
    var d := n as real;
    var a, b := (gc as real - 16.4) / d, (gc' as real - 16.4) / d;
    assert a * d == gc as real - 16.4 && b * d == gc' as real - 16.4;
    assert (b - a) * d == (gc' - gc) as real;
    assert 41.0 * a < 41.0 * b;
  }
}
