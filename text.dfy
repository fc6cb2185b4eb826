/** String primitives the engine relies on: ASCII case mapping, substring
    occurrence (`String.prototype.includes`), leftmost and global matching of a
    fixed alternation of words (`String.prototype.match` with `/(w1|w2|...)/`
    and `/.../g`), first-occurrence replacement and `parseInt`.

    Case-insensitive matching (the `i` flag) is modelled by matching the
    lower-cased text against the lower-cased words: on ASCII this is exactly
    the regular-expression canonicalisation.  Matching is character-exact
    everywhere else. */
module Text {

  datatype Option<+T> = None | Some(value: T)

  function Min(a: int, b: int): int { if a < b then a else b }

  // ---------------------------------------------------------------------------
  // Case mapping (ASCII)

  function LowerChar(c: char): char { if 'A' <= c <= 'Z' then (c as int + 32) as char else c }

  function UpperChar(c: char): char { if 'a' <= c <= 'z' then (c as int - 32) as char else c }

  /** `s.toLowerCase()` on ASCII letters: same length, no upper-case letter left. */
  function ToLower(s: string): (r: string)
    ensures |r| == |s|
    ensures forall i :: 0 <= i < |s| ==> r[i] == LowerChar(s[i])
    ensures forall i :: 0 <= i < |r| ==> !('A' <= r[i] <= 'Z')
  {
    seq(|s|, i requires 0 <= i < |s| => LowerChar(s[i]))
  }

  /** `s.toUpperCase()` on ASCII letters. */
  function ToUpper(s: string): (r: string)
    ensures |r| == |s|
    ensures forall i :: 0 <= i < |s| ==> r[i] == UpperChar(s[i])
    ensures forall i :: 0 <= i < |r| ==> !('a' <= r[i] <= 'z')
  {
    seq(|s|, i requires 0 <= i < |s| => UpperChar(s[i]))
  }

  lemma ToLowerAppend(a: string, b: string)
    ensures ToLower(a + b) == ToLower(a) + ToLower(b)
  {
  }

  lemma ToLowerSlice(s: string, i: nat, j: nat)
    requires i <= j <= |s|
    ensures ToLower(s[i..j]) == ToLower(s)[i..j]
  {
  }

  /** Upper-casing forgets a previous lower-casing. */
  lemma UpperOfLower(s: string)
    ensures ToUpper(ToLower(s)) == ToUpper(s)
  {
  }

  // ---------------------------------------------------------------------------
  // Occurrence of a word

  /** `w[k..]` is found in `s` at `i + k`, compared character by character. */
  predicate PrefixFrom(s: string, i: nat, w: string, k: nat)
    requires k <= |w|
    decreases |w| - k
  {
    if k == |w| then i + k <= |s|
    else i + k < |s| && s[i + k] == w[k] && PrefixFrom(s, i, w, k + 1)
  }

  lemma {:induction false} PrefixFromSlice(s: string, i: nat, w: string, k: nat)
    requires k <= |w|
    ensures PrefixFrom(s, i, w, k) <==> i + |w| <= |s| && s[i + k..i + |w|] == w[k..]
    decreases |w| - k
  {
    if k < |w| {
      PrefixFromSlice(s, i, w, k + 1);
      if i + |w| <= |s| {
        assert s[i + k..i + |w|] == [s[i + k]] + s[i + k + 1..i + |w|];
        assert w[k..] == [w[k]] + w[k + 1..];
      }
    }
  }

  /** `w` occurs in `s` starting at index `i`. */
  predicate OccursAt(s: string, i: nat, w: string)
  {
    PrefixFrom(s, i, w, 0)
  }

  lemma OccursAtSlice(s: string, i: nat, w: string)
    ensures OccursAt(s, i, w) <==> i + |w| <= |s| && s[i..i + |w|] == w
  {
    PrefixFromSlice(s, i, w, 0);
  }

  lemma SliceOfSlice(s: string, a: nat, b: nat, o: nat, k: nat)
    requires a <= b <= |s| && o + k <= b - a
    ensures s[a..b][o..o + k] == s[a + o..a + o + k]
  {
    var x, y := s[a..b][o..o + k], s[a + o..a + o + k];
    forall n | 0 <= n < k
      ensures x[n] == y[n]
    {
    }
  }

  /** Some occurrence of `w` in `s` starts at an index `>= i`. */
  predicate ContainsFrom(s: string, w: string, i: nat)
    decreases |s| - i
  {
    if i + |w| > |s| then false else OccursAt(s, i, w) || ContainsFrom(s, w, i + 1)
  }

  lemma {:induction false} ContainsFromIff(s: string, w: string, i: nat)
    ensures ContainsFrom(s, w, i) <==> exists j :: i <= j && OccursAt(s, j, w)
    decreases |s| - i
  {
    if i + |w| > |s| {
      forall j | i <= j ensures !OccursAt(s, j, w) { OccursAtSlice(s, j, w); }
    } else {
      ContainsFromIff(s, w, i + 1);
      forall j | i <= j && OccursAt(s, j, w) ensures j == i || i + 1 <= j { }
    }
  }

  /** `s.includes(w)`. */
  predicate Contains(s: string, w: string)
  {
    ContainsFrom(s, w, 0)
  }

  lemma ContainsIff(s: string, w: string)
    ensures Contains(s, w) <==> exists j :: OccursAt(s, j, w)
  {
    ContainsFromIff(s, w, 0);
  }

  lemma ContainsIntro(s: string, w: string, j: nat)
    requires OccursAt(s, j, w)
    ensures Contains(s, w)
  {
    ContainsIff(s, w);
  }

  // ---------------------------------------------------------------------------
  // Leftmost match of an alternation `/(v0|v1|...)/`

  /** A match: the start index in the text and the index of the alternative. */
  datatype Hit = Hit(pos: nat, index: nat)

  /** The first alternative, from index `k` on, that occurs at `i`: at one
      position the alternatives are tried in their written order. */
  function FirstWordAt(s: string, i: nat, vocab: seq<string>, k: nat): (r: Option<nat>)
    requires k <= |vocab|
    decreases |vocab| - k
    ensures r.Some? ==> k <= r.value < |vocab| && OccursAt(s, i, vocab[r.value])
    ensures r.Some? ==> forall m {:trigger OccursAt(s, i, vocab[m])} :: k <= m < r.value ==> !OccursAt(s, i, vocab[m])
    ensures r.None? ==> forall m {:trigger OccursAt(s, i, vocab[m])} :: k <= m < |vocab| ==> !OccursAt(s, i, vocab[m])
  {
    if k == |vocab| then None
    else if OccursAt(s, i, vocab[k]) then Some(k)
    else FirstWordAt(s, i, vocab, k + 1)
  }

  /** The leftmost match starting at index `>= i`. */
  function LeftmostFrom(s: string, vocab: seq<string>, i: nat): (r: Option<Hit>)
    requires i <= |s|
    decreases |s| - i
    ensures r.Some? ==> i <= r.value.pos <= |s| && r.value.index < |vocab|
    ensures r.Some? ==> OccursAt(s, r.value.pos, vocab[r.value.index])
  {
    match FirstWordAt(s, i, vocab, 0)
    case Some(k) => Some(Hit(i, k))
    case None => if i == |s| then None else LeftmostFrom(s, vocab, i + 1)
  }

  /** The match found is the leftmost one, and at its position the first
      alternative in written order; no match means no word occurs at all. */
  lemma {:induction false} LeftmostFromIsFirst(s: string, vocab: seq<string>, i: nat)
    requires i <= |s|
    decreases |s| - i
    ensures var r := LeftmostFrom(s, vocab, i);
      && (r.Some? ==> forall m {:trigger OccursAt(s, r.value.pos, vocab[m])} :: 0 <= m < r.value.index ==> !OccursAt(s, r.value.pos, vocab[m]))
      && (r.Some? ==> forall j, m {:trigger OccursAt(s, j, vocab[m])} :: i <= j < r.value.pos && 0 <= m < |vocab| ==> !OccursAt(s, j, vocab[m]))
      && (r.None? ==> forall j, m {:trigger OccursAt(s, j, vocab[m])} :: i <= j && 0 <= m < |vocab| ==> !OccursAt(s, j, vocab[m]))
  {
    match FirstWordAt(s, i, vocab, 0)
    case Some(k) =>
    case None =>
      if i == |s| {
        forall j, m | i < j && 0 <= m < |vocab| ensures !OccursAt(s, j, vocab[m]) {
          OccursAtSlice(s, j, vocab[m]);
        }
      } else {
        LeftmostFromIsFirst(s, vocab, i + 1);
      }
  }

  /** `s.match(/(v0|v1|...)/)`: the leftmost match, if any. */
  function Leftmost(s: string, vocab: seq<string>): Option<Hit>
  {
    LeftmostFrom(s, vocab, 0)
  }

  predicate NonEmptyWords(vocab: seq<string>)
  {
    forall k :: 0 <= k < |vocab| ==> |vocab[k]| > 0
  }

  /** A vocabulary the global match accepts: no word is empty. */
  type Vocabulary = vocab: seq<string> | NonEmptyWords(vocab) witness []

  /** `s.match(/(v0|v1|...)/g)` from index `i`: successive leftmost matches,
      each search resuming where the previous match ended. */
  function AllMatchesFrom(s: string, vocab: seq<string>, i: nat): (r: seq<Hit>)
    requires i <= |s| && NonEmptyWords(vocab)
    decreases |s| - i
    ensures forall n :: 0 <= n < |r| ==> i <= r[n].pos && r[n].index < |vocab| && OccursAt(s, r[n].pos, vocab[r[n].index])
    ensures forall n, m :: 0 <= n < m < |r| ==> r[n].pos + |vocab[r[n].index]| <= r[m].pos
    ensures |r| > 0 <==> LeftmostFrom(s, vocab, i).Some?
    ensures |r| > 0 ==> r[0] == LeftmostFrom(s, vocab, i).value
  {
    match LeftmostFrom(s, vocab, i)
    case None => []
    case Some(h) =>
      OccursAtSlice(s, h.pos, vocab[h.index]);
      [h] + AllMatchesFrom(s, vocab, h.pos + |vocab[h.index]|)
  }

  /** Each entry of `r` is followed by the leftmost match from where it ends,
      and the last by no match at all. */
  predicate Chained(s: string, vocab: seq<string>, r: seq<Hit>)
  {
    if |r| == 0 then true
    else
      var e := r[0].pos + (if r[0].index < |vocab| then |vocab[r[0].index]| else 0);
      && r[0].index < |vocab| && e <= |s|
      && (if |r| == 1 then LeftmostFrom(s, vocab, e).None?
          else LeftmostFrom(s, vocab, e) == Some(r[1]) && Chained(s, vocab, r[1..]))
  }

  /** The global match is its first entry followed by the global match
      resumed where that entry ends. */
  lemma AllMatchesUnfold(s: string, vocab: seq<string>, i: nat)
    requires i <= |s| && NonEmptyWords(vocab) && |AllMatchesFrom(s, vocab, i)| > 0
    ensures var h := AllMatchesFrom(s, vocab, i)[0];
      && h.pos + |vocab[h.index]| <= |s|
      && AllMatchesFrom(s, vocab, i) == [h] + AllMatchesFrom(s, vocab, h.pos + |vocab[h.index]|)
  {
    var h := LeftmostFrom(s, vocab, i).value;
    OccursAtSlice(s, h.pos, vocab[h.index]);
  }

  /** A chain extended at the front by a match whose successor is the
      chain's head (or nothing, for an empty chain) is a chain. */
  lemma ChainedCons(s: string, vocab: seq<string>, h: Hit, rest: seq<Hit>)
    requires h.index < |vocab| && h.pos + |vocab[h.index]| <= |s| && Chained(s, vocab, rest)
    requires var l := LeftmostFrom(s, vocab, h.pos + |vocab[h.index]|);
      if |rest| == 0 then l.None? else l == Some(rest[0])
    ensures Chained(s, vocab, [h] + rest)
  {
    assert ([h] + rest)[1..] == rest;
  }

  /** The first entry of the global match is the leftmost match. */
  lemma AllMatchesHead(s: string, vocab: seq<string>, i: nat)
    requires i <= |s| && NonEmptyWords(vocab)
    ensures var r, l := AllMatchesFrom(s, vocab, i), LeftmostFrom(s, vocab, i);
      if |r| == 0 then l.None? else l == Some(r[0])
  {
  }

  /** `s.match(/(v0|v1|...)/g)` is chained: it lists every successive
      leftmost match and stops when none is left. */
  lemma {:induction false} AllMatchesChained(s: string, vocab: seq<string>, i: nat)
    requires i <= |s| && NonEmptyWords(vocab)
    decreases |s| - i
    ensures Chained(s, vocab, AllMatchesFrom(s, vocab, i))
  {
    var r := AllMatchesFrom(s, vocab, i);
    if |r| > 0 {
      AllMatchesUnfold(s, vocab, i);
      var e := r[0].pos + |vocab[r[0].index]|;
      AllMatchesChained(s, vocab, e);
      AllMatchesHead(s, vocab, e);
      ChainedCons(s, vocab, r[0], AllMatchesFrom(s, vocab, e));
    }
  }

  lemma {:induction false} ChainedNext(s: string, vocab: seq<string>, r: seq<Hit>, n: nat)
    requires Chained(s, vocab, r) && 0 < n < |r|
    decreases n
    ensures r[n - 1].index < |vocab| && r[n - 1].pos + |vocab[r[n - 1].index]| <= |s|
    ensures LeftmostFrom(s, vocab, r[n - 1].pos + |vocab[r[n - 1].index]|) == Some(r[n])
  {
    if n > 1 {
      ChainedNext(s, vocab, r[1..], n - 1);
      assert r[1..][n - 2] == r[n - 1] && r[1..][n - 1] == r[n];
    }
  }

  lemma {:induction false} ChainedLast(s: string, vocab: seq<string>, r: seq<Hit>)
    requires Chained(s, vocab, r) && |r| > 0
    decreases |r|
    ensures r[|r| - 1].index < |vocab| && r[|r| - 1].pos + |vocab[r[|r| - 1].index]| <= |s|
    ensures LeftmostFrom(s, vocab, r[|r| - 1].pos + |vocab[r[|r| - 1].index]|).None?
  {
    if |r| > 1 {
      ChainedLast(s, vocab, r[1..]);
      assert r[1..][|r| - 2] == r[|r| - 1];
    }
  }

  function AllMatches(s: string, vocab: seq<string>): seq<Hit>
    requires NonEmptyWords(vocab)
  {
    AllMatchesFrom(s, vocab, 0)
  }

  /** No word of `vocab` occurs inside a word of `vocab` except itself at
      offset 0. */
  predicate SubstringFree(vocab: seq<string>)
  {
    forall a, b, o :: 0 <= a < |vocab| && 0 <= b < |vocab| && 0 <= o <= |vocab[a]| && OccursAt(vocab[a], o, vocab[b]) ==> a == b && o == 0
  }

  /** For a substring-free vocabulary, two mentions that do not overlap give
      the global match at least two entries: the first match cannot swallow
      the second mention. */
  lemma TwoMentionsTwoMatches(s: string, vocab: seq<string>, j1: nat, m1: nat, j2: nat, m2: nat)
    requires NonEmptyWords(vocab) && SubstringFree(vocab)
    requires m1 < |vocab| && m2 < |vocab|
    requires OccursAt(s, j1, vocab[m1]) && OccursAt(s, j2, vocab[m2]) && j1 + |vocab[m1]| <= j2
    ensures |AllMatches(s, vocab)| > 1
  {
    LeftmostFromIsFirst(s, vocab, 0);
    var h := LeftmostFrom(s, vocab, 0).value;
    var w, w1 := vocab[h.index], vocab[m1];
    OccursAtSlice(s, h.pos, w);
    OccursAtSlice(s, j1, w1);
    OccursAtSlice(s, j2, vocab[m2]);
    assert h.pos <= j1;
    if h.pos + |w| > j2 {
      var o := j1 - h.pos;
      assert o + |w1| <= |w|;
      SliceOfSlice(s, h.pos, h.pos + |w|, o, |w1|);
      OccursAtSlice(w, o, w1);
    }
    var e := h.pos + |w|;
    assert e <= j2;
    LeftmostFromIsFirst(s, vocab, e);
    assert LeftmostFrom(s, vocab, e).Some? by {
      assert OccursAt(s, j2, vocab[m2]);
    }
    AllMatchesHead(s, vocab, e);
    AllMatchesUnfold(s, vocab, 0);
  }

  /** `s` mentions words of `vocab` twice without overlap. */
  ghost predicate TwoMentions(s: string, vocab: seq<string>)
  {
    exists j1: nat, m1: nat, j2: nat, m2: nat ::
      m1 < |vocab| && m2 < |vocab| && OccursAt(s, j1, vocab[m1]) && OccursAt(s, j2, vocab[m2]) && j1 + |vocab[m1]| <= j2
  }

  /** For a substring-free vocabulary the global match has at least two
      entries exactly when the text mentions its words twice without
      overlap. */
  lemma TwoMentionsIff(s: string, vocab: seq<string>)
    requires NonEmptyWords(vocab) && SubstringFree(vocab)
    ensures |AllMatches(s, vocab)| > 1 <==> TwoMentions(s, vocab)
  {
    var r := AllMatches(s, vocab);
    if |r| > 1 {
      assert OccursAt(s, r[0].pos, vocab[r[0].index]) && OccursAt(s, r[1].pos, vocab[r[1].index]);
    }
    if TwoMentions(s, vocab) {
      var j1: nat, m1: nat, j2: nat, m2: nat :|
        m1 < |vocab| && m2 < |vocab| && OccursAt(s, j1, vocab[m1]) && OccursAt(s, j2, vocab[m2]) && j1 + |vocab[m1]| <= j2;
      TwoMentionsTwoMatches(s, vocab, j1, m1, j2, m2);
    }
  }

  // ---------------------------------------------------------------------------
  // `s.replace(pat, "")` with a string pattern: removes the first occurrence only

  function RemoveFirst(s: string, pat: string): (r: string)
    requires |pat| > 0
    ensures !Contains(s, pat) ==> r == s
    ensures Contains(s, pat) ==> |r| == |s| - |pat|
    ensures Contains(s, pat) ==>
      exists p: nat :: p + |pat| <= |s| && OccursAt(s, p, pat) && (forall q :: 0 <= q < p ==> !OccursAt(s, q, pat))
                       && r == s[..p] + s[p + |pat|..]
  {
    LeftmostFromIsFirst(s, [pat], 0);
    assert [pat][0] == pat;
    match Leftmost(s, [pat])
    case None =>
      ContainsIff(s, pat);
      s
    case Some(h) =>
      OccursAtSlice(s, h.pos, pat);
      ContainsIntro(s, pat, h.pos);
      s[..h.pos] + s[h.pos + |pat|..]
  }

  // ---------------------------------------------------------------------------
  // `parseInt(s)`: optional leading white space, an optional sign, then the
  // longest run of decimal digits; no digit gives NaN (here `None`).

  predicate IsWhiteSpace(c: char)
  {
    c == ' ' || c == '\t' || c == '\n' || c == '\r' || c == '\U{000B}' || c == '\U{000C}'
    || c == '\U{00A0}' || c == '\U{FEFF}'
  }

  predicate IsDigit(c: char) { '0' <= c <= '9' }

  function DigitValue(c: char): nat requires IsDigit(c) { c as int - '0' as int }

  /** Number of consecutive digits from index `i`. */
  function DigitRun(s: string, i: nat): (n: nat)
    requires i <= |s|
    decreases |s| - i
    ensures i + n <= |s|
    ensures forall k :: i <= k < i + n ==> IsDigit(s[k])
    ensures i + n == |s| || !IsDigit(s[i + n])
  {
    if i < |s| && IsDigit(s[i]) then 1 + DigitRun(s, i + 1) else 0
  }

  /** Decimal value of the digits `s[i..j]`. */
  function DigitsValue(s: string, i: nat, j: nat): nat
    requires i <= j <= |s|
    requires forall k :: i <= k < j ==> IsDigit(s[k])
    decreases j - i
  {
    if i == j then 0 else DigitsValue(s, i, j - 1) * 10 + DigitValue(s[j - 1])
  }

  function SkipWhiteSpace(s: string, i: nat): (j: nat)
    requires i <= |s|
    decreases |s| - i
    ensures i <= j <= |s|
    ensures forall k :: i <= k < j ==> IsWhiteSpace(s[k])
    ensures j == |s| || !IsWhiteSpace(s[j])
  {
    if i < |s| && IsWhiteSpace(s[i]) then SkipWhiteSpace(s, i + 1) else i
  }

  function ParseInt(s: string): Option<int>
  {
    var i := SkipWhiteSpace(s, 0);
    var negative := i < |s| && s[i] == '-';
    var d := if i < |s| && (s[i] == '-' || s[i] == '+') then i + 1 else i;
    var n := DigitRun(s, d);
    if n == 0 then None
    else
      var v: int := DigitsValue(s, d, d + n);
      Some(if negative then -v else v)
  }

  /** A string that starts with digits followed by a non-digit parses to the
      value of those digits. */
  lemma ParseIntLeadingDigits(s: string, n: nat)
    requires 0 < n <= |s|
    requires forall k :: 0 <= k < n ==> IsDigit(s[k])
    requires n == |s| || !IsDigit(s[n])
    ensures ParseInt(s) == Some(DigitsValue(s, 0, n) as int)
  {
    assert SkipWhiteSpace(s, 0) == 0;
    DigitRunExact(s, 0, n);
  }

  /** `parseInt` of a digit string followed by a text that does not start with
      a digit reads exactly those digits. */
  lemma ParseIntDigitsThen(d: string, rest: string)
    requires 0 < |d| && forall k :: 0 <= k < |d| ==> IsDigit(d[k])
    requires rest == [] || !IsDigit(rest[0])
    ensures ParseInt(d + rest) == Some(DigitsValue(d, 0, |d|) as int)
  {
    var s := d + rest;
    assert s[..|d|] == d;
    DigitsValuePrefix(s, d, |d|);
    ParseIntLeadingDigits(s, |d|);
  }

  lemma {:induction false} DigitsValuePrefix(s: string, d: string, j: nat)
    requires j <= |d| <= |s| && s[..|d|] == d
    requires forall k :: 0 <= k < |d| ==> IsDigit(d[k])
    ensures forall k :: 0 <= k < j ==> IsDigit(s[k])
    ensures DigitsValue(s, 0, j) == DigitsValue(d, 0, j)
  {
    assert forall k :: 0 <= k < |d| ==> s[k] == s[..|d|][k];
    if j > 0 {
      DigitsValuePrefix(s, d, j - 1);
      assert s[j - 1] == d[j - 1] by { assert s[..|d|][j - 1] == s[j - 1]; }
    }
  }

  lemma {:induction false} DigitRunExact(s: string, i: nat, n: nat)
    requires i + n <= |s|
    requires forall k :: i <= k < i + n ==> IsDigit(s[k])
    requires i + n == |s| || !IsDigit(s[i + n])
    ensures DigitRun(s, i) == n
    decreases n
  {
    if n > 0 {
      DigitRunExact(s, i + 1, n - 1);
    }
  }
}
