/**
 * The Python string built-ins the parser relies on: `str.isspace`, `strip()`,
 * `split()`, `lower()`, `in` on strings, `startswith`, `", ".join` and the
 * decimal formatting of an `int` inside an f-string.
 *
 * Every recursive function here walks an index through its string instead of
 * slicing it, so that Dafny can evaluate it on string literals.
 */
module PyText {

  /** Python's `str.isspace()` on one character; `\s`, `strip()` and `split()` use the same set. */
  predicate IsSpace(c: char) {
    || ('\t' <= c <= '\r')            // \t \n \v \f \r
    || ('\U{1c}' <= c <= ' ')         // the four separators \x1c-\x1f, and the space
    || c == '\U{85}' || c == '\U{a0}' || c == '\U{1680}'
    || ('\U{2000}' <= c <= '\U{200a}')
    || c == '\U{2028}' || c == '\U{2029}' || c == '\U{202f}' || c == '\U{205f}' || c == '\U{3000}'
  }

  predicate IsAsciiLetter(c: char) {
    'a' <= c <= 'z' || 'A' <= c <= 'Z'
  }

  predicate IsDigit(c: char) {
    '0' <= c <= '9'
  }

  /** Lower-casing of one character, restricted to ASCII. */
  function LowerChar(c: char): char {
    if 'A' <= c <= 'Z' then (c as int + 32) as char else c
  }

  function Lower(s: string): (r: string)
    ensures |r| == |s|
    ensures forall i :: 0 <= i < |s| ==> r[i] == LowerChar(s[i])
  {
    seq(|s|, i requires 0 <= i < |s| => LowerChar(s[i]))
  }

  /** The character classes the parser's regular expressions repeat greedily. */
  datatype CharClass = Space | NonSpace | Digit | EqualsOrSpace | LetterOrDash

  predicate InClass(c: char, k: CharClass) {
    match k
    case Space => IsSpace(c)
    case NonSpace => !IsSpace(c)
    case Digit => IsDigit(c)
    case EqualsOrSpace => c == '=' || IsSpace(c)
    case LetterOrDash => IsAsciiLetter(c) || c == '-'
  }

  /** Where the longest run of class-`k` characters starting at `i` ends: what a greedy `[k]*` takes. */
  function RunEnd(s: string, i: nat, k: CharClass): (e: nat)
    requires i <= |s|
    ensures i <= e <= |s|
    decreases |s| - i
  {
    if i < |s| && InClass(s[i], k) then RunEnd(s, i + 1, k) else i
  }

  /** The run is all of class `k`, and it cannot be extended. */
  lemma {:induction false} RunEndSpec(s: string, i: nat, k: CharClass)
    requires i <= |s|
    ensures forall j :: i <= j < RunEnd(s, i, k) ==> InClass(s[j], k)
    ensures RunEnd(s, i, k) == |s| || !InClass(s[RunEnd(s, i, k)], k)
    decreases |s| - i
  {
    if i < |s| && InClass(s[i], k) {
      RunEndSpec(s, i + 1, k);
    }
  }

  /** Every character of `t` is of class `k`. */
  predicate AllIn(t: string, k: CharClass) {
    forall m :: 0 <= m < |t| ==> InClass(t[m], k)
  }

  /** Every character of `s` from index `i` up to `e` is of class `k`. */
  predicate AllInRange(s: string, i: nat, e: nat, k: CharClass)
    requires e <= |s|
  {
    forall m :: i <= m < e ==> InClass(s[m], k)
  }

  /** A maximal run is all of its class, and the character after it is not. */
  lemma RunRange(s: string, i: nat, k: CharClass)
    requires i <= |s|
    ensures AllInRange(s, i, RunEnd(s, i, k), k)
    ensures RunEnd(s, i, k) == |s| || !InClass(s[RunEnd(s, i, k)], k)
  {
    RunEndSpec(s, i, k);
  }

  /** The text of a maximal run is all of its class. */
  lemma RunSlice(s: string, i: nat, k: CharClass)
    requires i <= |s|
    ensures AllIn(s[i..RunEnd(s, i, k)], k)
  {
    RunEndSpec(s, i, k);
    var t := s[i..RunEnd(s, i, k)];
    assert forall m :: 0 <= m < |t| ==> t[m] == s[i + m];
  }

  /** `p` occurs in `s` at position `i`. */
  function MatchesAt(s: string, p: string, i: nat): (b: bool)
    requires i <= |s|
    ensures b <==> i + |p| <= |s| && forall k :: 0 <= k < |p| ==> s[i + k] == p[k]
    decreases |p|
  {
    if p == [] then true
    else if i < |s| && s[i] == p[0] then
      MatchesAt(s, p[1..], i + 1)
    else false
  }

  function ContainsFrom(s: string, p: string, i: nat): bool
    requires i <= |s|
    decreases |s| - i
  {
    if MatchesAt(s, p, i) then true
    else if i < |s| then ContainsFrom(s, p, i + 1)
    else false
  }

  /** The search finds `p` exactly when `p` occurs at some position from `i` on. */
  lemma {:induction false} ContainsFromIff(s: string, p: string, i: nat)
    requires i <= |s|
    ensures ContainsFrom(s, p, i) <==> exists j: nat :: i <= j <= |s| && MatchesAt(s, p, j)
    decreases |s| - i
  {
    if MatchesAt(s, p, i) {
      var j: nat := i;
      assert i <= j <= |s| && MatchesAt(s, p, j);
    } else if i < |s| {
      ContainsFromIff(s, p, i + 1);
    }
  }

  /** Python's `p in s` for two strings. */
  predicate Contains(s: string, p: string) {
    ContainsFrom(s, p, 0)
  }

  predicate StartsWith(s: string, p: string) {
    MatchesAt(s, p, 0)
  }

  predicate AllSpace(s: string) {
    forall i :: 0 <= i < |s| ==> IsSpace(s[i])
  }

  predicate NoSpace(s: string) {
    forall i :: 0 <= i < |s| ==> !IsSpace(s[i])
  }

  /** No space at either end: what `strip()` leaves. */
  predicate IsStripped(s: string) {
    s == [] || (!IsSpace(s[0]) && !IsSpace(s[|s| - 1]))
  }

  /** The end of `s[..j]` with its trailing spaces dropped. */
  function TrailEnd(s: string, j: nat): (e: nat)
    requires j <= |s|
    ensures e <= j
    ensures forall k :: e <= k < j ==> IsSpace(s[k])
    ensures e == 0 || !IsSpace(s[e - 1])
    decreases j
  {
    if j > 0 && IsSpace(s[j - 1]) then TrailEnd(s, j - 1) else j
  }

  /** Where `strip()` cuts `s`: the first non-space character, and one past the last. */
  function StripStart(s: string): nat {
    RunEnd(s, 0, Space)
  }

  function StripStop(s: string): (e: nat)
    ensures StripStart(s) <= e <= |s|
  {
    var a := StripStart(s);
    if a == |s| then a
    else
      var e := TrailEnd(s, |s|);
      RunEndSpec(s, 0, Space);
      assert !IsSpace(s[a]);
      e
  }

  /** Python's `str.strip()` with no argument. */
  function Strip(s: string): string {
    s[StripStart(s)..StripStop(s)]
  }

  /** One word of `split()` together with the run of spaces after it (empty at the very end). */
  datatype Piece = Piece(word: string, gap: string)

  predicate WellFormedPiece(p: Piece) {
    |p.word| > 0 && NoSpace(p.word) && AllSpace(p.gap)
  }

  /** Pieces as `PiecesFrom` produces them: well formed, and only the last gap may be empty. */
  predicate Gapped(ps: seq<Piece>) {
    && (forall k :: 0 <= k < |ps| ==> WellFormedPiece(ps[k]))
    && (forall k :: 0 <= k < |ps| - 1 ==> ps[k].gap != [])
  }

  /** The words of `s[i..]` and the gaps between them, leading spaces skipped. */
  function PiecesFrom(s: string, i: nat): (ps: seq<Piece>)
    requires i <= |s|
    decreases |s| - i
  {
    if i == |s| then []
    else if IsSpace(s[i]) then PiecesFrom(s, i + 1)
    else
      var e := RunEnd(s, i, NonSpace);
      var g := RunEnd(s, e, Space);
      var rest := PiecesFrom(s, g);
      [Piece(s[i..e], s[e..g])] + rest
  }

  /** Adding a word in front of gapped pieces keeps them gapped, if the word's gap separates it. */
  lemma GappedCons(p: Piece, rest: seq<Piece>)
    requires WellFormedPiece(p) && Gapped(rest)
    requires rest != [] ==> p.gap != []
    ensures Gapped([p] + rest)
  {
    var ps := [p] + rest;
    assert forall k :: 1 <= k < |ps| ==> ps[k] == rest[k - 1];
  }

  /** The first piece of gapped pieces, and the rest. */
  lemma GappedTail(ps: seq<Piece>)
    requires Gapped(ps) && ps != []
    ensures WellFormedPiece(ps[0]) && Gapped(ps[1..])
    ensures |ps| > 1 ==> ps[0].gap != [] && WellFormedPiece(ps[1])
  {
    var rest := ps[1..];
    assert forall k :: 0 <= k < |rest| ==> rest[k] == ps[k + 1];
  }

  /** A maximal non-space run and the maximal space run after it form a piece. */
  lemma RunsFormPiece(s: string, i: nat)
    requires i < |s| && !IsSpace(s[i])
    ensures WellFormedPiece(Piece(s[i..RunEnd(s, i, NonSpace)], s[RunEnd(s, i, NonSpace)..RunEnd(s, RunEnd(s, i, NonSpace), Space)]))
  {
    var e := RunEnd(s, i, NonSpace);
    RunEndSpec(s, i, NonSpace);
    RunSlice(s, i, NonSpace);
    RunSlice(s, e, Space);
  }

  /** Every piece is a word with the whitespace after it, and only the last gap may be empty. */
  lemma {:induction false} PiecesFromGapped(s: string, i: nat)
    requires i <= |s|
    ensures Gapped(PiecesFrom(s, i))
    decreases |s| - i
  {
    if i < |s| && IsSpace(s[i]) {
      PiecesFromGapped(s, i + 1);
    } else if i < |s| {
      var e := RunEnd(s, i, NonSpace);
      var g := RunEnd(s, e, Space);
      PiecesFromGapped(s, g);
      RunsFormPiece(s, i);
      RunEndSpec(s, i, NonSpace);
      RunEndSpec(s, e, Space);
      if PiecesFrom(s, g) != [] {
        assert g < |s| && !IsSpace(s[g]);
      }
      GappedCons(Piece(s[i..e], s[e..g]), PiecesFrom(s, g));
    }
  }

  function Pieces(s: string): seq<Piece> {
    PiecesFrom(s, 0)
  }

  function WordsOf(ps: seq<Piece>): (ws: seq<string>)
    ensures |ws| == |ps|
    ensures forall k :: 0 <= k < |ps| ==> ws[k] == ps[k].word
  {
    seq(|ps|, k requires 0 <= k < |ps| => ps[k].word)
  }

  /** Python's `str.split()` with no argument. */
  function Split(s: string): seq<string> {
    WordsOf(Pieces(s))
  }

  /** The text a run of pieces covers, words and gaps in order. */
  function Concat(ps: seq<Piece>): string {
    if ps == [] then "" else ps[0].word + ps[0].gap + Concat(ps[1..])
  }

  /** Python's `sep.join(ss)`. */
  function Join(ss: seq<string>, sep: string): string {
    if |ss| == 0 then ""
    else if |ss| == 1 then ss[0]
    else ss[0] + sep + Join(ss[1..], sep)
  }

  /** The pieces of words joined by single spaces. */
  function SingleSpaced(ws: seq<string>): (ps: seq<Piece>)
    ensures |ps| == |ws|
  {
    if |ws| == 0 then []
    else if |ws| == 1 then [Piece(ws[0], "")]
    else [Piece(ws[0], " ")] + SingleSpaced(ws[1..])
  }

  /** Non-empty and free of whitespace: what `split()` can return as a word. */
  predicate IsWord(w: string) {
    |w| > 0 && NoSpace(w)
  }

  function DigitChar(d: nat): (c: char)
    requires d < 10
    ensures IsDigit(c)
  {
    ('0' as int + d) as char
  }

  /** The decimal text of `n`, as an f-string prints an `int`. */
  function NatToString(n: nat): (r: string)
    ensures |r| > 0
    ensures forall i :: 0 <= i < |r| ==> IsDigit(r[i])
  {
    if n < 10 then [DigitChar(n)] else NatToString(n / 10) + [DigitChar(n % 10)]
  }

  /** The number a string of decimal digits denotes. */
  function DecimalValue(s: string): nat
    requires forall i :: 0 <= i < |s| ==> IsDigit(s[i])
  {
    if s == [] then 0
    else
      var d := s[|s| - 1];
      assert IsDigit(d);
      10 * DecimalValue(s[..|s| - 1]) + (d as int - '0' as int)
  }

  // ---------------------------------------------------------------------------
  // Properties
  // ---------------------------------------------------------------------------

  /** Finding `q` in `s` finds every piece of `q` as well. */
  lemma ContainsPart(s: string, q: string, p: string, o: nat)
    requires o + |p| <= |q| && q[o..o + |p|] == p
    requires Contains(s, q)
    ensures Contains(s, p)
  {
    ContainsFromIff(s, q, 0);
    var j: nat :| j <= |s| && MatchesAt(s, q, j);
    assert forall k :: 0 <= k < |p| ==> p[k] == q[o + k];
    var m: nat := j + o;
    assert m <= |s| && MatchesAt(s, p, m);
    ContainsFromIff(s, p, 0);
  }

  /** A greedy run ends at the first character outside its class. */
  lemma {:induction false} RunEndAt(s: string, i: nat, j: nat, k: CharClass)
    requires i <= j <= |s|
    requires forall m :: i <= m < j ==> InClass(s[m], k)
    requires j == |s| || !InClass(s[j], k)
    ensures RunEnd(s, i, k) == j
    decreases j - i
  {
    if i < j {
      RunEndAt(s, i + 1, j, k);
    }
  }

  /** `strip()` removes exactly the whitespace at both ends and leaves a stripped string. */
  /** `not s.strip()`: a string strips to nothing exactly when it is all whitespace. */
  lemma StripBlankIff(s: string)
    ensures Strip(s) == [] <==> AllSpace(s)
  {
    StripSpec(s);
    var a, e := StripStart(s), StripStop(s);
    if Strip(s) == [] {
      forall i | 0 <= i < |s| ensures IsSpace(s[i]) {
        if i < a {
          assert s[..a][i] == s[i];
        }
      }
    }
  }

  lemma StripSpec(s: string)
    ensures IsStripped(Strip(s))
    ensures AllSpace(s[..StripStart(s)]) && AllSpace(s[StripStop(s)..])
    ensures s == s[..StripStart(s)] + Strip(s) + s[StripStop(s)..]
  {
    StripIsStripped(s);
    StripCutsSpace(s);
    StripParts(s);
  }

  lemma StripIsStripped(s: string)
    ensures IsStripped(Strip(s))
  {
    var a, e := StripStart(s), StripStop(s);
    if a < |s| {
      RunEndSpec(s, 0, Space);
      var t := Strip(s);
      assert t[0] == s[a];
      assert t[|t| - 1] == s[e - 1];
    }
  }

  lemma StripCutsSpace(s: string)
    ensures AllSpace(s[..StripStart(s)]) && AllSpace(s[StripStop(s)..])
  {
    var a, e := StripStart(s), StripStop(s);
    RunEndSpec(s, 0, Space);
    forall k | 0 <= k < a ensures IsSpace(s[..a][k]) {
      assert s[..a][k] == s[k];
    }
    forall k | 0 <= k < |s| - e ensures IsSpace(s[e..][k]) {
      assert s[e..][k] == s[e + k];
    }
  }

  lemma StripParts(s: string)
    ensures s == s[..StripStart(s)] + Strip(s) + s[StripStop(s)..]
  {
    var a, e := StripStart(s), StripStop(s);
    SliceSplit(s, 0, a, e);
    assert s[0..] == s && s[0..a] == s[..a];
  }

  /** A stripped string is its own `strip()`. */
  lemma StripFixes(s: string)
    requires IsStripped(s)
    ensures Strip(s) == s
  {
    if s != [] {
      RunEndAt(s, 0, 0, Space);
      assert TrailEnd(s, |s|) == |s|;
    }
  }

  /** `strip()` is idempotent. */
  lemma StripIdempotent(s: string)
    ensures Strip(Strip(s)) == Strip(s)
  {
    StripSpec(s);
    StripFixes(Strip(s));
  }

  /** A suffix of `s` cut in three. */
  lemma SliceSplit(s: string, i: nat, e: nat, g: nat)
    requires i <= e <= g <= |s|
    ensures s[i..] == s[i..e] + s[e..g] + s[g..]
  {
    assert s[i..] == s[i..e] + s[e..];
    assert s[e..] == s[e..g] + s[g..];
  }

  /** Where the parts of a three-part suffix of `s` lie in `s`. */
  lemma SuffixParts(s: string, i: nat, w: string, g: string, c: string)
    requires i <= |s| && s[i..] == w + g + c
    ensures i + |w| + |g| <= |s|
    ensures s[i..i + |w|] == w && s[i + |w|..i + |w| + |g|] == g && s[i + |w| + |g|..] == c
  {
    var t := s[i..];
    assert t[..|w|] == w;
    assert t[|w|..|w| + |g|] == g;
    assert t[|w| + |g|..] == c;
  }

  /** `s[i..e]` is a whole word and `s[e..h]` the whole run of whitespace after it. */
  predicate PieceBounds(s: string, i: nat, e: nat, h: nat)
    requires i < e <= h <= |s|
  {
    && (forall m :: i <= m < e ==> !IsSpace(s[m]))
    && (e == |s| || IsSpace(s[e]))
    && (forall m :: e <= m < h ==> IsSpace(s[m]))
    && (h == |s| || !IsSpace(s[h]))
  }

  /** One step of `PiecesFrom` at a word starting at `i`, whose word ends at `e` and whose gap ends at `h`. */
  lemma PiecesFromStep(s: string, i: nat, e: nat, h: nat)
    requires i < e <= h <= |s|
    requires PieceBounds(s, i, e, h)
    ensures PiecesFrom(s, i) == [Piece(s[i..e], s[e..h])] + PiecesFrom(s, h)
  {
    RunEndAt(s, i, e, NonSpace);
    RunEndAt(s, e, h, Space);
  }

  /** Splitting the text a run of pieces covers gives the pieces back. */
  lemma {:induction false} PiecesFromConcat(s: string, i: nat, ps: seq<Piece>)
    requires i <= |s| && s[i..] == Concat(ps) && Gapped(ps)
    ensures PiecesFrom(s, i) == ps
    decreases |ps|
  {
    if ps == [] {
      assert |s[i..]| == 0;
    } else {
      var h := FirstPiece(s, i, ps);
      PiecesFromConcat(s, h, ps[1..]);
      assert ps == [ps[0]] + ps[1..];
    }
  }

  /** The first piece `PiecesFrom` finds in a covered text is the first piece of the cover. */
  lemma FirstPiece(s: string, i: nat, ps: seq<Piece>) returns (h: nat)
    requires i <= |s| && s[i..] == Concat(ps) && Gapped(ps) && ps != []
    ensures h <= |s| && s[h..] == Concat(ps[1..]) && Gapped(ps[1..])
    ensures PiecesFrom(s, i) == [ps[0]] + PiecesFrom(s, h)
  {
    var w, g, rest := ps[0].word, ps[0].gap, ps[1..];
    GappedTail(ps);
    var e := i + |w|;
    h := i + |w| + |g|;
    SuffixParts(s, i, w, g, Concat(rest));
    assert Piece(s[i..e], s[e..h]) == ps[0];
    SegmentsOfPiece(s, i, e, h, rest);
    PiecesFromStep(s, i, e, h);
  }

  /** What the characters of a suffix `word + gap + Concat(rest)` are, in class terms. */
  lemma SegmentsOfPiece(s: string, i: nat, e: nat, h: nat, rest: seq<Piece>)
    requires i < e <= h <= |s|
    requires NoSpace(s[i..e]) && AllSpace(s[e..h]) && s[h..] == Concat(rest)
    requires h == e ==> rest == []
    requires rest != [] ==> WellFormedPiece(rest[0])
    ensures PieceBounds(s, i, e, h)
  {
    forall m | i <= m < e ensures !IsSpace(s[m]) {
      assert s[m] == s[i..e][m - i];
    }
    forall m | e <= m < h ensures IsSpace(s[m]) {
      assert s[m] == s[e..h][m - e];
    }
    if e == h {
      assert |s[h..]| == |Concat(rest)| == 0;
    }
    if e < |s| && e < h {
      assert s[e] == s[e..h][0];
    }
    if h < |s| {
      assert rest != [];
      assert s[h] == s[h..][0] == rest[0].word[0];
    }
  }

  /** The text of a piece followed by more pieces. */
  lemma ConcatCons(p: Piece, rest: seq<Piece>)
    ensures Concat([p] + rest) == p.word + p.gap + Concat(rest)
  {
    assert ([p] + rest)[1..] == rest;
  }

  /** The pieces of `s[i..]`, put back together, are `s[i..]` without its leading spaces. */
  lemma {:induction false} ConcatPiecesFrom(s: string, i: nat)
    requires i <= |s|
    ensures Concat(PiecesFrom(s, i)) == s[RunEnd(s, i, Space)..]
    decreases |s| - i
  {
    if i == |s| {
    } else if IsSpace(s[i]) {
      ConcatPiecesFrom(s, i + 1);
    } else {
      var e := RunEnd(s, i, NonSpace);
      var g := RunEnd(s, e, Space);
      ConcatPiecesFrom(s, g);
      RunEndSpec(s, e, Space);
      RunEndAt(s, g, g, Space);
      ConcatCons(Piece(s[i..e], s[e..g]), PiecesFrom(s, g));
      SliceSplit(s, i, e, g);
    }
  }

  /** `split()` loses only whitespace: the pieces of a string cover it from its first word on. */
  lemma ConcatPieces(s: string)
    ensures Concat(Pieces(s)) == s[StripStart(s)..]
  {
    ConcatPiecesFrom(s, 0);
  }

  lemma {:induction false} SingleSpacedConcat(ws: seq<string>)
    ensures Concat(SingleSpaced(ws)) == Join(ws, " ")
  {
    if |ws| == 1 {
      assert Concat(SingleSpaced(ws)) == ws[0] + "" + Concat([]);
    } else if |ws| > 1 {
      SingleSpacedConcat(ws[1..]);
      ConcatCons(Piece(ws[0], " "), SingleSpaced(ws[1..]));
    }
  }

  lemma {:induction false} SingleSpacedGapped(ws: seq<string>)
    requires forall k :: 0 <= k < |ws| ==> IsWord(ws[k])
    ensures Gapped(SingleSpaced(ws))
    ensures WordsOf(SingleSpaced(ws)) == ws
  {
    if |ws| > 1 {
      SingleSpacedGapped(ws[1..]);
      var ps := SingleSpaced(ws);
      assert ps == [Piece(ws[0], " ")] + SingleSpaced(ws[1..]);
      forall k | 0 <= k < |ps| ensures ps[k].word == ws[k] {
        if k > 0 {
          assert ps[k] == SingleSpaced(ws[1..])[k - 1];
          assert WordsOf(SingleSpaced(ws[1..]))[k - 1] == ws[1..][k - 1];
        }
      }
    }
  }

  /** `split()` undoes joining words with single spaces. */
  lemma SplitJoin(ws: seq<string>)
    requires forall k :: 0 <= k < |ws| ==> IsWord(ws[k])
    ensures Pieces(Join(ws, " ")) == SingleSpaced(ws)
    ensures Split(Join(ws, " ")) == ws
  {
    SingleSpacedConcat(ws);
    SingleSpacedGapped(ws);
    PiecesConcat(SingleSpaced(ws));
  }

  /** The pieces of a covered text are the pieces it was built from. */
  lemma PiecesConcat(ps: seq<Piece>)
    requires Gapped(ps)
    ensures Pieces(Concat(ps)) == ps
  {
    PiecesFromConcat(Concat(ps), 0, ps);
  }

  /** Reading back the decimal text of a number gives the number. */
  lemma {:induction false} DecimalValueOfNatToString(n: nat)
    ensures DecimalValue(NatToString(n)) == n
  {
    if n >= 10 {
      var t := NatToString(n / 10);
      var r := t + [DigitChar(n % 10)];
      assert r[..|r| - 1] == t;
      DecimalValueOfNatToString(n / 10);
    }
  }
}
