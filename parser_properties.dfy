/**
 * What the parser promises, stated over the model: which inputs it accepts,
 * what an accepted command's action, target and flags are, how suggestions,
 * tutorial matching and help behave.
 */
module ParserProperties {
  import opened Wrappers
  import opened PyText
  import opened CommandPatterns
  import opened CommandParser

  // ---------------------------------------------------------------------------
  // The input checks, in character terms
  // ---------------------------------------------------------------------------

  /** `s` holds the one-, two- or three-character string `p` at `i`, spelled out character by character. */
  lemma MatchesAtShort(s: string, p: string, i: nat)
    requires i <= |s| && 1 <= |p| <= 3
    ensures MatchesAt(s, p, i) <==>
      i + |p| <= |s| && s[i] == p[0] && (|p| >= 2 ==> s[i + 1] == p[1]) && (|p| == 3 ==> s[i + 2] == p[2])
  {
  }

  /** A shell operator of the denylist starts at position `i`. */
  predicate OperatorAt(s: string, i: nat)
    requires i < |s|
  {
    || s[i] == ';' || s[i] == '|' || s[i] == '`'
    || (i + 1 < |s| && s[i] == '&' && s[i + 1] == '&')
    || (i + 1 < |s| && s[i] == '$' && s[i + 1] == '(')
    || (i + 1 < |s| && s[i] == '<' && s[i + 1] == '(')
    || (i + 2 < |s| && s[i] == '>' && s[i + 1] == '$' && s[i + 2] == '{')
  }

  lemma ContainsShort(s: string, p: string)
    requires 1 <= |p| <= 3
    ensures Contains(s, p) <==> exists i :: 0 <= i < |s| && MatchesAt(s, p, i)
  {
    ContainsFromIff(s, p, 0);
    if Contains(s, p) {
      var j: nat :| j <= |s| && MatchesAt(s, p, j);
      assert j < |s|;
    }
  }

  lemma DangerousFromIff(s: string, k: nat)
    requires k <= |DangerousPatterns|
    ensures DangerousFrom(s, k) <==> exists m :: k <= m < |DangerousPatterns| && Contains(s, DangerousPatterns[m])
    decreases |DangerousPatterns| - k
  {
    if k < |DangerousPatterns| {
      DangerousFromIff(s, k + 1);
    }
  }

  /** An operator starts at `i` exactly when some denylist entry occurs at `i`. */
  lemma OperatorAtIff(s: string, i: nat)
    requires i < |s|
    ensures OperatorAt(s, i) <==> exists m :: 0 <= m < |DangerousPatterns| && MatchesAt(s, DangerousPatterns[m], i)
  {
    var ps := DangerousPatterns;
    MatchesAtShort(s, ps[0], i);
    MatchesAtShort(s, ps[1], i);
    MatchesAtShort(s, ps[2], i);
    MatchesAtShort(s, ps[3], i);
    MatchesAtShort(s, ps[4], i);
    MatchesAtShort(s, ps[5], i);
    MatchesAtShort(s, ps[6], i);
    MatchesAtShort(s, ps[7], i);
    MatchesAtShort(s, ps[8], i);
    if OperatorAt(s, i) {
      var m :=
        if s[i] == ';' then 0
        else if s[i] == '|' then 3
        else if s[i] == '`' then 4
        else if s[i] == '&' then 1
        else if s[i] == '$' then 5
        else if s[i] == '>' then 7
        else 8;
      assert MatchesAt(s, ps[m], i);
    }
  }

  /** A denylist hit starts an operator somewhere. */
  lemma DangerousSound(s: string)
    requires HasDangerousPattern(s)
    ensures exists i :: 0 <= i < |s| && OperatorAt(s, i)
  {
    DangerousFromIff(s, 0);
    var m :| 0 <= m < |DangerousPatterns| && Contains(s, DangerousPatterns[m]);
    ContainsShort(s, DangerousPatterns[m]);
    var i :| 0 <= i < |s| && MatchesAt(s, DangerousPatterns[m], i);
    OperatorAtIff(s, i);
  }

  /** An operator anywhere is a denylist hit. */
  lemma DangerousComplete(s: string, i: nat)
    requires i < |s| && OperatorAt(s, i)
    ensures HasDangerousPattern(s)
  {
    OperatorAtIff(s, i);
    var m :| 0 <= m < |DangerousPatterns| && MatchesAt(s, DangerousPatterns[m], i);
    ContainsFromIff(s, DangerousPatterns[m], 0);
    var j: nat := i;
    assert j <= |s| && MatchesAt(s, DangerousPatterns[m], j);
    DangerousFromIff(s, 0);
  }

  /** The denylist rejects exactly the commands in which one of its operators occurs. */
  lemma DangerousPatternIff(s: string)
    ensures HasDangerousPattern(s) <==> exists i :: 0 <= i < |s| && OperatorAt(s, i)
  {
    if HasDangerousPattern(s) {
      DangerousSound(s);
    }
    if exists i :: 0 <= i < |s| && OperatorAt(s, i) {
      var i :| 0 <= i < |s| && OperatorAt(s, i);
      DangerousComplete(s, i);
    }
  }

  lemma {:induction false} ControlFromIff(s: string, i: nat)
    ensures ControlFrom(s, i) <==> exists j :: i <= j < |s| && IsControl(s[j])
    decreases |s| - i
  {
    if i < |s| {
      ControlFromIff(s, i + 1);
    }
  }

  /** The control-character check rejects exactly the commands holding a character below 32 other than tab and newline. */
  lemma ControlCharIff(s: string)
    ensures HasControlChar(s) <==> exists j :: 0 <= j < |s| && IsControl(s[j])
  {
    ControlFromIff(s, 0);
  }

  // ---------------------------------------------------------------------------
  // The outcome record
  // ---------------------------------------------------------------------------

  /** A matched command is accepted with its verb's metaphor; an unknown one is refused with a hint. */
  lemma MatchTableOutcome(s: string)
    ensures var r := MatchTable(s);
      && r.command == s
      && (r.valid <==> FirstMatchFrom(Pieces(s), 0).Some?)
      && (r.valid ==> r.action == VerbName(FirstMatchFrom(Pieces(s), 0).value.0)
                      && r.metaphorExplanation == Some(Metaphor(FirstMatchFrom(Pieces(s), 0).value.0)))
  {
  }

  /**
   * The two shapes a result takes: an acceptance (valid, successful, with an
   * action, its metaphor and no hint) or a refusal (neither valid nor
   * successful, with a hint, and no action, target, metaphor or flags).
   */
  predicate WellShaped(r: CommandResult) {
    && (r.valid <==> r.success)
    && (r.valid <==> r.action != "")
    && (r.valid ==> r.helpHint.None? && exists v :: r.action == VerbName(v) && r.metaphorExplanation == Some(Metaphor(v)))
    && (!r.valid ==> r.helpHint.Some? && r.metaphorExplanation.None? && r.target == "" && r.flags == map[])
  }

  lemma MatchTableWellShaped(s: string)
    ensures WellShaped(MatchTable(s))
  {
    MatchTableOutcome(s);
    match FirstMatchFrom(Pieces(s), 0)
    case Some((v, g)) => VerbNameIsLowerCase(v);
    case None =>
  }

  /** Every input yields an acceptance or a refusal; anything but a string is refused as invalid input. */
  lemma ParseOutcome(input: RawInput)
    ensures WellShaped(Parse(input))
    ensures !input.Str? ==> !Parse(input).valid && Parse(input).message == InvalidInputMessage
  {
    var r := Parse(input);
    if input.Str? {
      var s := Strip(input.text);
      if s == "" || |s| > MaxCommandLength || HasDangerousPattern(s) || HasControlChar(s) || !StartsWith(Lower(s), "docker") {
        assert !r.valid && r.helpHint.Some? && r.metaphorExplanation.None? && r.target == "" && r.flags == map[] && !r.success && r.action == "";
      } else {
        MatchTableWellShaped(s);
        assert r == MatchTable(s);
      }
    } else {
      assert !r.valid && r.helpHint.Some? && r.metaphorExplanation.None? && r.target == "" && r.flags == map[] && !r.success && r.action == "";
    }
  }

  /** `strip()` has already been applied to what the parser keeps, so stripping first changes nothing. */
  lemma ParseStripInvariant(raw: string)
    ensures Parse(Str(Strip(raw))) == Parse(Str(raw))
  {
    StripIdempotent(raw);
  }

  /**
   * A command is accepted exactly when, once stripped, it is non-empty, at
   * most 500 characters long, free of shell operators and control
   * characters, starts with `docker` in any case, and some pattern matches it.
   */
  lemma AcceptedIff(raw: string)
    ensures Parse(Str(raw)).valid <==>
      var c := Strip(raw);
      && c != ""
      && |c| <= MaxCommandLength
      && (forall i :: 0 <= i < |c| ==> !OperatorAt(c, i))
      && (forall i :: 0 <= i < |c| ==> !IsControl(c[i]))
      && StartsWith(Lower(c), "docker")
      && exists v :: MatchPattern(v, Pieces(c)).Some?
    ensures Parse(Str(raw)).valid ==> Parse(Str(raw)).command == Strip(raw)
  {
    var c := Strip(raw);
    DangerousPatternIff(c);
    ControlCharIff(c);
    FirstMatchSpec(Pieces(c));
    MatchTableOutcome(c);
  }

  /** A command blank once stripped is refused as empty, before any other check. */
  lemma RefusedBlank(raw: string)
    requires AllSpace(raw)
    ensures var r := Parse(Str(raw));
      !r.valid && !r.success && r.command == "" && r.message == EmptyMessage && r.helpHint == Some(EmptyHint)
  {
    StripBlankIff(raw);
  }

  /** Over the length limit once stripped: refused, echoing only the first 50 characters and `...`. */
  lemma RefusedTooLong(raw: string)
    requires |Strip(raw)| > MaxCommandLength
    ensures var r := Parse(Str(raw));
      && !r.valid && !r.success && r.message == TooLongMessage(|Strip(raw)|) && r.helpHint == Some(TooLongHint)
      && |r.command| == 53 && r.command[..50] == Strip(raw)[..50] && r.command[50..] == "..."
  {
  }

  /** A shell operator anywhere refuses the command, whatever else it holds (control characters, no `docker`). */
  lemma RefusedOperator(raw: string, i: nat)
    requires var c := Strip(raw); 0 < |c| <= MaxCommandLength && i < |c| && OperatorAt(c, i)
    ensures var r := Parse(Str(raw));
      !r.valid && !r.success && r.message == DangerousMessage && r.helpHint == Some(DangerousHint)
  {
    DangerousComplete(Strip(raw), i);
  }

  /** With no operator, a control character refuses the command, whether or not it starts with `docker`. */
  lemma RefusedControl(raw: string, j: nat)
    requires var c := Strip(raw);
      && 0 < |c| <= MaxCommandLength && (forall i :: 0 <= i < |c| ==> !OperatorAt(c, i))
      && j < |c| && IsControl(c[j])
    ensures var r := Parse(Str(raw));
      !r.valid && !r.success && r.message == ControlMessage && r.helpHint == Some(ControlHint)
  {
    DangerousPatternIff(Strip(raw));
    ControlCharIff(Strip(raw));
  }

  /** Passing the character checks but not starting with `docker`: refused with a suggestion to prefix it. */
  lemma RefusedPrefix(raw: string)
    requires var c := Strip(raw);
      && 0 < |c| <= MaxCommandLength
      && (forall i :: 0 <= i < |c| ==> !OperatorAt(c, i) && !IsControl(c[i]))
      && !StartsWith(Lower(c), "docker")
    ensures var r := Parse(Str(raw));
      && !r.valid && !r.success && r.command == Strip(raw) && r.message == PrefixMessage
      && r.helpHint == Some("Did you mean: docker " + Strip(raw) + "?")
  {
    DangerousPatternIff(Strip(raw));
    ControlCharIff(Strip(raw));
  }

  /**
   * Passing every check but matching no pattern: refused as unknown, naming the
   * second word, with the suggestions as hint or else the list of supported commands.
   */
  lemma RefusedUnknown(raw: string)
    requires var c := Strip(raw);
      && 0 < |c| <= MaxCommandLength
      && (forall i :: 0 <= i < |c| ==> !OperatorAt(c, i) && !IsControl(c[i]))
      && StartsWith(Lower(c), "docker")
      && forall v :: MatchPattern(v, Pieces(c)).None?
    ensures var r := Parse(Str(raw));
      var suggestions := SimilarCommands(AttemptedAction(Strip(raw)));
      && !r.valid && !r.success && r.command == Strip(raw)
      && r.message == "❌ Unknown Docker command: '" + AttemptedAction(Strip(raw)) + "'"
      && (suggestions != [] ==> r.helpHint == Some("Did you mean: " + Join(suggestions, ", ") + "?"))
      && (suggestions == [] ==> r.helpHint == Some(SupportedCommandsHint))
  {
    var c := Strip(raw);
    PassesChecks(raw);
    FirstMatchSpec(Pieces(c));
    assert MatchTable(c) == UnknownResult(c, SimilarCommands(AttemptedAction(c)));
  }

  /** Once every check has passed, the result is that of the pattern table. */
  lemma ChecksPassed(s: string)
    requires Strip(s) == s && s != [] && |s| <= MaxCommandLength
    requires !HasDangerousPattern(s) && !HasControlChar(s)
    requires StartsWith(Lower(s), "docker")
    ensures Parse(Str(s)) == MatchTable(s)
  {
    var c := Strip(s);
    assert c != "";
    assert !(|c| > MaxCommandLength);
    assert !HasDangerousPattern(c);
    assert !HasControlChar(c);
    assert StartsWith(Lower(c), "docker");
  }

  /** Past the character checks, the pattern table decides. */
  lemma PassesChecks(raw: string)
    requires var c := Strip(raw);
      && 0 < |c| <= MaxCommandLength
      && (forall i :: 0 <= i < |c| ==> !OperatorAt(c, i) && !IsControl(c[i]))
      && StartsWith(Lower(c), "docker")
    ensures Parse(Str(raw)) == MatchTable(Strip(raw))
  {
    var c := Strip(raw);
    StripIdempotent(raw);
    DangerousPatternIff(c);
    ControlCharIff(c);
    ChecksPassed(c);
    ParseStripInvariant(raw);
  }

  // ---------------------------------------------------------------------------
  // Action and target of an accepted command
  // ---------------------------------------------------------------------------

  /** An accepted command is the result of its matching pattern. */
  lemma AcceptedIsMatched(raw: string) returns (v: Verb, g: GroupDict)
    requires Parse(Str(raw)).valid
    ensures Parse(Str(raw)) == MatchedResult(Strip(raw), v, g)
    ensures MatchPattern(v, Pieces(Strip(raw))) == Some(g)
  {
    var c := Strip(raw);
    var r := Parse(Str(raw));
    if c == "" || |c| > MaxCommandLength || HasDangerousPattern(c) || HasControlChar(c) || !StartsWith(Lower(c), "docker") {
      assert false;
    }
    assert r == MatchTable(c);
    MatchTableOutcome(c);
    FirstMatchSpec(Pieces(c));
    v, g := FirstMatchFrom(Pieces(c), 0).value.0, FirstMatchFrom(Pieces(c), 0).value.1;
  }

  /** The action of an accepted command is its second word, lower-cased, and its first word is `docker`. */
  lemma AcceptedAction(raw: string)
    requires Parse(Str(raw)).valid
    ensures var ws := Split(Parse(Str(raw)).command);
      |ws| >= 2 && Lower(ws[0]) == "docker" && Lower(ws[1]) == Parse(Str(raw)).action
  {
    var v, g := AcceptedIsMatched(raw);
    MatchNamesVerb(v, Pieces(Strip(raw)));
  }

  /** Where a pattern's target comes from: nowhere for the listings, the last word for one-argument verbs, the image word for `run`. */
  lemma MatchTarget(v: Verb, ps: seq<Piece>, g: GroupDict)
    requires MatchPattern(v, ps) == Some(g)
    ensures v == Ps || v == Images ==> TargetOf(g) == ""
    ensures v != Ps && v != Images ==> exists k :: 2 <= k < |ps| && TargetOf(g) == ps[k].word
    ensures v != Ps && v != Images && v != Run ==> TargetOf(g) == ps[|ps| - 1].word
    ensures v == Run ==> |ps| > 2 && TargetOf(g) == ps[2 + RunFlagsEnd(ps[2..], 0)].word
  {
    var args := ps[2..];
    if v == Run {
      var p := RunFlagsEnd(args, 0);
      var k := p + 2;
      assert TargetOf(g) == ps[k].word;
    } else if v != Ps && v != Images {
      if v == Build {
        var p := BuildFlagsEnd(args, 0);
        assert TargetOf(g) == args[p].word;
      }
      assert TargetOf(g) == ps[|ps| - 1].word;
    }
  }

  /**
   * What the target of a result is: one of the command's words after the verb,
   * taken verbatim (for `run` the word where the greedy flag chain ends, for every
   * other verb the last one), and empty exactly for the two listing commands.
   */
  predicate TargetShape(r: CommandResult) {
    TargetOfCommand(r.action, r.target, r.command)
  }

  predicate TargetOfCommand(action: string, target: string, command: string) {
    var ws := Split(command);
    && ((action == "ps" || action == "images") <==> target == "")
    && (target != "" ==> NoSpace(target) && exists k :: 2 <= k < |ws| && target == ws[k])
    && (action != "ps" && action != "images" && action != "run" ==> |ws| > 2 && target == ws[|ws| - 1])
    && (action == "run" ==> var ps := Pieces(command); |ps| > 2 && target == ps[2 + RunFlagsEnd(ps[2..], 0)].word)
  }

  /** The target of an accepted command has that shape. */
  lemma AcceptedTarget(raw: string)
    requires Parse(Str(raw)).valid
    ensures TargetShape(Parse(Str(raw)))
  {
    var v, g := AcceptedIsMatched(raw);
    MatchedShape(Strip(raw), v, g);
  }

  lemma MatchedShape(c: string, v: Verb, g: GroupDict)
    requires MatchPattern(v, Pieces(c)) == Some(g)
    ensures TargetShape(MatchedResult(c, v, g))
  {
    MatchedTarget(c, v, g);
    MatchedFields(c, v, g);
  }

  lemma MatchedFields(c: string, v: Verb, g: GroupDict)
    ensures var r := MatchedResult(c, v, g);
      r.valid && r.command == c && r.action == VerbName(v) && r.target == TargetOf(g)
  {
    var target, flags := TargetOf(g), FlagsOf(g);
    assert MatchedResult(c, v, g) == CommandResult(c, VerbName(v), target, true, true, SuccessMessage(v, target, flags),
                                                   None, Some(Metaphor(v)), flags);
  }

  lemma MatchedTarget(c: string, v: Verb, g: GroupDict)
    requires MatchPattern(v, Pieces(c)) == Some(g)
    ensures TargetOfCommand(VerbName(v), TargetOf(g), c)
  {
    VerbNameIs(v);
    MatchTarget(v, Pieces(c), g);
    PiecesFromGapped(c, 0);
    if v != Ps && v != Images {
      TargetIsWord(c, v, g);
      if v != Run {
        TargetIsLastWord(c, v, g);
      }
    }
  }

  lemma TargetIsWord(c: string, v: Verb, g: GroupDict)
    requires MatchPattern(v, Pieces(c)) == Some(g) && v != Ps && v != Images
    ensures var ws := Split(c);
      TargetOf(g) != "" && NoSpace(TargetOf(g)) && exists k :: 2 <= k < |ws| && TargetOf(g) == ws[k]
  {
    var ps, ws := Pieces(c), Split(c);
    MatchTarget(v, ps, g);
    PiecesFromGapped(c, 0);
    var k :| 2 <= k < |ps| && TargetOf(g) == ps[k].word;
    assert WellFormedPiece(ps[k]);
    assert ws[k] == ps[k].word;
  }

  lemma TargetIsLastWord(c: string, v: Verb, g: GroupDict)
    requires MatchPattern(v, Pieces(c)) == Some(g) && v != Ps && v != Images && v != Run
    ensures var ws := Split(c); |ws| > 2 && TargetOf(g) == ws[|ws| - 1]
  {
    var ps, ws := Pieces(c), Split(c);
    MatchTarget(v, ps, g);
    assert ws[|ws| - 1] == ps[|ps| - 1].word;
  }

  // ---------------------------------------------------------------------------
  // Flags
  // ---------------------------------------------------------------------------

  /** `re.search` reports the capture at the leftmost position where the expression matches, and fails only if it matches nowhere. */
  lemma {:induction false} SearchLeftmost(k: Probe, s: string, i: nat)
    requires i <= |s|
    ensures Search(k, s, i).Some? ==>
      exists j :: i <= j <= |s| && ProbeAt(k, s, j) == Search(k, s, i) && forall m :: i <= m < j ==> ProbeAt(k, s, m).None?
    ensures Search(k, s, i).None? ==> forall j :: i <= j <= |s| ==> ProbeAt(k, s, j).None?
    decreases |s| - i
  {
    if ProbeAt(k, s, i).None? && i < |s| {
      SearchLeftmost(k, s, i + 1);
      if Search(k, s, i).Some? {
        var j :| i + 1 <= j <= |s| && ProbeAt(k, s, j) == Search(k, s, i + 1) && forall m :: i + 1 <= m < j ==> ProbeAt(k, s, m).None?;
        assert forall m :: i <= m < j ==> ProbeAt(k, s, m).None?;
      }
    } else if ProbeAt(k, s, i).Some? {
      var j := i;
      assert ProbeAt(k, s, j) == Search(k, s, i);
    }
  }

  /** Digits, a colon, digits. */
  predicate IsPortMapping(t: string) {
    exists c :: 0 < c < |t| - 1 && t[c] == ':' && (forall m :: 0 <= m < |t| && m != c ==> IsDigit(t[m]))
  }

  /** Two non-empty digit strings joined by a colon form a port mapping. */
  lemma DigitsMakePort(x: string, y: string)
    requires x != [] && y != [] && AllIn(x, Digit) && AllIn(y, Digit)
    ensures IsPortMapping(x + ":" + y)
  {
    var t := x + ":" + y;
    var colon := |x|;
    assert t[colon] == ':';
    forall m | 0 <= m < |t| && m != colon ensures IsDigit(t[m]) {
      if m < colon {
        assert t[m] == x[m];
      } else {
        assert t[m] == y[m - colon - 1];
      }
    }
  }

  /**
   * What `-p\s+(\d+):(\d+)` captures at `i`, with the two groups joined by a colon:
   * after `-p` and a non-empty run of whitespace, the text from `a` to `c`, a port
   * mapping whose second number the next character does not continue.
   */
  predicate PortCapture(s: string, i: nat, v: string)
    requires i <= |s|
  {
    && MatchesAt(s, "-p", i)
    && exists a, c :: i + 2 < a < c <= |s| && AllInRange(s, i + 2, a, Space) && v == s[a..c]
         && IsPortMapping(v) && (c == |s| || !IsDigit(s[c]))
  }

  /**
   * What `[=\s]+(\S+)` captures at `j`: a whole run of non-space characters from
   * `a` to `c`, after a non-empty run of `=` and whitespace from `j`. The greedy
   * run gives characters back only as far as it must, so no longer run of `=` and
   * whitespace from `j` is followed by a non-space character.
   */
  predicate ValueCapture(s: string, j: nat, v: string)
    requires j <= |s|
  {
    exists a, c :: j < a < c <= |s| && AllInRange(s, j, a, EqualsOrSpace) && v == s[a..c]
      && NoSpace(v) && (c == |s| || IsSpace(s[c]))
      && forall a' :: a < a' < |s| && AllInRange(s, j, a', EqualsOrSpace) ==> IsSpace(s[a'])
  }

  /** What each of the three flag expressions captures when it matches at `i`. */
  predicate Captures(k: Probe, s: string, i: nat, v: string)
    requires i <= |s|
  {
    match k
    case PortProbe => PortCapture(s, i, v)
    case NameProbe => MatchesAt(s, "--name", i) && ValueCapture(s, i + 6, v)
    case TagProbe =>
      || (MatchesAt(s, "-t", i) && ValueCapture(s, i + 2, v))
      || (MatchesAt(s, "--tag", i) && ValueCapture(s, i + 5, v))
  }

  lemma PortAtShape(s: string, i: nat)
    requires i <= |s| && PortAt(s, i).Some?
    ensures MatchesAt(s, "-p", i) && IsPortMapping(PortAt(s, i).value)
    ensures PortCapture(s, i, PortAt(s, i).value)
  {
    var a := RunEnd(s, i + 2, Space);
    var b := RunEnd(s, a, Digit);
    var c := RunEnd(s, b + 1, Digit);
    assert a > i + 2 && b > a && b < |s| && s[b] == ':' && c > b + 1;
    RunRange(s, i + 2, Space);
    RunRange(s, a, Digit);
    RunRange(s, b + 1, Digit);
    assert PortAt(s, i) == Some(s[a..b] + ":" + s[b + 1..c]);
    JoinAtColon(s, a, b, c);
    PortFromRanges(s, a, b, c);
    PortCaptureAt(s, i, a, c);
  }

  /** Digits, a colon and digits, read off the text. */
  lemma PortFromRanges(s: string, a: nat, b: nat, c: nat)
    requires a < b && b + 1 < c <= |s| && s[b] == ':'
    requires AllInRange(s, a, b, Digit) && AllInRange(s, b + 1, c, Digit)
    ensures IsPortMapping(s[a..c])
  {
    var t := s[a..c];
    assert forall m :: 0 <= m < |t| ==> t[m] == s[a + m];
    assert t[b - a] == ':';
  }

  /** A port mapping after `-p` and whitespace, not continued by a digit, is what the port expression captures. */
  lemma PortCaptureAt(s: string, i: nat, a: nat, c: nat)
    requires i + 2 < a < c <= |s| && MatchesAt(s, "-p", i)
    requires AllInRange(s, i + 2, a, Space) && IsPortMapping(s[a..c]) && (c == |s| || !IsDigit(s[c]))
    ensures PortCapture(s, i, s[a..c])
  {
  }

  /** The two numbers of a port joined by a colon are the text they span, when a colon separates them. */
  lemma JoinAtColon(s: string, a: nat, b: nat, c: nat)
    requires a <= b < c <= |s| && s[b] == ':'
    ensures s[a..c] == s[a..b] + ":" + s[b + 1..c]
  {
    assert s[a..c] == s[a..b] + s[b..b + 1] + s[b + 1..c];
  }

  /** What `[=\s]+(\S+)` captures at `j`, where `[=\s]+` has reached `e` and no longer run is followed by a non-space. */
  lemma {:induction false} ValueAfterRunShape(s: string, j: nat, e: nat)
    requires j < e <= |s| && ValueAfterRun(s, j, e).Some?
    requires AllInRange(s, j, e, EqualsOrSpace)
    requires forall a' :: e < a' < |s| && AllInRange(s, j, a', EqualsOrSpace) ==> IsSpace(s[a'])
    ensures ValueAfterRun(s, j, e).value != [] && ValueCapture(s, j, ValueAfterRun(s, j, e).value)
    decreases e
  {
    if e < |s| && !IsSpace(s[e]) {
      var c := RunEnd(s, e, NonSpace);
      RunEndSpec(s, e, NonSpace);
      RunEndAt(s, e, e, Space);
      var t := s[e..c];
      assert t[0] == s[e];
      assert forall m :: 0 <= m < |t| ==> t[m] == s[e + m];
      assert j < e < c <= |s| && AllInRange(s, j, e, EqualsOrSpace) && t == s[e..c] && NoSpace(t) && (c == |s| || IsSpace(s[c]));
    } else {
      ValueAfterRunShape(s, j, e - 1);
    }
  }

  lemma ValueAtShape(s: string, j: nat)
    requires j <= |s| && ValueAt(s, j).Some?
    ensures ValueAt(s, j).value != [] && NoSpace(ValueAt(s, j).value)
    ensures ValueCapture(s, j, ValueAt(s, j).value)
  {
    var e := RunEnd(s, j, EqualsOrSpace);
    RunEndSpec(s, j, EqualsOrSpace);
    forall a' | e < a' < |s| ensures !AllInRange(s, j, a', EqualsOrSpace) {
      assert !InClass(s[e], EqualsOrSpace);
    }
    ValueAfterRunShape(s, j, e);
  }

  /** Each value flag's capture has its shape, and its flag text occurs in the flags. */
  lemma ProbeShape(k: Probe, s: string, i: nat)
    requires i <= |s| && ProbeAt(k, s, i).Some?
    ensures Captures(k, s, i, ProbeAt(k, s, i).value)
    ensures k == PortProbe ==> IsPortMapping(ProbeAt(k, s, i).value) && MatchesAt(s, "-p", i)
    ensures k == NameProbe ==> ProbeAt(k, s, i).value != [] && NoSpace(ProbeAt(k, s, i).value) && MatchesAt(s, "--name", i)
    ensures k == TagProbe ==> ProbeAt(k, s, i).value != [] && NoSpace(ProbeAt(k, s, i).value)
                              && (MatchesAt(s, "-t", i) || MatchesAt(s, "--tag", i))
  {
    match k
    case PortProbe => PortAtShape(s, i);
    case NameProbe => ValueAtShape(s, i + 6);
    case TagProbe =>
      if MatchesAt(s, "-t", i) && ValueAt(s, i + 2).Some? {
        ValueAtShape(s, i + 2);
      } else {
        ValueAtShape(s, i + 5);
      }
  }

  /** A probe that succeeds somewhere leaves its flag text as a substring. */
  lemma FoundIsContained(s: string, p: string, j: nat)
    requires j <= |s| && MatchesAt(s, p, j)
    ensures Contains(s, p)
  {
    ContainsFromIff(s, p, 0);
    var w: nat := j;
    assert w <= |s| && MatchesAt(s, p, w);
  }

  /**
   * The three switches are set, to `True`, exactly when their short spelling
   * occurs anywhere in the flags text: the long spellings `--all`, `--force`
   * and `--detach` contain the short ones and add nothing.
   */
  lemma SwitchFlags(fs: string)
    ensures var f := ParseFlags(fs);
      && ("all" in f <==> Contains(fs, "-a")) && ("all" in f ==> f["all"] == On)
      && ("force" in f <==> Contains(fs, "-f")) && ("force" in f ==> f["force"] == On)
      && ("detach" in f <==> Contains(fs, "-d")) && ("detach" in f ==> f["detach"] == On)
  {
    if Contains(fs, "--all") {
      assert "--all"[1..3] == "-a";
      ContainsPart(fs, "--all", "-a", 1);
    }
    if Contains(fs, "--force") {
      assert "--force"[1..3] == "-f";
      ContainsPart(fs, "--force", "-f", 1);
    }
    if Contains(fs, "--detach") {
      assert "--detach"[1..3] == "-d";
      ContainsPart(fs, "--detach", "-d", 1);
    }
  }

  /** `v` is what the probe captures at the leftmost position of `fs` where it matches. */
  predicate FirstCapture(k: Probe, fs: string, v: string) {
    exists j :: 0 <= j <= |fs| && Captures(k, fs, j, v) && forall m :: 0 <= m < j ==> ProbeAt(k, fs, m).None?
  }

  /** What `re.search` finds is the capture at the leftmost match; when it finds nothing, the probe matches nowhere. */
  lemma SearchCapture(k: Probe, fs: string)
    ensures Search(k, fs, 0).Some? <==> exists j :: 0 <= j <= |fs| && ProbeAt(k, fs, j).Some?
    ensures Search(k, fs, 0).Some? ==> FirstCapture(k, fs, Search(k, fs, 0).value)
  {
    SearchLeftmost(k, fs, 0);
    if Search(k, fs, 0).Some? {
      var j :| 0 <= j <= |fs| && ProbeAt(k, fs, j) == Search(k, fs, 0) && forall m :: 0 <= m < j ==> ProbeAt(k, fs, m).None?;
      ProbeShape(k, fs, j);
    }
  }

  /** Flag extraction stores each of the three searches under its key, and sets the key only when the search finds something. */
  lemma ParseFlagsValues(fs: string)
    ensures var f := ParseFlags(fs);
      && ("port" in f <==> Search(PortProbe, fs, 0).Some?)
      && ("name" in f <==> Search(NameProbe, fs, 0).Some?)
      && ("tag" in f <==> Search(TagProbe, fs, 0).Some?)
      && ("port" in f ==> f["port"] == Text(Search(PortProbe, fs, 0).value))
      && ("name" in f ==> f["name"] == Text(Search(NameProbe, fs, 0).value))
      && ("tag" in f ==> f["tag"] == Text(Search(TagProbe, fs, 0).value))
  {
  }

  /** The port `re.search` finds is a mapping that follows a `-p`. */
  lemma PortFound(fs: string)
    requires Search(PortProbe, fs, 0).Some?
    ensures IsPortMapping(Search(PortProbe, fs, 0).value) && Contains(fs, "-p")
  {
    SearchLeftmost(PortProbe, fs, 0);
    var j :| 0 <= j <= |fs| && ProbeAt(PortProbe, fs, j) == Search(PortProbe, fs, 0);
    ProbeShape(PortProbe, fs, j);
    FoundIsContained(fs, "-p", j);
  }

  /** The name `re.search` finds is one word that follows a `--name`. */
  lemma NameFound(fs: string)
    requires Search(NameProbe, fs, 0).Some?
    ensures Search(NameProbe, fs, 0).value != [] && NoSpace(Search(NameProbe, fs, 0).value) && Contains(fs, "--name")
  {
    SearchLeftmost(NameProbe, fs, 0);
    var j :| 0 <= j <= |fs| && ProbeAt(NameProbe, fs, j) == Search(NameProbe, fs, 0);
    ProbeShape(NameProbe, fs, j);
    FoundIsContained(fs, "--name", j);
  }

  /** The tag `re.search` finds is one word that follows a `-t` (which `--tag` contains). */
  lemma TagFound(fs: string)
    requires Search(TagProbe, fs, 0).Some?
    ensures Search(TagProbe, fs, 0).value != [] && NoSpace(Search(TagProbe, fs, 0).value) && Contains(fs, "-t")
  {
    SearchLeftmost(TagProbe, fs, 0);
    var j :| 0 <= j <= |fs| && ProbeAt(TagProbe, fs, j) == Search(TagProbe, fs, 0);
    ProbeShape(TagProbe, fs, j);
    if MatchesAt(fs, "-t", j) {
      FoundIsContained(fs, "-t", j);
    } else {
      FoundIsContained(fs, "--tag", j);
      assert "--tag"[1..3] == "-t";
      ContainsPart(fs, "--tag", "-t", 1);
    }
  }

  /**
   * Flag extraction writes only the six known keys; a port is a
   * digits-colon-digits mapping after `-p`; a name or a tag is one
   * non-empty word after `--name` or `-t`/`--tag`.
   */
  lemma ValueFlags(fs: string)
    ensures var f := ParseFlags(fs);
      && f.Keys <= FlagKeys
      && ("port" in f <==> Search(PortProbe, fs, 0).Some?)
      && ("port" in f ==> f["port"].Text? && IsPortMapping(f["port"].text) && Contains(fs, "-p"))
      && ("name" in f ==> f["name"].Text? && f["name"].text != [] && NoSpace(f["name"].text) && Contains(fs, "--name"))
      && ("tag" in f ==> f["tag"].Text? && f["tag"].text != [] && NoSpace(f["tag"].text) && Contains(fs, "-t"))
  {
    if Search(PortProbe, fs, 0).Some? {
      PortFound(fs);
    }
    if Search(NameProbe, fs, 0).Some? {
      NameFound(fs);
    }
    if Search(TagProbe, fs, 0).Some? {
      TagFound(fs);
    }
  }

  /**
   * Each of `port`, `name` and `tag` is set exactly when its expression matches
   * somewhere in the flags text, and then holds what the expression captures at
   * the leftmost position where it matches.
   */
  lemma ValueFlagsCaptured(fs: string)
    ensures var f := ParseFlags(fs);
      && ("port" in f <==> exists j :: 0 <= j <= |fs| && ProbeAt(PortProbe, fs, j).Some?)
      && ("name" in f <==> exists j :: 0 <= j <= |fs| && ProbeAt(NameProbe, fs, j).Some?)
      && ("tag" in f <==> exists j :: 0 <= j <= |fs| && ProbeAt(TagProbe, fs, j).Some?)
      && ("port" in f ==> f["port"].Text? && FirstCapture(PortProbe, fs, f["port"].text))
      && ("name" in f ==> f["name"].Text? && FirstCapture(NameProbe, fs, f["name"].text))
      && ("tag" in f ==> f["tag"].Text? && FirstCapture(TagProbe, fs, f["tag"].text))
  {
    ParseFlagsValues(fs);
    SearchCapture(PortProbe, fs);
    SearchCapture(NameProbe, fs);
    SearchCapture(TagProbe, fs);
  }

  // ---------------------------------------------------------------------------
  // The success message
  // ---------------------------------------------------------------------------

  lemma StartsWithConcat(p: string, q: string)
    ensures StartsWith(p + q, p)
  {
    assert forall k :: 0 <= k < |p| ==> (p + q)[k] == p[k];
  }

  /**
   * The success message is the verb's sentence followed by the notes for the
   * displayed flags; with no flags it is the sentence alone.
   */
  lemma SuccessMessageExtends(v: Verb, target: string, flags: Flags)
    ensures StartsWith(SuccessMessage(v, target, flags), BaseMessage(v, target))
    ensures flags == map[] ==> SuccessMessage(v, target, flags) == BaseMessage(v, target)
  {
    FlagNotesExtend(BaseMessage(v, target), flags);
  }

  lemma FlagNotesExtend(message: string, flags: Flags)
    ensures StartsWith(WithFlagNotes(message, flags), message)
    ensures flags == map[] ==> WithFlagNotes(message, flags) == message
  {
    var m1 := AppendIf(message, Truthy(flags, "all"), " (including stopped)");
    var m2 := AppendIf(m1, Truthy(flags, "detach"), " in background mode");
    var m3 := AppendIf(m2, Truthy(flags, "port"), " with port mapping " + ShownFlag(flags, "port"));
    var m4 := AppendIf(m3, Truthy(flags, "name"), " with name '" + ShownFlag(flags, "name") + "'");
    AppendIfExtends(message, Truthy(flags, "all"), " (including stopped)");
    AppendIfExtends(m1, Truthy(flags, "detach"), " in background mode");
    AppendIfExtends(m2, Truthy(flags, "port"), " with port mapping " + ShownFlag(flags, "port"));
    AppendIfExtends(m3, Truthy(flags, "name"), " with name '" + ShownFlag(flags, "name") + "'");
    StartsWithTrans(m2, m1, message);
    StartsWithTrans(m3, m2, message);
    StartsWithTrans(m4, m3, message);
  }

  lemma AppendIfExtends(message: string, condition: bool, note: string)
    ensures StartsWith(AppendIf(message, condition, note), message)
  {
    if condition {
      StartsWithConcat(message, note);
    } else {
      assert MatchesAt(message, message, 0);
    }
  }

  lemma StartsWithTrans(s: string, p: string, q: string)
    requires StartsWith(s, p) && StartsWith(p, q)
    ensures StartsWith(s, q)
  {
  }

  /** Only `all`, `detach`, `port` and `name` show in the message: `force` and `tag` never change it. */
  lemma SuccessMessageIgnoresForceAndTag(v: Verb, target: string, flags: Flags)
    ensures SuccessMessage(v, target, flags) == SuccessMessage(v, target, flags - {"force", "tag"})
  {
    FlagNotesIgnoreForceAndTag(BaseMessage(v, target), flags);
  }

  lemma FlagNotesIgnoreForceAndTag(message: string, flags: Flags)
    ensures WithFlagNotes(message, flags) == WithFlagNotes(message, flags - {"force", "tag"})
  {
    var g := flags - {"force", "tag"};
    assert Truthy(g, "all") == Truthy(flags, "all");
    assert Truthy(g, "detach") == Truthy(flags, "detach");
    assert Truthy(g, "port") == Truthy(flags, "port");
    assert Truthy(g, "name") == Truthy(flags, "name");
  }

  // ---------------------------------------------------------------------------
  // Similarity and suggestions
  // ---------------------------------------------------------------------------

  lemma {:induction false} MatchCountBound(s1: string, s2: string, i: nat)
    requires i <= |s1|
    ensures MatchCountFrom(s1, s2, i) <= |s1| - i
    decreases |s1| - i
  {
    if i < |s1| {
      MatchCountBound(s1, s2, i + 1);
    }
  }

  /** Similarity is a ratio between 0 and 1. */
  lemma SimilarityRange(s1: string, s2: string)
    ensures 0.0 <= Similarity(s1, s2) <= 1.0
  {
    if s1 != [] && s2 != [] {
      MatchCountBound(s1, s2, 0);
      DivGreater(MatchCountFrom(s1, s2, 0) as real, Max(|s1|, |s2|) as real, 1.0);
    }
  }

  /**
   * The "similar" test on the ratio is an integer comparison: more than half
   * of the longer length must be characters of `s1` found in `s2`; no empty
   * string is similar to anything.
   */
  lemma SimilarIff(s1: string, s2: string)
    ensures Similarity(s1, s2) > 0.5 <==>
      s1 != [] && s2 != [] && 2 * MatchCountFrom(s1, s2, 0) > Max(|s1|, |s2|)
  {
    if s1 != [] && s2 != [] {
      DivGreater(MatchCountFrom(s1, s2, 0) as real, Max(|s1|, |s2|) as real, 0.5);
    }
  }

  lemma DivGreater(x: real, n: real, y: real)
    requires n > 0.0
    ensures x / n > y <==> x > y * n
  {
    var q := x / n;
    assert q * n == x;
    if q > y {
      assert q * n > y * n;
    } else {
      assert q * n <= y * n;
    }
  }

  lemma SimilarAmongSpec(attempt: string, n: nat)
    requires n <= |PatternOrder|
    ensures forall x :: x in SimilarAmong(attempt, n) <==>
      exists i :: 0 <= i < n && x == VerbName(PatternOrder[i]) && Similarity(attempt, x) > 0.5
    ensures |SimilarAmong(attempt, n)| <= n
  {
    SimilarAmongSound(attempt, n);
    SimilarAmongComplete(attempt, n);
  }

  /** Every name collected is a similar command of the first `n`, and there are at most `n`. */
  lemma {:induction false} SimilarAmongSound(attempt: string, n: nat)
    requires n <= |PatternOrder|
    ensures forall x :: x in SimilarAmong(attempt, n) ==>
      exists i :: 0 <= i < n && x == VerbName(PatternOrder[i]) && Similarity(attempt, x) > 0.5
    ensures |SimilarAmong(attempt, n)| <= n
  {
    if n > 0 {
      SimilarAmongSound(attempt, n - 1);
      var name := VerbName(PatternOrder[n - 1]);
      forall x | x in SimilarAmong(attempt, n)
        ensures exists i :: 0 <= i < n && x == VerbName(PatternOrder[i]) && Similarity(attempt, x) > 0.5
      {
        if x in SimilarAmong(attempt, n - 1) {
          var i :| 0 <= i < n - 1 && x == VerbName(PatternOrder[i]) && Similarity(attempt, x) > 0.5;
          assert 0 <= i < n;
        } else {
          assert x == name;
        }
      }
    }
  }

  /** Every similar command of the first `n` is collected. */
  lemma {:induction false} SimilarAmongComplete(attempt: string, n: nat)
    requires n <= |PatternOrder|
    ensures forall i :: 0 <= i < n && Similarity(attempt, VerbName(PatternOrder[i])) > 0.5 ==>
      VerbName(PatternOrder[i]) in SimilarAmong(attempt, n)
  {
    if n > 0 {
      SimilarAmongComplete(attempt, n - 1);
    }
  }

  /**
   * At most three suggestions; each is a command of the table similar to the
   * lower-cased attempt; and when fewer than three are offered, every similar
   * command is among them.
   */
  lemma SuggestionsSpec(attempted: string)
    ensures var r := SimilarCommands(attempted);
      && |r| <= 3
      && (forall x :: x in r ==> (exists v :: x == VerbName(v)) && Similarity(Lower(attempted), x) > 0.5)
      && (|r| < 3 ==> forall v :: Similarity(Lower(attempted), VerbName(v)) > 0.5 ==> VerbName(v) in r)
  {
    var all := SimilarAmong(Lower(attempted), |PatternOrder|);
    SimilarAmongSpec(Lower(attempted), |PatternOrder|);
    var r := SimilarCommands(attempted);
    assert forall x :: x in r ==> x in all;
    if |r| < 3 {
      assert r == all;
      forall v | Similarity(Lower(attempted), VerbName(v)) > 0.5 ensures VerbName(v) in r {
        PatternOrderComplete(v);
      }
    }
  }

  /** `r` lists the table keys at the table positions `idx`, which strictly increase. */
  predicate ListedAt(r: seq<string>, idx: seq<nat>) {
    && |idx| == |r|
    && (forall j :: 0 <= j < |idx| ==> idx[j] < |PatternOrder| && r[j] == VerbName(PatternOrder[idx[j]]))
    && (forall j, j' :: 0 <= j < j' < |idx| ==> idx[j] < idx[j'])
  }

  /** Appending a key at a later position keeps a listing in table order. */
  lemma ListedAtSnoc(r: seq<string>, idx: seq<nat>, name: string, i: nat)
    requires ListedAt(r, idx) && i < |PatternOrder| && name == VerbName(PatternOrder[i])
    requires forall j :: 0 <= j < |idx| ==> idx[j] < i
    ensures ListedAt(r + [name], idx + [i])
  {
  }

  /** The table positions, among the first `n`, of the commands similar to `attempt`. */
  function SimilarPositions(attempt: string, n: nat): (idx: seq<nat>)
    requires n <= |PatternOrder|
    ensures forall j :: 0 <= j < |idx| ==> idx[j] < n
  {
    if n == 0 then []
    else SimilarPositions(attempt, n - 1) + (if Similarity(attempt, VerbName(PatternOrder[n - 1])) > 0.5 then [n - 1] else [])
  }

  /** The names collected from the first `n` table entries are the keys at those positions, in increasing order. */
  lemma {:induction false} SimilarAmongListed(attempt: string, n: nat)
    requires n <= |PatternOrder|
    ensures ListedAt(SimilarAmong(attempt, n), SimilarPositions(attempt, n))
  {
    if n > 0 {
      SimilarAmongListed(attempt, n - 1);
      var before, prev, name := SimilarAmong(attempt, n - 1), SimilarPositions(attempt, n - 1), VerbName(PatternOrder[n - 1]);
      if Similarity(attempt, name) > 0.5 {
        assert SimilarAmong(attempt, n) == before + [name];
        assert SimilarPositions(attempt, n) == prev + [n - 1];
        ListedAtSnoc(before, prev, name, n - 1);
      } else {
        assert SimilarAmong(attempt, n) == before;
        assert SimilarPositions(attempt, n) == prev;
      }
    }
  }

  /** Every similar position among the first `n` is collected. */
  lemma {:induction false} SimilarPositionsComplete(attempt: string, n: nat)
    requires n <= |PatternOrder|
    ensures forall i :: 0 <= i < n && Similarity(attempt, VerbName(PatternOrder[i])) > 0.5 ==> i in SimilarPositions(attempt, n)
  {
    if n > 0 {
      SimilarPositionsComplete(attempt, n - 1);
    }
  }

  /**
   * The suggestions come in table order, and a similar command is left out only
   * when three commands earlier in the table were already suggested.
   */
  lemma SuggestionsOrder(attempted: string)
    ensures var r := SimilarCommands(attempted);
      exists idx :: ListedAt(r, idx) &&
        forall i :: 0 <= i < |PatternOrder| && Similarity(Lower(attempted), VerbName(PatternOrder[i])) > 0.5 ==>
          i in idx || (|r| == 3 && idx[2] < i)
  {
    var all := SimilarAmong(Lower(attempted), |PatternOrder|);
    var r := SimilarCommands(attempted);
    var idxAll := SimilarPositions(Lower(attempted), |PatternOrder|);
    SimilarAmongListed(Lower(attempted), |PatternOrder|);
    SimilarPositionsComplete(Lower(attempted), |PatternOrder|);
    var idx := if |all| <= 3 then idxAll else idxAll[..3];
    assert ListedAt(r, idx);
    forall i | 0 <= i < |PatternOrder| && Similarity(Lower(attempted), VerbName(PatternOrder[i])) > 0.5
      ensures i in idx || (|r| == 3 && idx[2] < i)
    {
      var m :| 0 <= m < |idxAll| && idxAll[m] == i;
      if m >= 3 {
        assert idxAll[2] < idxAll[m];
      } else {
        assert idx[m] == i;
      }
    }
  }

  // ---------------------------------------------------------------------------
  // Tutorial matching
  // ---------------------------------------------------------------------------

  /** A command matches itself exactly when it is accepted. */
  lemma ValidateReflexive(command: string)
    ensures ValidateDockerCommand(command, command) <==> Parse(Str(command)).valid
  {
  }

  /** Matching is transitive: passing for a command that passes for the expected one passes for it too. */
  lemma ValidateTransitive(a: string, b: string, c: string)
    requires ValidateDockerCommand(a, b) && ValidateDockerCommand(b, c)
    ensures ValidateDockerCommand(a, c)
  {
  }

  /** Surrounding whitespace on either command makes no difference. */
  lemma ValidateIgnoresSurroundingSpace(command: string, expected: string)
    ensures ValidateDockerCommand(command, expected) == ValidateDockerCommand(Strip(command), Strip(expected))
  {
    ParseStripInvariant(command);
    ParseStripInvariant(expected);
  }

  // ---------------------------------------------------------------------------
  // Help
  // ---------------------------------------------------------------------------

  /** Every help text opens with the usage line of its command; anything else gets the fallback. */
  lemma HelpUsage(action: string)
    ensures HasHelp(action) ==> StartsWith(CommandHelp(action), "docker " + action)
    ensures !HasHelp(action) ==> CommandHelp(action) == "No help available for '" + action + "'"
  {
    if HasHelp(action) {
      var usage, body := UsageLine(action), Join(HelpBody(action), "\n");
      assert CommandHelp(action) == usage + "\n" + body;
      UsageLineNamesCommand(action);
      StartsWithAppend(usage, "docker " + action, "\n");
      StartsWithAppend(usage + "\n", "docker " + action, body);
    }
  }

  /** Appending to a string keeps its prefixes. */
  lemma StartsWithAppend(s: string, p: string, q: string)
    requires StartsWith(s, p)
    ensures StartsWith(s + q, p)
  {
    assert forall k :: 0 <= k < |p| ==> (s + q)[k] == s[k];
  }

  /** The usage line of each documented command starts with that command. */
  lemma UsageLineNamesCommand(action: string)
    requires HasHelp(action)
    ensures StartsWith(UsageLine(action), "docker " + action)
  {
    StartsWithConcat("docker " + action, UsageArguments(action));
  }
}
