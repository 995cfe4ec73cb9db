/**
 * The table of per-verb command patterns, stated as a grammar over the words
 * of the command and the runs of whitespace between them.
 *
 * Every pattern reads `^docker\s+<verb>` followed by whitespace or the end of
 * input, then an argument grammar; it is matched case-insensitively against
 * the stripped command. A match yields the pattern's named groups, each bound
 * to the text it captured or to `None` when it took no part in the match.
 */
module CommandPatterns {
  import opened Wrappers
  import opened PyText

  /** The keys of the pattern table. */
  datatype Verb = Run | Ps | Stop | Rm | Images | Pull | Start | Restart | Logs | Inspect | Build

  /** The pattern table in its dictionary order, which is the order patterns are tried in. */
  const PatternOrder: seq<Verb> := [Run, Ps, Stop, Rm, Images, Pull, Start, Restart, Logs, Inspect, Build]

  function VerbName(v: Verb): string {
    match v
    case Run => "run"
    case Ps => "ps"
    case Stop => "stop"
    case Rm => "rm"
    case Images => "images"
    case Pull => "pull"
    case Start => "start"
    case Restart => "restart"
    case Logs => "logs"
    case Inspect => "inspect"
    case Build => "build"
  }

  /** What `match.groupdict()` returns: every named group of the pattern, with its capture if any. */
  type GroupDict = map<string, Option<string>>

  /** The named groups each pattern declares. */
  function GroupNames(v: Verb): set<string> {
    match v
    case Run => {"flags", "image", "command"}
    case Ps => {"flags"}
    case Stop => {"container"}
    case Rm => {"flags", "container"}
    case Images => {"flags"}
    case Pull => {"image"}
    case Start => {"container"}
    case Restart => {"container"}
    case Logs => {"flags", "container"}
    case Inspect => {"target"}
    case Build => {"flags", "path"}
  }

  function EqualsIgnoreCaseFrom(w: string, lit: string, k: nat): bool
    requires |w| == |lit| && k <= |w|
    decreases |w| - k
  {
    k == |w| || (LowerChar(w[k]) == LowerChar(lit[k]) && EqualsIgnoreCaseFrom(w, lit, k + 1))
  }

  /** A literal of the pattern matches the word `w` under `re.IGNORECASE`. */
  predicate EqualsIgnoreCase(w: string, lit: string) {
    |w| == |lit| && EqualsIgnoreCaseFrom(w, lit, 0)
  }

  predicate EqualsOneIgnoreCase(w: string, alternatives: seq<string>) {
    exists k :: 0 <= k < |alternatives| && EqualsIgnoreCase(w, alternatives[k])
  }

  /** `-[a-zA-Z]`: a dash and one letter, the whole word. */
  predicate IsShortFlag(w: string) {
    |w| == 2 && w[0] == '-' && IsAsciiLetter(w[1])
  }

  /** `--[a-z-]+(?:=\S+)?` over a whole word. */
  predicate IsLongFlag(w: string) {
    |w| >= 3 && w[0] == '-' && w[1] == '-' &&
    var a := RunEnd(w, 2, LetterOrDash);
    a > 2 && (a == |w| || (w[a] == '=' && a + 1 < |w|))
  }

  /**
   * How far the `run` flag group reaches from argument `i`: the group repeats
   * `-x VALUE` (the value followed by whitespace) and `--long[=value]`
   * (followed by whitespace) as often as it can.
   */
  function RunFlagsEnd(args: seq<Piece>, i: nat): (p: nat)
    requires i < |args|
    ensures i <= p < |args|
    decreases |args| - i
  {
    if IsShortFlag(args[i].word) && i + 2 < |args| then RunFlagsEnd(args, i + 2)
    else if IsLongFlag(args[i].word) && i + 1 < |args| then RunFlagsEnd(args, i + 1)
    else i
  }

  /** How far the `build` flag group reaches: `-t VALUE` or `--tag VALUE`, each followed by whitespace. */
  function BuildFlagsEnd(args: seq<Piece>, i: nat): (p: nat)
    requires i < |args|
    ensures i <= p < |args|
    decreases |args| - i
  {
    if (EqualsIgnoreCase(args[i].word, "-t") || EqualsIgnoreCase(args[i].word, "--tag")) && i + 2 < |args|
    then BuildFlagsEnd(args, i + 2)
    else i
  }

  /** No gap from argument `j` on holds a newline, so `.+` can take the rest of the command. */
  predicate NewlineFreeFrom(args: seq<Piece>, j: nat)
    decreases |args| - j
  {
    j >= |args| || (!Contains(args[j].gap, "\n") && NewlineFreeFrom(args, j + 1))
  }

  /** `\s+(?P<group>\S+)$`: exactly one more word. */
  function MatchOneWord(args: seq<Piece>, group: string): Option<GroupDict> {
    if |args| == 1 then Some(map[group := Some(args[0].word)]) else None
  }

  /** `(?:\s+(?P<flags>alt|...))?$`: nothing more, or one word equal to an alternative. */
  function MatchListing(args: seq<Piece>, alternatives: seq<string>): Option<GroupDict> {
    if |args| == 0 then Some(map["flags" := None])
    else if |args| == 1 && EqualsOneIgnoreCase(args[0].word, alternatives) then Some(map["flags" := Some(args[0].word)])
    else None
  }

  /** `\s+(?P<flags>-f\s+)?(?P<container>\S+)$`. */
  function MatchForceable(args: seq<Piece>): Option<GroupDict> {
    if |args| == 1 then Some(map["flags" := None, "container" := Some(args[0].word)])
    else if |args| == 2 && EqualsIgnoreCase(args[0].word, "-f") then
      Some(map["flags" := Some(args[0].word + args[0].gap), "container" := Some(args[1].word)])
    else None
  }

  /**
   * `\s+(?P<flags>...)?(?P<image>\S+)(?:\s+(?P<command>.+))?$`: the flag group
   * as far as it reaches, the image word, and the rest as the command. Giving
   * back flag iterations never helps: the command would only cover more text.
   */
  function MatchRun(args: seq<Piece>): Option<GroupDict> {
    if |args| == 0 then None
    else
      var p := RunFlagsEnd(args, 0);
      if !NewlineFreeFrom(args, p + 1) then None
      else Some(map["flags" := Some(Concat(args[..p])),
                    "image" := Some(args[p].word),
                    "command" := if p + 1 < |args| then Some(Concat(args[p + 1..])) else None])
  }

  /** `\s+(?P<flags>(?:-t\s+\S+\s+|--tag\s+\S+\s+)*)?(?P<path>\S+)$`: the path must be the last word. */
  function MatchBuild(args: seq<Piece>): Option<GroupDict> {
    if |args| == 0 then None
    else
      var p := BuildFlagsEnd(args, 0);
      if p != |args| - 1 then None
      else Some(map["flags" := Some(Concat(args[..p])), "path" := Some(args[p].word)])
  }

  /** The argument grammar of each verb, applied to the words after `docker <verb>`. */
  function MatchArgs(v: Verb, args: seq<Piece>): Option<GroupDict> {
    match v
    case Run => MatchRun(args)
    case Ps => MatchListing(args, ["-a", "-all", "--all"])
    case Stop => MatchOneWord(args, "container")
    case Rm => MatchForceable(args)
    case Images => MatchListing(args, ["-a", "--all"])
    case Pull => MatchOneWord(args, "image")
    case Start => MatchOneWord(args, "container")
    case Restart => MatchOneWord(args, "container")
    case Logs => MatchForceable(args)
    case Inspect => MatchOneWord(args, "target")
    case Build => MatchBuild(args)
  }

  /** `re.match(COMMAND_PATTERNS[v], command, re.IGNORECASE)` on the pieces of a stripped command. */
  function MatchPattern(v: Verb, ps: seq<Piece>): (r: Option<GroupDict>)
    ensures r.Some? ==> r.value.Keys == GroupNames(v)
  {
    if |ps| >= 2 && EqualsIgnoreCase(ps[0].word, "docker") && EqualsIgnoreCase(ps[1].word, VerbName(v))
    then MatchArgs(v, ps[2..])
    else None
  }

  /** The first pattern, in table order from position `i`, that matches. */
  function FirstMatchFrom(ps: seq<Piece>, i: nat): Option<(Verb, GroupDict)>
    requires i <= |PatternOrder|
    decreases |PatternOrder| - i
  {
    if i == |PatternOrder| then None
    else match MatchPattern(PatternOrder[i], ps)
      case Some(g) => Some((PatternOrder[i], g))
      case None => FirstMatchFrom(ps, i + 1)
  }

  // ---------------------------------------------------------------------------
  // Properties
  // ---------------------------------------------------------------------------

  lemma {:induction false} EqualsIgnoreCaseFromIff(w: string, lit: string, k: nat)
    requires |w| == |lit| && k <= |w|
    ensures EqualsIgnoreCaseFrom(w, lit, k) <==> forall j :: k <= j < |w| ==> LowerChar(w[j]) == LowerChar(lit[j])
    decreases |w| - k
  {
    if k < |w| {
      EqualsIgnoreCaseFromIff(w, lit, k + 1);
    }
  }

  /** Matching a literal case-insensitively is comparing the lower-cased texts. */
  lemma EqualsIgnoreCaseIff(w: string, lit: string)
    ensures EqualsIgnoreCase(w, lit) <==> Lower(w) == Lower(lit)
  {
    if |w| == |lit| {
      EqualsIgnoreCaseFromIff(w, lit, 0);
      if Lower(w) == Lower(lit) {
        forall j | 0 <= j < |w| ensures LowerChar(w[j]) == LowerChar(lit[j]) {
          assert Lower(w)[j] == Lower(lit)[j];
        }
      }
    }
  }

  predicate IsLowerCase(s: string) {
    forall i :: 0 <= i < |s| ==> !('A' <= s[i] <= 'Z')
  }

  lemma LowerOfLowerCase(s: string)
    requires IsLowerCase(s)
    ensures Lower(s) == s
  {
  }

  /** Every word matches itself. */
  lemma EqualsIgnoreCaseSelf(w: string)
    ensures EqualsIgnoreCase(w, w)
  {
    EqualsIgnoreCaseFromIff(w, w, 0);
  }

  lemma VerbNameIsLowerCase(v: Verb)
    ensures IsLowerCase(VerbName(v)) && VerbName(v) != []
  {
  }

  /** A matching pattern names its verb: the first word is `docker` and the second is the verb, in any case. */
  lemma MatchNamesVerb(v: Verb, ps: seq<Piece>)
    requires MatchPattern(v, ps).Some?
    ensures |ps| >= 2 && Lower(ps[0].word) == "docker" && Lower(ps[1].word) == VerbName(v)
  {
    EqualsIgnoreCaseIff(ps[0].word, "docker");
    LowerOfLowerCase("docker");
    EqualsIgnoreCaseIff(ps[1].word, VerbName(v));
    VerbNameIsLowerCase(v);
    LowerOfLowerCase(VerbName(v));
  }

  /** The names the parser singles out belong to one verb each. */
  lemma VerbNameIs(v: Verb)
    ensures VerbName(v) == "ps" <==> v == Ps
    ensures VerbName(v) == "images" <==> v == Images
    ensures VerbName(v) == "run" <==> v == Run
  {
  }

  lemma VerbNameInjective(a: Verb, b: Verb)
    ensures VerbName(a) == VerbName(b) ==> a == b
  {
  }

  /** No command is matched by two patterns, so the order the table is tried in decides nothing. */
  lemma AtMostOnePattern(a: Verb, b: Verb, ps: seq<Piece>)
    requires MatchPattern(a, ps).Some? && MatchPattern(b, ps).Some?
    ensures a == b
  {
    MatchNamesVerb(a, ps);
    MatchNamesVerb(b, ps);
    VerbNameInjective(a, b);
  }

  /** Every verb of the table is tried. */
  lemma PatternOrderComplete(v: Verb)
    ensures exists i :: 0 <= i < |PatternOrder| && PatternOrder[i] == v
  {
    var i := match v
      case Run => 0 case Ps => 1 case Stop => 2 case Rm => 3 case Images => 4 case Pull => 5
      case Start => 6 case Restart => 7 case Logs => 8 case Inspect => 9 case Build => 10;
    assert PatternOrder[i] == v;
  }

  /** The search over the table finds a matching pattern, and finds one whenever some pattern matches. */
  lemma {:induction false} FirstMatchFromSpec(ps: seq<Piece>, i: nat)
    requires i <= |PatternOrder|
    ensures FirstMatchFrom(ps, i).Some? ==>
      MatchPattern(FirstMatchFrom(ps, i).value.0, ps) == Some(FirstMatchFrom(ps, i).value.1)
    ensures FirstMatchFrom(ps, i).None? ==>
      forall j :: i <= j < |PatternOrder| ==> MatchPattern(PatternOrder[j], ps).None?
    decreases |PatternOrder| - i
  {
    if i < |PatternOrder| && MatchPattern(PatternOrder[i], ps).None? {
      FirstMatchFromSpec(ps, i + 1);
    }
  }

  /** The table search succeeds exactly when some pattern matches, and then with that pattern's groups. */
  lemma FirstMatchSpec(ps: seq<Piece>)
    ensures FirstMatchFrom(ps, 0).Some? ==>
      MatchPattern(FirstMatchFrom(ps, 0).value.0, ps) == Some(FirstMatchFrom(ps, 0).value.1)
    ensures FirstMatchFrom(ps, 0).None? <==> forall v :: MatchPattern(v, ps).None?
  {
    FirstMatchFromSpec(ps, 0);
    if FirstMatchFrom(ps, 0).None? {
      forall v ensures MatchPattern(v, ps).None? {
        PatternOrderComplete(v);
      }
    }
  }
}
