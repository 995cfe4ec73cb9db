/**
 * Worked examples of the parser on commands from the tutorials and the help
 * texts, proved about the model: the pieces a command splits into, the pattern
 * that takes it, the target and flags it yields, and the suggestions for a typo.
 */
module ParserExamples {
  import opened Wrappers
  import opened PyText
  import opened CommandPatterns
  import opened CommandParser
  import opened ParserProperties

  /**
   * A clean command of words joined by single spaces is accepted as the first
   * pattern that matches its words: the examples below then only need the match.
   */
  lemma SpacedCommandAccepted(ws: seq<string>, v: Verb, g: GroupDict)
    requires forall k :: 0 <= k < |ws| ==> IsWord(ws[k])
    requires var s := Join(ws, " ");
      && IsStripped(s) && s != [] && |s| <= MaxCommandLength
      && (forall i :: 0 <= i < |s| ==> !OperatorAt(s, i) && !IsControl(s[i]))
      && StartsWith(Lower(s), "docker")
    requires FirstMatchFrom(SingleSpaced(ws), 0) == Some((v, g))
    ensures Parse(Str(Join(ws, " "))) == MatchedResult(Join(ws, " "), v, g)
  {
    var s := Join(ws, " ");
    StripFixes(s);
    DangerousPatternIff(s);
    ControlCharIff(s);
    ChecksPassed(s);
    SplitJoin(ws);
  }

  /** `docker run nginx`: the run pattern takes it, with image `nginx` and no flags. */
  lemma RunNginx()
    ensures var ps := SingleSpaced(["docker", "run", "nginx"]);
      var g := map["flags" := Some(""), "image" := Some("nginx"), "command" := None];
      && FirstMatchFrom(ps, 0) == Some((Run, g))
      && TargetOf(g) == "nginx" && FlagsOf(g) == map[]
  {
    assert SingleSpaced(["docker", "run", "nginx"]) == [Piece("docker", " "), Piece("run", " "), Piece("nginx", "")];
  }

  /** The words of `docker run nginx`, joined by single spaces. */
  lemma RunNginxJoin()
    ensures Join(["docker", "run", "nginx"], " ") == "docker run nginx"
  {
    assert Join(["nginx"], " ") == "nginx";
    assert Join(["run", "nginx"], " ") == "run nginx";
  }

  /** `docker run nginx` passes every check before the pattern table. */
  lemma RunNginxClean(s: string)
    requires s == "docker run nginx"
    ensures && IsStripped(s) && s != [] && |s| <= MaxCommandLength
            && (forall i :: 0 <= i < |s| ==> !OperatorAt(s, i) && !IsControl(s[i]))
            && StartsWith(Lower(s), "docker")
  {
    assert Lower(s) == s;
  }

  /** Each word of `docker run nginx` is a word: non-empty and without whitespace. */
  lemma RunNginxWords(ws: seq<string>)
    requires ws == ["docker", "run", "nginx"]
    ensures forall k :: 0 <= k < |ws| ==> IsWord(ws[k])
  {
  }

  /** `docker run nginx` is parsed as the run pattern's match, once its join and its checks are known. */
  lemma RunNginxAccepted(ws: seq<string>, s: string, g: GroupDict)
    requires ws == ["docker", "run", "nginx"] && s == Join(ws, " ")
    requires g == map["flags" := Some(""), "image" := Some("nginx"), "command" := None]
    requires && IsStripped(s) && s != [] && |s| <= MaxCommandLength
             && (forall i :: 0 <= i < |s| ==> !OperatorAt(s, i) && !IsControl(s[i]))
             && StartsWith(Lower(s), "docker")
    ensures Parse(Str(s)) == MatchedResult(s, Run, g)
  {
    RunNginx();
    RunNginxWords(ws);
    SpacedCommandAccepted(ws, Run, g);
  }

  /** The run pattern's match of `docker run nginx` is a valid `run` with target `nginx`. */
  lemma RunNginxResult(r: CommandResult, s: string, g: GroupDict)
    requires g == map["flags" := Some(""), "image" := Some("nginx"), "command" := None]
    requires r == MatchedResult(s, Run, g)
    ensures r.valid && r.action == "run" && r.target == "nginx"
  {
    MatchedFields(s, Run, g);
    VerbNameIs(Run);
    RunNginx();
  }

  /** The docstring example end to end: `docker run nginx` is accepted as `run` with target `nginx`. */
  lemma RunNginxParsed()
    ensures var r := Parse(Str("docker run nginx"));
      r.valid && r.action == "run" && r.target == "nginx"
  {
    var s, g := "docker run nginx", map["flags" := Some(""), "image" := Some("nginx"), "command" := None];
    RunNginxJoin();
    RunNginxClean(s);
    RunNginxAccepted(["docker", "run", "nginx"], s, g);
    RunNginxResult(Parse(Str(s)), s, g);
  }

  /**
   * `docker run -d nginx`: the flag group only takes `-d` when two more words follow,
   * so here the image group is `-d` and `nginx` is the command.
   */
  lemma RunDetached()
    ensures var ps := SingleSpaced(["docker", "run", "-d", "nginx"]);
      var g := map["flags" := Some(""), "image" := Some("-d"), "command" := Some("nginx")];
      && FirstMatchFrom(ps, 0) == Some((Run, g))
      && TargetOf(g) == "-d" && FlagsOf(g) == map[]
  {
    var ps := [Piece("docker", " "), Piece("run", " "), Piece("-d", " "), Piece("nginx", "")];
    assert SingleSpaced(["docker", "run", "-d", "nginx"]) == ps;
    assert ps[2..][1..] == [Piece("nginx", "")];
    assert Concat([Piece("nginx", "")]) == "nginx";
  }

  /** `docker ps -a`: the listing pattern takes `-a` as its flags group. */
  lemma PsAll()
    ensures var ps := SingleSpaced(["docker", "ps", "-a"]);
      var g := map["flags" := Some("-a")];
      && FirstMatchFrom(ps, 0) == Some((Ps, g))
      && TargetOf(g) == "" && FlagsOf(g) == ParseFlags("-a")
  {
    var ps := [Piece("docker", " "), Piece("ps", " "), Piece("-a", "")];
    assert SingleSpaced(["docker", "ps", "-a"]) == ps;
    assert EqualsOneIgnoreCase("-a", ["-a", "-all", "--all"]) by {
      assert EqualsIgnoreCase("-a", ["-a", "-all", "--all"][0]);
    }
  }

  /** Commands that are not similar add nothing to the suggestions. */
  lemma {:induction false} NoneSimilarBetween(attempt: string, m: nat, n: nat)
    requires m <= n <= |PatternOrder|
    requires forall i :: m <= i < n ==> !(Similarity(attempt, VerbName(PatternOrder[i])) > 0.5)
    ensures SimilarAmong(attempt, n) == SimilarAmong(attempt, m)
  {
    if n > m {
      NoneSimilarBetween(attempt, m, n - 1);
    }
  }

  /** An attempt, already in lower case, that only `run` is similar to gets `run` as its single suggestion. */
  lemma OnlyRunSuggested(attempt: string)
    requires Lower(attempt) == attempt
    requires forall v :: Similarity(attempt, VerbName(v)) > 0.5 <==> v == Run
    ensures SimilarCommands(attempt) == ["run"]
  {
    assert PatternOrder[0] == Run;
    assert forall i :: 1 <= i < |PatternOrder| ==> PatternOrder[i] != Run;
    assert SimilarAmong(attempt, 1) == ["run"];
    NoneSimilarBetween(attempt, 1, |PatternOrder|);
  }

  /** Of all the table's commands only `run` is similar to the typo `rn`. */
  lemma TypoSimilar(v: Verb)
    ensures Similarity("rn", VerbName(v)) > 0.5 <==> v == Run
  {
    SimilarIff("rn", VerbName(v));
  }

  /** The typo `docker rn` is answered with the single suggestion `run`. */
  lemma TypoSuggestsRun()
    ensures SimilarCommands("rn") == ["run"]
  {
    assert Lower("rn") == "rn";
    forall v ensures Similarity("rn", VerbName(v)) > 0.5 <==> v == Run {
      TypoSimilar(v);
    }
    OnlyRunSuggested("rn");
  }

  /** Of all the table's commands only `run` is similar to the typo `ren`. */
  lemma RenSimilar(v: Verb)
    ensures Similarity("ren", VerbName(v)) > 0.5 <==> v == Run
  {
    SimilarIff("ren", VerbName(v));
  }

  /** The typo `docker ren` is answered with the single suggestion `run`. */
  lemma RenSuggestsRun()
    ensures SimilarCommands("ren") == ["run"]
  {
    assert Lower("ren") == "ren";
    forall v ensures Similarity("ren", VerbName(v)) > 0.5 <==> v == Run {
      RenSimilar(v);
    }
    OnlyRunSuggested("ren");
  }

  /** The arguments of the run help text's second example. */
  lemma HelpExampleArgs()
    ensures var args := SingleSpaced(["docker", "run", "-d", "-p", "8080:80", "--name", "my-web", "nginx"])[2..];
      args == [Piece("-d", " "), Piece("-p", " "), Piece("8080:80", " "),
               Piece("--name", " "), Piece("my-web", " "), Piece("nginx", "")]
  {
  }

  lemma HelpExampleFlagsEnd(args: seq<Piece>)
    requires args == [Piece("-d", " "), Piece("-p", " "), Piece("8080:80", " "),
                      Piece("--name", " "), Piece("my-web", " "), Piece("nginx", "")]
    ensures RunFlagsEnd(args, 0) == 2
  {
    assert RunFlagsEnd(args, 2) == 2;
  }

  lemma HelpExampleGroups(args: seq<Piece>)
    requires args == [Piece("-d", " "), Piece("-p", " "), Piece("8080:80", " "),
                      Piece("--name", " "), Piece("my-web", " "), Piece("nginx", "")]
    ensures Concat(args[..2]) == "-d -p "
    ensures Concat(args[3..]) == "--name my-web nginx"
  {
    ConcatCons(args[0], args[1..2]);
    assert args[1..2][1..] == [];
    ConcatCons(args[3], args[4..]);
    ConcatCons(args[4], args[5..]);
    assert args[5..][1..] == [];
  }

  lemma HelpExampleRun(args: seq<Piece>)
    requires args == [Piece("-d", " "), Piece("-p", " "), Piece("8080:80", " "),
                      Piece("--name", " "), Piece("my-web", " "), Piece("nginx", "")]
    ensures MatchRun(args) ==
      Some(map["flags" := Some("-d -p "), "image" := Some("8080:80"), "command" := Some("--name my-web nginx")])
  {
    HelpExampleFlagsEnd(args);
    HelpExampleGroups(args);
    assert args[2].word == "8080:80";
    assert !MatchesAt(" ", "\n", 0) && !MatchesAt(" ", "\n", 1) && !MatchesAt("", "\n", 0);
    assert !Contains(" ", "\n") && !Contains("", "\n");
    assert NewlineFreeFrom(args, 5);
    assert NewlineFreeFrom(args, 3);
  }

  /**
   * `docker run -d -p 8080:80 --name my-web nginx`: `-d` takes `-p` as its value, the
   * chain stops at `8080:80`, which becomes the image, and the rest is the command.
   */
  lemma HelpExample(ps: seq<Piece>)
    requires ps == SingleSpaced(["docker", "run", "-d", "-p", "8080:80", "--name", "my-web", "nginx"])
    ensures var g := map["flags" := Some("-d -p "), "image" := Some("8080:80"), "command" := Some("--name my-web nginx")];
      && MatchPattern(Run, ps) == Some(g)
      && TargetOf(g) == "8080:80"
  {
    HelpExampleArgs();
    assert ps[0].word == "docker" && ps[1].word == "run" == VerbName(Run);
    EqualsIgnoreCaseSelf("docker");
    EqualsIgnoreCaseSelf("run");
    HelpExampleRun(ps[2..]);
  }

  /** The flags group of that example asks for a detached container. */
  lemma HelpExampleDetach(fs: string)
    requires fs == "-d -p "
    ensures "detach" in ParseFlags(fs) && ParseFlags(fs)["detach"] == On
  {
    SwitchFlags(fs);
    assert MatchesAt(fs, "-d", 0);
    FoundIsContained(fs, "-d", 0);
  }

  /** A command of spaces only is refused as empty. */
  lemma BlankRefused()
    ensures var r := Parse(Str("  "));
      && !r.valid && r.message == EmptyMessage && r.command == ""
  {
  }

  /** Commands match in any case; the action is reported in lower case. */
  lemma UpperCaseRun()
    ensures var ps := SingleSpaced(["DOCKER", "RUN", "NGINX"]);
      var g := map["flags" := Some(""), "image" := Some("NGINX"), "command" := None];
      && FirstMatchFrom(ps, 0) == Some((Run, g))
      && TargetOf(g) == "NGINX" && VerbName(Run) == "run"
  {
    assert SingleSpaced(["DOCKER", "RUN", "NGINX"]) == [Piece("DOCKER", " "), Piece("RUN", " "), Piece("NGINX", "")];
  }

  /** A single `&` is not among the refused operators. */
  lemma LoneAmpersandAllowed(s: string)
    requires s == "docker run a&b"
    ensures !HasDangerousPattern(s)
  {
    DangerousPatternIff(s);
    assert forall i :: 0 <= i < |s| ==> !OperatorAt(s, i);
  }

  /** Chaining a second command with `&&` is refused. */
  lemma ChainedCommandRefused(s: string)
    requires s == "docker ps && rm"
    ensures HasDangerousPattern(s)
  {
    DangerousPatternIff(s);
    assert OperatorAt(s, 10);
  }
}
