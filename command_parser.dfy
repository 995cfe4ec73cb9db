/**
 * The simulated Docker command parser: the validation pipeline in front of the
 * pattern table, the result record, flag extraction, the success message,
 * "did you mean" suggestions, tutorial matching and the help lookup.
 *
 * `Parse` is the specification of the pipeline as one function;
 * `ParseCommand` is the step-by-step version with its loop over the pattern
 * table, proved to compute the same record.
 */
module CommandParser {
  import opened Wrappers
  import opened PyText
  import opened CommandPatterns

  /** A flag value: `True` for the switches, the captured text for port, name and tag. */
  datatype FlagValue = On | Text(text: string)

  type Flags = map<string, FlagValue>

  /** The only keys flag extraction ever writes. */
  const FlagKeys: set<string> := {"all", "force", "detach", "port", "name", "tag"}

  /** What a caller may hand to the parser: `None`, some other non-string value, or a string. */
  datatype RawInput =
    | NoneValue
    | NonString(repr: string, truthy: bool)  // `str(value)` and the value's truthiness
    | Str(text: string)

  /** The record every call returns (the simulated `output` text is not modelled). */
  datatype CommandResult = CommandResult(
    command: string,
    action: string,
    target: string,
    valid: bool,
    success: bool,
    message: string,
    helpHint: Option<string>,
    metaphorExplanation: Option<string>,
    flags: Flags)

  const MaxCommandLength: nat := 500

  /** Shell operators refused anywhere in a command, in the source's order (`$(` is listed twice). */
  const DangerousPatterns: seq<string> := [";", "&&", "||", "|", "`", "$(", "$(", ">${", "<("]

  // The messages and hints of the rejections, in the order the checks run.
  const InvalidInputMessage: string := "❌ Invalid command input. Please enter a valid Docker command."
  const InvalidInputHint: string := "Commands must be text strings starting with 'docker'"
  const EmptyMessage: string := "❌ No command entered. Try typing a Docker command!"
  const EmptyHint: string := "Start with: docker ps"
  const TooLongHint: string := "Docker commands should be concise. Check for errors or unnecessary repetition."
  const DangerousMessage: string := "❌ Invalid characters detected in command"
  const DangerousHint: string := "Docker commands should not contain shell operators like ;, &&, ||, or backticks. Use simple Docker command syntax."
  const ControlMessage: string := "❌ Invalid control characters in command"
  const ControlHint: string := "Please use only printable characters in Docker commands."
  const PrefixMessage: string := "❌ Commands must start with 'docker'"

  const SupportedCommandsHint: string :=
    "Supported commands: run, ps, stop, rm, images, pull, start, restart, logs, inspect, build"

  function Metaphor(v: Verb): string {
    match v
    case Run => "🚢 Running a container is like launching a new ship from a blueprint into the harbor. The ship (container) begins its voyage (execution)."
    case Ps => "📋 Listing containers is like checking which ships are currently in your harbor. You can see all active vessels at a glance."
    case Stop => "⚓ Stopping a container is like anchoring a ship. It's still in the harbor but no longer actively sailing."
    case Rm => "🗑️ Removing a container is like decommissioning a ship. Once removed, it leaves the harbor completely."
    case Images => "📦 Listing images is like reviewing all ship blueprints available in your shipyard. Each blueprint can create many ships."
    case Pull => "📥 Pulling an image is like downloading a new ship blueprint from the central shipyard registry (Docker Hub)."
    case Start => "⛵ Starting a stopped container is like setting a docked ship back into motion."
    case Restart => "🔄 Restarting a container is like bringing a ship back to dock and immediately sending it out again."
    case Logs => "📜 Viewing logs is like reading a ship's logbook to see what happened during its journey."
    case Inspect => "🔍 Inspecting shows detailed information about a ship (container) or blueprint (image)."
    case Build => "🏗️ Building an image is like constructing a new ship blueprint from specifications."
  }

  // ---------------------------------------------------------------------------
  // The result record
  // ---------------------------------------------------------------------------

  /**
   * A record built with the dataclass defaults for every field not given
   * (no action, no target, not valid, not successful, no metaphor); the
   * flags default of `None` becomes the empty dictionary.
   */
  function Rejection(command: string, message: string, hint: string): (r: CommandResult)
    ensures !r.valid && !r.success && r.action == "" && r.target == ""
    ensures r.command == command && r.message == message && r.helpHint == Some(hint)
    ensures r.metaphorExplanation == None && r.flags == map[]
  {
    CommandResult(command, "", "", false, false, message, Some(hint), None, NewFlags(None))
  }

  /** `__post_init__` of the result record: a missing flags dictionary becomes `{}`. */
  function NewFlags(flags: Option<Flags>): (f: Flags)
    ensures flags.Some? ==> f == flags.value
    ensures flags.None? ==> f == map[]
  {
    match flags
    case Some(m) => m
    case None => map[]
  }

  // ---------------------------------------------------------------------------
  // Input checks
  // ---------------------------------------------------------------------------

  predicate DangerousFrom(s: string, k: nat)
    decreases |DangerousPatterns| - k
  {
    k < |DangerousPatterns| && (Contains(s, DangerousPatterns[k]) || DangerousFrom(s, k + 1))
  }

  /** Some pattern of the denylist is a substring of `s`. */
  predicate HasDangerousPattern(s: string) {
    DangerousFrom(s, 0)
  }

  /** A character below 32 other than tab and newline. */
  predicate IsControl(c: char) {
    c < ' ' && c != '\t' && c != '\n'
  }

  predicate ControlFrom(s: string, i: nat)
    decreases |s| - i
  {
    i < |s| && (IsControl(s[i]) || ControlFrom(s, i + 1))
  }

  predicate HasControlChar(s: string) {
    ControlFrom(s, 0)
  }

  function TooLongMessage(n: nat): string {
    "❌ Command too long (" + NatToString(n) + " characters). Maximum allowed: " + NatToString(MaxCommandLength)
  }

  // ---------------------------------------------------------------------------
  // Flags
  // ---------------------------------------------------------------------------

  /** `-p\s+(\d+):(\d+)` tried at position `i`: the two numbers joined by a colon. */
  function PortAt(s: string, i: nat): Option<string>
    requires i <= |s|
  {
    if !MatchesAt(s, "-p", i) then None
    else
      var a := RunEnd(s, i + 2, Space);
      if a == i + 2 then None
      else
        var b := RunEnd(s, a, Digit);
        if b == a || b == |s| || s[b] != ':' then None
        else
          var c := RunEnd(s, b + 1, Digit);
          if c == b + 1 then None else Some(s[a..b] + ":" + s[b + 1..c])
  }

  /**
   * `[=\s]+(\S+)` at position `j`, where `[=\s]+` has greedily reached `e`: if no
   * non-space follows, the run gives back one character at a time, and only a
   * given-back `=` can start the capture.
   */
  function ValueAfterRun(s: string, j: nat, e: nat): Option<string>
    requires j < e <= |s|
    decreases e
  {
    if e < |s| && !IsSpace(s[e]) then Some(s[e..RunEnd(s, e, NonSpace)])
    else if e - 1 > j then ValueAfterRun(s, j, e - 1)
    else None
  }

  function ValueAt(s: string, j: nat): Option<string>
    requires j <= |s|
  {
    var e := RunEnd(s, j, EqualsOrSpace);
    if e == j then None else ValueAfterRun(s, j, e)
  }

  /** `--name[=\s]+(\S+)` tried at position `i`. */
  function NameAt(s: string, i: nat): Option<string>
    requires i <= |s|
  {
    if MatchesAt(s, "--name", i) then ValueAt(s, i + 6) else None
  }

  /** `(?:-t|--tag)[=\s]+(\S+)` tried at position `i`, the short spelling first. */
  function TagAt(s: string, i: nat): Option<string>
    requires i <= |s|
  {
    var short := if MatchesAt(s, "-t", i) then ValueAt(s, i + 2) else None;
    if short.Some? then short
    else if MatchesAt(s, "--tag", i) then ValueAt(s, i + 5)
    else None
  }

  /** The three regular expressions flag extraction searches for. */
  datatype Probe = PortProbe | NameProbe | TagProbe

  function ProbeAt(k: Probe, s: string, i: nat): Option<string>
    requires i <= |s|
  {
    match k
    case PortProbe => PortAt(s, i)
    case NameProbe => NameAt(s, i)
    case TagProbe => TagAt(s, i)
  }

  /** `re.search`: the capture of the leftmost position, from `i` on, where the probe matches. */
  function Search(k: Probe, s: string, i: nat): Option<string>
    requires i <= |s|
    decreases |s| - i
  {
    var m := ProbeAt(k, s, i);
    if m.Some? then m
    else if i < |s| then Search(k, s, i + 1)
    else None
  }

  /** `_parse_flags`: conditional inserts into an initially empty dictionary. */
  function ParseFlags(fs: string): Flags {
    var withAll: Flags := if Contains(fs, "-a") || Contains(fs, "--all") then map["all" := On] else map[];
    var withForce := if Contains(fs, "-f") || Contains(fs, "--force") then withAll["force" := On] else withAll;
    var withDetach := if Contains(fs, "-d") || Contains(fs, "--detach") then withForce["detach" := On] else withForce;
    var port := Search(PortProbe, fs, 0);
    var withPort := if port.Some? then withDetach["port" := Text(port.value)] else withDetach;
    var name := Search(NameProbe, fs, 0);
    var withName := if name.Some? then withPort["name" := Text(name.value)] else withPort;
    var tag := Search(TagProbe, fs, 0);
    if tag.Some? then withName["tag" := Text(tag.value)] else withName
  }

  // ---------------------------------------------------------------------------
  // Matched and unknown commands
  // ---------------------------------------------------------------------------

  /** `flags.get(key)` is truthy: `True`, or a non-empty string. */
  predicate Truthy(flags: Flags, key: string) {
    key in flags && (flags[key].On? || flags[key].text != "")
  }

  /** A flag value as an f-string shows it. */
  function FlagText(f: FlagValue): string {
    match f
    case On => "True"
    case Text(t) => t
  }

  function BaseMessage(v: Verb, target: string): string {
    match v
    case Run => "✅ Launching container from image '" + target + "'"
    case Ps => "✅ Listing containers in your harbor"
    case Stop => "✅ Anchoring container '" + target + "'"
    case Rm => "✅ Removing container '" + target + "' from harbor"
    case Images => "✅ Showing available ship blueprints"
    case Pull => "✅ Downloading image '" + target + "' from registry"
    case Start => "✅ Starting container '" + target + "'"
    case Restart => "✅ Restarting container '" + target + "'"
    case Logs => "✅ Reading logbook of '" + target + "'"
    case Inspect => "✅ Inspecting '" + target + "'"
    case Build => "✅ Building image from '" + target + "'"
  }

  /** `_build_success_message`: the verb's sentence, then a note per displayed flag. */
  function SuccessMessage(v: Verb, target: string, flags: Flags): string {
    WithFlagNotes(BaseMessage(v, target), flags)
  }

  /** The notes appended to a success message, in order: stopped containers, background mode, port, name. */
  function WithFlagNotes(message: string, flags: Flags): string {
    var m1 := AppendIf(message, Truthy(flags, "all"), " (including stopped)");
    var m2 := AppendIf(m1, Truthy(flags, "detach"), " in background mode");
    var m3 := AppendIf(m2, Truthy(flags, "port"), " with port mapping " + ShownFlag(flags, "port"));
    AppendIf(m3, Truthy(flags, "name"), " with name '" + ShownFlag(flags, "name") + "'")
  }

  /** `message += note` when the condition holds. */
  function AppendIf(message: string, condition: bool, note: string): string {
    if condition then message + note else message
  }

  /** The f-string rendering of a flag's value, "" when the flag is absent. */
  function ShownFlag(flags: Flags, key: string): string {
    if key in flags then FlagText(flags[key]) else ""
  }

  /** `groups[name] or ""`. */
  function GroupText(g: GroupDict, name: string): string
    requires name in g
  {
    match g[name]
    case Some(t) => t
    case None => ""
  }

  /** The target is taken from the first of container, image, target, path that the pattern declares. */
  function TargetOf(g: GroupDict): string {
    if "container" in g then GroupText(g, "container")
    else if "image" in g then GroupText(g, "image")
    else if "target" in g then GroupText(g, "target")
    else if "path" in g then GroupText(g, "path")
    else ""
  }

  /** Flags are parsed only when the pattern captured a non-empty flags group. */
  function FlagsOf(g: GroupDict): Flags {
    if "flags" in g && g["flags"].Some? && g["flags"].value != "" then ParseFlags(g["flags"].value) else map[]
  }

  /** `_handle_matched_command`. */
  function MatchedResult(command: string, v: Verb, g: GroupDict): CommandResult {
    var target := TargetOf(g);
    var flags := FlagsOf(g);
    CommandResult(command, VerbName(v), target, true, true, SuccessMessage(v, target, flags),
                  None, Some(Metaphor(v)), flags)
  }

  /** The second word of the command, or "" when there is none. */
  function AttemptedAction(command: string): string {
    var parts := Split(command);
    if |parts| > 1 then parts[1] else ""
  }

  /** `_handle_unknown_command`, given the suggestions found for the attempted action. */
  function UnknownResult(command: string, suggestions: seq<string>): CommandResult {
    var hint := if suggestions != [] then "Did you mean: " + Join(suggestions, ", ") + "?" else SupportedCommandsHint;
    CommandResult(command, "", "", false, false, "❌ Unknown Docker command: '" + AttemptedAction(command) + "'",
                  Some(hint), None, NewFlags(None))
  }

  // ---------------------------------------------------------------------------
  // Suggestions
  // ---------------------------------------------------------------------------

  /** `sum(1 for c in s1[i:] if c in s2)`. */
  function MatchCountFrom(s1: string, s2: string, i: nat): nat
    requires i <= |s1|
    decreases |s1| - i
  {
    if i == |s1| then 0 else (if s1[i] in s2 then 1 else 0) + MatchCountFrom(s1, s2, i + 1)
  }

  function Max(a: nat, b: nat): nat {
    if a >= b then a else b
  }

  /** `_similarity`: the share of `s1`'s characters found in `s2`, over the longer length. */
  function Similarity(s1: string, s2: string): real {
    if s1 == [] || s2 == [] then 0.0
    else MatchCountFrom(s1, s2, 0) as real / Max(|s1|, |s2|) as real
  }

  /** The names of the first `n` table entries whose similarity to `attempt` exceeds one half, in table order. */
  function SimilarAmong(attempt: string, n: nat): seq<string>
    requires n <= |PatternOrder|
  {
    if n == 0 then []
    else
      var name := VerbName(PatternOrder[n - 1]);
      SimilarAmong(attempt, n - 1) + (if Similarity(attempt, name) > 0.5 then [name] else [])
  }

  /** `_find_similar_commands`: at most three similar verbs, in table order. */
  function SimilarCommands(attempted: string): seq<string> {
    var all := SimilarAmong(Lower(attempted), |PatternOrder|);
    if |all| <= 3 then all else all[..3]
  }

  /** The loop of `_find_similar_commands`, appending each similar verb as the table is walked. */
  method FindSimilarCommands(attempted: string) returns (suggestions: seq<string>)
    ensures suggestions == SimilarCommands(attempted)
  {
    var lowered := Lower(attempted);
    var found: seq<string> := [];
    for i := 0 to |PatternOrder|
      invariant found == SimilarAmong(lowered, i)
    {
      var name := VerbName(PatternOrder[i]);
      if Similarity(lowered, name) > 0.5 {
        found := found + [name];
      }
    }
    suggestions := if |found| <= 3 then found else found[..3];
  }

  // ---------------------------------------------------------------------------
  // The pipeline
  // ---------------------------------------------------------------------------

  /** `parse_command`: each check in turn, the first failing one decides; then the pattern table. */
  function Parse(input: RawInput): CommandResult {
    match input
    case NoneValue =>
      Rejection("", InvalidInputMessage,
                InvalidInputHint)
    case NonString(repr, truthy) =>
      Rejection(if truthy then repr else "", InvalidInputMessage,
                InvalidInputHint)
    case Str(raw) =>
      var s := Strip(raw);
      if s == "" then
        Rejection(s, EmptyMessage, EmptyHint)
      else if |s| > MaxCommandLength then
        Rejection(s[..50] + "...", TooLongMessage(|s|),
                  TooLongHint)
      else if HasDangerousPattern(s) then
        Rejection(s, DangerousMessage,
                  DangerousHint)
      else if HasControlChar(s) then
        Rejection(s, ControlMessage, ControlHint)
      else if !StartsWith(Lower(s), "docker") then
        Rejection(s, PrefixMessage, "Did you mean: docker " + s + "?")
      else MatchTable(s)
  }

  /** The pattern loop of `parse_command`, on a command that passed every check. */
  function MatchTable(s: string): CommandResult {
    match FirstMatchFrom(Pieces(s), 0)
    case Some((v, g)) => MatchedResult(s, v, g)
    case None => UnknownResult(s, SimilarCommands(AttemptedAction(s)))
  }

  /** `parse_command` step by step: early returns, then the loop over the pattern table. */
  method ParseCommand(input: RawInput) returns (r: CommandResult)
    ensures r == Parse(input)
  {
    if input.NoneValue? || input.NonString? {
      var shown := if input.NonString? && input.truthy then input.repr else "";
      return Rejection(shown, InvalidInputMessage,
                       InvalidInputHint);
    }
    var s := Strip(input.text);
    if s == "" {
      return Rejection(s, EmptyMessage, EmptyHint);
    }
    if |s| > MaxCommandLength {
      return Rejection(s[..50] + "...", TooLongMessage(|s|),
                       TooLongHint);
    }
    if HasDangerousPattern(s) {
      return Rejection(s, DangerousMessage,
                       DangerousHint);
    }
    if HasControlChar(s) {
      return Rejection(s, ControlMessage, ControlHint);
    }
    if !StartsWith(Lower(s), "docker") {
      return Rejection(s, PrefixMessage, "Did you mean: docker " + s + "?");
    }
    r := MatchCommand(s);
  }

  /** Tries each pattern in table order; the first that matches decides, otherwise suggestions are sought. */
  method MatchCommand(s: string) returns (r: CommandResult)
    ensures r == MatchTable(s)
  {
    var ps := Pieces(s);
    for i := 0 to |PatternOrder|
      invariant FirstMatchFrom(ps, i) == FirstMatchFrom(ps, 0)
    {
      var m := MatchPattern(PatternOrder[i], ps);
      if m.Some? {
        return MatchedResult(s, PatternOrder[i], m.value);
      }
    }
    var suggestions := FindSimilarCommands(AttemptedAction(s));
    r := UnknownResult(s, suggestions);
  }

  // ---------------------------------------------------------------------------
  // Tutorial matching and help
  // ---------------------------------------------------------------------------

  /** `validate_docker_command`: both parse, same action, and the same target when one is expected. */
  function ValidateDockerCommand(command: string, expected: string): bool {
    var user := Parse(Str(command));
    var want := Parse(Str(expected));
    if !user.valid || !want.valid then false
    else if user.action != want.action then false
    else if want.target != "" && user.target != want.target then false
    else true
  }

  /** The actions `get_command_help` has a text for. */
  predicate HasHelp(action: string) {
    action == "run" || action == "ps" || action == "stop" || action == "rm" || action == "images" || action == "pull"
  }

  /** The first line of the help text for `action`: its usage, `docker <action>` and the arguments it takes. */
  function UsageLine(action: string): string {
    if HasHelp(action) then "docker " + action + UsageArguments(action) else ""
  }

  function UsageArguments(action: string): string {
    if action == "run" then " [OPTIONS] IMAGE [COMMAND]"
    else if action == "ps" then " [OPTIONS]"
    else if action == "stop" then " CONTAINER"
    else if action == "rm" then " [OPTIONS] CONTAINER"
    else if action == "images" then " [OPTIONS]"
    else if action == "pull" then " IMAGE[:TAG]"
    else ""
  }

  /** The remaining lines of the help text: description, examples and options. */
  function HelpBody(action: string): seq<string> {
    if action == "run" then
      [
       "",
       "Create and start a new container from an image.",
       "",
       "Examples:",
       "  docker run nginx",
       "  docker run -d -p 8080:80 --name my-web nginx",
       "",
       "Options:",
       "  -d, --detach       Run container in background",
       "  -p, --publish      Publish container ports to host",
       "  --name            Assign a name to the container"
      ]
    else if action == "ps" then
      [
       "",
       "List running containers.",
       "",
       "Examples:",
       "  docker ps",
       "  docker ps -a",
       "",
       "Options:",
       "  -a, --all         Show all containers (including stopped)"
      ]
    else if action == "stop" then
      [
       "",
       "Stop one or more running containers.",
       "",
       "Examples:",
       "  docker stop my-container",
       "  docker stop container-id"
      ]
    else if action == "rm" then
      [
       "",
       "Remove one or more containers.",
       "",
       "Examples:",
       "  docker rm my-container",
       "  docker rm -f my-container",
       "",
       "Options:",
       "  -f, --force       Force removal of running container"
      ]
    else if action == "images" then
      [
       "",
       "List available images.",
       "",
       "Examples:",
       "  docker images",
       "  docker images -a",
       "",
       "Options:",
       "  -a, --all         Show all images"
      ]
    else if action == "pull" then
      [
       "",
       "Download an image from a registry.",
       "",
       "Examples:",
       "  docker pull nginx",
       "  docker pull nginx:alpine"
      ]
    else []
  }

  /** `get_command_help`: the stored multi-line text, or a fallback naming the action. */
  function CommandHelp(action: string): string {
    if HasHelp(action) then UsageLine(action) + "\n" + Join(HelpBody(action), "\n")
    else "No help available for '" + action + "'"
  }
}
