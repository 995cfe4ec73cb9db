# DockerShip command parser and data models, in Dafny

DockerShip teaches Docker through a harbour metaphor. Users type Docker
commands into a simulated terminal, and the application checks them.

This project models two parts of it:

- **The command parser** (`utils/command_parser.py`). `parse_command` runs a fixed chain of checks on one line of input:
  the input type, blank input, the length limit of 500, shell operators, control characters and the `docker` prefix.
  It then tries a table of per-verb regular expressions in table order.
  Around that chain sit:
  - target and flag extraction (`_handle_matched_command`, `_parse_flags`);
  - the success message (`_build_success_message`);
  - "did you mean" suggestions from a character-overlap ratio (`_find_similar_commands`, `_similarity`);
  - matching a command against a tutorial step's expected command (`validate_docker_command`);
  - the help texts (`get_command_help`).
- **The data records** (`data/models.py`):
  - the validating constructors of `TutorialStep`, `UserProgress` and `ContainerState`;
  - the container-state predicates;
  - `TutorialSection`, whose `add_step` appends a step and re-sorts the list in place;
  - the step validator `validate_tutorial_step`.

Files:

| file | module | contents |
|---|---|---|
| `wrappers.dfy` | `Wrappers` | `Option` (Python's `None` or a value) and `Result` (a value or the message of a raised `ValueError`) |
| `py_text.dfy` | `PyText` | the Python string operations the code relies on: `str.isspace`, `lower`, `strip`, `split`, `in`, `startswith`, `join`, `str(int)`; commands as *pieces* (a word and the whitespace after it) |
| `command_patterns.dfy` | `CommandPatterns` | `COMMAND_PATTERNS` as a grammar over pieces, one interpretation per verb, tried in table order |
| `command_parser.dfy` | `CommandParser` | `CommandResult`, the check chain (`Parse`, and the method `ParseCommand` that runs it step by step), target and flag extraction, messages, suggestions, tutorial matching, help |
| `parser_properties.dfy` | `ParserProperties` | what the parser promises, proved over the model |
| `parser_examples.dfy` | `ParserExamples` | worked examples from the docstrings and the help texts |
| `models.dfy` | `Models` | the data records, `TutorialSection` as a class, and `validate_tutorial_step` |

## How the regular expressions are modelled

There is no regex engine. The command is first stripped, then cut into
pieces. A piece is a maximal run of non-space characters followed by the
maximal run of whitespace after it (`Pieces`, `Gapped`).

Every pattern is `^docker\s+<verb>` followed by per-verb arguments
(`MatchPattern`). Its groups are the concatenations of consecutive pieces,
so a group's text is exact, gaps included.

The `run` flag group `(?:-[a-zA-Z]\s+\S+\s+|--[a-z-]+(?:=\S+)?\s+)*` is
modelled faithfully. A single-dash flag always takes the next word as its
value, whatever that word is, and the group repeats greedily. Giving back
flag iterations never helps the match:
- a tail that `run`'s `command` group `.+` rejects after the greedy chain holds a newline, and every longer tail contains that tail, so `.+` rejects those too;
- the `path` of `build` must be the last word.

So the greedy chain (`RunFlagsEnd`, `BuildFlagsEnd`) is the match `re.match` finds.

Two consequences follow from the code as written, and the examples prove both:
- `docker run -d nginx` gives image `-d` and command `nginx` (`ParserExamples.RunDetached`).
- The help text's `docker run -d -p 8080:80 --name my-web nginx` gives:
  - flags `-d -p `;
  - image `8080:80`;
  - command `--name my-web nginx` (`ParserExamples.HelpExample`).

  Its flags therefore ask for a detached container (`ParserExamples.HelpExampleDetach`), but carry no port or name.

## Model

| member | source | states |
|---|---|---|
| CommandParser.Parse | utils/command_parser.py:81-168 | `parse_command` as a chain of checks. Its properties are stated by ParseOutcome, AcceptedIff and the Refused lemmas |
| CommandParser.MatchTable | utils/command_parser.py:161-168 | the first pattern in table order that matches, handled, or the unknown-command result. MatchTableOutcome and FirstMatchSpec state its properties |
| CommandParser.MatchedResult | utils/command_parser.py:171-211 | `_handle_matched_command`. MatchedFields and MatchedShape state what it yields |
| CommandParser.UnknownResult | utils/command_parser.py:214-240 | `_handle_unknown_command`. RefusedUnknown states its message and hint |
| CommandParser.ParseFlags | utils/command_parser.py:243-270 | `_parse_flags`. SwitchFlags, ValueFlags and ValueFlagsCaptured state its keys and values |
| CommandParser.SuccessMessage | utils/command_parser.py:273-301 | `_build_success_message`. SuccessMessageExtends and SuccessMessageIgnoresForceAndTag state its properties |
| CommandParser.TargetOf | utils/command_parser.py:180-188 | the first of the `container`, `image`, `target` and `path` groups present. MatchTarget states which word it is |
| CommandParser.FlagsOf | utils/command_parser.py:190-193 | `_parse_flags` of a non-empty `flags` group, else no flags. PsAll and RunNginx state it on examples |
| CommandParser.Similarity | utils/command_parser.py:378-385 | `_similarity`. SimilarityRange and SimilarIff state its range and the meaning of `> 0.5` |
| CommandParser.SimilarCommands | utils/command_parser.py:365-375 | `_find_similar_commands`. SuggestionsSpec and SuggestionsOrder state what it returns |
| CommandParser.ValidateDockerCommand | utils/command_parser.py:388-417 | `validate_docker_command`. ValidateReflexive, ValidateTransitive and ValidateIgnoresSurroundingSpace state its properties |
| CommandParser.CommandHelp | utils/command_parser.py:420-496 | `get_command_help`. HelpUsage states how each text begins |
| CommandPatterns.MatchRun | utils/command_parser.py:52 | the `run` arguments: the greedy flag chain, the image word, and an optional newline-free command. MatchPattern and HelpExampleRun state what it binds |
| CommandPatterns.MatchBuild | utils/command_parser.py:62 | the `build` arguments: the greedy tag chain, then the path as the last word |
| CommandPatterns.MatchListing | utils/command_parser.py:53-56 | the `ps` and `images` arguments: nothing, or one listed flag. PsAll states an example |
| CommandPatterns.MatchForceable | utils/command_parser.py:55-60 | the `rm` and `logs` arguments: an optional `-f`, then the container as the last word |
| CommandPatterns.MatchOneWord | utils/command_parser.py:54-61 | the `stop`, `pull`, `start`, `restart` and `inspect` arguments: exactly one word |
| CommandPatterns.FirstMatchFrom | utils/command_parser.py:162-165 | the table loop from position `i`. FirstMatchFromSpec states its result |
| CommandParser.Rejection | utils/command_parser.py:16-47 | a refused result is neither valid nor successful, has no action, target or metaphor, carries the given message and hint, and has empty flags (the dataclass defaults) |
| CommandParser.NewFlags | utils/command_parser.py:45-47 | `flags=None` becomes the empty dict and supplied flags are kept |
| CommandParser.ParseCommand | utils/command_parser.py:81-168 | the early-return chain and the loop over the pattern table compute exactly `Parse`, the check-by-check definition the lemmas below are about |
| CommandParser.MatchCommand | utils/command_parser.py:161-168 | the loop returns the handled result of the first pattern in table order that matches, or the unknown-command result when none does |
| CommandParser.FindSimilarCommands | utils/command_parser.py:365-375 | the loop that appends each verb similar to the lower-cased attempt, then keeps the first three, computes `SimilarCommands` |
| CommandPatterns.MatchPattern | utils/command_parser.py:51-63 | a match binds exactly the named groups of that verb's expression |
| CommandPatterns.RunFlagsEnd | utils/command_parser.py:52 | the `run` flag chain stops inside the arguments, so an image word always remains |
| CommandPatterns.BuildFlagsEnd | utils/command_parser.py:62 | the `build` flag chain stops inside the arguments, so a path word always remains |
| CommandPatterns.EqualsIgnoreCaseFromIff | utils/command_parser.py:163 | the character-by-character case-insensitive comparison holds exactly when every remaining character agrees after lower-casing |
| CommandPatterns.EqualsIgnoreCaseIff | utils/command_parser.py:163 | matching a literal under `re.IGNORECASE` is equality of the lower-cased texts |
| CommandPatterns.EqualsIgnoreCaseSelf | utils/command_parser.py:163 | every word matches itself case-insensitively |
| CommandPatterns.LowerOfLowerCase | utils/command_parser.py:51-63 | lower-casing a text with no capital letters changes nothing |
| CommandPatterns.VerbNameIsLowerCase | utils/command_parser.py:51-63 | every table key is a non-empty lower-case word |
| CommandPatterns.VerbNameIs | utils/command_parser.py:51-63 | the keys `ps`, `images` and `run` name exactly those verbs |
| CommandPatterns.VerbNameInjective | utils/command_parser.py:51-63 | no two verbs share a key |
| CommandPatterns.MatchNamesVerb | utils/command_parser.py:51-63 | a command a pattern matches has `docker` as its first word and the verb as its second, in any case |
| CommandPatterns.AtMostOnePattern | utils/command_parser.py:51-63 | no command is matched by two different patterns, so the table order never decides between matches |
| CommandPatterns.PatternOrderComplete | utils/command_parser.py:51-63 | every verb occurs in the table |
| CommandPatterns.FirstMatchFromSpec | utils/command_parser.py:162-165 | the search from position `i` returns a real match, and returns nothing only when no later pattern matches |
| CommandPatterns.FirstMatchSpec | utils/command_parser.py:162-168 | the loop's result is a match, and there is none exactly when no verb's pattern matches |
| ParserProperties.MatchesAtShort | utils/command_parser.py:134-135 | a one-, two- or three-character pattern occurs at `i` exactly when its characters are there |
| ParserProperties.ContainsShort | utils/command_parser.py:135 | `p in s` for a short pattern holds exactly when it occurs at some index of `s` |
| ParserProperties.DangerousFromIff | utils/command_parser.py:134-135 | the `any(...)` over the denylist from entry `k` holds exactly when one of those entries is a substring |
| ParserProperties.OperatorAtIff | utils/command_parser.py:134 | the operator test at one index agrees with "some denylist entry occurs here" |
| ParserProperties.DangerousSound | utils/command_parser.py:134-141 | a denylist hit means some shell operator starts somewhere in the command |
| ParserProperties.DangerousComplete | utils/command_parser.py:134-141 | a shell operator anywhere is a denylist hit |
| ParserProperties.DangerousPatternIff | utils/command_parser.py:134-141 | the denylist refuses exactly the commands in which a semicolon, a pipe, a backtick, `&&`, `$(`, `<(` or `>${` occurs; a lone `&` passes |
| ParserProperties.ControlFromIff | utils/command_parser.py:144 | the scan from `i` finds a control character exactly when one occurs at or after `i` |
| ParserProperties.ControlCharIff | utils/command_parser.py:144-150 | the control check refuses exactly the commands holding a code point below 32 other than tab and newline |
| ParserProperties.MatchTableOutcome | utils/command_parser.py:162-168 | the table's result echoes the command, is valid exactly when some pattern matched, and then carries the verb's key and metaphor |
| ParserProperties.MatchTableWellShaped | utils/command_parser.py:171-240 | results of the pattern table are well shaped, as in ParseOutcome |
| ParserProperties.ParseOutcome | utils/command_parser.py:81-240 | every result has one of two shapes. An acceptance: valid and successful, a non-empty action that is a table key, that key's metaphor, no hint. A refusal: neither valid nor successful, empty action and target, a hint, no metaphor, no flags. So valid ⇔ success ⇔ action ≠ "". Anything but a string is refused as invalid input |
| ParserProperties.ParseStripInvariant | utils/command_parser.py:111 | parsing a stripped command gives the same result as parsing the raw one |
| ParserProperties.AcceptedIff | utils/command_parser.py:102-168 | a string is accepted exactly when it passes every check and some pattern matches it. Once stripped, it must be non-empty, at most 500 characters, free of operators and control characters, and start case-insensitively with `docker`. An accepted command is echoed stripped |
| ParserProperties.RefusedBlank | utils/command_parser.py:111-120 | input that is whitespace only is refused as empty, with the empty command and the `docker ps` hint |
| ParserProperties.RefusedTooLong | utils/command_parser.py:123-130 | a command over 500 characters once stripped is refused with its length in the message. Only its first 50 characters and `...` are echoed |
| ParserProperties.RefusedOperator | utils/command_parser.py:134-141 | an operator anywhere refuses a command of acceptable length, whatever control characters or prefix it has: the denylist is checked first |
| ParserProperties.RefusedControl | utils/command_parser.py:144-150 | with no operator, a control character refuses the command, whatever its prefix |
| ParserProperties.RefusedPrefix | utils/command_parser.py:153-159 | a command that passes the character checks but does not start with `docker` is refused with the hint `Did you mean: docker <command>?` |
| ParserProperties.PassesChecks | utils/command_parser.py:111-168 | a command that passes every check is decided by the pattern table |
| ParserProperties.RefusedUnknown | utils/command_parser.py:214-240 | a command that passes every check but matches no pattern is refused as unknown. The message names its second word; the hint lists the suggestions, or else the supported commands |
| ParserProperties.AcceptedIsMatched | utils/command_parser.py:162-211 | an accepted command's result is the handled match of a pattern that matches its pieces |
| ParserProperties.AcceptedAction | utils/command_parser.py:162-211 | an accepted command's first word is `docker` and its action is its second word lower-cased |
| ParserProperties.MatchTarget | utils/command_parser.py:180-188 | the target of `ps` and `images` is empty. Otherwise it is a word of the command after the verb: the last word for every verb but `run`, and for `run` the word at which the greedy flag chain stops, the `image` group |
| ParserProperties.AcceptedTarget | utils/command_parser.py:162-211 | an accepted command's target is empty exactly for `ps` and `images`. Otherwise it is one space-free word of the command after the verb: the last one for every verb but `run`, and for `run` the word at which the greedy flag chain stops |
| ParserProperties.MatchedShape | utils/command_parser.py:171-211 | the handled match has the target shape of AcceptedTarget |
| ParserProperties.MatchedFields | utils/command_parser.py:201-211 | the handled match is valid, keeps the command, takes the verb's key as action and the extracted group as target |
| ParserProperties.MatchedTarget | utils/command_parser.py:180-188 | the extracted target lies in the command as AcceptedTarget says |
| ParserProperties.TargetIsWord | utils/command_parser.py:180-188 | outside the listings, the target is a non-empty, space-free word of the command after the verb |
| ParserProperties.TargetIsLastWord | utils/command_parser.py:180-188 | for the one-argument verbs, the target is the last word |
| ParserProperties.SearchLeftmost | utils/command_parser.py:257-268 | `re.search` reports the capture at the leftmost index where the expression matches, and fails only if it matches nowhere |
| ParserProperties.DigitsMakePort | utils/command_parser.py:258-259 | two non-empty digit strings joined by a colon form a port mapping |
| ParserProperties.PortAtShape | utils/command_parser.py:257-259 | what `-p\s+(\d+):(\d+)` yields at an index is the text after `-p` and a non-empty run of whitespace: digits, a colon, digits, up to the first character that is not a digit |
| ParserProperties.JoinAtColon | utils/command_parser.py:259 | the two groups joined by a colon are the text they span when a colon lies between them |
| ParserProperties.PortFromRanges | utils/command_parser.py:258 | digits, a colon and digits in the text form a port mapping |
| ParserProperties.PortCaptureAt | utils/command_parser.py:258 | a mapping after `-p` and whitespace, not continued by a digit, is what the port expression captures |
| ParserProperties.ValueAfterRunShape | utils/command_parser.py:262-267 | what `[=\s]+(\S+)` captures, once the greedy run has reached an index, is a whole run of non-space characters after a non-empty run of `=` and whitespace. It starts at the last place the run can give back to |
| ParserProperties.ValueAtShape | utils/command_parser.py:262-267 | the value after a flag is a non-empty run of non-space characters. It is that capture |
| ParserProperties.ProbeShape | utils/command_parser.py:257-268 | each of the three searches, where it matches, starts at its flag and captures exactly the text the expression's group covers |
| ParserProperties.SearchCapture | utils/command_parser.py:257-268 | `re.search` finds something exactly when the expression matches somewhere. It then returns the capture at the leftmost index where it matches |
| ParserProperties.ParseFlagsValues | utils/command_parser.py:257-268 | `port`, `name` and `tag` are set exactly when their search finds something, to what it finds |
| ParserProperties.FoundIsContained | utils/command_parser.py:247-252 | an occurrence at some index makes `p in s` true |
| ParserProperties.SwitchFlags | utils/command_parser.py:247-252 | `all`, `force` and `detach` are set, to true, exactly when `-a`, `-f` or `-d` is a substring of the flags text (the long forms contain the short ones) |
| ParserProperties.PortFound | utils/command_parser.py:257-259 | a found port mapping has the form digits, colon, digits, and `-p` is in the flags text |
| ParserProperties.NameFound | utils/command_parser.py:262-264 | a found name is a non-empty space-free word, and `--name` is in the flags text |
| ParserProperties.TagFound | utils/command_parser.py:267-269 | a found tag is a non-empty space-free word, and `-t` is in the flags text (`--tag` contains it) |
| ParserProperties.ValueFlags | utils/command_parser.py:243-270 | the keys are among `all`, `force`, `detach`, `port`, `name`, `tag`. `port` is present exactly when its search finds a match, and is then a digits-colon-digits mapping with `-p` in the flags text. `name` and `tag` hold non-empty space-free words, with `--name` or `-t` in the flags text |
| ParserProperties.ValueFlagsCaptured | utils/command_parser.py:257-268 | each of `port`, `name` and `tag` is set exactly when its expression matches at some index of the flags text. It then holds the capture at the leftmost such index: for `port` the mapping right after `-p` and whitespace, for `name` and `tag` the word after `--name`, `-t` or `--tag` and a run of `=` and whitespace |
| ParserProperties.StartsWithConcat | utils/command_parser.py:292-299 | a text starts with any of its prefixes |
| ParserProperties.SuccessMessageExtends | utils/command_parser.py:273-301 | the success message starts with the verb's base message, and is exactly it when there are no flags |
| ParserProperties.FlagNotesExtend | utils/command_parser.py:292-299 | the flag notes only append to the message |
| ParserProperties.AppendIfExtends | utils/command_parser.py:292-299 | each conditional `+=` keeps the message as a prefix |
| ParserProperties.StartsWithTrans | utils/command_parser.py:292-299 | being a prefix is transitive |
| ParserProperties.SuccessMessageIgnoresForceAndTag | utils/command_parser.py:273-301 | the `force` and `tag` flags never change the success message |
| ParserProperties.FlagNotesIgnoreForceAndTag | utils/command_parser.py:292-299 | the flag notes read only `all`, `detach`, `port` and `name` |
| ParserProperties.MatchCountBound | utils/command_parser.py:384 | at most as many characters match as there are characters left |
| ParserProperties.SimilarityRange | utils/command_parser.py:378-385 | the similarity lies between 0 and 1 |
| ParserProperties.SimilarIff | utils/command_parser.py:372-385 | similarity above 0.5 holds exactly when both strings are non-empty and twice the match count exceeds the longer length |
| ParserProperties.DivGreater | utils/command_parser.py:385 | `x / n > y` is `x > y * n` for positive `n` |
| ParserProperties.SimilarAmongSpec | utils/command_parser.py:367-373 | a key is collected exactly when it is one of the first `n` table keys with similarity above 0.5, and at most `n` keys are collected |
| ParserProperties.SimilarAmongSound | utils/command_parser.py:367-373 | every collected key is a table key with similarity above 0.5 |
| ParserProperties.SimilarAmongComplete | utils/command_parser.py:367-373 | every table key with similarity above 0.5 is collected |
| ParserProperties.SuggestionsSpec | utils/command_parser.py:365-375 | at most three suggestions, each a table key similar to the lower-cased attempt. When fewer than three are returned, every similar key is among them |
| ParserProperties.ListedAtSnoc | utils/command_parser.py:370-373 | appending a key at a later table position keeps a list in table order |
| ParserProperties.SimilarAmongListed | utils/command_parser.py:367-373 | the keys collected from the first `n` entries are the keys at the similar positions, which strictly increase |
| ParserProperties.SimilarPositionsComplete | utils/command_parser.py:367-373 | every similar position among the first `n` entries is collected |
| ParserProperties.SuggestionsOrder | utils/command_parser.py:365-375 | the suggestions are table keys at strictly increasing table positions. A similar key is missing only when three suggestions are given, all from earlier positions: they are the first three similar keys in table order |
| ParserProperties.ValidateReflexive | utils/command_parser.py:388-417 | a command matches itself exactly when it parses as valid |
| ParserProperties.ValidateTransitive | utils/command_parser.py:388-417 | matching against expected commands is transitive |
| ParserProperties.ValidateIgnoresSurroundingSpace | utils/command_parser.py:388-417 | surrounding whitespace on either command never changes the verdict |
| ParserProperties.HelpUsage | utils/command_parser.py:420-496 | the six known actions' help starts with `docker <action>`; any other action gets `No help available for '<action>'` |
| ParserProperties.StartsWithAppend | utils/command_parser.py:420-496 | appending keeps a prefix |
| ParserProperties.UsageLineNamesCommand | utils/command_parser.py:433-487 | the usage line of each help text begins with `docker <action>` |
| ParserProperties.ChecksPassed | utils/command_parser.py:111-168 | a stripped command that passes every check is decided by the pattern table |
| ParserExamples.SpacedCommandAccepted | utils/command_parser.py:81-168 | a clean command of words joined by single spaces is accepted with the first pattern that matches its words |
| ParserExamples.RunNginx | utils/command_parser.py:94-98 | `docker run nginx` is taken by `run`, with target `nginx` and no flags (the docstring's example) |
| ParserExamples.RunNginxJoin | utils/command_parser.py:94-98 | the words `docker`, `run`, `nginx` joined by spaces are the docstring's command |
| ParserExamples.RunNginxClean | utils/command_parser.py:111-159 | `docker run nginx` is stripped, short enough, free of operators and control characters, and starts with `docker` |
| ParserExamples.RunNginxWords | utils/command_parser.py:94-98 | each of its three words is non-empty and free of whitespace |
| ParserExamples.RunNginxAccepted | utils/command_parser.py:81-168 | its result is the handled match of the `run` pattern |
| ParserExamples.RunNginxResult | utils/command_parser.py:171-211 | that handled match is valid, with action `run` and target `nginx` |
| ParserExamples.RunNginxParsed | utils/command_parser.py:94-98 | `parse_command("docker run nginx")` is valid, with action `run` and target `nginx`, as the docstring says |
| ParserExamples.RunDetached | utils/command_parser.py:52 | `docker run -d nginx` is taken by `run` with image `-d` and command `nginx`: the flag chain needs two more words |
| ParserExamples.PsAll | utils/command_parser.py:53 | `docker ps -a` is taken by `ps` with flags `-a` and no target |
| ParserExamples.NoneSimilarBetween | utils/command_parser.py:370-373 | keys that are not similar add nothing to the suggestions |
| ParserExamples.TypoSimilar | utils/command_parser.py:372-385 | of all the keys, only `run` is similar to `rn` |
| ParserExamples.TypoSuggestsRun | utils/command_parser.py:365-375 | the typo `rn` gets the single suggestion `run` |
| ParserExamples.OnlyRunSuggested | utils/command_parser.py:365-375 | a lower-case attempt that only `run` is similar to gets the single suggestion `run` |
| ParserExamples.RenSimilar | utils/command_parser.py:372-385 | of all the keys, only `run` is similar to `ren` |
| ParserExamples.RenSuggestsRun | utils/command_parser.py:365-375 | the typo `ren` gets the single suggestion `run` |
| ParserExamples.HelpExampleArgs | utils/command_parser.py:439 | the pieces of the help's `run` example after `docker run` |
| ParserExamples.HelpExampleFlagsEnd | utils/command_parser.py:439 | in that example the flag chain ends after `-d -p` |
| ParserExamples.HelpExampleGroups | utils/command_parser.py:439 | in that example the flags text is `-d -p ` and the command text is `--name my-web nginx` |
| ParserExamples.HelpExampleRun | utils/command_parser.py:439 | the `run` grammar gives that example's argument pieces exactly those three groups |
| ParserExamples.HelpExample | utils/command_parser.py:439 | `docker run -d -p 8080:80 --name my-web nginx` matches `run` with image and target `8080:80` |
| ParserExamples.HelpExampleDetach | utils/command_parser.py:250-251 | that example's flags ask for a detached container |
| ParserExamples.BlankRefused | utils/command_parser.py:111-120 | a command of two spaces is refused as empty |
| ParserExamples.UpperCaseRun | utils/command_parser.py:162-211 | `DOCKER RUN NGINX` is taken by `run`. The action is the lower-case key; the target keeps its case |
| ParserExamples.LoneAmpersandAllowed | utils/command_parser.py:134 | `docker run a&b` passes the denylist |
| ParserExamples.ChainedCommandRefused | utils/command_parser.py:134 | `docker ps && rm` is caught by the denylist |
| Models.TutorialSection.StepCount | data/models.py:153-155 | `get_step_count`: the number of steps. AddStep states that it grows by one |
| Models.ContainerState.IsRunning | data/models.py:117-119 | `is_running`. RunningStoppedExclusive states what it tests |
| Models.ContainerState.IsStopped | data/models.py:121-123 | `is_stopped`. RunningStoppedExclusive states what it tests |
| Models.StepErrors | data/models.py:207-227 | `validate_tutorial_step`'s list. StepErrorsMention, StepErrorsEmptyIff and StepErrorsOrdered state its properties |
| Models.SortBySteps | data/models.py:151 | `sort(key=lambda s: s.step_number)`. SortByStepsSpec and SortByStepsStable state its properties |
| Models.InsertStep | data/models.py:151 | inserting a step behind those numbered no higher. The InsertStep lemmas state its properties |
| Models.NewTutorialStep | data/models.py:47-54 | construction succeeds exactly when the step number is at least 1 and section and title are not blank. Its fields are then as given. Each failure has its own message, checked in the order step number, section, title |
| Models.NewUserProgress | data/models.py:78-81 | a completed record always has a timestamp. A supplied timestamp is kept; a missing one becomes `now` only when completed. The other fields are kept |
| Models.NewContainerState | data/models.py:108-115 | construction succeeds exactly when the state is one of `created`, `running`, `stopped`, `removing`, else fails with the set-listing message. `created_at` is the one supplied, or `now`. The other fields are kept |
| Models.DefaultStateValid | data/models.py:102-115 | the default state `created` is accepted and gets the current time |
| Models.RunningStoppedExclusive | data/models.py:117-123 | `is_running` is `state == "running"` and `is_stopped` is `state == "stopped"`; they are never both true; a valid state that is neither is `created` or `removing` |
| Models.WithNumber | data/models.py:151 | the steps selected by number come from the list and carry that number |
| Models.WithNumberConcat | data/models.py:151 | selecting by number distributes over concatenation |
| Models.WithNumberCons | data/models.py:151 | selecting by number distributes over a step put in front |
| Models.WithNumberSingle | data/models.py:151 | selecting by number from a single step |
| Models.WithNumberAbove | data/models.py:151 | a sorted list beginning above `k` has no step numbered `k` |
| Models.SortedTail | data/models.py:151 | the tail of a sorted list is sorted |
| Models.InsertStepMultiset | data/models.py:150-151 | insertion adds exactly the new step |
| Models.InsertStepSorted | data/models.py:151 | insertion into a sorted list keeps it sorted |
| Models.InsertStepStable | data/models.py:151 | insertion into a sorted list puts the step behind those with the same number |
| Models.InsertStepLast | data/models.py:150-151 | a step numbered at least as high as every other one goes at the end |
| Models.SortByStepsSorted | data/models.py:151 | the sort orders by step number |
| Models.SortByStepsMultiset | data/models.py:151 | the sort is a permutation |
| Models.SortByStepsSpec | data/models.py:151 | the sort orders by step number, is a permutation and keeps the length |
| Models.SortByStepsStable | data/models.py:151 | steps with equal numbers keep their relative order (Python's sort is stable) |
| Models.SortBySortedIsIdentity | data/models.py:151 | sorting an ordered list changes nothing |
| Models.AddToSortedIsInsert | data/models.py:149-151 | appending to an ordered list and sorting is inserting behind the equal numbers |
| Models.TutorialSection.constructor | data/models.py:141-145 | a section holds the fields given to it |
| Models.TutorialSection.AddStep | data/models.py:147-155 | after `add_step` the steps are the old steps plus the new one, as a permutation, and are sorted by number. Equal numbers keep their order, with the new step last among its number. The count grows by one. An already sorted list simply gets the step inserted. Nothing else changes |
| Models.MessageRanks | data/models.py:214-225 | the four messages are told apart by their first letter, in the order of the checks |
| Models.StepErrorsMention | data/models.py:214-225 | each message is reported exactly when its check fails |
| Models.StepErrorsEmptyIff | data/models.py:207-227 | no errors exactly when all four checks pass; at most four errors, each one of the four messages |
| Models.StepErrorsOrdered | data/models.py:212-227 | the errors come in the fixed order of the checks: title, description, command, visual state |
| Models.ValidateTutorialStep | data/models.py:207-227 | the validator, appending message by message, returns exactly `StepErrors`, the list the lemmas above describe |

## Left out

- `_generate_simulated_output` and the `output` field (utils/command_parser.py:304-362) are not modelled. They produce random container IDs and canned text.
- The `datetime.now()` defaults (data/models.py:81, 113) become a parameter `now` of the constructors that need it, and times are plain integers.
- Case-insensitive matching and `lower()` fold only ASCII letters. Python folds all of Unicode; characters beyond ASCII are compared as they are.
- Floating point: `_similarity` returns a float, here a Dafny `real`. The verdict `> 0.5` that the code uses is proved equivalent to the integer test `2 * matches > max(len)` (`ParserProperties.SimilarIff`).
- The failure message of `ContainerState` prints Python's set `VALID_STATES`, whose element order depends on string hashing. The model fixes one order: `{'created', 'running', 'stopped', 'removing'}`.
- `ContainerState.__post_init__` fills `created_at` before it raises on a bad state. The model returns only the error, since a raised constructor yields no object.
- `TutorialStep`, `UserProgress` and `ContainerState` are records the code changes only inside `__post_init__`. They are modelled as datatypes with validating constructor functions that return `Result` where Python raises `ValueError`.
- An input that is not a string is modelled by its `str()` text and its truthiness (`RawInput.NonString`). Python's `str()` of arbitrary objects is left out.
- The help texts are stored as a usage line plus the remaining lines. The full text is the usage line and the rest joined by newlines. `ParserProperties.HelpUsage` states only how each help text begins, not its remaining lines.
- `TutorialSection.add_step`: the sort is modelled as a stable insertion sort over a `seq` field that the method reassigns, and not as Timsort in place. Only its result (sorted, permutation, stable) is specified.
- PyText.IsDigit: `\d` is taken to be the ASCII digits `0`-`9`. Python's `\d` also matches every other Unicode decimal digit, so flags text `-p ٨٠:٨٠` sets a port in Python but not in the model.
- Database access, the schemas, seed data and the user interface are not part of this model.
