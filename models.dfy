/**
 * The tutorial data records: steps, progress, simulated containers and sections,
 * with the checks their constructors perform and the stand-alone step validator.
 *
 * A constructor that raises `ValueError` is modelled as a function returning
 * `Result`, carrying the exception message on the error side. The wall clock that
 * fills in missing timestamps is a parameter `now`.
 */
module Models {
  import opened Wrappers
  import opened PyText

  /** A reading of the wall clock; only its presence or absence matters to the records. */
  type Timestamp = int

  // ---------------------------------------------------------------------------
  // TutorialStep
  // ---------------------------------------------------------------------------

  datatype TutorialStep = TutorialStep(
    id: int,
    section: string,
    stepNumber: int,
    title: string,
    description: string,
    expectedCommand: Option<string>,
    visualState: string,
    helpText: Option<string>,
    dockerConcept: Option<string>,
    metaphorExplanation: Option<string>)

  /** The default of `visual_state`, the first of the states validation accepts. */
  const DefaultVisualState := "neutral"

  const StepNumberMessage := "Step number must be positive"
  const SectionMessage := "Section cannot be empty"
  const TitleBlankMessage := "Title cannot be empty"

  /**
   * Building a step: its number must be at least 1, and its section and title must
   * not be blank once surrounding whitespace is stripped; the checks run in that order.
   */
  function NewTutorialStep(
    id: int, section: string, stepNumber: int, title: string, description: string,
    expectedCommand: Option<string>, visualState: string, helpText: Option<string>,
    dockerConcept: Option<string>, metaphorExplanation: Option<string>): (r: Result<TutorialStep, string>)
    ensures r.Ok? <==> stepNumber >= 1 && !AllSpace(section) && !AllSpace(title)
    ensures r.Ok? ==> r.value == TutorialStep(id, section, stepNumber, title, description,
                                              expectedCommand, visualState, helpText,
                                              dockerConcept, metaphorExplanation)
    ensures stepNumber < 1 ==> r == Err(StepNumberMessage)
    ensures stepNumber >= 1 && AllSpace(section) ==> r == Err(SectionMessage)
    ensures stepNumber >= 1 && !AllSpace(section) && AllSpace(title) ==> r == Err(TitleBlankMessage)
  {
    StripBlankIff(section);
    StripBlankIff(title);
    if stepNumber < 1 then Err(StepNumberMessage)
    else if Strip(section) == [] then Err(SectionMessage)
    else if Strip(title) == [] then Err(TitleBlankMessage)
    else Ok(TutorialStep(id, section, stepNumber, title, description, expectedCommand,
                         visualState, helpText, dockerConcept, metaphorExplanation))
  }

  // ---------------------------------------------------------------------------
  // UserProgress
  // ---------------------------------------------------------------------------

  datatype UserProgress = UserProgress(
    id: Option<int>,
    tutorialId: int,
    completed: bool,
    timestamp: Option<Timestamp>,
    attempts: int)

  /**
   * Building a progress record: a completed record with no timestamp is stamped with
   * the current time; a timestamp the caller gives is kept, and nothing else changes.
   */
  function NewUserProgress(id: Option<int>, tutorialId: int, completed: bool,
                           timestamp: Option<Timestamp>, attempts: int, now: Timestamp): (p: UserProgress)
    ensures p.completed ==> p.timestamp.Some?
    ensures timestamp.Some? ==> p.timestamp == timestamp
    ensures !completed ==> p.timestamp == timestamp
    ensures completed && timestamp.None? ==> p.timestamp == Some(now)
    ensures p.id == id && p.tutorialId == tutorialId && p.completed == completed && p.attempts == attempts
  {
    var stamp := if timestamp.None? && completed then Some(now) else timestamp;
    UserProgress(id, tutorialId, completed, stamp, attempts)
  }

  // ---------------------------------------------------------------------------
  // ContainerState
  // ---------------------------------------------------------------------------

  datatype ContainerState = ContainerState(
    id: Option<int>,
    containerName: string,
    state: string,
    image: string,
    createdAt: Option<Timestamp>,
    portMapping: Option<string>)
  {
    /** The ship is sailing. */
    predicate IsRunning() {
      state == "running"
    }

    /** The ship is anchored. */
    predicate IsStopped() {
      state == "stopped"
    }
  }

  const ValidStates: set<string> := {"created", "running", "stopped", "removing"}
  const DefaultState := "created"

  /** The refusal of an unknown state; it lists the valid states. */
  const InvalidStateMessage := "State must be one of {'created', 'running', 'stopped', 'removing'}"

  /**
   * Building a container record: a missing creation time becomes the current time,
   * then the state must be one of the four valid states.
   */
  function NewContainerState(id: Option<int>, containerName: string, state: string, image: string,
                             createdAt: Option<Timestamp>, portMapping: Option<string>,
                             now: Timestamp): (r: Result<ContainerState, string>)
    ensures r.Ok? <==> state == "created" || state == "running" || state == "stopped" || state == "removing"
    ensures r.Err? ==> r.error == InvalidStateMessage
    ensures r.Ok? ==> r.value.state == state && r.value.createdAt.Some?
    ensures r.Ok? && createdAt.Some? ==> r.value.createdAt == createdAt
    ensures r.Ok? && createdAt.None? ==> r.value.createdAt == Some(now)
    ensures r.Ok? ==> r.value.id == id && r.value.containerName == containerName
                      && r.value.image == image && r.value.portMapping == portMapping
  {
    var created := if createdAt.None? then Some(now) else createdAt;
    if state !in ValidStates then Err(InvalidStateMessage)
    else Ok(ContainerState(id, containerName, state, image, created, portMapping))
  }

  /** The default state passes the constructor's check. */
  lemma DefaultStateValid(now: Timestamp)
    ensures NewContainerState(None, "", DefaultState, "", None, None, now).Ok?
    ensures NewContainerState(None, "", DefaultState, "", None, None, now).value.createdAt == Some(now)
  {
  }

  /**
   * A container is never both running and stopped; a valid container that is neither
   * is freshly created or being removed.
   */
  lemma RunningStoppedExclusive(c: ContainerState)
    ensures !(c.IsRunning() && c.IsStopped())
    ensures c.IsRunning() <==> c.state == "running"
    ensures c.IsStopped() <==> c.state == "stopped"
    ensures c.state in ValidStates && !c.IsRunning() && !c.IsStopped() ==>
              c.state == "created" || c.state == "removing"
  {
  }

  // ---------------------------------------------------------------------------
  // TutorialSection: steps kept in step-number order
  // ---------------------------------------------------------------------------

  /** Non-decreasing by step number. */
  predicate SortedBySteps(s: seq<TutorialStep>) {
    forall i, j :: 0 <= i < j < |s| ==> s[i].stepNumber <= s[j].stepNumber
  }

  /** The steps numbered `k`, in the order they appear. */
  function WithNumber(s: seq<TutorialStep>, k: int): (r: seq<TutorialStep>)
    ensures forall x :: x in r ==> x in s && x.stepNumber == k
  {
    if s == [] then []
    else (if s[0].stepNumber == k then [s[0]] else []) + WithNumber(s[1..], k)
  }

  /** Inserts `x` after every step whose number is at most its own. */
  function InsertStep(s: seq<TutorialStep>, x: TutorialStep): seq<TutorialStep> {
    if s == [] then [x]
    else if s[0].stepNumber > x.stepNumber then [x] + s
    else [s[0]] + InsertStep(s[1..], x)
  }

  /** A stable sort by step number (insertion sort, front to back). */
  function SortBySteps(s: seq<TutorialStep>): seq<TutorialStep> {
    if s == [] then []
    else InsertStep(SortBySteps(s[..|s| - 1]), s[|s| - 1])
  }

  lemma {:induction false} WithNumberConcat(a: seq<TutorialStep>, b: seq<TutorialStep>, k: int)
    ensures WithNumber(a + b, k) == WithNumber(a, k) + WithNumber(b, k)
  {
    if a == [] {
      assert a + b == b;
    } else {
      assert (a + b)[1..] == a[1..] + b;
      WithNumberConcat(a[1..], b, k);
    }
  }

  lemma {:induction false} InsertStepMultiset(s: seq<TutorialStep>, x: TutorialStep)
    ensures multiset(InsertStep(s, x)) == multiset(s) + multiset{x}
  {
    if s != [] && s[0].stepNumber <= x.stepNumber {
      InsertStepMultiset(s[1..], x);
      assert s == [s[0]] + s[1..];
    }
  }

  lemma {:induction false} InsertStepSorted(s: seq<TutorialStep>, x: TutorialStep)
    requires SortedBySteps(s)
    ensures SortedBySteps(InsertStep(s, x))
  {
    if s != [] && s[0].stepNumber <= x.stepNumber {
      var t := InsertStep(s[1..], x);
      InsertStepSorted(s[1..], x);
      InsertStepMultiset(s[1..], x);
      forall j | 0 <= j < |t| ensures s[0].stepNumber <= t[j].stepNumber {
        assert t[j] in multiset(s[1..]) + multiset{x};
      }
    }
  }

  /** Selecting by number distributes over a step put in front. */
  lemma WithNumberCons(y: TutorialStep, t: seq<TutorialStep>, k: int)
    ensures WithNumber([y] + t, k) == (if y.stepNumber == k then [y] else []) + WithNumber(t, k)
  {
    assert ([y] + t)[1..] == t;
  }

  lemma SortedTail(s: seq<TutorialStep>)
    requires SortedBySteps(s) && s != []
    ensures SortedBySteps(s[1..])
  {
    forall i, j | 0 <= i < j < |s| - 1 ensures s[1..][i].stepNumber <= s[1..][j].stepNumber {
      assert s[1..][i] == s[i + 1] && s[1..][j] == s[j + 1];
    }
  }

  /** Inserting into a sorted list puts `x` behind the steps already carrying its number. */
  lemma {:induction false} InsertStepStable(s: seq<TutorialStep>, x: TutorialStep, k: int)
    requires SortedBySteps(s)
    ensures WithNumber(InsertStep(s, x), k) == WithNumber(s, k) + (if x.stepNumber == k then [x] else [])
  {
    if s == [] {
      WithNumberSingle(x, k);
    } else if s[0].stepNumber > x.stepNumber {
      WithNumberCons(x, s, k);
      if x.stepNumber == k {
        WithNumberAbove(s, k);
      }
    } else {
      var t := InsertStep(s[1..], x);
      WithNumberCons(s[0], t, k);
      SortedTail(s);
      InsertStepStable(s[1..], x, k);
    }
  }

  /** A sorted list whose first number exceeds `k` has no step numbered `k`. */
  lemma WithNumberAbove(s: seq<TutorialStep>, k: int)
    requires SortedBySteps(s) && s != [] && s[0].stepNumber > k
    ensures WithNumber(s, k) == []
  {
  }

  /** Inserting a step numbered at least every other one appends it. */
  lemma {:induction false} InsertStepLast(s: seq<TutorialStep>, x: TutorialStep)
    requires forall i :: 0 <= i < |s| ==> s[i].stepNumber <= x.stepNumber
    ensures InsertStep(s, x) == s + [x]
  {
    if s != [] {
      InsertStepLast(s[1..], x);
      assert s == [s[0]] + s[1..];
    }
  }

  lemma {:induction false} SortByStepsSorted(s: seq<TutorialStep>)
    ensures SortedBySteps(SortBySteps(s))
  {
    if s != [] {
      SortByStepsSorted(s[..|s| - 1]);
      InsertStepSorted(SortBySteps(s[..|s| - 1]), s[|s| - 1]);
    }
  }

  lemma {:induction false} SortByStepsMultiset(s: seq<TutorialStep>)
    ensures multiset(SortBySteps(s)) == multiset(s)
  {
    if s != [] {
      var init, last := s[..|s| - 1], s[|s| - 1];
      SortByStepsMultiset(init);
      InsertStepMultiset(SortBySteps(init), last);
      assert s == init + [last];
    }
  }

  /** The stable sort orders by step number and keeps exactly the given steps. */
  lemma SortByStepsSpec(s: seq<TutorialStep>)
    ensures SortedBySteps(SortBySteps(s))
    ensures multiset(SortBySteps(s)) == multiset(s)
    ensures |SortBySteps(s)| == |s|
  {
    SortByStepsSorted(s);
    SortByStepsMultiset(s);
    assert |multiset(SortBySteps(s))| == |multiset(s)|;
  }

  /** Among steps with the same number, the sort keeps their original order. */
  lemma {:induction false} SortByStepsStable(s: seq<TutorialStep>, k: int)
    ensures WithNumber(SortBySteps(s), k) == WithNumber(s, k)
  {
    if s != [] {
      var init, last := s[..|s| - 1], s[|s| - 1];
      SortByStepsStable(init, k);
      SortByStepsSorted(init);
      InsertStepStable(SortBySteps(init), last, k);
      assert s == init + [last];
      WithNumberConcat(init, [last], k);
      WithNumberSingle(last, k);
    }
  }

  lemma WithNumberSingle(x: TutorialStep, k: int)
    ensures WithNumber([x], k) == if x.stepNumber == k then [x] else []
  {
    assert [x][1..] == [];
  }

  /** Sorting a list that is already in order changes nothing. */
  lemma {:induction false} SortBySortedIsIdentity(s: seq<TutorialStep>)
    requires SortedBySteps(s)
    ensures SortBySteps(s) == s
  {
    if s != [] {
      var init, last := s[..|s| - 1], s[|s| - 1];
      assert SortedBySteps(init);
      SortBySortedIsIdentity(init);
      InsertStepLast(init, last);
      assert s == init + [last];
    }
  }

  /** Adding to a section whose steps are in order is an insertion behind equal numbers. */
  lemma AddToSortedIsInsert(s: seq<TutorialStep>, x: TutorialStep)
    requires SortedBySteps(s)
    ensures SortBySteps(s + [x]) == InsertStep(s, x)
  {
    assert (s + [x])[..|s + [x]| - 1] == s;
    SortBySortedIsIdentity(s);
  }

  class TutorialSection {
    var name: string
    var description: string
    var icon: string
    var steps: seq<TutorialStep>
    var order: int

    /** A section holding the given steps, as given (the default is none). */
    constructor(name: string, description: string, icon: string, steps: seq<TutorialStep>, order: int)
      ensures this.name == name && this.description == description && this.icon == icon
      ensures this.steps == steps && this.order == order
    {
      this.name := name;
      this.description := description;
      this.icon := icon;
      this.steps := steps;
      this.order := order;
    }

    /** The number of steps in the section. */
    function StepCount(): nat
      reads this
    {
      |steps|
    }

    /**
     * Appends the step and re-sorts the whole list stably by step number: the list
     * grows by one, holds the old steps and the new one, and is in order afterwards.
     */
    method AddStep(step: TutorialStep)
      modifies this
      ensures steps == SortBySteps(old(steps) + [step])
      ensures SortedBySteps(steps)
      ensures multiset(steps) == multiset(old(steps)) + multiset{step}
      ensures StepCount() == old(StepCount()) + 1
      ensures forall k :: WithNumber(steps, k) == WithNumber(old(steps) + [step], k)
      ensures SortedBySteps(old(steps)) ==> steps == InsertStep(old(steps), step)
      ensures name == old(name) && description == old(description) && icon == old(icon) && order == old(order)
    {
      var appended := steps + [step];
      SortByStepsSpec(appended);
      forall k ensures WithNumber(SortBySteps(appended), k) == WithNumber(appended, k) {
        SortByStepsStable(appended, k);
      }
      if SortedBySteps(steps) {
        AddToSortedIsInsert(steps, step);
      }
      steps := SortBySteps(appended);
    }
  }

  // ---------------------------------------------------------------------------
  // validate_tutorial_step
  // ---------------------------------------------------------------------------

  const TitleMessage := "Title must be at least 3 characters"
  const DescriptionMessage := "Description must be at least 10 characters"
  const CommandMessage := "Expected command should start with 'docker'"
  const VisualStatePrefix := "Invalid visual state: "

  const VisualStates: seq<string> := [DefaultVisualState, "running", "stopped", "creating", "removing"]

  function VisualStateMessage(visualState: string): string {
    VisualStatePrefix + visualState
  }

  predicate TitleOk(step: TutorialStep) {
    |step.title| >= 3
  }

  predicate DescriptionOk(step: TutorialStep) {
    |step.description| >= 10
  }

  /** No command, the empty command, or one starting with `docker` (case matters). */
  predicate CommandOk(step: TutorialStep) {
    match step.expectedCommand
    case None => true
    case Some(c) => c == [] || StartsWith(c, "docker")
  }

  predicate VisualStateOk(step: TutorialStep) {
    step.visualState in VisualStates
  }

  /** The message for a failed check, or nothing when it passes. */
  function Slot(ok: bool, message: string): seq<string> {
    if ok then [] else [message]
  }

  /** The messages of the failing checks, in the order the checks run. */
  function StepErrors(step: TutorialStep): seq<string> {
    Slot(TitleOk(step), TitleMessage) + Slot(DescriptionOk(step), DescriptionMessage)
    + Slot(CommandOk(step), CommandMessage) + Slot(VisualStateOk(step), VisualStateMessage(step.visualState))
  }

  /**
   * Position of a validation message in the fixed order of the checks, read off its
   * first letter: the four messages start with different letters.
   */
  function Rank(e: string): nat {
    if e == [] then 4
    else if e[0] == 'T' then 0
    else if e[0] == 'D' then 1
    else if e[0] == 'E' then 2
    else if e[0] == 'I' then 3
    else 4
  }

  lemma MessageRanks(visualState: string)
    ensures Rank(TitleMessage) == 0 && Rank(DescriptionMessage) == 1 && Rank(CommandMessage) == 2
    ensures Rank(VisualStateMessage(visualState)) == 3
  {
    assert VisualStateMessage(visualState)[0] == 'I';
  }

  /** No message is reported for a check that passes, and one is for each that fails. */
  lemma StepErrorsMention(step: TutorialStep)
    ensures TitleMessage in StepErrors(step) <==> !TitleOk(step)
    ensures DescriptionMessage in StepErrors(step) <==> !DescriptionOk(step)
    ensures CommandMessage in StepErrors(step) <==> !CommandOk(step)
    ensures VisualStateMessage(step.visualState) in StepErrors(step) <==> !VisualStateOk(step)
  {
    MessageRanks(step.visualState);
  }

  /** The list is empty exactly when all four checks pass, and holds at most four messages. */
  lemma StepErrorsEmptyIff(step: TutorialStep)
    ensures StepErrors(step) == [] <==> TitleOk(step) && DescriptionOk(step) && CommandOk(step) && VisualStateOk(step)
    ensures |StepErrors(step)| <= 4
    ensures forall i :: 0 <= i < |StepErrors(step)| ==>
              StepErrors(step)[i] in [TitleMessage, DescriptionMessage, CommandMessage, VisualStateMessage(step.visualState)]
  {
  }

  /** The messages come in the order of the checks, so none repeats. */
  lemma StepErrorsOrdered(step: TutorialStep)
    ensures forall i, j :: 0 <= i < j < |StepErrors(step)| ==> Rank(StepErrors(step)[i]) < Rank(StepErrors(step)[j])
  {
    MessageRanks(step.visualState);
  }

  /**
   * Runs the four content checks on a step and lists a message for each that fails,
   * in the order of the checks; an empty list means the step is fit to use.
   */
  method ValidateTutorialStep(step: TutorialStep) returns (errors: seq<string>)
    ensures errors == StepErrors(step)
  {
    errors := [];
    if step.title == [] || |step.title| < 3 {
      errors := errors + [TitleMessage];
    }
    if step.description == [] || |step.description| < 10 {
      errors := errors + [DescriptionMessage];
    }
    if step.expectedCommand.Some? && step.expectedCommand.value != [] && !StartsWith(step.expectedCommand.value, "docker") {
      errors := errors + [CommandMessage];
    }
    if step.visualState !in VisualStates {
      errors := errors + [VisualStateMessage(step.visualState)];
    }
  }
}
