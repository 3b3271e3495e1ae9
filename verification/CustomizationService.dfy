/**
 The edit queue of the customization service (`src/customization/service.ts`):
 edits are issued at any moment, run one after another, and await between
 planning, storing and reloading, where further edits may be issued.
 */
module CustomizationService {
  import opened Options
  import opened JsText
  import opened CustomizationModel
  import opened CustomizationPlan
  import opened CustomizationParse
  import opened CustomizationRefinement
  import opened CustomizationLimits
  import opened CustomizationStorage

  datatype Request = Request(edit: Edit, author: Author)

  /** Where the running edit is: planned and not stored yet, or stored and not reloaded yet. */
  datatype Phase =
    | Idle
    | Planned(request: Request, listing: seq<Text>, changes: seq<FileChange>)
    | Written(request: Request, failed: bool)

  datatype Outcome = Refused | Stored | StoreFailed | LoadFailed

  /** A finished edit and how its promise settled. */
  datatype Finished = Finished(request: Request, outcome: Outcome)

  /** `held` is what the store holds; what it lists of that is its view. */
  datatype State = State(
    store: Store, held: Tree, served: Customizations, queue: seq<Request>, phase: Phase, finished: seq<Finished>)

  datatype Event =
    | Issue(request: Request)
    | Begin(listing: seq<Text>)
    | Veto
    | Write(completed: nat, authorsWritten: bool)
    | Reload(loaded: bool)

  ghost predicate CanBegin(s: State, listing: seq<Text>) {
    && s.phase.Idle? && s.queue != [] && KnownScope(s.queue[0].edit)
    && ListsRemoved(s.served, s.queue[0].edit, listing)
  }

  /** What the store parses to, as it lists its files. */
  function Listed(s: State): Customizations { Parse(View(s.store, s.held)) }

  /** What is held after the change set ran up to `completed`. */
  function HeldAfter(s: State, changes: seq<FileChange>, author: Author, completed: nat, failed: bool): Tree
    requires completed <= |changes|
  {
    var whole := ApplyAll(s.held, AllKept(s.store, changes)[..completed], author);
    if failed then Tree(whole.files, s.held.authors) else whole
  }

  /** One step; an event that is not due changes nothing. */
  ghost function Step(s: State, e: Event): State {
    match e
    case Issue(request) => s.(queue := s.queue + [request])
    case Begin(listing) =>
      if !CanBegin(s, listing) then s
      else
        var request := s.queue[0];
        var plan := PlanEdit(s.served, request.edit, listing);
        if plan.Err? then s.(queue := s.queue[1..], finished := s.finished + [Finished(request, Refused)])
        else s.(queue := s.queue[1..], phase := Planned(request, listing, plan.value))
    case Veto =>
      if s.phase.Planned? && s.phase.request.edit.EditSkill? && s.phase.request.edit.text.Some? then
        s.(phase := Idle, finished := s.finished + [Finished(s.phase.request, Refused)])
      else s
    case Write(completed, authorsWritten) =>
      if s.phase.Planned? && completed <= |s.phase.changes| then
        var failed := completed < |s.phase.changes| || !authorsWritten;
        s.(held := HeldAfter(s, s.phase.changes, s.phase.request.author, completed, failed),
           phase := Written(s.phase.request, failed))
      else s
    case Reload(loaded) =>
      if !s.phase.Written? then s
      else
        var outcome := if !loaded then LoadFailed else if s.phase.failed then StoreFailed else Stored;
        s.(served := if loaded then Listed(s) else s.served,
           phase := Idle,
           finished := s.finished + [Finished(s.phase.request, outcome)])
  }

  ghost function Run(s: State, events: seq<Event>): State
    decreases |events|
  {
    if events == [] then s else Run(Step(s, events[0]), events[1..])
  }

  // ----- The service object -------------------------------------------------------

  /** `planEdit`, adding a skill's lengths up in a loop. */
  method Plan(current: Customizations, edit: Edit, listing: seq<Text>) returns (plan: Result<seq<FileChange>, PlanError>)
    requires KnownScope(edit)
    ensures plan == PlanEdit(current, edit, listing)
  {
    match edit
    case EditInstructions(scope, text) => plan := PlanInstructions(current, scope, text);
    case EditPrompt(name, prompt) => plan := PlanPrompt(current, name, prompt);
    case EditSkill(name, path, text) => plan := PlanSkillEdit(current, name, path, text, listing);
  }

  method PlanSkillEdit(
    current: Customizations, name: Text, path: Option<Text>, text: Option<Text>, listing: seq<Text>)
    returns (plan: Result<seq<FileChange>, PlanError>)
    ensures plan == PlanSkill(current, name, path, text, listing)
  {
    hide IsName, CheckedPath, CheckSkillEntry, PathOf, Removals, TotalLength;
    if !CheckedName(name) { return Err(InvalidName); }
    var file := FileOf(path);
    if !CheckedPath(file) { return Err(InvalidPath); }
    var existing := name in current.skills;
    if text.None? {
      if !existing { return Err(NotSet); }
      if file == SKILL_ENTRY_FILE { return Ok(Removals(name, listing)); }
      if file !in current.skills[name].files { return Err(NotSet); }
      return Ok([FileChange(PathOf(SkillFile(name, file)), None)]);
    }
    if name in current.prompts { return Err(NameTaken); }
    if file == SKILL_ENTRY_FILE {
      var problem := CheckSkillEntry(name, text.value);
      if problem.Some? { return Err(problem.value); }
    } else if !existing {
      return Err(NoEntryFile);
    }
    if |text.value| > SKILL_FILE_MAX_CHARS { return Err(TooLong); }
    var files: map<Text, Text> := if existing then current.skills[name].files else map[];
    files := files[file := text.value];
    if |files| > SKILL_MAX_FILES { return Err(TooManyFiles); }
    var total := SumLengths(files);
    if total > SKILL_TOTAL_MAX_CHARS { return Err(TotalTooLong); }
    return Ok([FileChange(PathOf(SkillFile(name, file)), text)]);
  }

  class Service {
    const backend: FileBackend
    var served: Customizations
    var queue: seq<Request>
    var phase: Phase
    ghost var finished: seq<Finished>

    ghost function Now(): State
      reads this, backend
    {
      State(Files, backend.Held(), served, queue, phase, finished)
    }

    /** The store is read once at startup; `paths` is the order it lists its files in. */
    constructor (backend: FileBackend, paths: seq<Text>)
      requires forall p :: p in paths <==> p in backend.Load().files
      ensures this.backend == backend
      ensures Now() == State(Files, backend.Held(), Parse(backend.Load()), [], Idle, [])
    {
      this.backend := backend;
      var state := ParseCustomizations(backend.Load(), paths);
      served, queue, phase, finished := state, [], Idle, [];
    }

    method Edit(request: Request)
      modifies this
      ensures Now() == Step(old(Now()), Issue(request))
    {
      queue := queue + [request];
    }

    method BeginNext(listing: seq<Text>)
      requires CanBegin(Now(), listing)
      modifies this
      ensures Now() == Step(old(Now()), Begin(listing))
    {
      hide PlanEdit;
      var request := queue[0];
      queue := queue[1..];
      var plan := Plan(served, request.edit, listing);
      match plan
      case Err(_) => finished := finished + [Finished(request, Refused)];
      case Ok(changes) => phase := Planned(request, listing, changes);
    }

    /** The SDK would not serve the skill. */
    method RefuseSkill()
      requires phase.Planned? && phase.request.edit.EditSkill? && phase.request.edit.text.Some?
      modifies this
      ensures Now() == Step(old(Now()), Veto)
    {
      finished := finished + [Finished(phase.request, Refused)];
      phase := Idle;
    }

    method Store(completed: nat, authorsWritten: bool)
      requires phase.Planned? && completed <= |phase.changes|
      modifies this, backend
      ensures Now() == Step(old(Now()), Write(completed, authorsWritten))
    {
      hide ApplyAll, ApplyChange, AllKept;
      var failed := backend.Apply(phase.changes, phase.request.author, completed, authorsWritten);
      phase := Written(phase.request, failed);
    }

    /** Re-reads the store; `None` when reading it throws, which leaves the old state served. */
    method ReloadStore(paths: Option<seq<Text>>)
      requires phase.Written?
      requires paths.Some? ==> forall p :: p in paths.value <==> p in backend.Load().files
      modifies this
      ensures Now() == Step(old(Now()), Reload(paths.Some?))
    {
      hide Parse;
      var outcome := if paths.None? then LoadFailed else if phase.failed then StoreFailed else Stored;
      if paths.Some? {
        served := ParseCustomizations(backend.Load(), paths.value);
      }
      finished := finished + [Finished(phase.request, outcome)];
      phase := Idle;
    }
  }

  // ----- Every interleaving -----------------------------------------------------------

  /** Between edits, and up to the moment the running one is stored, what is served is what is stored. */
  ghost predicate Consistent(s: State) {
    && (!s.phase.Written? ==> s.served == Listed(s))
    && (s.phase.Planned? ==>
          && KnownScope(s.phase.request.edit)
          && ListsRemoved(s.served, s.phase.request.edit, s.phase.listing)
          && PlanEdit(s.served, s.phase.request.edit, s.phase.listing) == Ok(s.phase.changes))
  }

  /**
   Only a write reaches the store, a refused edit never does, and an edit is only
   reported as stored when every file of its plan and its author were.
   */
  lemma {:induction false} OutcomesAreTrue(s: State, e: Event)
    ensures Step(s, e).held != s.held ==> e.Write? && s.phase.Planned?
    ensures Step(s, e).finished != s.finished && Step(s, e).finished[|s.finished|..] != [] ==>
            var after, last := Step(s, e), Step(s, e).finished[|s.finished|];
            && after.phase.Idle? && after.finished == s.finished + [last] && after.held == s.held
            && (last.outcome.Refused? ==> after.served == s.served && !s.phase.Written?)
            && (last.outcome.Stored? ==> s.phase.Written? && !s.phase.failed && after.served == Listed(after))
            && (last.outcome.StoreFailed? ==> s.phase.Written? && s.phase.failed && after.served == Listed(after))
            && (last.outcome.LoadFailed? ==> s.phase.Written? && after.served == s.served)
    ensures !s.phase.Written? && Step(s, e).phase.Written? ==>
            && s.phase.Planned? && e.Write?
            && (!Step(s, e).phase.failed <==> e.completed == |s.phase.changes| && e.authorsWritten)
  {
    hide Parse, View, PlanEdit, ListsRemoved, HeldAfter;
  }

  predicate Loads(e: Event) { e.Reload? ==> e.loaded }

  lemma {:induction false} StepConsistent(s: State, e: Event)
    requires Consistent(s) && Loads(e)
    ensures Consistent(Step(s, e))
  {
    hide Parse, View, PlanEdit, ListsRemoved, HeldAfter;
  }

  /**
   However edits are issued, and also when change sets stop part-way: each edit is
   planned against exactly what its predecessor left, which is still in force when
   the edit reaches the store, and what is served after it is what the store holds.
   */
  lemma {:induction false} RunConsistent(s: State, events: seq<Event>)
    requires Consistent(s) && forall e :: e in events ==> Loads(e)
    ensures Consistent(Run(s, events))
    decreases |events|
  {
    if events != [] {
      StepConsistent(s, events[0]);
      assert forall e :: e in events[1..] ==> e in events;
      RunConsistent(Step(s, events[0]), events[1..]);
    }
  }

  /** What the store held when it was last read, along a run from a state that read `seen`. */
  ghost function LastRead(s: State, events: seq<Event>, seen: Tree): Tree
    decreases |events|
  {
    if events == [] then seen
    else LastRead(Step(s, events[0]), events[1..], if events[0] == Reload(true) && s.phase.Written? then s.held else seen)
  }

  lemma {:induction false} StoreStays(s: State, e: Event)
    ensures Step(s, e).store == s.store
    ensures Step(s, e).served == if e == Reload(true) && s.phase.Written? then Listed(s) else s.served
  {
    hide Parse, View, PlanEdit, ListsRemoved, HeldAfter;
  }

  /**
   Also when reading the store fails, any number of times: what is served is always
   what the store held when it was last read.
   */
  lemma {:induction false} ServesTheLastRead(s: State, events: seq<Event>, seen: Tree)
    requires s.served == Parse(View(s.store, seen))
    ensures Run(s, events).served == Parse(View(s.store, LastRead(s, events, seen)))
    decreases |events|
  {
    hide Step, Parse, View;
    if events != [] {
      StoreStays(s, events[0]);
      ServesTheLastRead(Step(s, events[0]), events[1..],
                        if events[0] == Reload(true) && s.phase.Written? then s.held else seen);
    }
  }

  lemma {:induction false} RunConcat(s: State, a: seq<Event>, b: seq<Event>)
    ensures Run(s, a + b) == Run(Run(s, a), b)
    decreases |a|
  {
    hide Step;
    if a == [] {
      assert a + b == b;
    } else {
      assert (a + b)[1..] == a[1..] + b;
      RunConcat(Step(s, a[0]), a[1..], b);
    }
  }

  /** One good read makes up for all failed ones: from then on edits are planned on, and served from, the store again. */
  lemma {:induction false} NextReadRestores(s: State, before: seq<Event>, after: seq<Event>)
    requires Run(s, before).phase.Written? && forall e :: e in after ==> Loads(e)
    ensures Consistent(Run(s, before + ([Reload(true)] + after)))
  {
    var read := Step(Run(s, before), Reload(true));
    hide Step, Consistent;
    RunConcat(s, before, [Reload(true)] + after);
    assert ([Reload(true)] + after)[1..] == after;
    ReadIsConsistent(Run(s, before));
    RunConsistent(read, after);
  }

  lemma {:induction false} ReadIsConsistent(s: State)
    requires s.phase.Written?
    ensures Consistent(Step(s, Reload(true)))
  {
    hide Parse, View;
  }

  /** A failed read leaves something else served than the store holds exactly when the store had moved on. */
  lemma {:induction false} FailedReloadServesOldState(s: State, loaded: bool)
    requires s.phase.Written?
    ensures var after := Step(s, Reload(loaded));
            after.phase.Idle? && (after.served == Listed(after) <==> loaded || s.served == Listed(s))
  {
  }

  ghost function Requests(finished: seq<Finished>): seq<Request> {
    seq(|finished|, i requires 0 <= i < |finished| => finished[i].request)
  }

  ghost function Running(phase: Phase): seq<Request> {
    if phase.Idle? then [] else [phase.request]
  }

  /** Every request taken in: finished, running, waiting. */
  ghost function Accounted(s: State): seq<Request> {
    Requests(s.finished) + (Running(s.phase) + s.queue)
  }

  ghost function Issued(events: seq<Event>): seq<Request> {
    if events == [] then []
    else (if events[0].Issue? then [events[0].request] else []) + Issued(events[1..])
  }

  lemma {:induction false} RequestsSnoc(finished: seq<Finished>, last: Finished)
    ensures Requests(finished + [last]) == Requests(finished) + [last.request]
  {
  }

  /** A request moves from the front of one list to the back of the next. */
  lemma {:induction false} StepMoves(s: State, e: Event)
    requires !e.Issue?
    ensures var after := Step(s, e);
            || (after.finished == s.finished && Running(after.phase) + after.queue == Running(s.phase) + s.queue)
            || (exists f :: after.finished == s.finished + [f]
                            && [f.request] + (Running(after.phase) + after.queue) == Running(s.phase) + s.queue)
  {
    hide PlanEdit, Parse, View, HeldAfter, ListsRemoved, KnownScope;
    var after := Step(s, e);
    if |after.finished| > |s.finished| {
      var f := after.finished[|s.finished|];
      assert after.finished == s.finished + [f];
      assert [f.request] + (Running(after.phase) + after.queue) == Running(s.phase) + s.queue;
    }
  }

  lemma {:induction false} StepAccounts(s: State, e: Event)
    ensures Accounted(Step(s, e)) == Accounted(s) + (if e.Issue? then [e.request] else [])
  {
    hide Requests;
    var after := Step(s, e);
    if !e.Issue? {
      StepMoves(s, e);
      hide Step, Running;
      if after.finished != s.finished {
        var f :| after.finished == s.finished + [f]
                 && [f.request] + (Running(after.phase) + after.queue) == Running(s.phase) + s.queue;
        RequestsSnoc(s.finished, f);
      }
    }
  }

  /** Edits run in the order they were issued: none is lost, none runs twice. */
  lemma {:induction false} RunAccounts(s: State, events: seq<Event>)
    ensures Accounted(Run(s, events)) == Accounted(s) + Issued(events)
    decreases |events|
  {
    if events == [] {
      assert Accounted(s) + [] == Accounted(s);
    } else {
      hide Accounted, Step;
      StepAccounts(s, events[0]);
      RunAccounts(Step(s, events[0]), events[1..]);
      var now := if events[0].Issue? then [events[0].request] else [];
      assert Accounted(s) + now + Issued(events[1..]) == Accounted(s) + (now + Issued(events[1..]));
    }
  }

  // ----- Runs in which no change set stops part-way --------------------------------------

  /** The entries the finished edits add up to, in the order they ran, each as the store keeps it. */
  function Replay(store: Store, c: Customizations, finished: seq<Finished>): Customizations {
    if finished == [] then c
    else
      var last := finished[|finished| - 1];
      var before := Replay(store, c, finished[..|finished| - 1]);
      if last.outcome == Stored then StoredUpdate(store, before, last.request.edit, last.request.author) else before
  }

  /** The same for the edits as they were made. */
  function AsMade(c: Customizations, finished: seq<Finished>): Customizations {
    if finished == [] then c
    else
      var last := finished[|finished| - 1];
      var before := AsMade(c, finished[..|finished| - 1]);
      if last.outcome == Stored then Update(before, last.request.edit, last.request.author) else before
  }

  ghost predicate Whole(s: State, e: Event) {
    && Loads(e)
    && (e.Write? && s.phase.Planned? ==> e.completed == |s.phase.changes| && e.authorsWritten)
  }

  ghost predicate WholeRun(s: State, events: seq<Event>)
    decreases |events|
  {
    events == [] || (Whole(s, events[0]) && WholeRun(Step(s, events[0]), events[1..]))
  }

  /** What a store started from `c` holds at any point of such a run. */
  ghost predicate Sound(c: Customizations, s: State) {
    && Consistent(s)
    && var served := Replay(s.store, c, s.finished);
       && s.served == served && served.ignored == {} && WithinLimits(served)
       && served.prompts.Keys !! served.skills.Keys
       && (s.phase.Written? ==>
             var (edit, author) := (s.phase.request.edit, s.phase.request.author);
             && !s.phase.failed
             && Listed(s) == StoredUpdate(s.store, served, edit, author)
             && Listed(s).ignored == {} && WithinLimits(Listed(s))
             && (Listed(s) == Update(served, edit, author) <==> Survives(s.store, edit)))
  }

  lemma {:induction false} ReplaySnoc(store: Store, c: Customizations, finished: seq<Finished>, last: Finished)
    ensures Replay(store, c, finished + [last]) == if last.outcome == Stored
      then StoredUpdate(store, Replay(store, c, finished), last.request.edit, last.request.author) else Replay(store, c, finished)
    ensures AsMade(c, finished + [last]) == if last.outcome == Stored
      then Update(AsMade(c, finished), last.request.edit, last.request.author) else AsMade(c, finished)
  {
    hide StoredUpdate, Update;
    assert (finished + [last])[..|finished|] == finished;
  }

  lemma {:induction false} WriteSound(c: Customizations, s: State, e: Event)
    requires Sound(c, s) && e.Write? && s.phase.Planned? && Whole(s, e)
    ensures Sound(c, Step(s, e))
  {
    hide Parse, View, PlanEdit, ListsRemoved, Update, StoredUpdate, WithinLimits, Replay, ApplyAll, AllKept, KnownScope, Survives;
    var p := s.phase;
    StoredEditRefines(s.store, s.held, p.request.edit, p.request.author, p.listing);
    StoredEditKeepsLimits(s.store, s.served, p.request.edit, p.listing, p.request.author);
    EditSurvivesExactly(s.store, s.held, p.request.edit, p.request.author, p.listing);
    var kept := AllKept(s.store, p.changes);
    assert kept[..|kept|] == kept;
  }

  lemma {:induction false} StepSound(c: Customizations, s: State, e: Event)
    requires Sound(c, s) && Whole(s, e)
    ensures Sound(c, Step(s, e))
  {
    hide Parse, View, PlanEdit, ListsRemoved, Update, StoredUpdate, WithinLimits, HeldAfter, Replay, Survives;
    StepConsistent(s, e);
    NamesDisjoint(View(s.store, s.held));
    if e.Write? && s.phase.Planned? {
      WriteSound(c, s, e);
    } else {
      var after := Step(s, e);
      if |after.finished| > |s.finished| {
        assert after.finished == s.finished + [after.finished[|s.finished|]];
        ReplaySnoc(s.store, c, s.finished, after.finished[|s.finished|]);
      }
    }
  }

  /**
   From a store in which nothing is ignored and the limits hold, every run of whole
   change sets keeps it so, whatever texts and paths the edits hold: what is served is
   the stored edits, as the store keeps them, applied one by one in the order they were
   issued, no name is both prompt and skill, and every per-scope, per-prompt, per-skill
   and total limit holds.
   */
  lemma {:induction false} RunSound(c: Customizations, s: State, events: seq<Event>)
    requires Sound(c, s) && WholeRun(s, events)
    ensures var after := Run(s, events);
            && Sound(c, after)
            && after.served == Replay(s.store, c, after.finished)
            && after.served.prompts.Keys !! after.served.skills.Keys
            && WithinLimits(after.served) && (after.phase.Idle? ==> after.served == Listed(after))
    decreases |events|
  {
    hide Parse, View, WithinLimits, Replay, Step, Survives, Update, StoredUpdate;
    if events != [] {
      StoreStays(s, events[0]);
      StepSound(c, s, events[0]);
      RunSound(c, Step(s, events[0]), events[1..]);
    }
  }

  lemma {:induction false} StartSound(store: Store, held: Tree)
    requires Parse(View(store, held)).ignored == {} && WithinLimits(Parse(View(store, held)))
    ensures Sound(Parse(View(store, held)), State(store, held, Parse(View(store, held)), [], Idle, []))
  {
    NamesDisjoint(View(store, held));
  }

  // ----- When what is served is the edits as they were made --------------------------------------

  /** At every point of the run, the accepted edits are in force as they were made. */
  ghost predicate Faithful(c: Customizations, s: State, events: seq<Event>)
    decreases |events|
  {
    && s.served == AsMade(c, s.finished)
    && (events == [] || Faithful(c, Step(s, events[0]), events[1..]))
  }

  /** Every edit the run stores and reads back survives the store. */
  ghost predicate AllSurvive(s: State, events: seq<Event>)
    decreases |events|
  {
    events == [] ||
    (&& (events[0].Reload? && s.phase.Written? ==> Survives(s.store, s.phase.request.edit))
     && AllSurvive(Step(s, events[0]), events[1..]))
  }

  /** One step keeps edits in force as made, unless it reads back one that did not survive. */
  lemma {:induction false} StepFaithful(c: Customizations, s: State, e: Event)
    requires Sound(c, s) && Whole(s, e) && s.served == AsMade(c, s.finished)
    ensures Step(s, e).served == AsMade(c, Step(s, e).finished)
            <==> (e.Reload? && s.phase.Written? ==> Survives(s.store, s.phase.request.edit))
  {
    hide Parse, View, PlanEdit, ListsRemoved, Update, StoredUpdate, WithinLimits, HeldAfter, Replay, AsMade, Survives, Consistent;
    var after := Step(s, e);
    if |after.finished| > |s.finished| {
      assert after.finished == s.finished + [after.finished[|s.finished|]];
      ReplaySnoc(s.store, c, s.finished, after.finished[|s.finished|]);
    }
  }

  /**
   Over every run of whole change sets: at every point the accepted edits are in force
   as they were made if and only if each one the run stores survives its store, which
   in the memory store is all of them, and in the file store those with well-formed
   texts and without a name like a temporary file's.
   */
  lemma {:induction false} FaithfulExactly(c: Customizations, s: State, events: seq<Event>)
    requires Sound(c, s) && WholeRun(s, events) && s.served == AsMade(c, s.finished)
    ensures Faithful(c, s, events) <==> AllSurvive(s, events)
    decreases |events|
  {
    hide Step, Sound, Whole, Survives, AsMade;
    if events != [] {
      StepFaithful(c, s, events[0]);
      StepSound(c, s, events[0]);
      var after := Step(s, events[0]);
      if after.served == AsMade(c, after.finished) { FaithfulExactly(c, after, events[1..]); }
    }
  }
}
