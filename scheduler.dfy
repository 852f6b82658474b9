/**
  * The script scheduler of frontend/scheduler.py: a state machine that
  * wakes the slaves of a script, waits for them, then runs the script's
  * programs stage by stage (one stage per distinct index, in increasing
  * order) until every stage has finished or a program fails.
  *
  * The thread, its lock, the event it waits on and the slave timer are not
  * modelled as concurrency: each handler is a method that runs to the end,
  * the event is a flag, and the database answers the handlers read are a
  * `Db` value passed in. Rows of the `Script` table are `Models.Script`
  * objects, updated through the table helpers of that module.
  */
module Scheduling {
  import opened Wrappers
  import Models

  /** `SchedulerStatus`: INIT = 0 … ERROR = 5, in this order. */
  datatype SchedulerStatus = Init | WaitingForSlaves | NextStep | WaitingForPrograms | Success | Error

  /** A `ScriptGraphPrograms` row of the running script: a program and the stage it runs in. */
  datatype GraphProgram = GraphProgram(index: int, program: Models.Program)

  /** The database as the handlers see it: the script's program graph and whether all its slaves are online. */
  datatype Db = Db(graph: seq<GraphProgram>, allOnline: bool)

  /** The payloads sent to the web clients through `notify`. */
  datatype Notice =
    | WaitingForSlavesNotice(script: Option<int>)
    | NextStepNotice(index: int, lastIndex: int, startTime: int, script: Option<int>)
    | SuccessNotice(script: Option<int>)
    | ErrorNotice(errorCode: Option<string>, script: Option<int>)

  /** The message stored when the slaves do not all come online in time. */
  const SlaveTimeoutMessage := "Not all slaves connected within 5 minutes."

  function ProgramErrorMessage(name: string): string {
    "Program " + name + " has an error."
  }

  /* ---------------- the database queries ---------------- */

  /**
    * The first row of `filter(index__gt=after).order_by('index')`: the
    * smallest stage index above `after`, or None when there is none.
    */
  function NextIndex(graph: seq<GraphProgram>, after: int): (r: Option<int>)
    ensures r.Some? ==> r.value > after && exists k | 0 <= k < |graph| :: graph[k].index == r.value
    ensures r.Some? ==> forall k | 0 <= k < |graph| && graph[k].index > after :: r.value <= graph[k].index
    ensures r.None? <==> forall k | 0 <= k < |graph| :: graph[k].index <= after
  {
    if graph == [] then None
    else
      var rest := NextIndex(graph[1..], after);
      assert forall k | 1 <= k < |graph| :: graph[k] == graph[1..][k - 1];
      if graph[0].index <= after then rest
      else if rest.Some? && rest.value < graph[0].index then rest
      else Some(graph[0].index)
  }

  /** `filter(index=i)`: the programs of stage `i`, in table order. */
  function AtIndex(graph: seq<GraphProgram>, i: int): seq<Models.Program> {
    if graph == [] then []
    else if graph[0].index == i then [graph[0].program] + AtIndex(graph[1..], i)
    else AtIndex(graph[1..], i)
  }

  /** The programs of stage `i` are exactly those of the graph's rows with index `i`. */
  lemma {:induction false} AtIndexMeaning(graph: seq<GraphProgram>, i: int)
    ensures forall p | p in AtIndex(graph, i) :: exists k | 0 <= k < |graph| :: graph[k].index == i && graph[k].program == p
    ensures forall k | 0 <= k < |graph| && graph[k].index == i :: graph[k].program in AtIndex(graph, i)
  {
    if graph != [] {
      AtIndexMeaning(graph[1..], i);
      assert forall k | 1 <= k < |graph| :: graph[k] == graph[1..][k - 1];
    }
  }

  /** The start time reported for a stage: the largest start time of its programs, and at least 0. */
  function MaxStartTime(ps: seq<Models.Program>): (m: int)
    ensures m >= 0
    ensures forall k | 0 <= k < |ps| :: ps[k].startTime <= m
    ensures m == 0 || exists k | 0 <= k < |ps| :: ps[k].startTime == m
  {
    if ps == [] then 0
    else
      var rest := MaxStartTime(ps[..|ps| - 1]);
      assert forall k | 0 <= k < |ps| - 1 :: ps[k] == ps[..|ps| - 1][k];
      if rest < ps[|ps| - 1].startTime then ps[|ps| - 1].startTime else rest
  }

  /** A program the scheduler still waits for: running and not timed out. */
  predicate Busy(p: Models.Program) {
    Models.IsRunning(p) && !Models.IsTimeouted(p)
  }

  /** A program that neither failed nor keeps the stage waiting. */
  predicate Done(p: Models.Program) {
    !Models.IsError(p) && !Busy(p)
  }

  /** Every program of a stage is done. */
  predicate StageDone(ps: seq<Models.Program>) {
    forall k | 0 <= k < |ps| :: Done(ps[k])
  }

  /** The outcome of the scan in `__state_wait_programs`. */
  datatype Scan = Finished | Blocked | Failed(name: string)

  /**
    * The scan in table order: the first program that failed or is still
    * busy decides, and the scan finishes exactly when every program is done.
    */
  function ScanPrograms(ps: seq<Models.Program>): (r: Scan)
    ensures r == Finished <==> StageDone(ps)
  {
    if ps == [] then Finished
    else if Models.IsError(ps[0]) then Failed(ps[0].name)
    else if Busy(ps[0]) then Blocked
    else
      assert forall k | 1 <= k < |ps| :: ps[k] == ps[1..][k - 1];
      ScanPrograms(ps[1..])
  }

  /**
    * Otherwise the first program that is not done decides: a failure with
    * its name, or a busy program that keeps the stage waiting.
    */
  lemma {:induction false} ScanStopsAtFirst(ps: seq<Models.Program>)
    ensures ScanPrograms(ps).Failed? ==> exists k | 0 <= k < |ps| ::
      Models.IsError(ps[k]) && ps[k].name == ScanPrograms(ps).name && forall j | 0 <= j < k :: Done(ps[j])
    ensures ScanPrograms(ps) == Blocked ==> exists k | 0 <= k < |ps| ::
      !Models.IsError(ps[k]) && Busy(ps[k]) && forall j | 0 <= j < k :: Done(ps[j])
  {
    if ps == [] {
    } else if Models.IsError(ps[0]) {
      assert Models.IsError(ps[0]) && ps[0].name == ScanPrograms(ps).name;
    } else if Busy(ps[0]) {
      assert !Models.IsError(ps[0]) && Busy(ps[0]);
    } else {
      var rest := ps[1..];
      ScanStopsAtFirst(rest);
      if ScanPrograms(rest).Failed? {
        var k :| 0 <= k < |rest| && Models.IsError(rest[k]) && rest[k].name == ScanPrograms(rest).name
          && forall j | 0 <= j < k :: Done(rest[j]);
        assert forall j | 0 <= j < k + 1 :: Done(ps[j]) by {
          assert forall j | 1 <= j < k + 1 :: ps[j] == rest[j - 1];
        }
        assert Models.IsError(ps[k + 1]) && ps[k + 1].name == ScanPrograms(ps).name;
      }
      if ScanPrograms(rest) == Blocked {
        var k :| 0 <= k < |rest| && !Models.IsError(rest[k]) && Busy(rest[k])
          && forall j | 0 <= j < k :: Done(rest[j]);
        assert forall j | 0 <= j < k + 1 :: Done(ps[j]) by {
          assert forall j | 1 <= j < k + 1 :: ps[j] == rest[j - 1];
        }
        assert !Models.IsError(ps[k + 1]) && Busy(ps[k + 1]);
      }
    }
  }

  /** The scan from position k looks at program k first. */
  lemma ScanFrom(ps: seq<Models.Program>, k: nat)
    requires k < |ps|
    ensures ScanPrograms(ps[k..]) ==
      if Models.IsError(ps[k]) then Failed(ps[k].name)
      else if Busy(ps[k]) then Blocked
      else ScanPrograms(ps[k + 1..])
  {
    assert ps[k..][1..] == ps[k + 1..];
  }

  /** A busy program ahead of a failed one keeps the stage waiting: the failure is not seen yet. */
  lemma BusyBeforeFailure(busy: Models.Program, failed: Models.Program)
    requires Busy(busy) && !Models.IsError(busy) && Models.IsError(failed)
    ensures ScanPrograms([busy, failed]) == Blocked
    ensures ScanPrograms([failed, busy]) == Failed(failed.name)
  {
  }

  /* ---------------- the transition function ---------------- */

  /** The part of the scheduler the handlers decide: state, stage index and error message. */
  datatype Phase = Phase(state: SchedulerStatus, index: int, errorCode: Option<string>)

  /**
    * One pass of the run loop's dispatch on the state, as the handlers
    * perform it. INIT always moves on to waiting for the slaves, SUCCESS
    * and ERROR are terminal, the stage index never decreases, and only a
    * move to ERROR sets an error message.
    */
  function Step(p: Phase, db: Db): (r: Phase)
    ensures r.state != Init
    ensures p.state == Init ==> r == p.(state := WaitingForSlaves)
    ensures p.state == Success || p.state == Error ==> r == p
    ensures r.index >= p.index
    ensures r.errorCode != p.errorCode ==> r.state == Error && r.errorCode.Some?
  {
    match p.state
    case Init => p.(state := WaitingForSlaves)
    case WaitingForSlaves => if db.allOnline then p.(state := NextStep) else p
    case NextStep =>
      (match NextIndex(db.graph, p.index)
       case None => p.(state := Success, index := p.index + 1)
       case Some(n) => p.(state := WaitingForPrograms, index := n))
    case WaitingForPrograms =>
      (match ScanPrograms(AtIndex(db.graph, p.index))
       case Finished => p.(state := NextStep)
       case Blocked => p
       case Failed(name) => p.(state := Error, errorCode := Some(ProgramErrorMessage(name))))
    case Success => p
    case Error => p
  }

  /** The slave timer's callback. */
  function TimedOut(p: Phase): Phase {
    if p.state == WaitingForSlaves then p.(state := Error, errorCode := Some(SlaveTimeoutMessage)) else p
  }

  /** Waiting for slaves moves to NEXT_STEP exactly when they are all online, and otherwise changes nothing. */
  lemma WaitSlavesSpec(p: Phase, db: Db)
    requires p.state == WaitingForSlaves
    ensures Step(p, db).state == NextStep <==> db.allOnline
    ensures !db.allOnline ==> Step(p, db) == p
    ensures Step(p, db).index == p.index && Step(p, db).errorCode == p.errorCode
  {
  }

  /**
    * NEXT_STEP moves to the smallest stage above the current one, or to
    * SUCCESS with the index one past the old one when no stage is left.
    */
  lemma NextStepSpec(p: Phase, db: Db)
    requires p.state == NextStep
    ensures Step(p, db).state == Success <==> forall k | 0 <= k < |db.graph| :: db.graph[k].index <= p.index
    ensures Step(p, db).state == Success ==> Step(p, db).index == p.index + 1
    ensures Step(p, db).state != Success ==>
      && Step(p, db).state == WaitingForPrograms
      && Step(p, db).index > p.index
      && (exists k | 0 <= k < |db.graph| :: db.graph[k].index == Step(p, db).index)
      && forall k | 0 <= k < |db.graph| && db.graph[k].index > p.index :: Step(p, db).index <= db.graph[k].index
  {
  }

  /**
    * Waiting for programs: the first failed program of the stage gives
    * ERROR with its name, a busy program ahead of any failure leaves
    * everything as it was, and a stage with every program done gives NEXT_STEP.
    */
  lemma WaitProgramsSpec(p: Phase, db: Db)
    requires p.state == WaitingForPrograms
    ensures var ps := AtIndex(db.graph, p.index);
      && (StageDone(ps) <==> Step(p, db) == p.(state := NextStep))
      && (Step(p, db).state == Error ==> exists k | 0 <= k < |ps| ::
            Models.IsError(ps[k]) && Step(p, db).errorCode == Some(ProgramErrorMessage(ps[k].name))
            && forall j | 0 <= j < k :: Done(ps[j]))
      && (Step(p, db).state == WaitingForPrograms ==> Step(p, db) == p)
  {
    var ps := AtIndex(db.graph, p.index);
    ScanStopsAtFirst(ps);
    if ScanPrograms(ps).Failed? {
      var k :| 0 <= k < |ps| && Models.IsError(ps[k]) && ps[k].name == ScanPrograms(ps).name
        && forall j | 0 <= j < k :: Done(ps[j]);
      assert Step(p, db).errorCode == Some(ProgramErrorMessage(ps[k].name));
      assert Step(p, db).state == Error;
    } else if ScanPrograms(ps) == Blocked {
      assert Step(p, db) == p && p.state != NextStep;
    } else {
      assert Step(p, db) == p.(state := NextStep);
    }
  }

  /** The stage NEXT_STEP moves to is never empty: some row of the graph carries its index. */
  lemma StageNotEmpty(graph: seq<GraphProgram>, after: int)
    requires NextIndex(graph, after).Some?
    ensures AtIndex(graph, NextIndex(graph, after).value) != []
  {
    var n := NextIndex(graph, after).value;
    var k :| 0 <= k < |graph| && graph[k].index == n;
    AtIndexMeaning(graph, n);
    assert graph[k].program in AtIndex(graph, n);
  }

  /**
    * Whenever NEXT_STEP moves to a stage rather than to SUCCESS, that stage
    * has a program: the loop of `__state_next` runs its body, so the
    * `enable()` call of `StateNextAsWritten` is reached on every stage.
    */
  lemma EveryStageReachesEnable(p: Phase, db: Db)
    requires p.state == NextStep
    ensures Step(p, db).state == WaitingForPrograms <==> exists k | 0 <= k < |db.graph| :: db.graph[k].index > p.index
    ensures Step(p, db).state == WaitingForPrograms ==> AtIndex(db.graph, Step(p, db).index) != []
  {
    if NextIndex(db.graph, p.index).Some? {
      StageNotEmpty(db.graph, p.index);
    }
  }

  /** The slave timeout only acts while waiting for the slaves. */
  lemma TimedOutSpec(p: Phase)
    ensures p.state == WaitingForSlaves ==> TimedOut(p) == Phase(Error, p.index, Some(SlaveTimeoutMessage))
    ensures p.state != WaitingForSlaves ==> TimedOut(p) == p
  {
  }

  /** `n` passes of the run loop, with the database unchanged. */
  function Run(p: Phase, db: Db, n: nat): Phase
    decreases n
  {
    if n == 0 then p else Run(Step(p, db), db, n - 1)
  }

  /** The stage indices above `i`. */
  function Later(graph: seq<GraphProgram>, i: int): set<int> {
    set k | 0 <= k < |graph| && graph[k].index > i :: graph[k].index
  }

  /** Every program of the graph has finished without error. */
  predicate AllDone(graph: seq<GraphProgram>) {
    forall k | 0 <= k < |graph| :: Done(graph[k].program)
  }

  lemma LaterAfterNext(graph: seq<GraphProgram>, i: int, n: int)
    requires NextIndex(graph, i) == Some(n)
    ensures n in Later(graph, i)
    ensures Later(graph, n) == Later(graph, i) - {n}
  {
    var k :| 0 <= k < |graph| && graph[k].index == n;
    assert n in Later(graph, i);
  }

  lemma RunUnfold(p: Phase, db: Db, n: nat)
    ensures Run(p, db, n + 1) == Run(Step(p, db), db, n)
  {
  }

  lemma RunTwoSteps(p: Phase, q: Phase, db: Db, n: nat)
    requires Step(Step(p, db), db) == q
    ensures Run(p, db, n + 2) == Run(q, db, n)
  {
    RunUnfold(p, db, n + 1);
    RunUnfold(Step(p, db), db, n);
  }

  /** A stage whose programs are all done passes straight through WAITING_FOR_PROGRAMS. */
  lemma StageOfDonePrograms(p: Phase, db: Db, n: int)
    requires p.state == NextStep && AllDone(db.graph) && NextIndex(db.graph, p.index) == Some(n)
    ensures Step(Step(p, db), db) == p.(index := n)
  {
    var ps := AtIndex(db.graph, n);
    AtIndexMeaning(db.graph, n);
    forall j | 0 <= j < |ps|
      ensures Done(ps[j])
    {
      assert ps[j] in ps;
    }
  }

  /** With no stage left, NEXT_STEP goes to SUCCESS in one pass. */
  lemma NoStageLeft(p: Phase, db: Db)
    requires p.state == NextStep && NextIndex(db.graph, p.index).None?
    ensures Later(db.graph, p.index) == {}
    ensures Run(p, db, 1).state == Success
  {
    RunUnfold(p, db, 0);
  }

  /** Moving to the next stage leaves one stage fewer above the index. */
  lemma LaterShrinks(graph: seq<GraphProgram>, i: int, n: int)
    requires NextIndex(graph, i) == Some(n)
    ensures |Later(graph, n)| + 1 == |Later(graph, i)|
  {
    LaterAfterNext(graph, i, n);
    assert Later(graph, n) == Later(graph, i) - {n};
  }

  /** A stage of done programs costs two passes of the run loop. */
  lemma OneDoneStage(p: Phase, db: Db, n: int, m: nat)
    requires p.state == NextStep && AllDone(db.graph) && NextIndex(db.graph, p.index) == Some(n)
    ensures Run(p, db, m + 2) == Run(p.(index := n), db, m)
  {
    StageOfDonePrograms(p, db, n);
    RunTwoSteps(p, p.(index := n), db, m);
  }

  /**
    * When every program has finished without error, a scheduler at
    * NEXT_STEP reaches SUCCESS after two passes per remaining stage and one
    * more, passing through each stage in increasing order.
    */
  lemma {:induction false} AllDoneReachesSuccess(p: Phase, db: Db)
    requires p.state == NextStep && AllDone(db.graph)
    ensures Run(p, db, 2 * |Later(db.graph, p.index)| + 1).state == Success
    decreases |Later(db.graph, p.index)|
  {
    var next := NextIndex(db.graph, p.index);
    if next.None? {
      NoStageLeft(p, db);
    } else {
      var n := next.value;
      var m := 2 * |Later(db.graph, n)| + 1;
      assert 2 * |Later(db.graph, p.index)| + 1 == m + 2 by {
        LaterShrinks(db.graph, p.index, n);
      }
      var q := p.(index := n);
      AllDoneReachesSuccess(q, db);
      OneDoneStage(p, db, n, m);
      assert Run(p, db, m + 2).state == Success;
    }
  }

  /* ---------------- the Scheduler object ---------------- */

  class Scheduler {
    var state: SchedulerStatus
    var index: int
    var errorCode: Option<string>
    var stop: bool
    /** The id of the `Script` being run; None until the first `start`. */
    var script: Option<int>
    /** Whether the thread's `threading.Event` is set. */
    var event: bool

    function CurrentPhase(): Phase
      reads this
    {
      Phase(state, index, errorCode)
    }

    /** ERROR always carries the message that the error handler stores. */
    predicate Valid()
      reads this
    {
      state == Error ==> errorCode.Some?
    }

    constructor ()
      ensures Valid()
      ensures state == Init && index == -1 && errorCode == None && !stop && script == None && !event
    {
      state := Init;
      index := -1;
      errorCode := None;
      stop := false;
      script := None;
      event := false;
    }

    /** `should_stop`: the stop flag. */
    method ShouldStop() returns (b: bool)
      ensures b == stop
    {
      b := stop;
    }

    /** `stop`: raises the stop flag and wakes the thread. */
    method Stop()
      modifies this
      ensures stop && event
      ensures CurrentPhase() == old(CurrentPhase()) && script == old(script)
    {
      stop := true;
      event := true;
    }

    /**
      * `start(script)`: refused while the thread is alive (`alive`);
      * otherwise resets the run for `id`, marks its row running and
      * initialized with index -1, and starts the thread.
      */
    method Start(id: int, alive: bool, table: seq<Models.Script>) returns (started: bool)
      requires Valid()
      modifies this, table
      ensures started == !alive
      ensures alive ==> unchanged(this) && forall s | s in table :: unchanged(s)
      ensures !alive ==>
        && state == Init && index == -1 && errorCode == None && !stop && script == Some(id)
        && event == old(event)
        && (forall s | s in table && s.id == id :: s.currentIndex == -1 && s.isRunning && s.isInitialized)
        && (forall s | s in table && s.id != id ::
              s.currentIndex == old(s.currentIndex) && s.isRunning == old(s.isRunning)
              && s.isInitialized == old(s.isInitialized))
        && (forall s | s in table :: s.name == old(s.name) && s.lastRan == old(s.lastRan) && s.errorCode == old(s.errorCode))
      ensures Valid()
    {
      if alive {
        return false;
      }
      errorCode := None;
      stop := false;
      state := Init;
      index := -1;
      script := Some(id);
      Models.Script.UpdateIndex(table, id, -1, true);
      started := true;
    }

    /** `notify`: wakes a running thread. */
    method Notify(running: bool)
      modifies this
      ensures event == (old(event) || running)
      ensures CurrentPhase() == old(CurrentPhase()) && stop == old(stop) && script == old(script)
    {
      if running && !event {
        event := true;
      }
    }

    /** `__next_stage`: moves the index to the next stage, or one past the last. */
    method NextStage(graph: seq<GraphProgram>) returns (oldIndex: int, allDone: bool)
      modifies this
      ensures oldIndex == old(index)
      ensures allDone <==> NextIndex(graph, old(index)).None?
      ensures index == if allDone then old(index) + 1 else NextIndex(graph, old(index)).value
      ensures state == old(state) && errorCode == old(errorCode) && stop == old(stop)
      ensures script == old(script) && event == old(event)
    {
      oldIndex := index;
      var next := NextIndex(graph, index);
      if next.Some? {
        index := next.value;
        allDone := false;
      } else {
        index := index + 1;
        allDone := true;
      }
    }

    /** `timer_scheduler_slave_timeout`. */
    method TimerSlaveTimeout()
      modifies this
      requires Valid()
      ensures CurrentPhase() == TimedOut(old(CurrentPhase()))
      ensures event == (old(event) || old(state) == WaitingForSlaves)
      ensures stop == old(stop) && script == old(script)
      ensures Valid()
    {
      if state == WaitingForSlaves {
        errorCode := Some(SlaveTimeoutMessage);
        state := Error;
        event := true;
      }
    }

    /** `__state_init`: the slaves are woken (not modelled), the timer armed, and the state moves on. */
    method StateInit(db: Db) returns (notice: Notice)
      requires state == Init && Valid()
      modifies this
      ensures CurrentPhase() == Step(old(CurrentPhase()), db)
      ensures event && stop == old(stop) && script == old(script)
      ensures notice == WaitingForSlavesNotice(script)
      ensures Valid()
    {
      state := WaitingForSlaves;
      event := true;
      notice := WaitingForSlavesNotice(script);
    }

    /** `__state_wait_slaves`. */
    method StateWaitSlaves(db: Db)
      requires state == WaitingForSlaves && Valid()
      modifies this
      ensures CurrentPhase() == Step(old(CurrentPhase()), db)
      ensures event == (old(event) || db.allOnline)
      ensures stop == old(stop) && script == old(script)
      ensures Valid()
    {
      if db.allOnline {
        state := NextStep;
        event := true;
      }
    }

    /**
      * `__state_next`: takes the next stage, records it in the script's row
      * and reports it with the largest start time of its programs (at least 0).
      */
    method StateNext(db: Db, table: seq<Models.Script>) returns (notice: Notice)
      requires state == NextStep && Valid() && script.Some?
      modifies this, table
      ensures CurrentPhase() == Step(old(CurrentPhase()), db)
      ensures event == (old(event) || state == Success)
      ensures stop == old(stop) && script == old(script)
      ensures notice == NextStepNotice(
        index, old(index), if state == Success then 0 else MaxStartTime(AtIndex(db.graph, index)), script)
      ensures forall s | s in table && Some(s.id) == script :: s.currentIndex == index
      ensures forall s | s in table && Some(s.id) != script :: s.currentIndex == old(s.currentIndex)
      ensures forall s | s in table ::
        s.isRunning == old(s.isRunning) && s.isInitialized == old(s.isInitialized)
        && s.name == old(s.name) && s.lastRan == old(s.lastRan) && s.errorCode == old(s.errorCode)
      ensures Valid()
    {
      var lastIndex, allDone := NextStage(db.graph);
      var maxStartTime := 0;
      Models.Script.UpdateIndex(table, script.value, index, false);
      if allDone {
        state := Success;
        event := true;
      } else {
        state := WaitingForPrograms;
        maxStartTime := StageStartTime(AtIndex(db.graph, index));
      }
      notice := NextStepNotice(index, lastIndex, maxStartTime, script);
    }

    /**
      * `__state_next` as written: the loop over the stage's programs also
      * calls `enable()` on each program, and `Models.Program` has no such
      * method. The first program of the stage raises AttributeError, which
      * leaves `__run__` after the new state and index are stored and before
      * the notice is sent; the thread ends there. Every stage NEXT_STEP
      * moves to has a program, so this happens on every stage.
      */
    method StateNextAsWritten(db: Db, table: seq<Models.Script>) returns (raised: bool, notice: Option<Notice>)
      requires state == NextStep && Valid() && script.Some?
      modifies this, table
      ensures CurrentPhase() == Step(old(CurrentPhase()), db)
      ensures raised <==> state == WaitingForPrograms
      ensures raised ==> notice == None && event == old(event)
      ensures !raised ==> state == Success && event && notice == Some(NextStepNotice(index, old(index), 0, script))
      ensures stop == old(stop) && script == old(script)
      ensures forall s | s in table && Some(s.id) == script :: s.currentIndex == index
      ensures forall s | s in table && Some(s.id) != script :: s.currentIndex == old(s.currentIndex)
      ensures forall s | s in table ::
        s.isRunning == old(s.isRunning) && s.isInitialized == old(s.isInitialized)
        && s.name == old(s.name) && s.lastRan == old(s.lastRan) && s.errorCode == old(s.errorCode)
      ensures Valid()
    {
      var lastIndex, allDone := NextStage(db.graph);
      var maxStartTime := 0;
      Models.Script.UpdateIndex(table, script.value, index, false);
      if allDone {
        state := Success;
        event := true;
        raised := false;
        notice := Some(NextStepNotice(index, lastIndex, maxStartTime, script));
      } else {
        state := WaitingForPrograms;
        var ps := AtIndex(db.graph, index);
        StageNotEmpty(db.graph, lastIndex);
        if maxStartTime < ps[0].startTime {
          maxStartTime := ps[0].startTime;
        }
        // `ps[0].enable()` raises: nothing after it runs
        raised := true;
        notice := None;
      }
    }

    /** The loop over the stage's programs in `__state_next`: the largest start time, at least 0. */
    static method StageStartTime(ps: seq<Models.Program>) returns (maxStartTime: int)
      ensures maxStartTime == MaxStartTime(ps)
    {
      maxStartTime := 0;
      for k := 0 to |ps|
        invariant maxStartTime == MaxStartTime(ps[..k])
      {
        assert ps[..k + 1][..k] == ps[..k];
        if maxStartTime < ps[k].startTime {
          maxStartTime := ps[k].startTime;
        }
      }
      assert ps[..|ps|] == ps;
    }

    /**
      * `__state_wait_programs`: scans the stage's programs in order and
      * stops at the first one that failed or is still busy.
      */
    method StateWaitPrograms(db: Db)
      requires state == WaitingForPrograms && Valid()
      modifies this
      ensures CurrentPhase() == Step(old(CurrentPhase()), db)
      ensures event == (old(event) || state != WaitingForPrograms)
      ensures stop == old(stop) && script == old(script)
      ensures Valid()
    {
      var progs := AtIndex(db.graph, index);
      var step := true;
      var k := 0;
      while k < |progs|
        invariant 0 <= k <= |progs|
        invariant state == WaitingForPrograms && errorCode == old(errorCode) && event == old(event)
        invariant index == old(index) && stop == old(stop) && script == old(script)
        invariant step
        invariant ScanPrograms(progs) == ScanPrograms(progs[k..])
      {
        var prog := progs[k];
        ScanFrom(progs, k);
        if Models.IsError(prog) {
          state := Error;
          errorCode := Some(ProgramErrorMessage(prog.name));
          step := false;
          event := true;
          break;
        } else if Models.IsRunning(prog) && !Models.IsTimeouted(prog) {
          step := false;
          break;
        }
        k := k + 1;
      }
      if step {
        state := NextStep;
        event := true;
      }
    }

    /** `__state_success`: the row stops running with an empty error code and becomes the last-ran script. */
    method StateSuccess(table: seq<Models.Script>) returns (notice: Notice)
      requires state == Success && Valid() && script.Some?
      modifies table
      ensures notice == SuccessNotice(script)
      ensures forall s | s in table :: s.lastRan <==> Some(s.id) == script
      ensures forall s | s in table && Some(s.id) == script :: !s.isRunning && s.errorCode == ""
      ensures forall s | s in table && Some(s.id) != script ::
        s.isRunning == old(s.isRunning) && s.errorCode == old(s.errorCode)
      ensures forall s | s in table ::
        s.name == old(s.name) && s.isInitialized == old(s.isInitialized) && s.currentIndex == old(s.currentIndex)
    {
      notice := SuccessNotice(script);
      Models.Script.UpdateRunState(table, script.value, false, "");
      Models.Script.SetLastStarted(table, script.value);
    }

    /** `__state_error`: the row stops running and keeps the error message. */
    method StateError(table: seq<Models.Script>) returns (notice: Notice)
      requires state == Error && Valid() && script.Some?
      modifies table
      ensures notice == ErrorNotice(errorCode, script)
      ensures forall s | s in table && Some(s.id) == script :: !s.isRunning && Some(s.errorCode) == errorCode
      ensures forall s | s in table && Some(s.id) != script ::
        s.isRunning == old(s.isRunning) && s.errorCode == old(s.errorCode)
      ensures forall s | s in table ::
        s.name == old(s.name) && s.lastRan == old(s.lastRan)
        && s.isInitialized == old(s.isInitialized) && s.currentIndex == old(s.currentIndex)
    {
      Models.Script.UpdateRunState(table, script.value, false, errorCode.value);
      notice := ErrorNotice(errorCode, script);
    }

    /**
      * One wake-up of `__run__`: the event is cleared; a stop request ends
      * the thread; otherwise the handler of the current state runs, and the
      * thread ends after the SUCCESS or ERROR handler.
      */
    method RunOnce(db: Db, table: seq<Models.Script>) returns (exit: bool, notice: Option<Notice>)
      requires Valid() && script.Some?
      modifies this, table
      ensures old(stop) ==> exit && notice.None? && CurrentPhase() == old(CurrentPhase()) && !event
      ensures !old(stop) ==> CurrentPhase() == Step(old(CurrentPhase()), db)
      ensures exit <==> old(stop) || old(state) == Success || old(state) == Error
      ensures stop == old(stop) && script == old(script)
      ensures Valid()
    {
      event := false;
      exit := false;
      notice := None;
      if stop {
        return true, None;
      }
      match state
      case Init =>
        var n := StateInit(db);
        notice := Some(n);
      case WaitingForSlaves =>
        StateWaitSlaves(db);
      case NextStep =>
        var n := StateNext(db, table);
        notice := Some(n);
      case WaitingForPrograms =>
        StateWaitPrograms(db);
      case Success =>
        var n := StateSuccess(table);
        notice := Some(n);
        exit := true;
      case Error =>
        var n := StateError(table);
        notice := Some(n);
        exit := true;
    }
  }
}
