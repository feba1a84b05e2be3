/** Runs over the update log: any number of runner objects, stale ones included, with a crash possible after
    any write and writes that fail (pkg/update/update.go, pkg/update/store.go). */
module UpdateRuns {
  import opened Base
  import opened UpdateLog

  /** The log, and the live runner objects with their own copies of records. */
  datatype System = System(log: Log, runners: map<nat, Record>)

  /** Do: a runner performs an operation of which the first `written` writes reach the log; it then lives on
      or is gone. A runner whose very first write fails gives up with only its own copy changed. */
  datatype Step =
    | New(runner: nat, id: string, cref: string)
    | Open(runner: nat)
    | Do(runner: nat, op: Op, written: nat, alive: bool)
    | Drop(runner: nat)

  function Last(log: Log): Record
    requires log != []
  {
    log[|log| - 1].rec
  }

  predicate HasId(log: Log, id: string) {
    exists i :: 0 <= i < |log| && log[i].id == id
  }

  predicate Enabled(sys: System, step: Step) {
    match step
    case New(r, id, _) => r !in sys.runners && LatestIn(sys.log, CURRENT).None? && !HasId(sys.log, id)
    case Open(r) => r !in sys.runners && LatestIn(sys.log, CURRENT).Some?
    case Do(r, op, written, _) => r in sys.runners && Accepts(op, sys.runners[r].state) && written <= |Writes(op)|
    case Drop(r) => r in sys.runners
  }

  /** A write to an empty bucket panics. */
  predicate Panics(sys: System, step: Step) {
    Enabled(sys, step) && step.Do? && sys.log == []
  }

  function Next(sys: System, step: Step): System
    requires Enabled(sys, step) && !Panics(sys, step)
  {
    match step
    case New(r, id, cref) =>
      var rec := Record(id, cref, Created);
      System(sys.log + [Entry(id, cref, rec)], sys.runners[r := rec])
    case Open(r) => sys.(runners := sys.runners[r := LatestIn(sys.log, CURRENT).value])
    case Do(r, op, written, alive) =>
      var rec := sys.runners[r];
      var log := if written == 0 then sys.log else WriteLast(sys.log, rec.(state := Writes(op)[written - 1]));
      if !alive then System(log, sys.runners - {r})
      else System(log, sys.runners[r := rec.(state := if written == 0 then Before(op) else After(op))])
    case Drop(r) => sys.(runners := sys.runners - {r})
  }

  /** The system after a run; None if some step was not enabled or panicked. */
  function Run(sys: System, steps: seq<Step>): Option<System> {
    if steps == [] then Some(sys)
    else
      var before := Run(sys, steps[..|steps| - 1]);
      var last := steps[|steps| - 1];
      if before.None? || !Enabled(before.value, last) || Panics(before.value, last) then None
      else Some(Next(before.value, last))
  }

  predicate Runs(sys: System, steps: seq<Step>) {
    Run(sys, steps).Some?
  }

  function Result(sys: System, steps: seq<Step>): System
    requires Runs(sys, steps)
  {
    Run(sys, steps).value
  }

  /** Running one more step last. */
  lemma RunLast(sys: System, steps: seq<Step>, step: Step)
    requires Runs(sys, steps) && Enabled(Result(sys, steps), step) && !Panics(Result(sys, steps), step)
    ensures Runs(sys, steps + [step]) && Result(sys, steps + [step]) == Next(Result(sys, steps), step)
  {
    assert (steps + [step])[..|steps|] == steps;
  }

  const EMPTY := System([], map[])

  // ---------- The log over all runs ----------

  /** Only the last record can be in a state that is not final. */
  predicate OnlyLastOpen(log: Log) {
    forall i :: 0 <= i < |log| - 1 ==> Final(log[i].rec.state)
  }

  predicate LogInv(sys: System) {
    OnlyLastOpen(sys.log) && (sys.log == [] ==> sys.runners == map[])
  }

  /** The current update, if any, is the last one. */
  lemma {:induction false} LatestIsLast(log: Log)
    requires OnlyLastOpen(log)
    ensures LatestIn(log, CURRENT) == if log != [] && !Final(Last(log).state) then Some(Last(log)) else None
  {
    if log != [] {
      CurrentIsNotFinal(Last(log).state);
      if Final(Last(log).state) {
        var front := log[..|log| - 1];
        LatestIsLast(front);
        if front != [] {
          assert Last(front) == log[|log| - 2].rec;
        }
      }
    }
  }

  /** One step keeps the invariant, never panics, and starts a new update only when all records are final. */
  lemma StepKeepsLogInv(sys: System, step: Step)
    requires LogInv(sys) && Enabled(sys, step)
    ensures !Panics(sys, step) && LogInv(Next(sys, step))
    ensures step.New? ==> forall i :: 0 <= i < |sys.log| ==> Final(sys.log[i].rec.state)
    ensures |Next(sys, step).log| == |sys.log| + (if step.New? then 1 else 0)
  {
    LatestIsLast(sys.log);
  }

  /** Over every run from an empty database: at most the last record is open, no write meets an empty bucket,
      and a new update can be started exactly when every record is final. */
  lemma {:induction false} LogInvOverRuns(steps: seq<Step>)
    requires Runs(EMPTY, steps)
    ensures LogInv(Result(EMPTY, steps))
    ensures forall step :: Enabled(Result(EMPTY, steps), step) ==> !Panics(Result(EMPTY, steps), step)
    ensures forall r, id, cref :: r !in Result(EMPTY, steps).runners && !HasId(Result(EMPTY, steps).log, id) ==>
      (Enabled(Result(EMPTY, steps), New(r, id, cref))
      <==> forall i :: 0 <= i < |Result(EMPTY, steps).log| ==> Final(Result(EMPTY, steps).log[i].rec.state))
  {
    if steps != [] {
      var n := |steps| - 1;
      LogInvOverRuns(steps[..n]);
      StepKeepsLogInv(Result(EMPTY, steps[..n]), steps[n]);
    }
    var sys := Result(EMPTY, steps);
    LatestIsLast(sys.log);
    forall step | Enabled(sys, step) ensures !Panics(sys, step) {
      StepKeepsLogInv(sys, step);
    }
    if sys.log != [] && Final(Last(sys.log).state) {
      forall i | 0 <= i < |sys.log| ensures Final(sys.log[i].rec.state) {
      }
    }
  }

  // ---------- One live runner per update ----------

  /** A new runner is made only when no live runner is still at work on an update. */
  predicate Solo(sys: System, step: Step) {
    step.New? || step.Open? ==> forall r :: r in sys.runners ==> Final(sys.runners[r].state)
  }

  predicate SoloRuns(sys: System, steps: seq<Step>) {
    Runs(sys, steps) && (steps != [] ==>
      SoloRuns(sys, steps[..|steps| - 1]) && Solo(Result(sys, steps[..|steps| - 1]), steps[|steps| - 1]))
  }

  predicate OwnIds(log: Log) {
    forall i :: 0 <= i < |log| ==> log[i].rec.id == log[i].id && log[i].rec.cref == log[i].cref
  }

  /** A runner still at work holds a copy of the last record, which is not final. */
  predicate AtWorkOnLast(sys: System) {
    forall r :: r in sys.runners && !Final(sys.runners[r].state) ==>
      && sys.log != [] && !Final(Last(sys.log).state)
      && sys.runners[r].id == Last(sys.log).id && sys.runners[r].cref == Last(sys.log).cref
  }

  predicate AtMostOneAtWork(sys: System) {
    forall r, q ::
      r in sys.runners && q in sys.runners && !Final(sys.runners[r].state) && !Final(sys.runners[q].state) ==> r == q
  }

  predicate SoloInv(sys: System) {
    LogInv(sys) && OwnIds(sys.log) && AtWorkOnLast(sys) && AtMostOneAtWork(sys)
  }

  /** Only the very last write of an operation can be final. */
  lemma EarlierWritesAreOpen(op: Op, i: nat)
    requires i < |Writes(op)|
    ensures Final(Writes(op)[i]) ==> i == |Writes(op)| - 1 && Writes(op)[i] == After(op)
  {
  }

  lemma DoKeepsSoloInv(sys: System, r: nat, op: Op, written: nat, alive: bool)
    requires SoloInv(sys) && Enabled(sys, Do(r, op, written, alive))
    ensures sys.log != [] && !Final(Last(sys.log).state)
    ensures SoloInv(Next(sys, Do(r, op, written, alive)))
  {
    var step := Do(r, op, written, alive);
    StepKeepsLogInv(sys, step);
    var sys' := Next(sys, step);
    if written > 0 {
      EarlierWritesAreOpen(op, written - 1);
    }
    forall q | q in sys'.runners && !Final(sys'.runners[q].state) ensures q == r && alive {
    }
  }

  /** A step of a solo run keeps the invariant and leaves every final record as it is. */
  lemma StepKeepsSoloInv(sys: System, step: Step)
    requires SoloInv(sys) && Enabled(sys, step) && Solo(sys, step)
    ensures !Panics(sys, step) && SoloInv(Next(sys, step))
    ensures forall i :: 0 <= i < |sys.log| && Final(sys.log[i].rec.state) ==> Next(sys, step).log[i] == sys.log[i]
    ensures |sys.log| <= |Next(sys, step).log|
  {
    StepKeepsLogInv(sys, step);
    LatestIsLast(sys.log);
    if step.Do? {
      DoKeepsSoloInv(sys, step.runner, step.op, step.written, step.alive);
    }
  }

  /** With one live runner per update: every record keeps the identity of its key, and Completed, Failed and
      Canceled are for ever, over the whole run. */
  lemma {:induction false} FinalIsForever(steps: seq<Step>, upto: nat)
    requires SoloRuns(EMPTY, steps) && upto <= |steps|
    ensures SoloRuns(EMPTY, steps[..upto])
    ensures SoloInv(Result(EMPTY, steps)) && |Result(EMPTY, steps[..upto]).log| <= |Result(EMPTY, steps).log|
    ensures forall i ::
      0 <= i < |Result(EMPTY, steps[..upto]).log| && Final(Result(EMPTY, steps[..upto]).log[i].rec.state) ==>
      Result(EMPTY, steps).log[i] == Result(EMPTY, steps[..upto]).log[i]
    decreases |steps|
  {
    if steps != [] {
      var n := |steps| - 1;
      FinalIsForever(steps[..n], if upto <= n then upto else n);
      StepKeepsSoloInv(Result(EMPTY, steps[..n]), steps[n]);
      if upto <= n {
        assert steps[..n][..upto] == steps[..upto];
      } else {
        assert steps[..upto] == steps;
      }
    }
  }

  /** In general a final record is overwritten in one step exactly when some live runner still accepts an
      operation, that is, holds a copy that is neither final nor cancelling. */
  predicate CanAct(s: UState) {
    !Final(s) && s != Cancelling
  }

  lemma RevivedExactly(sys: System)
    requires LogInv(sys) && sys.log != [] && Final(Last(sys.log).state)
    ensures (exists step :: Enabled(sys, step) && !Panics(sys, step)
              && Next(sys, step).log[|sys.log| - 1] != sys.log[|sys.log| - 1])
       <==> exists r :: r in sys.runners && CanAct(sys.runners[r].state)
  {
    if r :| r in sys.runners && CanAct(sys.runners[r].state) {
      var op := NextOp(sys.runners[r].state);
      var step := Do(r, op, 1, false);
      assert Enabled(sys, step) && !Panics(sys, step);
      assert Last(Next(sys, step).log).state == Before(op);
      assert !Final(Before(op));
    }
  }

  const CANCEL := Op.Cancel(Done)
  const INIT := Op.Init(true, false, Done, None)

  /** Two runners over one update: one cancels it, the other, holding a stale copy, brings it back. */
  lemma TwoRunnersReviveCanceled(id: string, cref: string)
    ensures var canceled := [New(0, id, cref), Open(1), Do(0, CANCEL, 2, true)];
      && Runs(EMPTY, canceled) && Result(EMPTY, canceled).log == [Entry(id, cref, Record(id, cref, Canceled))]
      && Runs(EMPTY, canceled + [Do(1, INIT, 2, true)])
      && Result(EMPTY, canceled + [Do(1, INIT, 2, true)]).log == [Entry(id, cref, Record(id, cref, Initialized))]
  {
    AfterCancel(id, cref);
    RunLast(EMPTY, [New(0, id, cref), Open(1), Do(0, CANCEL, 2, true)], Do(1, INIT, 2, true));
  }

  lemma AfterCancel(id: string, cref: string)
    ensures var steps := [New(0, id, cref), Open(1), Do(0, CANCEL, 2, true)];
      && Runs(EMPTY, steps)
      && Result(EMPTY, steps) == System([Entry(id, cref, Record(id, cref, Canceled))],
                                        map[0 := Record(id, cref, Canceled), 1 := Record(id, cref, Created)])
  {
    var rec := Record(id, cref, Created);
    assert LatestIn([Entry(id, cref, rec)], CURRENT) == Some(rec);
    RunLast(EMPTY, [], New(0, id, cref));
    assert [] + [New(0, id, cref)] == [New(0, id, cref)];
    RunLast(EMPTY, [New(0, id, cref)], Open(1));
    assert [New(0, id, cref)] + [Open(1)] == [New(0, id, cref), Open(1)];
    RunLast(EMPTY, [New(0, id, cref), Open(1)], Do(0, CANCEL, 2, true));
    assert [New(0, id, cref), Open(1)] + [Do(0, CANCEL, 2, true)]
      == [New(0, id, cref), Open(1), Do(0, CANCEL, 2, true)];
  }

  /** The same stale runner, acting after the next update was started, files the old record under the new key. */
  lemma TwoRunnersMisfile(id: string, id2: string, cref: string)
    requires id != id2
    ensures var steps :=
      [New(0, id, cref), Open(1), Do(0, CANCEL, 2, true)] + [New(2, id2, cref)] + [Do(1, INIT, 2, true)];
      && Runs(EMPTY, steps)
      && Result(EMPTY, steps).log ==
        [Entry(id, cref, Record(id, cref, Canceled)), Entry(id2, cref, Record(id, cref, Initialized))]
  {
    AfterCancel(id, cref);
    var steps := [New(0, id, cref), Open(1), Do(0, CANCEL, 2, true)];
    var log := Result(EMPTY, steps).log;
    assert log[..0] == [] && LatestIn(log, CURRENT).None?;
    RunLast(EMPTY, steps, New(2, id2, cref));
    RunLast(EMPTY, steps + [New(2, id2, cref)], Do(1, INIT, 2, true));
  }

  /** The record in the copy is that of another key than the last. */
  predicate Foreign(log: Log, rec: Record)
    requires log != []
  {
    rec.id != log[|log| - 1].id || rec.cref != log[|log| - 1].cref
  }

  /** In general a step files a record under a foreign key exactly when some live runner that still accepts an
      operation holds a copy of another update than the last. */
  lemma MisfiledExactly(sys: System)
    requires LogInv(sys) && sys.log != [] && OwnIds(sys.log)
    ensures (exists step :: Enabled(sys, step) && !Panics(sys, step) && !OwnIds(Next(sys, step).log))
       <==> exists r :: r in sys.runners && CanAct(sys.runners[r].state) && Foreign(sys.log, sys.runners[r])
  {
    if step :| Enabled(sys, step) && !Panics(sys, step) && !OwnIds(Next(sys, step).log) {
      assert step.Do? && step.written > 0;
      assert CanAct(sys.runners[step.runner].state) && Foreign(sys.log, sys.runners[step.runner]);
    }
    if r :| r in sys.runners && CanAct(sys.runners[r].state) && Foreign(sys.log, sys.runners[r]) {
      var step := Do(r, NextOp(sys.runners[r].state), 1, false);
      assert Enabled(sys, step) && !Panics(sys, step);
      var n := |sys.log| - 1;
      assert Next(sys, step).log[n].rec.id != sys.log[n].id || Next(sys, step).log[n].rec.cref != sys.log[n].cref;
    }
  }

  // ---------- Resuming ----------

  /** The operation that takes an update further from a state, when it succeeds. */
  function NextOp(s: UState): Op {
    match s
    case Created => Op.Init(true, false, Done, None)
    case Initializing => Op.Init(false, false, Done, None)
    case Initialized => Op.Fetch(Done, false)
    case Fetching => Op.Fetch(Done, false)
    case Fetched => Op.Install(Done)
    case Installing => Op.Install(Done)
    case Installed => Op.Start(Done)
    case Starting => Op.Start(Done)
    case _ => Op.Complete(Done, false)
  }

  function Rank(s: UState): nat {
    match s
    case Created => 10 case Initializing => 9 case Initialized => 8 case Fetching => 7 case Fetched => 6
    case Installing => 5 case Installed => 4 case Starting => 3 case Started => 2 case Completing => 1
    case _ => 0
  }

  lemma NextOpAdvances(s: UState)
    requires CanAct(s)
    ensures Accepts(NextOp(s), s) && NextOp(s).work == Done && Rank(After(NextOp(s))) < Rank(s)
    ensures After(NextOp(s)) == Completed || CanAct(After(NextOp(s)))
    ensures |Writes(NextOp(s))| == 2 && Writes(NextOp(s))[1] == After(NextOp(s))
  {
  }

  /** The steps by which a runner carries its update to the end. */
  function Finish(r: nat, s: UState): seq<Step>
    requires CanAct(s)
    decreases Rank(s)
  {
    NextOpAdvances(s);
    [Do(r, NextOp(s), 2, true)] + (if After(NextOp(s)) == Completed then [] else Finish(r, After(NextOp(s))))
  }

  /** Running one more step first. */
  lemma {:induction false} RunFirst(sys: System, step: Step, rest: seq<Step>)
    requires Enabled(sys, step) && !Panics(sys, step) && Runs(Next(sys, step), rest)
    ensures Runs(sys, [step] + rest) && Result(sys, [step] + rest) == Result(Next(sys, step), rest)
    decreases |rest|
  {
    var all := [step] + rest;
    if rest == [] {
      assert all == [step] && all[..0] == [];
      assert Runs(sys, all[..0]);
    } else {
      RunFirst(sys, step, rest[..|rest| - 1]);
      assert all[..|all| - 1] == [step] + rest[..|rest| - 1];
    }
  }

  lemma {:induction false} FinishCompletes(sys: System, r: nat)
    requires sys.log != [] && r in sys.runners && sys.runners[r] == Last(sys.log) && CanAct(Last(sys.log).state)
    ensures Runs(sys, Finish(r, Last(sys.log).state))
    ensures Result(sys, Finish(r, Last(sys.log).state)).log == WriteLast(sys.log, Last(sys.log).(state := Completed))
    decreases Rank(Last(sys.log).state)
  {
    var s := Last(sys.log).state;
    var op := NextOp(s);
    NextOpAdvances(s);
    var step := Do(r, op, 2, true);
    var sys' := Next(sys, step);
    assert sys'.log == WriteLast(sys.log, Last(sys.log).(state := After(op)));
    if After(op) == Completed {
      assert Runs(sys', []);
      RunFirst(sys, step, []);
      assert [step] + [] == [step];
    } else {
      FinishCompletes(sys', r);
      RunFirst(sys, step, Finish(r, After(op)));
    }
  }

  /** From every open record but a cancelling one, whatever crash or interruption left it, a fresh runner can
      carry the update to Completed, each operation strictly lowering the rank. */
  lemma Resumable(sys: System, r: nat)
    requires LogInv(sys) && sys.log != [] && CanAct(Last(sys.log).state) && r !in sys.runners
    ensures Enabled(sys, Open(r))
    ensures Runs(sys, [Open(r)] + Finish(r, Last(sys.log).state))
    ensures Result(sys, [Open(r)] + Finish(r, Last(sys.log).state)).log ==
      WriteLast(sys.log, Last(sys.log).(state := Completed))
  {
    LatestIsLast(sys.log);
    FinishCompletes(Next(sys, Open(r)), r);
    RunFirst(sys, Open(r), Finish(r, Last(sys.log).state));
  }

  /** And one operation takes it to Canceled, exactly as long as it has not begun to start. */
  lemma Cancelable(sys: System, r: nat)
    requires LogInv(sys) && sys.log != [] && CanAct(Last(sys.log).state) && r !in sys.runners
    ensures Runs(sys, [Open(r)] + [Do(r, CANCEL, 2, true)]) <==> Last(sys.log).state !in {Starting, Started, Completing}
    ensures Runs(sys, [Open(r)] + [Do(r, CANCEL, 2, true)]) ==>
      Result(sys, [Open(r)] + [Do(r, CANCEL, 2, true)]).log == WriteLast(sys.log, Last(sys.log).(state := Canceled))
  {
    LatestIsLast(sys.log);
    RunLast(sys, [], Open(r));
    assert [] + [Open(r)] == [Open(r)];
    var steps := [Open(r)] + [Do(r, CANCEL, 2, true)];
    assert steps[..1] == [Open(r)];
  }

  /** A record left cancelling is stuck: with no live runner that still accepts an operation, no step of any
      run changes the log again, and no new update can ever start. */
  predicate StuckCancelling(sys: System) {
    && LogInv(sys) && sys.log != [] && Last(sys.log).state == Cancelling
    && forall r :: r in sys.runners ==> !CanAct(sys.runners[r].state)
  }

  lemma {:induction false} CancellingForever(sys: System, steps: seq<Step>)
    requires StuckCancelling(sys) && Runs(sys, steps)
    ensures Result(sys, steps).log == sys.log && StuckCancelling(Result(sys, steps))
    ensures forall r, id, cref :: !Enabled(Result(sys, steps), New(r, id, cref))
  {
    if steps != [] {
      var n := |steps| - 1;
      CancellingForever(sys, steps[..n]);
      var before := Result(sys, steps[..n]);
      LatestIsLast(before.log);
      StepKeepsLogInv(before, steps[n]);
    }
    LatestIsLast(sys.log);
  }

  /** It is reached by a cancel that is interrupted, or that crashes after its first write. */
  lemma InterruptedCancelIsStuck(sys: System, r: nat, op: Op, written: nat, alive: bool)
    requires LogInv(sys) && r in sys.runners && op.Cancel? && Accepts(op, sys.runners[r].state)
    requires forall q :: q in sys.runners && q != r ==> !CanAct(sys.runners[q].state)
    requires (op.work == Interrupted && written == 2) || (written == 1 && !alive)
    ensures Enabled(sys, Do(r, op, written, alive)) && !Panics(sys, Do(r, op, written, alive))
    ensures StuckCancelling(Next(sys, Do(r, op, written, alive)))
  {
    StepKeepsLogInv(sys, Do(r, op, written, alive));
  }

  // ---------- Failure counting over runs ----------

  /** The count of a reference moves only when its last update reaches a final state: up by one when it fails,
      to zero when it completes, not at all when it is canceled or still under way. */
  lemma CountAfterWrite(log: Log, rec: Record, cref: string)
    requires log != [] && !Final(Last(log).state)
    ensures Matches(log[|log| - 1], cref) ==>
      FailCount(WriteLast(log, rec), cref)
        == if rec.state == Failed then FailCount(log, cref) + 1
          else if rec.state == Completed then 0 else FailCount(log, cref)
    ensures !Matches(log[|log| - 1], cref) ==> FailCount(WriteLast(log, rec), cref) == FailCount(log, cref)
  {
    var n := |log| - 1;
    assert WriteLast(log, rec)[..n] == log[..n];
    assert Key(WriteLast(log, rec)[n]) == Key(log[n]);
  }

  /** A new update does not change any count. */
  lemma CountAfterNew(log: Log, id: string, cref: string, asked: string)
    ensures FailCount(log + [Entry(id, cref, Record(id, cref, Created))], asked) == FailCount(log, asked)
  {
    var all := log + [Entry(id, cref, Record(id, cref, Created))];
    assert all[..|all| - 1] == log;
  }

  /** So over any run with one live runner per update, step by step: the count of a reference goes up by one
      when an update of it fails, drops to zero when one completes, and is otherwise left alone. */
  lemma CountOverStep(sys: System, step: Step, cref: string)
    requires SoloInv(sys) && Enabled(sys, step) && Solo(sys, step)
    ensures !Panics(sys, step)
    ensures FailCount(Next(sys, step).log, cref) ==
      if step.Do? && step.written > 0 && Matches(sys.log[|sys.log| - 1], cref) then
        match Last(Next(sys, step).log).state
        case Failed => FailCount(sys.log, cref) + 1
        case Completed => 0
        case _ => FailCount(sys.log, cref)
      else FailCount(sys.log, cref)
  {
    StepKeepsLogInv(sys, step);
    match step
    case New(r, id, c) => CountAfterNew(sys.log, id, c, cref);
    case Do(r, op, written, alive) =>
      DoKeepsSoloInv(sys, r, op, written, alive);
      if written > 0 {
        CountAfterWrite(sys.log, sys.runners[r].(state := Writes(op)[written - 1]), cref);
      }
    case _ =>
  }

  /** The i-th step of a run wrote the given state into the last record, one of the client reference. */
  ghost predicate Ended(steps: seq<Step>, cref: string, i: nat, state: UState) {
    && i < |steps| && Runs(EMPTY, steps[..i + 1]) && steps[i].Do? && steps[i].written > 0
    && var log := Result(EMPTY, steps[..i + 1]).log;
      log != [] && Matches(log[|log| - 1], cref) && Last(log).state == state
  }

  /** The steps that failed an update of the reference with no later step completing one. */
  ghost predicate FailedSince(steps: seq<Step>, cref: string, i: nat) {
    Ended(steps, cref, i, Failed) && forall j :: i < j < |steps| ==> !Ended(steps, cref, j, Completed)
  }

  ghost function FailuresSince(steps: seq<Step>, cref: string): set<nat> {
    set i: nat | i < |steps| && FailedSince(steps, cref, i)
  }

  lemma EndedPrefix(steps: seq<Step>, cref: string, i: nat, state: UState)
    requires steps != [] && i < |steps| - 1
    ensures Ended(steps, cref, i, state) <==> Ended(steps[..|steps| - 1], cref, i, state)
  {
    assert steps[..|steps| - 1][..i + 1] == steps[..i + 1];
  }

  lemma FailedSincePrefix(steps: seq<Step>, cref: string, i: nat)
    requires steps != [] && i < |steps| - 1
    ensures FailedSince(steps, cref, i)
       <==> FailedSince(steps[..|steps| - 1], cref, i) && !Ended(steps, cref, |steps| - 1, Completed)
  {
    var n := |steps| - 1;
    EndedPrefix(steps, cref, i, Failed);
    forall j | i < j < n ensures Ended(steps, cref, j, Completed) <==> Ended(steps[..n], cref, j, Completed) {
      EndedPrefix(steps, cref, j, Completed);
    }
    if FailedSince(steps[..n], cref, i) && !Ended(steps, cref, n, Completed) {
      forall j | i < j < |steps| ensures !Ended(steps, cref, j, Completed) {
        assert j < n ==> !Ended(steps[..n], cref, j, Completed);
      }
    }
    if FailedSince(steps, cref, i) {
      forall j | i < j < n ensures !Ended(steps[..n], cref, j, Completed) {
        assert !Ended(steps, cref, j, Completed);
      }
    }
  }

  /** What the last step of a run ended. */
  lemma LastEnded(steps: seq<Step>, cref: string)
    requires SoloRuns(EMPTY, steps) && steps != [] && SoloInv(Result(EMPTY, steps[..|steps| - 1]))
    ensures var n, before := |steps| - 1, Result(EMPTY, steps[..|steps| - 1]);
      var after := Result(EMPTY, steps).log;
      forall state :: Ended(steps, cref, n, state) <==>
        steps[n].Do? && steps[n].written > 0 && before.log != [] && Matches(before.log[|before.log| - 1], cref)
        && Last(after).state == state
  {
    var n := |steps| - 1;
    assert steps[..n + 1] == steps;
    StepKeepsLogInv(Result(EMPTY, steps[..n]), steps[n]);
    var before, after := Result(EMPTY, steps[..n]).log, Result(EMPTY, steps).log;
    if steps[n].Do? && steps[n].written > 0 {
      assert Key(after[|after| - 1]) == Key(before[|before| - 1]);
    }
  }

  lemma FailuresSinceStep(steps: seq<Step>, cref: string)
    requires steps != []
    ensures var n := |steps| - 1;
      forall i :: i in FailuresSince(steps, cref) <==>
        (i in FailuresSince(steps[..n], cref) && !Ended(steps, cref, n, Completed))
          || (i == n && Ended(steps, cref, n, Failed))
  {
    forall i: nat | i < |steps| - 1 {
      FailedSincePrefix(steps, cref, i);
    }
  }

  lemma CountOverLastStep(steps: seq<Step>, cref: string)
    requires SoloRuns(EMPTY, steps) && steps != []
    ensures var n, before := |steps| - 1, FailCount(Result(EMPTY, steps[..|steps| - 1]).log, cref);
      FailCount(Result(EMPTY, steps).log, cref) ==
        if Ended(steps, cref, n, Completed) then 0 else before + (if Ended(steps, cref, n, Failed) then 1 else 0)
  {
    var n := |steps| - 1;
    FinalIsForever(steps[..n], n);
    CountOverStep(Result(EMPTY, steps[..n]), steps[n], cref);
    LastEnded(steps, cref);
  }

  /** Over every run with one live runner per update the count of a reference is the number of steps that
      failed an update of it since the last step that completed one; canceling leaves it alone. */
  lemma {:induction false} CountOverRuns(steps: seq<Step>, cref: string)
    requires SoloRuns(EMPTY, steps)
    ensures FailCount(Result(EMPTY, steps).log, cref) == |FailuresSince(steps, cref)|
  {
    if steps == [] {
      assert FailuresSince(steps, cref) == {};
    } else {
      var n := |steps| - 1;
      CountOverRuns(steps[..n], cref);
      CountOverLastStep(steps, cref);
      FailuresSinceStep(steps, cref);
      CountStep(FailuresSince(steps[..n], cref), FailuresSince(steps, cref), n,
                Ended(steps, cref, n, Completed), Ended(steps, cref, n, Failed));
    }
  }
}
