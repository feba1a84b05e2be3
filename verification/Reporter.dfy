/** The bounded, non-blocking progress reporter as a concurrent machine of producers, one worker and a stop
    (internal/progress/reporter.go). The channel operations are its atomic steps. */
module Reporter {
  import opened Base

  datatype Worker<T> = NotStarted | Idle | Handling(item: T) | Exited

  datatype Stop = Running | Stopping(drain: bool) | Stopped(drain: bool)

  /** `accepted` and `handled` are the items ever queued and ever passed to the handler. */
  datatype State<T> = State(capacity: nat, queue: seq<T>, worker: Worker<T>, stop: Stop,
    accepted: seq<T>, handled: seq<T>)

  datatype Step<T> =
    | StartWorker
    | Update(item: T)
    | Take
    | FinishItem
    | ExitDrained    // the closed channel is empty
    | ExitSignalled  // the done channel is closed; the worker may notice before the queue is empty
    | BeginStop(drain: bool)
    | EndStop

  function New<T>(capacity: nat): State<T> {
    State(capacity, [], NotStarted, Running, [], [])
  }

  /** Updating after a stop is not allowed: it would send on a closed channel. */
  predicate Enabled<T(==)>(st: State<T>, step: Step<T>) {
    match step
    case StartWorker => st.worker == NotStarted && st.stop == Running
    case Update(_) => st.stop == Running
    case Take => st.worker == Idle && st.queue != []
    case FinishItem => st.worker.Handling?
    case ExitDrained => st.worker == Idle && st.queue == [] && st.stop != Running
    case ExitSignalled => st.worker == Idle && st.stop != Running && !st.stop.drain
    case BeginStop(_) => st.stop == Running
    case EndStop => st.stop.Stopping? && (st.worker == NotStarted || st.worker == Exited)
  }

  /** A channel without a buffer hands an item over to a worker that waits for one. */
  predicate HandsOver<T>(st: State<T>) {
    st.capacity == 0 && st.worker == Idle
  }

  /** The result of an update. */
  predicate Accepts<T>(st: State<T>) {
    |st.queue| < st.capacity || HandsOver(st)
  }

  function Next<T(==)>(st: State<T>, step: Step<T>): State<T>
    requires Enabled(st, step)
  {
    match step
    case StartWorker => st.(worker := Idle)
    case Update(item) =>
      if !Accepts(st) then st
      else if HandsOver(st) then st.(worker := Handling(item), accepted := st.accepted + [item])
      else st.(queue := st.queue + [item], accepted := st.accepted + [item])
    case Take => st.(worker := Handling(st.queue[0]), queue := st.queue[1..])
    case FinishItem => st.(worker := Idle, handled := st.handled + [st.worker.item])
    case ExitDrained => st.(worker := Exited)
    case ExitSignalled => st.(worker := Exited)
    case BeginStop(drain) => st.(stop := Stopping(drain))
    case EndStop => st.(stop := Stopped(st.stop.drain))
  }

  function Run<T(==)>(st: State<T>, steps: seq<Step<T>>): Option<State<T>> {
    if steps == [] then Some(st)
    else
      var before := Run(st, steps[..|steps| - 1]);
      if before.None? || !Enabled(before.value, steps[|steps| - 1]) then None
      else Some(Next(before.value, steps[|steps| - 1]))
  }

  function InHand<T>(w: Worker<T>): seq<T> {
    if w.Handling? then [w.item] else []
  }

  predicate Inv<T(==)>(st: State<T>) {
    && st.accepted == st.handled + InHand(st.worker) + st.queue
    && |st.queue| <= st.capacity
    && (st.worker == NotStarted ==> st.handled == [])
    && (st.worker == Exited ==> st.stop != Running && (st.stop.drain ==> st.queue == []))
    && (st.stop.Stopped? ==> st.worker == NotStarted || st.worker == Exited)
  }

  lemma StepKeepsInv<T>(st: State<T>, step: Step<T>)
    requires Inv(st) && Enabled(st, step)
    ensures Inv(Next(st, step)) && Next(st, step).capacity == st.capacity
  {
    var st' := Next(st, step);
    if step.Take? {
      assert st.queue == [st.queue[0]] + st.queue[1..];
    }
  }

  /** There is room for one more item, or a worker waits for it at a channel without buffer. */
  predicate HasRoom<T>(queue: seq<T>, capacity: nat, worker: Worker<T>) {
    |queue| < capacity || (capacity == 0 && worker.Idle?)
  }

  /** What an update does: with room the item is accepted, behind all others on their way; without, nothing. */
  lemma UpdateExactly<T>(st: State<T>, item: T)
    requires Inv(st) && Enabled(st, Update(item))
    ensures var st' := Next(st, Update(item));
      if HasRoom(st.queue, st.capacity, st.worker) then
        && Accepts(st) && st'.accepted == st.accepted + [item] && st'.handled == st.handled && st'.stop == st.stop
        && InHand(st'.worker) + st'.queue == InHand(st.worker) + st.queue + [item]
      else !Accepts(st) && st' == st
  {
  }

  /** The items of all updates of a run. */
  function Offered<T>(steps: seq<Step<T>>): seq<T> {
    if steps == [] then []
    else
      var last := steps[|steps| - 1];
      Offered(steps[..|steps| - 1]) + (if last.Update? then [last.item] else [])
  }

  /** The items of those updates that met room. */
  function Admitted<T(==)>(capacity: nat, steps: seq<Step<T>>): seq<T>
    requires Run(New(capacity), steps).Some?
  {
    if steps == [] then []
    else
      var n := |steps| - 1;
      var before := Run(New(capacity), steps[..n]).value;
      Admitted(capacity, steps[..n])
      + (if steps[n].Update? && HasRoom(before.queue, capacity, before.worker) then [steps[n].item] else [])
  }

  /** Every update of the run met room. */
  ghost predicate AlwaysRoom<T(!new)>(capacity: nat, steps: seq<Step<T>>) {
    forall n :: 0 <= n < |steps| && steps[n].Update? && Run(New(capacity), steps[..n]).Some? ==>
      HasRoom(Run(New(capacity), steps[..n]).value.queue, capacity, Run(New(capacity), steps[..n]).value.worker)
  }

  lemma {:induction false} AllAdmitted<T(!new)>(capacity: nat, steps: seq<Step<T>>)
    requires Run(New(capacity), steps).Some? && AlwaysRoom(capacity, steps)
    ensures Admitted(capacity, steps) == Offered(steps)
  {
    if steps != [] {
      var n := |steps| - 1;
      forall m | 0 <= m < n && steps[..n][m].Update? && Run(New(capacity), steps[..n][..m]).Some?
        ensures HasRoom(Run(New(capacity), steps[..n][..m]).value.queue, capacity,
                        Run(New(capacity), steps[..n][..m]).value.worker)
      {
        assert steps[..n][..m] == steps[..m];
      }
      AllAdmitted(capacity, steps[..n]);
    }
  }

  /** In every interleaving: no item is lost, repeated or reordered on its way, the queue stays within its
      capacity, and what a stop leaves unhandled is exactly what was still queued; a stop of a started
      reporter that drains returns only when every accepted item was handled. */
  lemma {:induction false} EveryInterleaving<T>(capacity: nat, steps: seq<Step<T>>)
    requires Run(New(capacity), steps).Some?
    ensures var st := Run(New(capacity), steps).value;
      && Inv(st) && st.capacity == capacity
      && st.handled <= st.accepted
      && |st.queue| <= capacity
      && (st.stop.Stopped? ==> st.accepted == st.handled + st.queue)
      && (st.stop == Stopped(true) && st.worker != NotStarted ==> st.handled == st.accepted)
      && (!Accepts(st) <==> |st.queue| == capacity && (capacity == 0 ==> st.worker != Idle))
  {
    if steps != [] {
      var n := |steps| - 1;
      EveryInterleaving(capacity, steps[..n]);
      StepKeepsInv(Run(New(capacity), steps[..n]).value, steps[n]);
    }
  }

  lemma {:induction false} AcceptedAreAdmitted<T>(capacity: nat, steps: seq<Step<T>>)
    requires Run(New(capacity), steps).Some?
    ensures Run(New(capacity), steps).value.accepted == Admitted(capacity, steps)
  {
    if steps != [] {
      var n := |steps| - 1;
      AcceptedAreAdmitted(capacity, steps[..n]);
      EveryInterleaving(capacity, steps[..n]);
      var before := Run(New(capacity), steps[..n]).value;
      if steps[n].Update? {
        UpdateExactly(before, steps[n].item);
      } else {
        assert Next(before, steps[n]).accepted == before.accepted;
      }
    }
  }

  lemma {:induction false} StartedByStart<T>(capacity: nat, steps: seq<Step<T>>)
    requires Run(New(capacity), steps).Some?
    ensures Run(New(capacity), steps).value.worker != NotStarted <==> StartWorker in steps
  {
    if steps != [] {
      var n := |steps| - 1;
      StartedByStart(capacity, steps[..n]);
      assert steps == steps[..n] + [steps[n]];
    }
  }

  /** The items accepted are exactly those of the updates that met room, in their order; once a stop of a started
      reporter that drains has returned all of them were handled, and if every update met room all items ever
      offered. */
  lemma HandlesWhatItAdmits<T(!new)>(capacity: nat, steps: seq<Step<T>>)
    requires Run(New(capacity), steps).Some?
    ensures var st := Run(New(capacity), steps).value;
      && st.accepted == Admitted(capacity, steps)
      && (StartWorker in steps && st.stop == Stopped(true) ==> st.handled == Admitted(capacity, steps))
      && (StartWorker in steps && st.stop == Stopped(true) && AlwaysRoom(capacity, steps) ==>
            st.handled == Offered(steps))
  {
    EveryInterleaving(capacity, steps);
    AcceptedAreAdmitted(capacity, steps);
    StartedByStart(capacity, steps);
    if AlwaysRoom(capacity, steps) {
      AllAdmitted(capacity, steps);
    }
  }

  /** Such runs there are: one item on its way from an update to the handler and a draining stop. */
  lemma OneItemDelivered<T>(capacity: nat, item: T)
    requires capacity > 0
    ensures var steps := [StartWorker, Update(item), Take, FinishItem, BeginStop(true), ExitDrained, EndStop];
      && Run(New(capacity), steps).Some?
      && Run(New(capacity), steps).value.handled == [item] && Run(New(capacity), steps).value.stop == Stopped(true)
  {
    var a: seq<Step<T>> := [StartWorker];
    RunOne<T>(New(capacity), [], StartWorker);
    assert [] + [StartWorker] == a;
    RunOne<T>(New(capacity), a, Update(item));
    RunOne<T>(New(capacity), a + [Update(item)], Take);
    RunOne<T>(New(capacity), a + [Update(item)] + [Take], FinishItem);
    RunOne<T>(New(capacity), a + [Update(item)] + [Take] + [FinishItem], BeginStop(true));
    RunOne<T>(New(capacity), a + [Update(item)] + [Take] + [FinishItem] + [BeginStop(true)], ExitDrained);
    RunOne<T>(New(capacity), a + [Update(item)] + [Take] + [FinishItem] + [BeginStop(true)] + [ExitDrained], EndStop);
    assert a + [Update(item)] + [Take] + [FinishItem] + [BeginStop(true)] + [ExitDrained] + [EndStop]
        == [StartWorker, Update(item), Take, FinishItem, BeginStop(true), ExitDrained, EndStop];
  }

  lemma RunOne<T>(st: State<T>, steps: seq<Step<T>>, step: Step<T>)
    requires Run(st, steps).Some? && Enabled(Run(st, steps).value, step)
    ensures Run(st, steps + [step]) == Some(Next(Run(st, steps).value, step))
  {
    assert (steps + [step])[..|steps|] == steps;
  }

  /** What the worker and a stop still have to do. */
  function Work<T>(st: State<T>): nat {
    2 * |st.queue|
    + (match st.worker case Handling(_) => 2 case Idle => 1 case _ => 0)
    + (if st.stop.Stopped? then 0 else 1)
  }

  predicate OfWorkerOrStop<T>(step: Step<T>) {
    step.Take? || step.FinishItem? || step.ExitDrained? || step.ExitSignalled? || step.EndStop?
  }

  /** A stop never hangs: until it has returned some step of the worker or of the stop is possible, and every
      such step leaves less to do. */
  lemma StopReturns<T>(st: State<T>)
    requires Inv(st) && st.stop.Stopping?
    ensures exists step: Step<T> :: OfWorkerOrStop(step) && Enabled(st, step)
    ensures forall step: Step<T> :: OfWorkerOrStop(step) && Enabled(st, step) ==> Work(Next(st, step)) < Work(st)
  {
    var step: Step<T> :=
      if st.worker.Handling? then FinishItem
      else if st.worker.Idle? then (if st.queue == [] then ExitDrained else Take)
      else EndStop;
    assert OfWorkerOrStop(step) && Enabled(st, step);
  }
}
