/** The persistent log of updates and the operations that write it
    (pkg/update/store.go, pkg/update/update.go). */
module UpdateLog {
  import opened Base

  datatype UState =
    | Created | Initializing | Initialized | Fetching | Fetched | Installing | Installed
    | Starting | Started | Completing | Completed | Failed | Cancelling | Canceled

  /** The part of an update record the life cycle turns on. */
  datatype Record = Record(id: string, cref: string, state: UState)

  /** A bucket entry: the key `<id>:cref:<cref>` in its parts, and the record stored under it. */
  datatype Entry = Entry(id: string, cref: string, rec: Record)

  type Log = seq<Entry>

  predicate Final(s: UState) {
    s in {Completed, Failed, Canceled}
  }

  /** The states in which an update counts as the current one. */
  const CURRENT := {Created, Initializing, Initialized, Fetching, Fetched, Installing, Installed, Starting,
    Started, Completing, Cancelling}

  lemma CurrentIsNotFinal(s: UState)
    ensures s in CURRENT <==> !Final(s)
  {
  }

  lemma CurrentIsOpen(log: Log)
    ensures forall i :: 0 <= i < |log| ==> (Suits(log[i], CURRENT) <==> !Final(log[i].rec.state))
  {
    forall i | 0 <= i < |log| ensures Suits(log[i], CURRENT) <==> !Final(log[i].rec.state) {
      CurrentIsNotFinal(log[i].rec.state);
      CurrentIsNotFinal(Created);
    }
  }

  /** Every write goes to the last key. */
  function WriteLast(log: Log, rec: Record): Log
    requires log != []
  {
    log[|log| - 1 := log[|log| - 1].(rec := rec)]
  }

  /** The latest record in one of the given states; with no states given, the latest of all. */
  function LatestIn(log: Log, states: set<UState>): Option<Record> {
    if log == [] then None
    else
      var rec := log[|log| - 1].rec;
      if states == {} || rec.state in states then Some(rec) else LatestIn(log[..|log| - 1], states)
  }

  predicate Suits(e: Entry, states: set<UState>) {
    states == {} || e.rec.state in states
  }

  // ---------- The operations ----------

  /** How the work of an operation ends. */
  datatype Work = Done | Interrupted | TimedOut | Broken

  datatype Status = Status(fetched: bool, installed: bool, running: bool)

  /** An operation with everything it is given. `given`: app references were passed; `status`: what the
      status check of Init found, if it was asked for and there is nothing to fetch; `full`: the fetch
      callback reported 100 percent. */
  datatype Op =
    | Init(given: bool, allowEmpty: bool, work: Work, status: Option<Status>)
    | Fetch(work: Work, full: bool)
    | Install(work: Work)
    | Start(work: Work)
    | Cancel(work: Work)
    | Complete(work: Work, force: bool)

  predicate Accepts(op: Op, s: UState) {
    match op
    case Init(given, allowEmpty, _, _) =>
      (s == Created && (given || allowEmpty)) || (s in {Initializing, Initialized, Fetching, Fetched} && !given)
    case Fetch(_, _) => s in {Initialized, Fetching, Fetched}
    case Install(_) => s in {Fetched, Installing, Installed}
    case Start(_) => s in {Installed, Starting, Started}
    case Cancel(_) => s in {Created, Initializing, Initialized, Fetching, Fetched, Installing, Installed}
    case Complete(_, _) => s in {Started, Completing}
  }

  /** The operations each state admits, state by state. */
  lemma AcceptsExactly(op: Op, s: UState)
    ensures Accepts(op, s) <==>
      match s
      case Created => (op.Init? && (op.given || op.allowEmpty)) || op.Cancel?
      case Initializing => (op.Init? && !op.given) || op.Cancel?
      case Initialized => (op.Init? && !op.given) || op.Fetch? || op.Cancel?
      case Fetching => (op.Init? && !op.given) || op.Fetch? || op.Cancel?
      case Fetched => (op.Init? && !op.given) || op.Fetch? || op.Install? || op.Cancel?
      case Installing => op.Install? || op.Cancel?
      case Installed => op.Install? || op.Start? || op.Cancel?
      case Starting => op.Start?
      case Started => op.Start? || op.Complete?
      case Completing => op.Complete?
      case _ => false
  {
  }

  /** The state written before the work. */
  function Before(op: Op): UState {
    match op
    case Init(_, _, _, _) => Initializing
    case Fetch(_, _) => Fetching
    case Install(_) => Installing
    case Start(_) => Starting
    case Cancel(_) => Cancelling
    case Complete(_, _) => Completing
  }

  /** The state written after the work. */
  function After(op: Op): UState {
    match op
    case Init(_, _, Done, None) => Initialized
    case Init(_, _, Done, Some(st)) =>
      if st.running then Started else if st.installed then Installed else if st.fetched then Fetched else Initialized
    case Init(_, _, work, _) => if work == Broken then Failed else Initializing
    case Fetch(Done, _) => Fetched
    case Fetch(work, full) => if work == Broken then Failed else if full then Fetched else Fetching
    case Install(work) => if work == Done then Installed else if work == Interrupted then Installing else Failed
    case Start(work) => if work == Done then Started else if work == Interrupted then Starting else Failed
    case Cancel(work) => if work == Done then Canceled else if work == Interrupted then Cancelling else Failed
    case Complete(work, force) => if work == Done || (force && work != Interrupted) then Completed else Completing
  }

  /** All states an operation writes, in order; a fetch marks the update fetched from its callback. */
  function Writes(op: Op): seq<UState> {
    [Before(op)] + (if op.Fetch? && op.full then [Fetched] else []) + [After(op)]
  }

  function Records(rec: Record, states: seq<UState>): seq<Record> {
    seq(|states|, i requires 0 <= i < |states| => rec.(state := states[i]))
  }

  /** The database, with the trail of records written to it. */
  class Database {
    var log: Log
    ghost var trail: seq<Record>

    constructor ()
      ensures log == [] && trail == []
    {
      log := [];
      trail := [];
    }

    method Write(rec: Record)
      requires log != []
      modifies this
      ensures |log| == |old(log)| && log[|log| - 1].rec == rec
      ensures forall i :: 0 <= i < |log| ==> log[i].id == old(log)[i].id && log[i].cref == old(log)[i].cref
      ensures forall i :: 0 <= i < |log| - 1 ==> log[i] == old(log)[i]
      ensures trail == old(trail) + [rec]
    {
      log := log[|log| - 1 := log[|log| - 1].(rec := rec)];
      trail := trail + [rec];
    }

    /** Scan back from the last key. */
    method FindLatest(states: set<UState>) returns (r: Option<Record>)
      ensures r == LatestIn(log, states)
      ensures r.None? <==> forall i :: 0 <= i < |log| ==> !Suits(log[i], states)
      ensures r.Some? ==>
        (exists i :: 0 <= i < |log| && Suits(log[i], states) && r.value == log[i].rec
          && forall j :: i < j < |log| ==> !Suits(log[j], states))
    {
      var i := |log|;
      assert log[..i] == log;
      while i > 0
        invariant i <= |log|
        invariant LatestIn(log[..i], states) == LatestIn(log, states)
        invariant forall j :: i <= j < |log| ==> !Suits(log[j], states)
      {
        i := i - 1;
        if states == {} || log[i].rec.state in states {
          assert Suits(log[i], states);
          return Some(log[i].rec);
        }
        assert log[..i + 1][..i] == log[..i];
      }
      r := None;
    }

    /** Count the failed updates of a client reference since its last completed one. */
    method CountFailed(cref: string) returns (count: nat)
      ensures count == FailCount(log, cref)
    {
      count := 0;
      var i := |log|;
      assert log[..i] == log;
      while i > 0
        invariant i <= |log|
        invariant count + FailCount(log[..i], cref) == FailCount(log, cref)
      {
        i := i - 1;
        assert log[..i + 1][..i] == log[..i];
        if Matches(log[i], cref) {
          if log[i].rec.state == Failed {
            count := count + 1;
          } else if log[i].rec.state == Completed {
            return;
          }
        }
      }
    }

    /** Start a new update, unless one is under way. The new key sorts after all others. */
    method NewUpdate(id: string, cref: string) returns (r: Option<Runner>)
      modifies this`log
      ensures r.None? <==> LatestIn(old(log), CURRENT).Some?
      ensures r.None? <==> exists i :: 0 <= i < |old(log)| && !Final(old(log)[i].rec.state)
      ensures r.None? ==> log == old(log)
      ensures r.Some? ==> log == old(log) + [Entry(id, cref, Record(id, cref, Created))]
      ensures r.Some? ==> fresh(r.value) && r.value.db == this && r.value.rec == Record(id, cref, Created)
    {
      var current := FindLatest(CURRENT);
      CurrentIsOpen(log);
      if current.Some? {
        return None;
      }
      var rec := Record(id, cref, Created);
      log := log + [Entry(id, cref, rec)];
      var runner := new Runner(this, rec);
      r := Some(runner);
    }

    /** Pick up the current update. */
    method GetCurrent() returns (r: Option<Runner>)
      ensures r.None? <==> LatestIn(log, CURRENT).None?
      ensures r.None? <==> forall i :: 0 <= i < |log| ==> Final(log[i].rec.state)
      ensures r.Some? ==> !Final(r.value.rec.state)
      ensures r.Some? ==> fresh(r.value) && r.value.db == this && Some(r.value.rec) == LatestIn(log, CURRENT)
    {
      var current := FindLatest(CURRENT);
      CurrentIsOpen(log);
      if current.None? {
        return None;
      }
      var runner := new Runner(this, current.value);
      r := Some(runner);
    }
  }

  /** A runner keeps its own copy of the record and never reads it again. */
  class Runner {
    const db: Database
    var rec: Record

    constructor (db: Database, rec: Record)
      ensures this.db == db && this.rec == rec
    {
      this.db := db;
      this.rec := rec;
    }

    /** Any of the six operations: check the state, write the state before the work, do the work, write the
        state after it. */
    method Run(op: Op) returns (ok: bool)
      requires db.log != []
      modifies this, db
      ensures !Accepts(op, old(rec.state)) ==>
        !ok && rec == old(rec) && db.log == old(db.log) && db.trail == old(db.trail)
      ensures Accepts(op, old(rec.state)) ==>
        && (ok <==> op.work == Done)
        && rec == old(rec).(state := After(op))
        && db.trail == old(db.trail) + Records(old(rec), Writes(op))
        && db.log == WriteLast(old(db.log), rec)
      // the new state, by the operation and the end of its work
      ensures Accepts(op, old(rec.state)) ==>
        (rec.state == Failed <==>
          ((op.Init? || op.Fetch?) && op.work == Broken)
          || ((op.Install? || op.Start? || op.Cancel?) && (op.work == TimedOut || op.work == Broken)))
      ensures Accepts(op, old(rec.state)) && op.work == Interrupted ==>
        rec.state == (match op
          case Init(_, _, _, _) => Initializing
          case Fetch(_, full) => if full then Fetched else Fetching
          case Install(_) => Installing case Start(_) => Starting
          case Cancel(_) => Cancelling case Complete(_, _) => Completing)
      ensures Accepts(op, old(rec.state)) && op.work == Done && !op.Init? ==>
        rec.state == (match op
          case Fetch(_, _) => Fetched case Install(_) => Installed case Start(_) => Started
          case Cancel(_) => Canceled case _ => Completed)
      ensures Accepts(op, old(rec.state)) && op.Init? && op.work == Done ==>
        && (rec.state == Initialized <==> op.status == None || op.status == Some(Status(false, false, false)))
        && (rec.state == Fetched <==> op.status == Some(Status(true, false, false)))
        && (rec.state == Installed <==> op.status.Some? && op.status.value.installed && !op.status.value.running)
        && (rec.state == Started <==> op.status.Some? && op.status.value.running)
      ensures Accepts(op, old(rec.state)) && op.work == TimedOut ==>
        && (op.Init? ==> rec.state == Initializing)
        && (op.Fetch? ==> rec.state == if op.full then Fetched else Fetching)
      ensures Accepts(op, old(rec.state)) && op.Complete? && op.work != Done ==>
        rec.state == if op.force && op.work != Interrupted then Completed else Completing
      // what was written on the way
      ensures Accepts(op, old(rec.state)) ==>
        var before := match op
          case Init(_, _, _, _) => Initializing case Fetch(_, _) => Fetching case Install(_) => Installing
          case Start(_) => Starting case Cancel(_) => Cancelling case Complete(_, _) => Completing;
        db.trail == old(db.trail) + [old(rec).(state := before)]
          + (if op.Fetch? && op.full then [old(rec).(state := Fetched)] else []) + [rec]
    {
      if !Accepts(op, rec.state) {
        return false;
      }
      CarryOut(op);
      ok := op.work == Done;
    }

    method CarryOut(op: Op)
      requires db.log != []
      modifies this, db
      ensures rec == old(rec).(state := After(op)) && db.log == WriteLast(old(db.log), rec)
      ensures db.trail == old(db.trail) + Records(old(rec), Writes(op))
    {
      rec := rec.(state := Before(op));
      db.Write(rec);
      ghost var begun := db.log;
      assert begun == WriteLast(old(db.log), rec);
      RunWork(op);
      db.Write(rec);
    }

    /** The work of an operation, with what it makes of the record. */
    method RunWork(op: Op)
      requires rec.state == Before(op) && db.log != []
      modifies this, db
      ensures rec == old(rec).(state := After(op))
      ensures db.trail == old(db.trail) + (if op.Fetch? && op.full then [old(rec).(state := Fetched)] else [])
      ensures |db.log| == |old(db.log)| && db.log == WriteLast(old(db.log), db.log[|db.log| - 1].rec)
    {
      match op {
        case Init(_, _, work, status) => RunInit(work, status);
        case Fetch(work, full) => RunFetch(work, full);
        case Complete(work, force) =>
          if work == Done || (force && work != Interrupted) {
            rec := rec.(state := Completed);
          }
        case _ =>
          if op.work == Done {
            rec := rec.(state := if op.Install? then Installed else if op.Start? then Started else Canceled);
          } else if op.work != Interrupted {
            rec := rec.(state := Failed);
          }
      }
    }

    method RunInit(work: Work, status: Option<Status>)
      requires rec.state == Initializing
      modifies this
      ensures rec == old(rec).(state := After(Init(true, true, work, status)))
    {
      if work == Done {
        rec := rec.(state := Initialized);
        if status.Some? {
          if status.value.fetched {
            rec := rec.(state := Fetched);
          }
          if status.value.installed {
            rec := rec.(state := Installed);
          }
          if status.value.running {
            rec := rec.(state := Started);
          }
        }
      } else if work == Broken {
        rec := rec.(state := Failed);
      }
    }

    method RunFetch(work: Work, full: bool)
      requires rec.state == Fetching && db.log != []
      modifies this, db
      ensures rec == old(rec).(state := After(Fetch(work, full)))
      ensures db.trail == old(db.trail) + (if full then [old(rec).(state := Fetched)] else [])
      ensures full ==> db.log == WriteLast(old(db.log), old(rec).(state := Fetched))
      ensures !full ==> db.log == old(db.log)
    {
      if full {
        rec := rec.(state := Fetched);
        db.Write(rec);
      }
      if work == Done {
        rec := rec.(state := Fetched);
      } else if work == Broken {
        rec := rec.(state := Failed);
      }
    }
  }

  // ---------- Counting failures ----------

  function Key(e: Entry): string {
    e.id + ":cref:" + e.cref
  }

  predicate HasSuffix(s: string, suffix: string) {
    |suffix| <= |s| && s[|s| - |suffix|..] == suffix
  }

  predicate Matches(e: Entry, cref: string) {
    HasSuffix(Key(e), "cref:" + cref)
  }

  function FailCount(log: Log, cref: string): nat {
    if log == [] then 0
    else
      var before := FailCount(log[..|log| - 1], cref);
      var last := log[|log| - 1];
      if !Matches(last, cref) then before
      else if last.rec.state == Failed then before + 1
      else if last.rec.state == Completed then 0
      else before
  }

  predicate Closes(e: Entry, cref: string) {
    Matches(e, cref) && e.rec.state == Completed
  }

  /** A failed update of a client reference with no completed one of it after it. */
  predicate OpenAt(log: Log, cref: string, i: nat) {
    i < |log| && Matches(log[i], cref) && log[i].rec.state == Failed
    && forall j :: i < j < |log| ==> !Closes(log[j], cref)
  }

  function OpenFailures(log: Log, cref: string): set<nat> {
    set i: nat | i < |log| && OpenAt(log, cref, i)
  }

  lemma OpenAtPrefix(log: Log, cref: string, i: nat)
    requires log != [] && i < |log| - 1
    ensures OpenAt(log, cref, i) <==> OpenAt(log[..|log| - 1], cref, i) && !Closes(log[|log| - 1], cref)
  {
    var n := |log| - 1;
    assert forall j :: i < j < n ==> log[..n][j] == log[j];
    if OpenAt(log, cref, i) {
      forall j | i < j < n ensures !Closes(log[..n][j], cref) {
        assert !Closes(log[j], cref);
      }
    }
  }

  lemma OpenFailuresStep(log: Log, cref: string)
    requires log != []
    ensures forall i :: i in OpenFailures(log, cref) <==>
      ((i in OpenFailures(log[..|log| - 1], cref) && !Closes(log[|log| - 1], cref))
      || (i == |log| - 1 && Matches(log[|log| - 1], cref) && log[|log| - 1].rec.state == Failed))
  {
    forall i: nat | i < |log| - 1 {
      OpenAtPrefix(log, cref, i);
    }
  }

  lemma CountStep(before: set<nat>, after: set<nat>, n: nat, closes: bool, opens: bool)
    requires n !in before && !(closes && opens)
    requires forall i :: i in after <==> (i in before && !closes) || (i == n && opens)
    ensures |after| == if closes then 0 else |before| + (if opens then 1 else 0)
  {
    if closes {
      assert after == {};
    } else if opens {
      assert after == before + {n};
    } else {
      assert after == before;
    }
  }

  /** The backward scan counts exactly the failures after the last completed update of the reference. */
  lemma {:induction false} FailCountExactly(log: Log, cref: string)
    ensures FailCount(log, cref) == |OpenFailures(log, cref)|
  {
    if log != [] {
      var n := |log| - 1;
      FailCountExactly(log[..n], cref);
      OpenFailuresStep(log, cref);
      CountStep(OpenFailures(log[..n], cref), OpenFailures(log, cref), n,
                Closes(log[n], cref), Matches(log[n], cref) && log[n].rec.state == Failed);
    }
  }

  /** The key suffix picks the entries of the client reference, and also those whose own reference ends in
      `cref:` and that reference. An update identifier is upper case, so it holds no 'c'. */
  lemma MatchesExactly(e: Entry, cref: string)
    requires 'c' !in e.id
    ensures Matches(e, cref) <==> e.cref == cref || HasSuffix(e.cref, "cref:" + cref)
  {
    var k, s := Key(e), "cref:" + cref;
    var at := |k| - |s|;
    assert k[|e.id| + 1..] == "cref:" + e.cref;
    assert k[|e.id| + 6..] == e.cref;
    if 0 <= at < |e.id| + 1 {
      assert k[at] != 'c' by {
        assert at < |e.id| ==> k[at] == e.id[at];
      }
      assert k[at..][0] == k[at] && s[0] == 'c';
      assert |cref| > |e.cref|;
    } else if at == |e.id| + 1 {
      assert k[at..] == "cref:" + e.cref;
      assert ("cref:" + e.cref)[5..] == e.cref && s[5..] == cref;
    } else if |e.id| + 1 < at < |e.id| + 6 {
      NoOverlap(e.cref, cref, k[at..], at - |e.id| - 1);
    } else if at >= |e.id| + 6 {
      assert k[at..] == e.cref[at - |e.id| - 6..];
    }
  }

  /** The text "cref:" does not overlap itself. */
  lemma NoOverlap(inner: string, cref: string, tail: string, shift: int)
    requires 0 < shift < 5 && tail == ("cref:" + inner)[shift..]
    ensures tail != "cref:" + cref
    ensures |tail| == |cref| + 5 ==> inner != cref && !HasSuffix(inner, "cref:" + cref)
  {
    assert tail[0] == ("cref:" + inner)[shift];
    assert ("cref:" + cref)[0] == 'c';
  }
}
