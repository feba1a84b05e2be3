/** Fetch accounting: the counters of one fetch attempt and the update record they are merged into
    (pkg/compose/fetch.go, pkg/update/fetch.go). */
module Progress {
  import opened Base
  import opened Tree
  import opened Blobs
  import opened Sums

  /** `initial` is what was stored when the update was initialized, `fetched` what is stored now. */
  datatype BlobProgress = BlobProgress(size: int, initial: int, kind: Kind, ref: Ref, state: BlobState, fetched: int)

  type Records = map<Digest, BlobProgress>

  /** What one poll sees of the local store: open ingests with their offsets, refs whose status cannot be
      told, and the sizes of the files that are there. */
  datatype View = View(ingests: map<Ref, int>, broken: set<Ref>, files: map<Digest, int>)

  /** One poll of an attempt, and whether its report reached the update record. */
  datatype Event = Event(view: View, delivered: bool)

  function Gained(b: BlobProgress): int {
    b.fetched - b.initial
  }

  function ToGain(b: BlobProgress): int {
    b.size - b.initial
  }

  ghost function SumFetched(rs: Records): int {
    Sum(rs, Gained)
  }

  ghost function SumTotal(rs: Records): int {
    Sum(rs, ToGain)
  }

  function OkBlobs(rs: Records): set<Digest> {
    set d | d in rs && rs[d].state == BlobOk
  }

  /** The same blobs, with the same records but for their states and the bytes fetched. */
  predicate SameBasis(a: Records, b: Records) {
    a.Keys == b.Keys && forall d :: d in a ==> a[d].(fetched := b[d].fetched, state := b[d].state) == b[d]
  }

  // ---------- Specification of the steps ----------

  function StartOne(b: BlobProgress): BlobProgress {
    b.(fetched := if b.state == BlobOk then b.size else b.initial)
  }

  function Started(rs: Records): Records {
    map d | d in rs :: StartOne(rs[d])
  }

  function PollOne(d: Digest, b: BlobProgress, v: View): BlobProgress {
    if b.state == BlobOk || b.ref in v.broken then b
    else if b.ref in v.ingests then b.(fetched := v.ingests[b.ref], state := BlobFetching)
    else if d in v.files then b.(fetched := v.files[d], state := BlobOk)
    else b
  }

  /** An unfetched blob that is being written. */
  predicate Writing(b: BlobProgress, v: View) {
    b.state != BlobOk && b.ref !in v.broken && b.ref in v.ingests
  }

  /** An unfetched blob whose file is there, with nothing being written under its reference. */
  predicate Stored(d: Digest, b: BlobProgress, v: View) {
    b.state != BlobOk && b.ref !in v.broken && b.ref !in v.ingests && d in v.files
  }

  function Polled(rs: Records, v: View): Records {
    map d | d in rs :: PollOne(d, rs[d], v)
  }

  function Merged(u: Records, p: Records): Records {
    map d | d in u :: if d in p && u[d].state != BlobOk then p[d] else u[d]
  }

  /** The attempt's own records and the update's records after the given polls. */
  function AfterPolls(u: Records, events: seq<Event>): (Records, Records) {
    if events == [] then (Started(u), u)
    else
      var (p, m) := AfterPolls(u, events[..|events| - 1]);
      var last := events[|events| - 1];
      var q := Polled(p, last.view);
      (q, if last.delivered then Merged(m, q) else m)
  }

  /** The update's records after any number of attempts, each cut off anywhere. */
  function AfterAttempts(u: Records, attempts: seq<seq<Event>>): Records {
    if attempts == [] then u
    else AfterPolls(AfterAttempts(u, attempts[..|attempts| - 1]), attempts[|attempts| - 1]).1
  }

  /** Integer division as Go does it, towards zero. */
  function GoDiv(a: int, b: int): int
    requires b != 0
  {
    var q := (if a >= 0 then a else -a) / (if b >= 0 then b else -b);
    if (a >= 0) == (b >= 0) then q else -q
  }

  function Percent(current: int, total: int): int {
    if total != 0 then GoDiv(current * 100, total) else 100
  }

  // ---------- The objects ----------

  class FetchProgress {
    var blobs: Records
    var fetchedCount: int
    var currentBytes: int
    var totalBytes: int

    ghost predicate Consistent()
      reads this
    {
      currentBytes == SumFetched(blobs) && totalBytes == SumTotal(blobs) && fetchedCount == |OkBlobs(blobs)|
    }

    /** The setup loop of a fetch, over the recorded blobs in any order. */
    constructor (infos: Records)
      ensures Consistent() && blobs == Started(infos)
      ensures blobs.Keys == infos.Keys
      ensures forall d :: d in infos ==>
        blobs[d].fetched == if infos[d].state == BlobOk then infos[d].size else infos[d].initial
      ensures forall d :: d in infos ==> blobs[d].(fetched := infos[d].fetched) == infos[d]
    {
      blobs, fetchedCount, currentBytes, totalBytes := map[], 0, 0, 0;
      new;
      var todo := infos.Keys;
      assert OkBlobs(blobs) == {};
      while todo != {}
        invariant todo <= infos.Keys && blobs.Keys == infos.Keys - todo
        invariant forall d :: d in blobs ==> blobs[d] == StartOne(infos[d])
        invariant Consistent()
        decreases todo
      {
        var d :| d in todo;
        SetUp(d, infos[d]);
        todo := todo - {d};
      }
    }

    /** What the setup does for one blob. */
    method SetUp(d: Digest, b: BlobProgress)
      requires Consistent() && d !in blobs
      modifies this
      ensures Consistent() && blobs == old(blobs)[d := StartOne(b)]
    {
      Step(blobs, d, StartOne(b));
      totalBytes := totalBytes + (b.size - b.initial);
      if b.state == BlobOk {
        fetchedCount := fetchedCount + 1;
        currentBytes := currentBytes + (b.size - b.initial);
        blobs := blobs[d := b.(fetched := b.size)];
      } else {
        blobs := blobs[d := b.(fetched := b.initial)];
      }
    }

    /** One poll of the store, over the blobs in any order. */
    method Poll(v: View)
      requires Consistent()
      modifies this
      ensures Consistent() && blobs == Polled(old(blobs), v) && totalBytes == old(totalBytes)
      ensures blobs.Keys == old(blobs).Keys
      ensures forall d :: d in blobs && Writing(old(blobs)[d], v) ==>
        blobs[d] == old(blobs)[d].(fetched := v.ingests[old(blobs)[d].ref], state := BlobFetching)
      ensures forall d :: d in blobs && Stored(d, old(blobs)[d], v) ==>
        blobs[d] == old(blobs)[d].(fetched := v.files[d], state := BlobOk)
      ensures forall d :: d in blobs && !Writing(old(blobs)[d], v) && !Stored(d, old(blobs)[d], v) ==>
        blobs[d] == old(blobs)[d]
    {
      ghost var was := blobs;
      var todo := blobs.Keys;
      while todo != {}
        invariant todo <= was.Keys && blobs.Keys == was.Keys
        invariant forall d :: d in was ==> blobs[d] == if d in todo then was[d] else PollOne(d, was[d], v)
        invariant Consistent() && totalBytes == old(totalBytes)
        decreases todo
      {
        var d :| d in todo;
        CheckBlobStatus(d, v);
        todo := todo - {d};
      }
      assert blobs == Polled(was, v);
    }

    /** What a poll does for one blob. */
    method CheckBlobStatus(d: Digest, v: View)
      requires Consistent() && d in blobs
      modifies this
      ensures Consistent() && totalBytes == old(totalBytes)
      ensures blobs == old(blobs)[d := PollOne(d, old(blobs)[d], v)]
    {
      var b := blobs[d];
      Step(blobs, d, PollOne(d, b, v));
      if b.state != BlobOk && b.ref !in v.broken {
        if b.ref in v.ingests {
          currentBytes := currentBytes + (v.ingests[b.ref] - b.fetched);
          blobs := blobs[d := b.(fetched := v.ingests[b.ref], state := BlobFetching)];
        } else if d in v.files {
          currentBytes := currentBytes + (v.files[d] - b.fetched);
          blobs := blobs[d := b.(fetched := v.files[d], state := BlobOk)];
          fetchedCount := fetchedCount + 1;
        }
      }
    }
  }

  /** The part of an update record that the progress callback maintains. */
  class UpdateProgress {
    var blobs: Records
    var totalBlobsBytes: int
    var fetchedBytes: int
    var fetchedBlobs: int
    var progress: int
    var markedFetched: bool

    /** The recorded total is that of the records. */
    ghost predicate Accounted()
      reads this
    {
      totalBlobsBytes == SumTotal(blobs)
    }

    constructor (blobs: Records, totalBlobsBytes: int)
      ensures this.blobs == blobs && this.totalBlobsBytes == totalBlobsBytes
      ensures progress == 0 && !markedFetched
    {
      this.blobs := blobs;
      this.totalBlobsBytes := totalBlobsBytes;
      fetchedBytes, fetchedBlobs, progress, markedFetched := 0, 0, 0, false;
    }

    /** The progress callback: merge a report, blob by blob, skipping those already recorded as fetched. */
    method OnProgress(p: FetchProgress)
      requires p.blobs.Keys == blobs.Keys
      modifies this
      ensures blobs == Merged(old(blobs), p.blobs) && blobs.Keys == old(blobs).Keys
      ensures forall d :: d in blobs && old(blobs)[d].state == BlobOk ==> blobs[d] == old(blobs)[d]
      ensures forall d :: d in blobs && old(blobs)[d].state != BlobOk ==> blobs[d] == p.blobs[d]
      ensures fetchedBytes == p.currentBytes && fetchedBlobs == p.fetchedCount
      ensures totalBlobsBytes == old(totalBlobsBytes)
      ensures progress == Percent(p.currentBytes, totalBlobsBytes)
      ensures markedFetched <==> old(markedFetched) || progress == 100
    {
      ghost var was := blobs;
      var todo := p.blobs.Keys;
      while todo != {}
        invariant todo <= was.Keys && blobs.Keys == was.Keys == p.blobs.Keys
        invariant forall d :: d in was ==> blobs[d] == if d in todo then was[d] else Merged(was, p.blobs)[d]
        invariant totalBlobsBytes == old(totalBlobsBytes) && markedFetched == old(markedFetched)
        decreases todo
      {
        var d :| d in todo;
        if blobs[d].state != BlobOk {
          blobs := blobs[d := p.blobs[d]];
        }
        todo := todo - {d};
      }
      assert blobs == Merged(was, p.blobs);
      fetchedBytes := p.currentBytes;
      fetchedBlobs := p.fetchedCount;
      progress := if totalBlobsBytes != 0 then GoDiv(p.currentBytes * 100, totalBlobsBytes) else 100;
      if progress == 100 {
        markedFetched := true;
      }
    }
  }

  // ---------- Conservation ----------

  /** How the sums change when one record is set. */
  lemma Step(rs: Records, d: Digest, b: BlobProgress)
    ensures SumFetched(rs[d := b]) == SumFetched(rs) + (b.fetched - b.initial)
      - (if d in rs then rs[d].fetched - rs[d].initial else 0)
    ensures SumTotal(rs[d := b]) == SumTotal(rs) + (b.size - b.initial)
      - (if d in rs then rs[d].size - rs[d].initial else 0)
    ensures |OkBlobs(rs[d := b])| == |OkBlobs(rs)|
      + (if b.state == BlobOk then 1 else 0) - (if d in rs && rs[d].state == BlobOk then 1 else 0)
  {
    SumSet(rs, Gained, d, b);
    SumSet(rs, ToGain, d, b);
    CountStep(rs, d, b);
  }

  lemma CountStep(rs: Records, d: Digest, b: BlobProgress)
    ensures |OkBlobs(rs[d := b])| == |OkBlobs(rs)|
      + (if b.state == BlobOk then 1 else 0) - (if d in rs && rs[d].state == BlobOk then 1 else 0)
  {
    forall x | x != d ensures x in OkBlobs(rs[d := b]) <==> x in OkBlobs(rs) {
      assert x in rs[d := b] <==> x in rs;
    }
    SetStep(OkBlobs(rs), OkBlobs(rs[d := b]), d);
  }

  lemma SetStep(before: set<Digest>, after: set<Digest>, d: Digest)
    requires forall x :: x != d ==> (x in after <==> x in before)
    ensures |after| == |before| + (if d in after then 1 else 0) - (if d in before then 1 else 0)
  {
    assert after - {d} == before - {d};
    SizeWithout(before, d);
    SizeWithout(after, d);
  }

  lemma SizeWithout(s: set<Digest>, d: Digest)
    ensures |s| == |s - {d}| + (if d in s then 1 else 0)
  {
    if d !in s {
      assert s - {d} == s;
    }
  }

  /** The total depends only on which blobs there are, their sizes and their starting offsets. */
  lemma TotalOfBasis(a: Records, b: Records)
    requires SameBasis(a, b)
    ensures SumTotal(a) == SumTotal(b)
  {
    SumSame(a, b, ToGain);
  }

  lemma {:induction false} PollsKeepBasis(u: Records, events: seq<Event>)
    ensures SameBasis(u, AfterPolls(u, events).0) && SameBasis(u, AfterPolls(u, events).1)
  {
    if events != [] {
      PollsKeepBasis(u, events[..|events| - 1]);
    }
  }

  lemma {:induction false} AttemptsKeepBasis(u: Records, attempts: seq<seq<Event>>)
    ensures SameBasis(u, AfterAttempts(u, attempts))
  {
    if attempts != [] {
      AttemptsKeepBasis(u, attempts[..|attempts| - 1]);
      PollsKeepBasis(AfterAttempts(u, attempts[..|attempts| - 1]), attempts[|attempts| - 1]);
    }
  }

  /** However often fetching is interrupted and resumed, every attempt works towards the same total: the one
      of the records it all began with. */
  lemma TotalSurvivesResumes(u: Records, attempts: seq<seq<Event>>, events: seq<Event>)
    ensures SumTotal(AfterPolls(AfterAttempts(u, attempts), events).0) == SumTotal(u)
  {
    AttemptsKeepBasis(u, attempts);
    PollsKeepBasis(AfterAttempts(u, attempts), events);
    TotalOfBasis(u, AfterPolls(AfterAttempts(u, attempts), events).0);
  }

  /** A blob once recorded as fetched stays so, its record untouched, through all later attempts. */
  lemma {:induction false} FetchedIsForever(u: Records, attempts: seq<seq<Event>>, d: Digest)
    requires d in OkBlobs(u)
    ensures d in AfterAttempts(u, attempts) && AfterAttempts(u, attempts)[d] == u[d]
  {
    if attempts != [] {
      FetchedIsForever(u, attempts[..|attempts| - 1], d);
      FetchedInAttempt(AfterAttempts(u, attempts[..|attempts| - 1]), attempts[|attempts| - 1], d);
    }
  }

  lemma {:induction false} FetchedInAttempt(u: Records, events: seq<Event>, d: Digest)
    requires d in OkBlobs(u)
    ensures d in AfterPolls(u, events).1 && AfterPolls(u, events).1[d] == u[d]
  {
    if events != [] {
      FetchedInAttempt(u, events[..|events| - 1], d);
    }
  }

  /** Every blob lies between its starting offset and its size. */
  predicate InRange(rs: Records) {
    forall d :: d in rs ==> rs[d].initial <= rs[d].fetched <= rs[d].size
  }

  predicate Full(rs: Records) {
    forall d :: d in rs ==> rs[d].fetched == rs[d].size
  }

  /** The bytes fetched so far stay within the total and reach it exactly when every blob is full. */
  lemma FetchedWithinTotal(rs: Records)
    requires InRange(rs)
    ensures 0 <= SumFetched(rs) <= SumTotal(rs)
    ensures SumFetched(rs) == SumTotal(rs) <==> Full(rs)
  {
    SumLeq(rs, Gained, ToGain);
    SumLeq(rs, Nothing, Gained);
    SumOfZeros(rs, Nothing);
  }

  lemma FullIsTotal(rs: Records)
    requires Full(rs)
    ensures SumFetched(rs) == SumTotal(rs) && Percent(SumFetched(rs), SumTotal(rs)) == 100
  {
    SumLeq(rs, Gained, ToGain);
    var n := SumTotal(rs);
    if n > 0 {
      DivideWhole(n * 100, n);
    } else if n < 0 {
      DivideWhole(-n * 100, -n);
    }
  }

  lemma DivideWhole(a: int, b: int)
    requires b > 0 && a == b * 100
    ensures a / b == 100
  {
  }

  function Nothing(b: BlobProgress): int {
    0
  }

  /** What a poll sees is plausible for these records: offsets and file sizes between the starting offset and
      the descriptor's size. */
  predicate Plausible(rs: Records, v: View) {
    forall d :: d in rs ==>
      && (rs[d].ref in v.ingests ==> rs[d].initial <= v.ingests[rs[d].ref] <= rs[d].size)
      && (d in v.files ==> rs[d].initial <= v.files[d] <= rs[d].size)
  }

  lemma {:induction false} PollsKeepRefs(u: Records, events: seq<Event>)
    ensures forall d :: d in u ==> d in AfterPolls(u, events).0 && AfterPolls(u, events).0[d].ref == u[d].ref
  {
    if events != [] {
      PollsKeepRefs(u, events[..|events| - 1]);
    }
  }

  lemma {:induction false} PollsStayInRange(u: Records, events: seq<Event>)
    requires forall d :: d in u ==> u[d].initial <= u[d].size
    requires forall i :: 0 <= i < |events| ==> Plausible(u, events[i].view)
    ensures InRange(AfterPolls(u, events).0)
  {
    if events != [] {
      var n := |events| - 1;
      PollsStayInRange(u, events[..n]);
      PollsKeepBasis(u, events[..n]);
      PollsKeepRefs(u, events[..n]);
      assert Plausible(u, events[n].view);
    }
  }

  /** After any interruptions and at any poll with plausible offsets, the reported percentage of a non-empty
      download is between 0 and 100, and is 100 exactly when every blob is stored in full length. */
  lemma ProgressExact(u: Records, attempts: seq<seq<Event>>, events: seq<Event>)
    requires SumTotal(u) != 0
    requires forall d :: d in u ==> u[d].initial <= u[d].size
    requires forall i :: 0 <= i < |events| ==> Plausible(AfterAttempts(u, attempts), events[i].view)
    ensures var p := AfterPolls(AfterAttempts(u, attempts), events).0;
      && 0 <= Percent(SumFetched(p), SumTotal(u)) <= 100
      && (Percent(SumFetched(p), SumTotal(u)) == 100 <==> Full(p))
  {
    var w := AfterAttempts(u, attempts);
    var p := AfterPolls(w, events).0;
    AttemptsKeepBasis(u, attempts);
    PollsStayInRange(w, events);
    TotalSurvivesResumes(u, attempts, events);
    FetchedWithinTotal(p);
    PercentRange(SumFetched(p), SumTotal(u));
  }

  /** A hundred percent does not mean committed: when every blob still to fetch sits in an open ingest in full
      length, the poll reports full records although not one more blob counts as fetched. */
  lemma FullBeforeCommit(u: Records, v: View)
    requires forall d :: d in u && u[d].state != BlobOk ==>
      u[d].ref !in v.broken && u[d].ref in v.ingests && v.ingests[u[d].ref] == u[d].size
    ensures Full(Polled(Started(u), v)) && OkBlobs(Polled(Started(u), v)) == OkBlobs(u)
    ensures Percent(SumFetched(Polled(Started(u), v)), SumTotal(u)) == 100
  {
    var p := Polled(Started(u), v);
    assert forall d :: d in u ==> p[d] == PollOne(d, Started(u)[d], v);
    FullIsTotal(p);
    TotalOfBasis(u, p);
  }

  /** And conversely: once every blob still to fetch has a file of its full size and nothing is being written, a
      poll gives full records, all of them fetched, all bytes and one hundred percent. */
  lemma StoredIsComplete(u: Records, v: View)
    requires forall d :: d in u && u[d].state != BlobOk ==>
      u[d].ref !in v.broken && u[d].ref !in v.ingests && d in v.files && v.files[d] == u[d].size
    ensures var p := Polled(Started(u), v);
      && Full(p) && OkBlobs(p) == u.Keys
      && SumFetched(p) == SumTotal(u) && Percent(SumFetched(p), SumTotal(u)) == 100
  {
    var p := Polled(Started(u), v);
    CommittedExactly(u, v);
    forall d | d in u ensures p[d].fetched == p[d].size {
      assert p[d] == PollOne(d, StartOne(u[d]), v);
    }
    FullIsTotal(p);
    TotalOfBasis(u, p);
  }

  /** The percentage is the whole part of a hundred times the bytes over the total, towards zero. */
  lemma PercentExactly(current: int, total: int)
    ensures total == 0 ==> Percent(current, total) == 100
    ensures total > 0 && current >= 0 ==>
      Percent(current, total) * total <= current * 100 < Percent(current, total) * total + total
    ensures total > 0 && current < 0 ==>
      Percent(current, total) * total - total < current * 100 <= Percent(current, total) * total
  {
    if total > 0 {
      var a := if current >= 0 then current * 100 else -(current * 100);
      assert a == (a / total) * total + a % total;
    }
  }

  /** After a poll every blob counts as fetched exactly when each one still to fetch has a file and neither an
      open ingest nor a status that cannot be told. */
  lemma CommittedExactly(u: Records, v: View)
    ensures OkBlobs(Polled(Started(u), v)) == u.Keys
       <==> forall d :: d in u && u[d].state != BlobOk ==>
         u[d].ref !in v.broken && u[d].ref !in v.ingests && d in v.files
  {
    var p := Polled(Started(u), v);
    forall d | d in u
      ensures d in OkBlobs(p) <==>
        (u[d].state != BlobOk ==> u[d].ref !in v.broken && u[d].ref !in v.ingests && d in v.files)
    {
      assert p[d] == PollOne(d, StartOne(u[d]), v);
    }
    assert OkBlobs(p) <= u.Keys;
    if OkBlobs(p) == u.Keys {
      assert forall d :: d in u ==> d in OkBlobs(p);
    }
  }

  lemma PercentRange(current: int, total: int)
    requires 0 <= current <= total && total != 0
    ensures 0 <= Percent(current, total) <= 100
    ensures Percent(current, total) == 100 <==> current == total
  {
    var q := current * 100 / total;
    assert Percent(current, total) == q;
    DivideExactly(current * 100, total, q, current * 100 % total);
  }

  lemma DivideExactly(a: int, total: int, q: int, r: int)
    requires 0 <= a <= 100 * total && a == q * total + r && 0 <= r < total
    ensures 0 <= q <= 100
    ensures q == 100 <==> a == 100 * total
  {
    MultiplyMonotone(q, -1, total);
    MultiplyMonotone(101, q, total);
    MultiplyMonotone(q, 99, total);
  }

  lemma MultiplyMonotone(x: int, y: int, z: int)
    requires z > 0
    ensures x <= y ==> x * z <= y * z
  {
  }
}
