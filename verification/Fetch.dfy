/** Fetching the blobs of an update: the order, the copy loop with polls in between, and what a successful
    or interrupted attempt leaves in the store (pkg/compose/fetch.go, pkg/compose/blob.go). */
module Fetch {
  import opened Base
  import opened Tree
  import opened Loader
  import opened AppStore
  import opened Blobs
  import opened Progress

  // ---------- The order ----------

  /** Metadata before image layers, and inside each class resumed blobs before new ones. */
  function Rank(b: BlobProgress): nat {
    (if b.kind == ImageLayer then 2 else 0) + (if b.state == BlobFetching then 0 else 1)
  }

  function Pending(rs: Records): set<Digest> {
    set d | d in rs && rs[d].state != BlobOk
  }

  /** A duplicate-free listing of exactly the blobs still to fetch, by rank. */
  ghost predicate IsOrder(order: seq<Digest>, rs: Records) {
    && Elems(order) == Pending(rs)
    && (forall i, j :: 0 <= i < j < |order| ==> order[i] != order[j])
    && (forall i, j :: 0 <= i < j < |order| && order[i] in rs && order[j] in rs ==>
      Rank(rs[order[i]]) <= Rank(rs[order[j]]))
  }

  ghost predicate Fits(order: seq<Digest>, rs: Records) {
    IsOrder(order, rs) && Elems(order) <= rs.Keys
  }

  /** A listing of exactly the blobs of the given rank among those looked at so far. */
  ghost predicate Lists(part: seq<Digest>, rs: Records, looked: set<Digest>, rank: nat) {
    && (forall d :: d in part <==> d in looked && d in rs && rs[d].state != BlobOk && Rank(rs[d]) == rank)
    && (forall i, j :: 0 <= i < j < |part| ==> part[i] != part[j])
  }

  method OrderBlobs(rs: Records) returns (order: seq<Digest>)
    ensures IsOrder(order, rs)
    ensures forall d :: d in order <==> d in rs && rs[d].state != BlobOk
    ensures forall i, j :: 0 <= i < j < |order| ==> order[i] != order[j]
    ensures forall i, j :: 0 <= i < j < |order| && rs[order[i]].kind == ImageLayer ==> rs[order[j]].kind == ImageLayer
    ensures forall i, j :: 0 <= i < j < |order| && Interrupted(rs, order[j]) && SameClass(rs, order[i], order[j]) ==>
        Interrupted(rs, order[i])
  {
    var resumeMeta: seq<Digest>, startMeta: seq<Digest>, resumeData: seq<Digest>, startData: seq<Digest>
      := [], [], [], [];
    var todo := rs.Keys;
    while todo != {}
      invariant todo <= rs.Keys
      invariant Lists(resumeMeta, rs, rs.Keys - todo, 0) && Lists(startMeta, rs, rs.Keys - todo, 1)
      invariant Lists(resumeData, rs, rs.Keys - todo, 2) && Lists(startData, rs, rs.Keys - todo, 3)
      decreases todo
    {
      var d :| d in todo;
      var isData := rs[d].kind == ImageLayer;
      ghost var looked := rs.Keys - todo;
      OneMore(resumeMeta, rs, looked, d, 0);
      OneMore(startMeta, rs, looked, d, 1);
      OneMore(resumeData, rs, looked, d, 2);
      OneMore(startData, rs, looked, d, 3);
      if rs[d].state == BlobOk {
      } else if rs[d].state == BlobFetching && !isData {
        resumeMeta := resumeMeta + [d];
      } else if rs[d].state == BlobFetching && isData {
        resumeData := resumeData + [d];
      } else if !isData {
        startMeta := startMeta + [d];
      } else {
        startData := startData + [d];
      }
      todo := todo - {d};
      assert rs.Keys - todo == looked + {d};
    }
    order := resumeMeta + startMeta + resumeData + startData;
    InOrder(rs, resumeMeta, startMeta, resumeData, startData);
    OrderedExactly(order, rs);
  }

  /** The blob was being fetched. */
  predicate Interrupted(rs: Records, d: Digest)
    requires d in rs
  {
    rs[d].state == BlobFetching
  }

  /** Both are image layers, or neither is. */
  predicate SameClass(rs: Records, a: Digest, b: Digest)
    requires a in rs && b in rs
  {
    rs[a].kind == ImageLayer <==> rs[b].kind == ImageLayer
  }

  /** An order lists exactly the unfetched blobs, each once; no image layer precedes a blob of another kind; and
      in both classes the blobs whose fetch was interrupted precede the others. */
  lemma OrderedExactly(order: seq<Digest>, rs: Records)
    ensures IsOrder(order, rs) <==>
      && (forall d :: d in order <==> d in rs && rs[d].state != BlobOk)
      && (forall i, j :: 0 <= i < j < |order| ==> order[i] != order[j])
      && (forall i, j :: 0 <= i < j < |order| && rs[order[i]].kind == ImageLayer ==> rs[order[j]].kind == ImageLayer)
      && (forall i, j :: 0 <= i < j < |order| && Interrupted(rs, order[j]) && SameClass(rs, order[i], order[j]) ==>
          Interrupted(rs, order[i]))
  {
    assert Elems(order) == Pending(rs) <==> forall d :: d in order <==> d in rs && rs[d].state != BlobOk by {
      forall d ensures d in Elems(order) <==> d in order {
      }
      forall d ensures d in Pending(rs) <==> d in rs && rs[d].state != BlobOk {
      }
    }
    if forall d :: d in order <==> d in rs && rs[d].state != BlobOk {
      assert forall i :: 0 <= i < |order| ==> order[i] in order;
      RanksExactly(order, rs);
    }
  }

  lemma RanksExactly(order: seq<Digest>, rs: Records)
    requires forall i :: 0 <= i < |order| ==> order[i] in rs
    ensures (forall i, j :: 0 <= i < j < |order| ==> Rank(rs[order[i]]) <= Rank(rs[order[j]]))
       <==>
      && (forall i, j :: 0 <= i < j < |order| && rs[order[i]].kind == ImageLayer ==> rs[order[j]].kind == ImageLayer)
      && (forall i, j :: 0 <= i < j < |order| && Interrupted(rs, order[j]) && SameClass(rs, order[i], order[j]) ==>
          Interrupted(rs, order[i]))
  {
    if forall i, j :: 0 <= i < j < |order| ==> Rank(rs[order[i]]) <= Rank(rs[order[j]]) {
      forall i, j | 0 <= i < j < |order|
        ensures rs[order[i]].kind == ImageLayer ==> rs[order[j]].kind == ImageLayer
        ensures Interrupted(rs, order[j]) && SameClass(rs, order[i], order[j]) ==> Interrupted(rs, order[i])
      {
        assert Rank(rs[order[i]]) <= Rank(rs[order[j]]);
      }
    }
  }

  lemma OneMore(part: seq<Digest>, rs: Records, looked: set<Digest>, d: Digest, rank: nat)
    requires Lists(part, rs, looked, rank) && d in rs && d !in looked
    ensures var grown := if rs[d].state != BlobOk && Rank(rs[d]) == rank then part + [d] else part;
      Lists(grown, rs, looked + {d}, rank)
  {
  }

  lemma InOrder(rs: Records, a: seq<Digest>, b: seq<Digest>, c: seq<Digest>, d: seq<Digest>)
    requires Lists(a, rs, rs.Keys, 0) && Lists(b, rs, rs.Keys, 1)
      && Lists(c, rs, rs.Keys, 2) && Lists(d, rs, rs.Keys, 3)
    ensures IsOrder(a + b + c + d, rs)
  {
    JoinRuns(a, b, rs, 0, 0, 1);
    JoinRuns(a + b, c, rs, 0, 1, 2);
    JoinRuns(a + b + c, d, rs, 0, 2, 3);
    forall x ensures x in Elems(a + b + c + d) <==> x in Pending(rs) {
    }
  }

  /** Distinct pending blobs in order, with ranks in the given range. */
  ghost predicate Run(order: seq<Digest>, rs: Records, lo: nat, hi: nat) {
    && (forall i :: 0 <= i < |order| ==> order[i] in rs && lo <= Rank(rs[order[i]]) <= hi)
    && (forall i, j :: 0 <= i < j < |order| ==> order[i] != order[j] && Rank(rs[order[i]]) <= Rank(rs[order[j]]))
  }

  lemma JoinRuns(a: seq<Digest>, b: seq<Digest>, rs: Records, lo: nat, mid: nat, hi: nat)
    requires Run(a, rs, lo, mid) && Run(b, rs, mid + 1, hi) && lo <= mid < hi
    ensures Run(a + b, rs, lo, hi) && Elems(a + b) == Elems(a) + Elems(b)
  {
    var c := a + b;
    forall i, j | 0 <= i < j < |c| ensures c[i] != c[j] && Rank(rs[c[i]]) <= Rank(rs[c[j]]) {
      if i < |a| <= j {
        assert Rank(rs[c[i]]) <= mid < Rank(rs[c[j]]);
      }
    }
  }

  // ---------- An attempt, step by step ----------

  /** The environment of one poll: open ingests, refs whose status fails, and whether the report gets
      through to the record. */
  datatype Poll = Poll(ingests: map<Ref, int>, broken: set<Ref>, delivered: bool)

  /** The blob files, the attempt's own records, the update's records, and the polls made so far. */
  datatype State = State(blobs: map<Digest, Bytes>, p: Records, u: Records, trace: seq<Event>)

  function Sizes(blobs: map<Digest, Bytes>): map<Digest, int> {
    map d | d in blobs :: |blobs[d]|
  }

  function PollOnce(st: State, poll: Poll): State {
    var v := View(poll.ingests, poll.broken, Sizes(st.blobs));
    var q := Polled(st.p, v);
    st.(p := q, u := if poll.delivered then Merged(st.u, q) else st.u, trace := st.trace + [Event(v, poll.delivered)])
  }

  function PollMany(st: State, polls: seq<Poll>): State {
    if polls == [] then st else PollOnce(PollMany(st, polls[..|polls| - 1]), polls[|polls| - 1])
  }

  /** A forced copy: a file that is there is deleted first, and only bytes of the right size and digest are
      committed. No reply means the request failed before anything was touched. */
  function CopyOne(e: Env, blobs: map<Digest, Bytes>, d: Digest, size: int,
                   reply: Option<Bytes>): (map<Digest, Bytes>, bool) {
    if reply.None? then (blobs, false)
    else if Right(e, d, size, reply.value) then (blobs[d := reply.value], true)
    else (blobs - {d}, false)
  }

  function CopyStep(e: Env, st: State, d: Digest, size: int, reply: Option<Bytes>): (State, bool) {
    var (blobs, ok) := CopyOne(e, st.blobs, d, size, reply);
    (st.(blobs := blobs), ok)
  }

  /** The first n blobs of the order, with polls before each of them. */
  function Copies(e: Env, st: State, order: seq<Digest>,
                  polls: nat -> seq<Poll>, reply: nat -> Option<Bytes>, n: nat): (State, bool)
    requires n <= |order| && Elems(order) <= st.u.Keys
  {
    if n == 0 then (st, true)
    else
      var (before, ok) := Copies(e, st, order, polls, reply, n - 1);
      if !ok then (before, false)
      else CopyStep(e, PollMany(before, polls(n - 1)), order[n - 1], st.u[order[n - 1]].size, reply(n - 1))
  }

  function Begin(blobs: map<Digest, Bytes>, u: Records): State {
    State(blobs, Started(u), u, [])
  }

  function Attempt(e: Env, blobs: map<Digest, Bytes>, u: Records, order: seq<Digest>,
                   polls: nat -> seq<Poll>, reply: nat -> Option<Bytes>): (State, bool)
    requires Elems(order) <= u.Keys
  {
    var (st, ok) := Copies(e, Begin(blobs, u), order, polls, reply, |order|);
    (PollMany(st, polls(|order|)), ok)
  }

  /** The objects are in the given state. */
  ghost predicate Tracks(store: AppStore, fp: FetchProgress, u: UpdateProgress, st: State)
    reads store, fp, u
  {
    && fp.Consistent() && u.blobs.Keys == fp.blobs.Keys
    && st.blobs == store.blobs && st.p == fp.blobs && st.u == u.blobs
  }

  /** The polling side, on the objects. */
  method RunPolls(store: AppStore, fp: FetchProgress, u: UpdateProgress, polls: seq<Poll>, ghost st: State)
    returns (ghost st': State)
    requires Tracks(store, fp, u, st)
    modifies fp, u
    ensures st' == PollMany(st, polls) && Tracks(store, fp, u, st')
    ensures fp.totalBytes == old(fp.totalBytes) && u.totalBlobsBytes == old(u.totalBlobsBytes)
  {
    st' := st;
    for i := 0 to |polls|
      invariant st' == PollMany(st, polls[..i]) && Tracks(store, fp, u, st')
      invariant fp.totalBytes == old(fp.totalBytes) && u.totalBlobsBytes == old(u.totalBlobsBytes)
    {
      fp.Poll(View(polls[i].ingests, polls[i].broken, Sizes(store.blobs)));
      if polls[i].delivered {
        u.OnProgress(fp);
      }
      st' := PollOnce(st', polls[i]);
      assert polls[..i + 1][..i] == polls[..i];
    }
    assert polls[..|polls|] == polls;
  }

  predicate Right(e: Env, d: Digest, size: int, data: Bytes) {
    |data| == size && e.hash(data) == d
  }

  /** Copy one blob with force: only whole blobs are committed, and a copy that fails after its delete leaves
      no file. */
  method CopyBlob(store: AppStore, d: Digest, size: int, reply: Option<Bytes>) returns (ok: bool)
    modifies store`blobs
    ensures ok <==> reply.Some? && Right(store.env, d, size, reply.value)
    ensures ok ==> Whole(store.env, store.blobs, d, size) && store.blobs[d] == reply.value
    ensures !ok && reply.None? ==> SameFile(old(store.blobs), store.blobs, d)
    ensures !ok && reply.Some? ==> d !in store.blobs
    ensures forall x :: x != d ==> SameFile(old(store.blobs), store.blobs, x)
  {
    if reply.None? {
      return false;
    }
    store.blobs := store.blobs - {d};
    ok := |reply.value| == size && store.env.hash(reply.value) == d;
    if ok {
      store.blobs := store.blobs[d := reply.value];
    }
  }

  /** A change of files that keeps to the contract of a copy is the copy. */
  lemma CopiedOne(e: Env, before: map<Digest, Bytes>, after: map<Digest, Bytes>, d: Digest, size: int,
                  reply: Option<Bytes>, ok: bool)
    requires ok <==> reply.Some? && Right(e, d, size, reply.value)
    requires ok ==> d in after && after[d] == reply.value
    requires !ok && reply.None? ==> SameFile(before, after, d)
    requires !ok && reply.Some? ==> d !in after
    requires forall x :: x != d ==> SameFile(before, after, x)
    ensures (after, ok) == CopyOne(e, before, d, size, reply)
  {
    var copied := CopyOne(e, before, d, size, reply).0;
    forall x ensures SameFile(after, copied, x) {
      assert x != d ==> SameFile(before, after, x);
    }
    SameFilesSameMap(after, copied);
  }

  lemma SameFilesSameMap(a: map<Digest, Bytes>, b: map<Digest, Bytes>)
    requires forall d :: SameFile(a, b, d)
    ensures a == b
  {
    forall d ensures d in a <==> d in b {
      assert SameFile(a, b, d);
    }
    assert a.Keys == b.Keys;
    forall d | d in a ensures a[d] == b[d] {
      assert SameFile(a, b, d);
    }
  }

  /** Everything a loop round does for one blob. */
  method FetchOne(store: AppStore, fp: FetchProgress, u: UpdateProgress, d: Digest, ghost size: int, polls: seq<Poll>,
                  reply: Option<Bytes>, ghost st: State)
    returns (ok: bool, ghost st': State)
    requires Tracks(store, fp, u, st)
    requires d in fp.blobs && fp.blobs[d].size == size
    modifies store`blobs, fp, u
    ensures (st', ok) == CopyStep(store.env, PollMany(st, polls), d, size, reply) && Tracks(store, fp, u, st')
    ensures u.totalBlobsBytes == old(u.totalBlobsBytes)
  {
    PollManyKeepsBasis(st, polls);
    st' := RunPolls(store, fp, u, polls, st);
    ghost var before := store.blobs;
    ok := CopyBlob(store, d, fp.blobs[d].size, reply);
    CopiedOne(store.env, before, store.blobs, d, size, reply, ok);
    st' := st'.(blobs := store.blobs);
  }

  /** The copy loop over an ordered list; it stops at the first failure. */
  method CopyBlobs(store: AppStore, fp: FetchProgress, u: UpdateProgress, order: seq<Digest>,
                   polls: nat -> seq<Poll>, reply: nat -> Option<Bytes>, ghost begin: State)
    returns (ok: bool, ghost st: State)
    requires Tracks(store, fp, u, begin) && begin == Begin(begin.blobs, begin.u)
    requires Elems(order) <= begin.u.Keys
    modifies store`blobs, fp, u
    ensures (st, ok) == Copies(store.env, begin, order, polls, reply, |order|) && Tracks(store, fp, u, st)
    ensures u.totalBlobsBytes == old(u.totalBlobsBytes)
  {
    st, ok := begin, true;
    var i := 0;
    while ok && i < |order|
      invariant i <= |order| && Tracks(store, fp, u, st)
      invariant (st, ok) == Copies(store.env, begin, order, polls, reply, i)
      invariant u.totalBlobsBytes == old(u.totalBlobsBytes)
    {
      InOrderIsRecorded(store.env, begin.blobs, begin.u, order, polls, reply, i);
      ok, st := FetchOne(store, fp, u, order[i], begin.u[order[i]].size, polls(i), reply(i), st);
      i := i + 1;
    }
    FailureStays(store.env, begin, order, polls, reply, i, |order|);
  }

  lemma InOrderIsRecorded(e: Env, blobs: map<Digest, Bytes>, u: Records, order: seq<Digest>,
                          polls: nat -> seq<Poll>, reply: nat -> Option<Bytes>, i: nat)
    requires Elems(order) <= u.Keys && i < |order|
    ensures order[i] in u
    ensures var st := Copies(e, Begin(blobs, u), order, polls, reply, i).0;
      order[i] in st.p && st.p[order[i]].size == u[order[i]].size
  {
    assert order[i] in Elems(order);
    CopiesBasis(e, blobs, u, order, polls, reply, i);
  }

  /** Fetch the recorded blobs into the store; `total` is the number of bytes the attempt works towards. Even
      when all blobs were copied it fails if its context has `ended` by then. */
  method FetchBlobs(store: AppStore, u: UpdateProgress, polls: nat -> seq<Poll>, reply: nat -> Option<Bytes>,
                    ended: bool)
    returns (ok: bool, total: int, ghost order: seq<Digest>)
    modifies store`blobs, u
    ensures Fits(order, old(u.blobs))
    ensures ok == (Attempt(store.env, old(store.blobs), old(u.blobs), order, polls, reply).1 && !ended)
    ensures store.blobs == Attempt(store.env, old(store.blobs), old(u.blobs), order, polls, reply).0.blobs
    ensures u.blobs == Attempt(store.env, old(store.blobs), old(u.blobs), order, polls, reply).0.u
    ensures ok <==> Answered(store.env, old(u.blobs), order, reply, |order|) && !ended
    ensures forall i: nat :: i < |order| ==>
      FileFollows(store.env, old(store.blobs), store.blobs, old(u.blobs), order, reply, i)
    ensures forall d :: d !in Pending(old(u.blobs)) ==> SameFile(old(store.blobs), store.blobs, d)
    ensures u.totalBlobsBytes == old(u.totalBlobsBytes)
    ensures total == SumTotal(old(u.blobs)) == SumTotal(u.blobs)
    ensures old(u.Accounted()) ==> u.Accounted() && total == u.totalBlobsBytes
  {
    ghost var was := u.blobs;
    var fp := new FetchProgress(u.blobs);
    total := fp.totalBytes;
    TotalOfBasis(was, fp.blobs);
    var todo := OrderBlobs(fp.blobs);
    SameOrder(todo, u.blobs);
    order := todo;
    ghost var st;
    ok, st := CopyBlobs(store, fp, u, todo, polls, reply, Begin(store.blobs, u.blobs));
    st := RunPolls(store, fp, u, polls(|todo|), st);
    ok := ok && !ended;
    AttemptKeepsBasis(store.env, old(store.blobs), was, order, polls, reply);
    AttemptExactly(store.env, old(store.blobs), was, order, polls, reply);
    TotalOfBasis(was, u.blobs);
  }

  lemma AttemptKeepsBasis(e: Env, blobs: map<Digest, Bytes>, u: Records, order: seq<Digest>,
                          polls: nat -> seq<Poll>, reply: nat -> Option<Bytes>)
    requires Elems(order) <= u.Keys
    ensures SameBasis(u, Attempt(e, blobs, u, order, polls, reply).0.u)
  {
    CopiesBasis(e, blobs, u, order, polls, reply, |order|);
    PollManyGrounded(u, Copies(e, Begin(blobs, u), order, polls, reply, |order|).0, polls(|order|));
  }

  lemma SameOrder(order: seq<Digest>, u: Records)
    requires IsOrder(order, Started(u))
    ensures Fits(order, u)
  {
    assert Pending(Started(u)) == Pending(u);
  }

  lemma {:induction false} FailureStays(e: Env, st: State, order: seq<Digest>,
                                        polls: nat -> seq<Poll>, reply: nat -> Option<Bytes>, i: nat, n: nat)
    requires i <= n <= |order| && Elems(order) <= st.u.Keys
    requires i == n || !Copies(e, st, order, polls, reply, i).1
    ensures Copies(e, st, order, polls, reply, n) == Copies(e, st, order, polls, reply, i)
  {
    if i < n {
      FailureStays(e, st, order, polls, reply, i, n - 1);
    }
  }

  /** Polls change no file, and record as fetched only what has a file. */
  lemma {:induction false} PollManyKeepsBasis(st: State, polls: seq<Poll>)
    ensures PollMany(st, polls).blobs == st.blobs
    ensures SameBasis(st.p, PollMany(st, polls).p) && PollMany(st, polls).u.Keys == st.u.Keys
    ensures OkBlobs(PollMany(st, polls).p) <= OkBlobs(st.p) + st.blobs.Keys
  {
    if polls != [] {
      PollManyKeepsBasis(st, polls[..|polls| - 1]);
      PollOnceKeepsBasis(PollMany(st, polls[..|polls| - 1]), polls[|polls| - 1]);
    }
  }

  lemma PollOnceKeepsBasis(st: State, poll: Poll)
    ensures PollOnce(st, poll).blobs == st.blobs
    ensures SameBasis(st.p, PollOnce(st, poll).p) && PollOnce(st, poll).u.Keys == st.u.Keys
    ensures OkBlobs(PollOnce(st, poll).p) <= OkBlobs(st.p) + st.blobs.Keys
  {
  }

  // ---------- What an attempt leaves behind ----------

  predicate RightReply(e: Env, u: Records, d: Digest, reply: Option<Bytes>)
    requires d in u
  {
    reply.Some? && Right(e, d, u[d].size, reply.value)
  }

  /** The first n requests are answered with the blobs asked for. */
  ghost predicate Answered(e: Env, u: Records, order: seq<Digest>, reply: nat -> Option<Bytes>, n: nat)
    requires n <= |order|
  {
    forall i: nat :: i < n ==> order[i] in u && RightReply(e, u, order[i], reply(i))
  }

  /** What becomes of the i-th file: it holds the reply if all went well so far; it is gone if it is here that
      a wrong reply ended the attempt; and it is untouched if no reply came, or the attempt had ended before. */
  ghost predicate FileFollows(e: Env, before: map<Digest, Bytes>, after: map<Digest, Bytes>, u: Records,
                              order: seq<Digest>, reply: nat -> Option<Bytes>, i: nat)
    requires i < |order|
  {
    if Answered(e, u, order, reply, i + 1) then order[i] in after && Some(after[order[i]]) == reply(i)
    else if Answered(e, u, order, reply, i) && reply(i).Some? then order[i] !in after
    else SameFile(before, after, order[i])
  }

  /** A file a round leaves alone has the fate it had. */
  lemma FollowsStill(e: Env, before: map<Digest, Bytes>, mid: map<Digest, Bytes>, after: map<Digest, Bytes>,
                     u: Records, order: seq<Digest>, reply: nat -> Option<Bytes>, i: nat)
    requires i < |order| && SameFile(mid, after, order[i])
    requires FileFollows(e, before, mid, u, order, reply, i)
    ensures FileFollows(e, before, after, u, order, reply, i)
  {
  }

  /** The fate of the file of round n. */
  lemma FollowsNow(e: Env, before: map<Digest, Bytes>, mid: map<Digest, Bytes>, u: Records, order: seq<Digest>,
                   reply: nat -> Option<Bytes>, n: nat)
    requires n < |order| && order[n] in u && SameFile(before, mid, order[n])
    ensures var (after, ok) := CopyOne(e, mid, order[n], u[order[n]].size, reply(n));
      && (Answered(e, u, order, reply, n) ==>
        && (ok <==> Answered(e, u, order, reply, n + 1))
        && FileFollows(e, before, after, u, order, reply, n))
      && (!Answered(e, u, order, reply, n) ==>
        !Answered(e, u, order, reply, n + 1) && FileFollows(e, before, mid, u, order, reply, n))
  {
    AnsweredOneMore(e, u, order, reply, n);
  }

  lemma AnsweredOneMore(e: Env, u: Records, order: seq<Digest>, reply: nat -> Option<Bytes>, n: nat)
    requires n < |order| && order[n] in u
    ensures Answered(e, u, order, reply, n + 1) <==>
      Answered(e, u, order, reply, n) && RightReply(e, u, order[n], reply(n))
  {
    if Answered(e, u, order, reply, n + 1) {
      assert RightReply(e, u, order[n], reply(n));
    }
  }

  /** What one more round makes of the files. */
  lemma CopiesOneMore(e: Env, blobs: map<Digest, Bytes>, u: Records, order: seq<Digest>,
                      polls: nat -> seq<Poll>, reply: nat -> Option<Bytes>, n: nat)
    requires Elems(order) <= u.Keys && n < |order|
    ensures order[n] in u
    ensures var (before, ok) := Copies(e, Begin(blobs, u), order, polls, reply, n);
      var (after, ok') := Copies(e, Begin(blobs, u), order, polls, reply, n + 1);
      (after.blobs, ok') ==
        if ok then CopyOne(e, before.blobs, order[n], u[order[n]].size, reply(n)) else (before.blobs, false)
  {
    assert order[n] in Elems(order);
    PollManyKeepsBasis(Copies(e, Begin(blobs, u), order, polls, reply, n).0, polls(n));
  }

  lemma {:induction false} GoesWellExactly(e: Env, blobs: map<Digest, Bytes>, u: Records, order: seq<Digest>,
                                           polls: nat -> seq<Poll>, reply: nat -> Option<Bytes>, n: nat)
    requires Elems(order) <= u.Keys && n <= |order|
    ensures Copies(e, Begin(blobs, u), order, polls, reply, n).1 <==> Answered(e, u, order, reply, n)
  {
    if n > 0 {
      GoesWellExactly(e, blobs, u, order, polls, reply, n - 1);
      CopiesOneMore(e, blobs, u, order, polls, reply, n - 1);
      AnsweredOneMore(e, u, order, reply, n - 1);
    }
  }

  lemma {:induction false} CopiesExactly(e: Env, blobs: map<Digest, Bytes>, u: Records, order: seq<Digest>,
                                         polls: nat -> seq<Poll>, reply: nat -> Option<Bytes>, n: nat, i: nat)
    requires Elems(order) <= u.Keys && i < n <= |order|
    requires forall j :: 0 <= j < n && j != i ==> order[j] != order[i]
    ensures FileFollows(e, blobs, Copies(e, Begin(blobs, u), order, polls, reply, n).0.blobs, u, order, reply, i)
  {
    var before := Copies(e, Begin(blobs, u), order, polls, reply, n - 1).0.blobs;
    var after := Copies(e, Begin(blobs, u), order, polls, reply, n).0.blobs;
    GoesWellExactly(e, blobs, u, order, polls, reply, n - 1);
    CopiesOneMore(e, blobs, u, order, polls, reply, n - 1);
    if i < n - 1 {
      CopiesExactly(e, blobs, u, order, polls, reply, n - 1, i);
      FollowsStill(e, blobs, before, after, u, order, reply, i);
    } else {
      CopiesUntouched(e, blobs, u, order, polls, reply, n - 1, order[n - 1]);
      FollowsNow(e, blobs, before, u, order, reply, n - 1);
    }
  }

  /** An attempt goes through exactly when every request is answered with the blob asked for; it stops at the
      first that is not, and touches no file from there on, nor one it was not to fetch. */
  lemma AttemptExactly(e: Env, blobs: map<Digest, Bytes>, u: Records, order: seq<Digest>,
                       polls: nat -> seq<Poll>, reply: nat -> Option<Bytes>)
    requires Fits(order, u)
    ensures Attempt(e, blobs, u, order, polls, reply).1 <==> Answered(e, u, order, reply, |order|)
    ensures forall i: nat :: i < |order| ==>
      FileFollows(e, blobs, Attempt(e, blobs, u, order, polls, reply).0.blobs, u, order, reply, i)
    ensures forall d :: d !in Pending(u) ==> SameFile(blobs, Attempt(e, blobs, u, order, polls, reply).0.blobs, d)
  {
    GoesWellExactly(e, blobs, u, order, polls, reply, |order|);
    PollManyKeepsBasis(Copies(e, Begin(blobs, u), order, polls, reply, |order|).0, polls(|order|));
    forall i: nat | i < |order|
      ensures FileFollows(e, blobs, Attempt(e, blobs, u, order, polls, reply).0.blobs, u, order, reply, i)
    {
      CopiesExactly(e, blobs, u, order, polls, reply, |order|, i);
    }
    forall d | d !in Pending(u) ensures SameFile(blobs, Attempt(e, blobs, u, order, polls, reply).0.blobs, d) {
      assert d !in Elems(order);
      CopiesUntouched(e, blobs, u, order, polls, reply, |order|, d);
    }
  }

  predicate Whole(e: Env, blobs: map<Digest, Bytes>, d: Digest, size: int) {
    d in blobs && |blobs[d]| == size && e.hash(blobs[d]) == d
  }

  /** Every blob recorded as fetched is in the store, complete and of the right digest. */
  predicate RecordsHold(e: Env, rs: Records, blobs: map<Digest, Bytes>) {
    forall d :: d in OkBlobs(rs) ==> Whole(e, blobs, d, rs[d].size)
  }

  predicate AllWhole(e: Env, rs: Records, blobs: map<Digest, Bytes>) {
    forall d :: d in rs ==> Whole(e, blobs, d, rs[d].size)
  }

  /** No file is there for a blob that still counts as not fetched. */
  predicate Fresh(rs: Records, blobs: map<Digest, Bytes>) {
    Pending(rs) !! blobs.Keys
  }

  /** Both sets of records keep the basis of the update's, and the update's record of what is fetched never
      runs ahead of the attempt's. */
  predicate Grounded(u0: Records, st: State) {
    SameBasis(u0, st.p) && SameBasis(u0, st.u) && OkBlobs(st.u) <= OkBlobs(st.p)
  }

  lemma PollOnceGrounded(u0: Records, st: State, poll: Poll)
    requires Grounded(u0, st)
    ensures Grounded(u0, PollOnce(st, poll))
  {
    var v := View(poll.ingests, poll.broken, Sizes(st.blobs));
    PolledGrounded(u0, st.p, st.u, v);
  }

  lemma PolledGrounded(u0: Records, p: Records, u: Records, v: View)
    requires SameBasis(u0, p) && SameBasis(u0, u) && OkBlobs(u) <= OkBlobs(p)
    ensures SameBasis(u0, Polled(p, v)) && SameBasis(u0, Merged(u, Polled(p, v)))
    ensures OkBlobs(u) <= OkBlobs(Polled(p, v)) && OkBlobs(Merged(u, Polled(p, v))) <= OkBlobs(Polled(p, v))
  {
    forall d | d in OkBlobs(p) ensures d in OkBlobs(Polled(p, v)) {
      assert Polled(p, v)[d] == p[d];
    }
    forall d | d in OkBlobs(Merged(u, Polled(p, v))) ensures d in OkBlobs(Polled(p, v)) {
      if d in OkBlobs(u) {
        assert d in OkBlobs(p);
      }
    }
  }

  lemma {:induction false} PollManyGrounded(u0: Records, st: State, polls: seq<Poll>)
    requires Grounded(u0, st)
    ensures Grounded(u0, PollMany(st, polls))
  {
    if polls != [] {
      PollManyGrounded(u0, st, polls[..|polls| - 1]);
      PollOnceGrounded(u0, PollMany(st, polls[..|polls| - 1]), polls[|polls| - 1]);
    }
  }

  /** A round touches no file but that of its blob, and what it leaves there was there before or is whole. */
  lemma RoundFrame(e: Env, st: State, polls: seq<Poll>, d: Digest, size: int, reply: Option<Bytes>, x: Digest)
    ensures var after := CopyStep(e, PollMany(st, polls), d, size, reply).0.blobs;
      (x != d ==> SameFile(st.blobs, after, x))
      && (x == d && x in after ==> SameFile(st.blobs, after, x) || Whole(e, after, x, size))
  {
    PollManyKeepsBasis(st, polls);
  }

  /** Only the blobs of the order are touched. */
  lemma {:induction false} CopiesUntouched(e: Env, blobs: map<Digest, Bytes>, u: Records, order: seq<Digest>,
                                           polls: nat -> seq<Poll>, reply: nat -> Option<Bytes>, n: nat, d: Digest)
    requires Elems(order) <= u.Keys && n <= |order| && d !in order[..n]
    ensures SameFile(blobs, Copies(e, Begin(blobs, u), order, polls, reply, n).0.blobs, d)
  {
    if n > 0 {
      assert order[n - 1] in order[..n];
      assert forall i :: 0 <= i < n - 1 ==> order[..n - 1][i] == order[..n][i];
      CopiesUntouched(e, blobs, u, order, polls, reply, n - 1, d);
      InOrderIsRecorded(e, blobs, u, order, polls, reply, n - 1);
      RoundFrame(e, Copies(e, Begin(blobs, u), order, polls, reply, n - 1).0, polls(n - 1), order[n - 1],
                 u[order[n - 1]].size, reply(n - 1), d);
    }
  }

  lemma {:induction false} CopiesBasis(e: Env, blobs: map<Digest, Bytes>, u: Records, order: seq<Digest>,
                                       polls: nat -> seq<Poll>, reply: nat -> Option<Bytes>, n: nat)
    requires Elems(order) <= u.Keys && n <= |order|
    ensures Grounded(u, Copies(e, Begin(blobs, u), order, polls, reply, n).0)
  {
    if n == 0 {
      assert OkBlobs(Started(u)) == OkBlobs(u);
    } else {
      CopiesBasis(e, blobs, u, order, polls, reply, n - 1);
      PollManyGrounded(u, Copies(e, Begin(blobs, u), order, polls, reply, n - 1).0, polls(n - 1));
    }
  }

  /** From fresh records, whatever is recorded as fetched was so from the start or has its file there. */
  lemma {:induction false} CopiesOk(e: Env, blobs: map<Digest, Bytes>, u: Records, order: seq<Digest>,
                                    polls: nat -> seq<Poll>, reply: nat -> Option<Bytes>, n: nat)
    requires Fits(order, u) && n <= |order| && Fresh(u, blobs)
    ensures OkBlobs(Copies(e, Begin(blobs, u), order, polls, reply, n).0.p)
         <= OkBlobs(u) + Copies(e, Begin(blobs, u), order, polls, reply, n).0.blobs.Keys
  {
    if n == 0 {
      assert OkBlobs(Started(u)) == OkBlobs(u);
    } else {
      CopiesOk(e, blobs, u, order, polls, reply, n - 1);
      var (before, ok) := Copies(e, Begin(blobs, u), order, polls, reply, n - 1);
      if ok {
        NotYetThere(e, blobs, u, order, polls, reply, n);
        StepOk(e, u, before, polls(n - 1), order[n - 1], u[order[n - 1]].size, reply(n - 1));
      }
    }
  }

  /** The blob whose turn it is has no file yet and is not recorded as fetched. */
  lemma NotYetThere(e: Env, blobs: map<Digest, Bytes>, u: Records, order: seq<Digest>,
                    polls: nat -> seq<Poll>, reply: nat -> Option<Bytes>, n: nat)
    requires Fits(order, u) && 0 < n <= |order| && Fresh(u, blobs)
    ensures order[n - 1] !in Copies(e, Begin(blobs, u), order, polls, reply, n - 1).0.blobs
    ensures order[n - 1] in u && order[n - 1] !in OkBlobs(u)
  {
    var d := order[n - 1];
    assert d in Elems(order) && d in Pending(u) && d !in blobs;
    CopiesUntouched(e, blobs, u, order, polls, reply, n - 1, d);
  }

  lemma StepOk(e: Env, u: Records, before: State, polls: seq<Poll>, d: Digest, size: int, reply: Option<Bytes>)
    requires OkBlobs(before.p) <= OkBlobs(u) + before.blobs.Keys
    requires d !in before.blobs && d !in OkBlobs(u)
    ensures var after := CopyStep(e, PollMany(before, polls), d, size, reply).0;
      OkBlobs(after.p) <= OkBlobs(u) + after.blobs.Keys
  {
    PollManyKeepsBasis(before, polls);
  }

  /** A successful fetch leaves every blob that was still to fetch whole, and touches no other file. */
  lemma SuccessfulFiles(e: Env, blobs: map<Digest, Bytes>, u: Records, order: seq<Digest>,
                        polls: nat -> seq<Poll>, reply: nat -> Option<Bytes>)
    requires Fits(order, u)
    requires Attempt(e, blobs, u, order, polls, reply).1
    ensures forall d :: d in Pending(u) ==> Whole(e, Attempt(e, blobs, u, order, polls, reply).0.blobs, d, u[d].size)
    ensures forall d :: d !in Pending(u) ==> SameFile(blobs, Attempt(e, blobs, u, order, polls, reply).0.blobs, d)
  {
    AttemptExactly(e, blobs, u, order, polls, reply);
    forall d | d in Pending(u) ensures Whole(e, Attempt(e, blobs, u, order, polls, reply).0.blobs, d, u[d].size) {
      assert d in Elems(order);
      var i: nat :| i < |order| && order[i] == d;
      WholeIfAnswered(e, blobs, Attempt(e, blobs, u, order, polls, reply).0.blobs, u, order, reply, i);
    }
  }

  lemma WholeIfAnswered(e: Env, before: map<Digest, Bytes>, after: map<Digest, Bytes>, u: Records,
                        order: seq<Digest>, reply: nat -> Option<Bytes>, i: nat)
    requires i < |order| && Answered(e, u, order, reply, |order|)
    requires FileFollows(e, before, after, u, order, reply, i)
    ensures order[i] in u && Whole(e, after, order[i], u[order[i]].size)
  {
    assert RightReply(e, u, order[i], reply(i));
  }

  /** A successful fetch leaves every blob of the update complete and verified in the store exactly when the
      blobs it began with as already fetched were so; blobs that began invalid are fetched anew. */
  lemma FetchSucceedsExactly(e: Env, blobs: map<Digest, Bytes>, u: Records, order: seq<Digest>,
                             polls: nat -> seq<Poll>, reply: nat -> Option<Bytes>)
    requires Fits(order, u)
    requires Attempt(e, blobs, u, order, polls, reply).1
    ensures AllWhole(e, u, Attempt(e, blobs, u, order, polls, reply).0.blobs) <==> RecordsHold(e, u, blobs)
    ensures forall d :: d !in Pending(u) ==> SameFile(blobs, Attempt(e, blobs, u, order, polls, reply).0.blobs, d)
  {
    SuccessfulFiles(e, blobs, u, order, polls, reply);
    SplitRecords(e, u, blobs, Attempt(e, blobs, u, order, polls, reply).0.blobs);
  }

  lemma SplitRecords(e: Env, u: Records, before: map<Digest, Bytes>, after: map<Digest, Bytes>)
    requires forall d :: d !in Pending(u) ==> SameFile(before, after, d)
    requires forall d :: d in Pending(u) ==> Whole(e, after, d, u[d].size)
    ensures AllWhole(e, u, after) <==> RecordsHold(e, u, before)
  {
    forall d | d in u ensures d in Pending(u) || (d in OkBlobs(u) && SameFile(before, after, d)) {
    }
    if AllWhole(e, u, after) {
      forall d | d in OkBlobs(u) ensures Whole(e, before, d, u[d].size) {
        assert Whole(e, after, d, u[d].size) && d !in Pending(u);
      }
    }
  }

  /** An attempt that begins with true records, and with no file in the store for any blob still to fetch,
      leaves true records however it ends, so that a resumed fetch can rely on them. */
  lemma InterruptedFetchKeepsRecords(e: Env, blobs: map<Digest, Bytes>, u: Records, order: seq<Digest>,
                                     polls: nat -> seq<Poll>, reply: nat -> Option<Bytes>)
    requires Fits(order, u)
    requires Fresh(u, blobs) && RecordsHold(e, u, blobs)
    ensures var st := Attempt(e, blobs, u, order, polls, reply).0;
      RecordsHold(e, st.u, st.blobs) && SameBasis(u, st.u)
  {
    var st := Copies(e, Begin(blobs, u), order, polls, reply, |order|).0;
    CopiesBasis(e, blobs, u, order, polls, reply, |order|);
    CopiesOk(e, blobs, u, order, polls, reply, |order|);
    PollManyKeepsBasis(st, polls(|order|));
    PollManyGrounded(u, st, polls(|order|));
    var end := PollMany(st, polls(|order|));
    forall d | d in OkBlobs(end.u) ensures Whole(e, end.blobs, d, end.u[d].size) {
      assert d in OkBlobs(end.p) && d in u;
      if d in Pending(u) {
        assert d in st.blobs;
        FileIsOldOrWhole(e, blobs, u, order, polls, reply, |order|, d);
      } else {
        assert d !in Elems(order) && d in OkBlobs(u);
        CopiesUntouched(e, blobs, u, order, polls, reply, |order|, d);
      }
    }
  }

  /** A file found for a recorded blob is the one that was there before, or was committed by this attempt. */
  lemma {:induction false} FileIsOldOrWhole(e: Env, blobs: map<Digest, Bytes>, u: Records, order: seq<Digest>,
      polls: nat -> seq<Poll>, reply: nat -> Option<Bytes>, n: nat, d: Digest)
    requires Elems(order) <= u.Keys && n <= |order| && d in u
    requires d in Copies(e, Begin(blobs, u), order, polls, reply, n).0.blobs
    ensures var after := Copies(e, Begin(blobs, u), order, polls, reply, n).0.blobs;
      SameFile(blobs, after, d) || Whole(e, after, d, u[d].size)
  {
    if n > 0 {
      var before := Copies(e, Begin(blobs, u), order, polls, reply, n - 1).0;
      InOrderIsRecorded(e, blobs, u, order, polls, reply, n - 1);
      RoundFrame(e, before, polls(n - 1), order[n - 1], u[order[n - 1]].size, reply(n - 1), d);
      if d in before.blobs {
        FileIsOldOrWhole(e, blobs, u, order, polls, reply, n - 1, d);
      }
    }
  }

  /** A poll that finds a file for every blob still to fetch, and nothing being written, records them all. */
  lemma PollRecordsAll(u: Records, st: State, poll: Poll)
    requires Grounded(u, st) && poll.delivered && Pending(u) <= st.blobs.Keys
    requires forall d :: d in Pending(u) ==> u[d].ref !in poll.ingests && u[d].ref !in poll.broken
    ensures Pending(u) <= OkBlobs(PollOnce(st, poll).u)
  {
    forall d | d in Pending(u) ensures d in OkBlobs(PollOnce(st, poll).u) {
      assert st.p[d].ref == u[d].ref;
    }
  }

  /** The last poll of a successful attempt, if its report gets through and nothing is being written any more,
      leaves every blob recorded as fetched. */
  lemma LastPollRecordsAll(e: Env, blobs: map<Digest, Bytes>, u: Records, order: seq<Digest>,
                           polls: nat -> seq<Poll>, reply: nat -> Option<Bytes>, earlier: seq<Poll>, last: Poll)
    requires Fits(order, u) && polls(|order|) == earlier + [last] && last.delivered
    requires forall d :: d in Pending(u) ==> u[d].ref !in last.ingests && u[d].ref !in last.broken
    requires Answered(e, u, order, reply, |order|)
    ensures OkBlobs(Attempt(e, blobs, u, order, polls, reply).0.u) == u.Keys
  {
    var end := Attempt(e, blobs, u, order, polls, reply).0;
    AllToFetchAreThere(e, blobs, u, order, polls, reply);
    var before := BeforeLastPoll(e, blobs, u, order, polls, reply, earlier, last);
    PollRecordsAll(u, before, last);
    FetchedStay(e, blobs, u, order, polls, reply);
    assert end.u.Keys == u.Keys;
    assert OkBlobs(end.u) == Pending(u) + OkBlobs(u) == u.Keys;
  }

  lemma BeforeLastPoll(e: Env, blobs: map<Digest, Bytes>, u: Records, order: seq<Digest>,
                       polls: nat -> seq<Poll>, reply: nat -> Option<Bytes>, earlier: seq<Poll>, last: Poll)
    returns (before: State)
    requires Elems(order) <= u.Keys && polls(|order|) == earlier + [last]
    ensures Grounded(u, before) && Attempt(e, blobs, u, order, polls, reply).0 == PollOnce(before, last)
  {
    var st := Copies(e, Begin(blobs, u), order, polls, reply, |order|).0;
    before := PollMany(st, earlier);
    assert polls(|order|)[..|earlier|] == earlier;
    CopiesBasis(e, blobs, u, order, polls, reply, |order|);
    PollManyGrounded(u, st, earlier);
  }

  /** No attempt forgets what was recorded as fetched. */
  lemma FetchedStay(e: Env, blobs: map<Digest, Bytes>, u: Records, order: seq<Digest>,
                    polls: nat -> seq<Poll>, reply: nat -> Option<Bytes>)
    requires Elems(order) <= u.Keys
    ensures var end := Attempt(e, blobs, u, order, polls, reply).0.u;
      end.Keys == u.Keys && OkBlobs(u) <= OkBlobs(end)
  {
    AttemptIsItsPolls(e, blobs, u, order, polls, reply);
    AttemptKeepsBasis(e, blobs, u, order, polls, reply);
    forall d | d in OkBlobs(u) ensures d in OkBlobs(Attempt(e, blobs, u, order, polls, reply).0.u) {
      FetchedInAttempt(u, Attempt(e, blobs, u, order, polls, reply).0.trace, d);
    }
  }

  lemma AllToFetchAreThere(e: Env, blobs: map<Digest, Bytes>, u: Records, order: seq<Digest>,
                           polls: nat -> seq<Poll>, reply: nat -> Option<Bytes>)
    requires Fits(order, u) && Answered(e, u, order, reply, |order|)
    ensures Pending(u) <= Attempt(e, blobs, u, order, polls, reply).0.blobs.Keys
  {
    AttemptExactly(e, blobs, u, order, polls, reply);
    SuccessfulFiles(e, blobs, u, order, polls, reply);
  }

  /** The records an attempt leaves are those of its polls alone, so the accounting results apply to it. */
  lemma AttemptIsItsPolls(e: Env, blobs: map<Digest, Bytes>, u: Records, order: seq<Digest>,
                          polls: nat -> seq<Poll>, reply: nat -> Option<Bytes>)
    requires Elems(order) <= u.Keys
    ensures var st := Attempt(e, blobs, u, order, polls, reply).0;
      (st.p, st.u) == AfterPolls(u, st.trace)
  {
    CopiesTrace(e, blobs, u, order, polls, reply, |order|);
    PollsTrace(u, Copies(e, Begin(blobs, u), order, polls, reply, |order|).0, polls(|order|));
  }

  lemma {:induction false} CopiesTrace(e: Env, blobs: map<Digest, Bytes>, u: Records, order: seq<Digest>,
                                       polls: nat -> seq<Poll>, reply: nat -> Option<Bytes>, n: nat)
    requires n <= |order| && Elems(order) <= u.Keys
    ensures var st := Copies(e, Begin(blobs, u), order, polls, reply, n).0; (st.p, st.u) == AfterPolls(u, st.trace)
  {
    if n > 0 {
      CopiesTrace(e, blobs, u, order, polls, reply, n - 1);
      PollsTrace(u, Copies(e, Begin(blobs, u), order, polls, reply, n - 1).0, polls(n - 1));
    }
  }

  lemma {:induction false} PollsTrace(u: Records, st: State, polls: seq<Poll>)
    requires (st.p, st.u) == AfterPolls(u, st.trace)
    ensures var st' := PollMany(st, polls); (st'.p, st'.u) == AfterPolls(u, st'.trace)
  {
    if polls != [] {
      var n := |polls| - 1;
      PollsTrace(u, st, polls[..n]);
      var before := PollMany(st, polls[..n]);
      var after := PollMany(st, polls);
      assert after.trace[..|after.trace| - 1] == before.trace;
    }
  }

  // ---------- Where a resumed fetch goes wrong ----------

  /** A stale or invalid file with no open ingest is recorded as fetched by the first poll. If the attempt
      then ends before re-fetching it, the record is false, the file is unchanged, and a resumed fetch no
      longer has it in its order. */
  lemma InvalidBlobIsTakenForFetched(e: Env, blobs: map<Digest, Bytes>, u: Records, order: seq<Digest>, d: Digest)
    requires Fits(order, u)
    requires d in Pending(u) && d in blobs && !Whole(e, blobs, d, u[d].size)
    ensures var st := Attempt(e, blobs, u, order, PollAt(0), NoReplies()).0;
      && d in st.u && st.u[d].state == BlobOk && SameFile(blobs, st.blobs, d)
      && !RecordsHold(e, st.u, st.blobs)
      && forall order' :: IsOrder(order', st.u) ==> d !in order'
  {
    assert d in Elems(order) && order[0] in Elems(order);
    var begin := Begin(blobs, u);
    assert Copies(e, begin, order, PollAt(0), NoReplies(), 0) == (begin, true);
    RecordedByPoll(begin, d);
    FailingRound(e, blobs, u, order, PollAt(0), NoReplies(), 0);
    AttemptKeepsBasis(e, blobs, u, order, PollAt(0), NoReplies());
    var st := Attempt(e, blobs, u, order, PollAt(0), NoReplies()).0;
    forall order' | IsOrder(order', st.u) ensures d !in order' {
      assert d !in Pending(st.u);
      assert d in order' ==> d in Elems(order');
    }
  }

  /** Every request fails. */
  function NoReplies(): nat -> Option<Bytes> {
    i => None
  }

  function NoPolls(): nat -> seq<Poll> {
    i => []
  }

  /** A single poll, just before blob k is copied; no ingest is open and its report reaches the record. */
  function PollAt(k: nat): nat -> seq<Poll> {
    i => if i == k then [Poll(map[], {}, true)] else []
  }

  /** Right replies to the first k requests, and the given one to the others. */
  function Replies(order: seq<Digest>, contents: Digest -> Bytes, k: nat, then': Option<Bytes>): nat -> Option<Bytes> {
    (i: nat) => if i < k && i < |order| then Some(contents(order[i])) else then'
  }

  /** There is right content for every blob still to fetch. */
  predicate Obtainable(e: Env, u: Records, contents: Digest -> Bytes) {
    forall d :: d in Pending(u) ==> Right(e, d, u[d].size, contents(d))
  }

  /** Without polls, right replies let copies succeed and leave the records alone. */
  lemma {:induction false} QuietCopies(e: Env, blobs: map<Digest, Bytes>, u: Records, order: seq<Digest>,
                                       polls: nat -> seq<Poll>, reply: nat -> Option<Bytes>, n: nat)
    requires Elems(order) <= u.Keys && n <= |order|
    requires forall i: nat :: i < n ==> polls(i) == []
    requires Answered(e, u, order, reply, n)
    ensures var (st, ok) := Copies(e, Begin(blobs, u), order, polls, reply, n); ok && st.u == u
  {
    if n > 0 {
      QuietCopies(e, blobs, u, order, polls, reply, n - 1);
      var st := Copies(e, Begin(blobs, u), order, polls, reply, n - 1).0;
      assert PollMany(st, polls(n - 1)) == st;
      assert RightReply(e, u, order[n - 1], reply(n - 1));
    }
  }

  lemma RightReplies(e: Env, u: Records, order: seq<Digest>, contents: Digest -> Bytes, k: nat, then': Option<Bytes>)
    requires Fits(order, u) && Obtainable(e, u, contents) && k <= |order|
    ensures Answered(e, u, order, Replies(order, contents, k, then'), k)
  {
    forall i: nat | i < k
      ensures order[i] in u && RightReply(e, u, order[i], Replies(order, contents, k, then')(i))
    {
      assert order[i] in Elems(order) && order[i] in Pending(u);
    }
  }

  /** A poll with no ingest open has a file recorded, if its report gets through. */
  lemma RecordedByPoll(st: State, d: Digest)
    requires d in st.p && d in st.u && d in st.blobs
    ensures var one := PollMany(st, [Poll(map[], {}, true)]); d in OkBlobs(one.u) && one.blobs == st.blobs
  {
    var poll := Poll(map[], {}, true);
    assert [poll][..0] == [];
    assert PollMany(st, [poll]) == PollOnce(PollMany(st, []), poll);
  }

  /** An attempt whose k-th round fails ends with what that round left. */
  lemma FailingRound(e: Env, blobs: map<Digest, Bytes>, u: Records, order: seq<Digest>,
                     polls: nat -> seq<Poll>, reply: nat -> Option<Bytes>, k: nat)
    requires Elems(order) <= u.Keys && k < |order| && order[k] in u && polls(|order|) == []
    requires Copies(e, Begin(blobs, u), order, polls, reply, k).1
    requires reply(k).None? || !Right(e, order[k], u[order[k]].size, reply(k).value)
    ensures var before := Copies(e, Begin(blobs, u), order, polls, reply, k).0;
      Attempt(e, blobs, u, order, polls, reply)
      == CopyStep(e, PollMany(before, polls(k)), order[k], u[order[k]].size, reply(k))
    ensures !Attempt(e, blobs, u, order, polls, reply).1
  {
    FailureStays(e, Begin(blobs, u), order, polls, reply, k + 1, |order|);
    var after := Copies(e, Begin(blobs, u), order, polls, reply, k + 1).0;
    assert PollMany(after, []) == after;
  }

  lemma UpToLoss(e: Env, blobs: map<Digest, Bytes>, u: Records, order: seq<Digest>,
                 contents: Digest -> Bytes, k: nat, bad: Bytes)
    requires Fits(order, u) && Obtainable(e, u, contents) && k < |order| && order[k] in blobs
    ensures var (before, ok) := Copies(e, Begin(blobs, u), order, PollAt(k), Replies(order, contents, k, Some(bad)), k);
      ok && before.u == u && order[k] in before.p && order[k] in before.blobs
  {
    RightReplies(e, u, order, contents, k, Some(bad));
    QuietCopies(e, blobs, u, order, PollAt(k), Replies(order, contents, k, Some(bad)), k);
    CopiesUntouched(e, blobs, u, order, PollAt(k), Replies(order, contents, k, Some(bad)), k, order[k]);
    InOrderIsRecorded(e, blobs, u, order, PollAt(k), Replies(order, contents, k, Some(bad)), k);
  }

  /** Even a good file can be lost: committed by an earlier attempt but not yet recorded, it is recorded by a
      poll, then deleted by the forced copy, and that copy fails. */
  lemma CommittedBlobIsLost(e: Env, blobs: map<Digest, Bytes>, u: Records, order: seq<Digest>,
                            contents: Digest -> Bytes, k: nat, bad: Bytes)
    requires Fits(order, u) && Obtainable(e, u, contents)
    requires k < |order| && order[k] in blobs && order[k] in u && !Right(e, order[k], u[order[k]].size, bad)
    ensures var (st, ok) := Attempt(e, blobs, u, order, PollAt(k), Replies(order, contents, k, Some(bad)));
      !ok && order[k] in OkBlobs(st.u) && order[k] !in st.blobs
  {
    UpToLoss(e, blobs, u, order, contents, k, bad);
    var before := Copies(e, Begin(blobs, u), order, PollAt(k), Replies(order, contents, k, Some(bad)), k).0;
    RecordedByPoll(before, order[k]);
    FailingRound(e, blobs, u, order, PollAt(k), Replies(order, contents, k, Some(bad)), k);
  }

  /** So an attempt that begins with true records keeps them true however it goes, exactly when no file is in
      the store for any blob still to fetch. */
  lemma InterruptedFetchKeepsRecordsExactly(e: Env, blobs: map<Digest, Bytes>, u: Records, order: seq<Digest>,
                                            contents: Digest -> Bytes)
    requires Fits(order, u) && Obtainable(e, u, contents) && RecordsHold(e, u, blobs)
    ensures (forall polls: nat -> seq<Poll>, reply: nat -> Option<Bytes> ::
              var st := Attempt(e, blobs, u, order, polls, reply).0; RecordsHold(e, st.u, st.blobs))
       <==> Fresh(u, blobs)
  {
    if Fresh(u, blobs) {
      forall polls: nat -> seq<Poll>, reply: nat -> Option<Bytes>
        ensures var st := Attempt(e, blobs, u, order, polls, reply).0; RecordsHold(e, st.u, st.blobs)
      {
        InterruptedFetchKeepsRecords(e, blobs, u, order, polls, reply);
      }
    } else {
      var d :| d in Pending(u) && d in blobs;
      assert d in Elems(order);
      var k :| 0 <= k < |order| && order[k] == d;
      var bad: Bytes := if u[d].size == 0 then [0] else [];
      CommittedBlobIsLost(e, blobs, u, order, contents, k, bad);
      var st := Attempt(e, blobs, u, order, PollAt(k), Replies(order, contents, k, Some(bad))).0;
      assert !Whole(e, st.blobs, d, st.u[d].size) && !RecordsHold(e, st.u, st.blobs);
    }
  }
}
