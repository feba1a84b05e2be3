/** Fetching resumed: any number of attempts, each going on from the files and records that the one before it
    left (pkg/update/fetch.go, pkg/compose/fetch.go). */
module Resume {
  import opened Base
  import opened Loader
  import opened Progress
  import opened Fetch

  /** An attempt as it went: its order, the polls and replies it met, and whether its context had ended by the
      time the last blob was copied. */
  datatype Try = Try(order: seq<Digest>, polls: nat -> seq<Poll>, reply: nat -> Option<Bytes>, ended: bool)

  /** What outlives an attempt: the files and the update's records. */
  datatype Kept = Kept(blobs: map<Digest, Bytes>, u: Records)

  function Tried(e: Env, k: Kept, t: Try): Kept
    requires Elems(t.order) <= k.u.Keys
  {
    var st := Attempt(e, k.blobs, k.u, t.order, t.polls, t.reply).0;
    Kept(st.blobs, st.u)
  }

  predicate Succeeds(e: Env, k: Kept, t: Try)
    requires Elems(t.order) <= k.u.Keys
  {
    Attempt(e, k.blobs, k.u, t.order, t.polls, t.reply).1 && !t.ended
  }

  /** Each attempt goes by an order for the records it resumes with. */
  ghost predicate FitAll(e: Env, k: Kept, tries: seq<Try>)
    decreases |tries|
  {
    tries == [] || (Fits(tries[0].order, k.u) && FitAll(e, Tried(e, k, tries[0]), tries[1..]))
  }

  /** What is kept after any number of attempts, each resuming from what the one before it left. */
  ghost function AllTried(e: Env, k: Kept, tries: seq<Try>): Kept
    requires FitAll(e, k, tries)
    decreases |tries|
  {
    if tries == [] then k else AllTried(e, Tried(e, k, tries[0]), tries[1..])
  }

  /** The same update later on, with no file changed but those of its recorded blobs. */
  predicate Continues(start: Kept, k: Kept) {
    SameBasis(start.u, k.u) && ChangedOnly(start.blobs, k.blobs, start.u.Keys)
  }

  predicate ChangedOnly(before: map<Digest, Bytes>, after: map<Digest, Bytes>, within: set<Digest>) {
    (forall d :: d in before && d !in within ==> SameFile(before, after, d))
    && (forall d :: d in after && d !in within ==> d in before)
  }

  /** No file of a recorded blob is stale, short or corrupt. */
  predicate FilesWhole(e: Env, k: Kept) {
    forall d :: d in k.u && d in k.blobs ==> Whole(e, k.blobs, d, k.u[d].size)
  }

  lemma {:induction false} TriedContinues(e: Env, start: Kept, k: Kept, t: Try)
    requires Continues(start, k) && Fits(t.order, k.u)
    ensures Continues(start, Tried(e, k, t))
  {
    var before := Copies(e, Begin(k.blobs, k.u), t.order, t.polls, t.reply, |t.order|).0;
    CopiesBasis(e, k.blobs, k.u, t.order, t.polls, t.reply, |t.order|);
    PollManyGrounded(k.u, before, t.polls(|t.order|));
    PollManyKeepsBasis(before, t.polls(|t.order|));
    forall d | d !in start.u ensures SameFile(k.blobs, Tried(e, k, t).blobs, d) {
      assert d !in Elems(t.order);
      CopiesUntouched(e, k.blobs, k.u, t.order, t.polls, t.reply, |t.order|, d);
    }
  }

  lemma {:induction false} TriedFilesWhole(e: Env, k: Kept, t: Try)
    requires FilesWhole(e, k) && Fits(t.order, k.u)
    ensures FilesWhole(e, Tried(e, k, t))
  {
    TriedContinues(e, k, k, t);
    var k' := Tried(e, k, t);
    var before := Copies(e, Begin(k.blobs, k.u), t.order, t.polls, t.reply, |t.order|).0;
    PollManyKeepsBasis(before, t.polls(|t.order|));
    forall d | d in k'.u && d in k'.blobs ensures Whole(e, k'.blobs, d, k'.u[d].size) {
      FileIsOldOrWhole(e, k.blobs, k.u, t.order, t.polls, t.reply, |t.order|, d);
      assert d in k.blobs ==> Whole(e, k.blobs, d, k.u[d].size);
    }
  }

  lemma {:induction false} AllTriedContinue(e: Env, start: Kept, k: Kept, tries: seq<Try>)
    requires Continues(start, k) && FitAll(e, k, tries)
    ensures Continues(start, AllTried(e, k, tries))
    ensures FilesWhole(e, k) ==> FilesWhole(e, AllTried(e, k, tries))
    decreases |tries|
  {
    if tries != [] {
      TriedContinues(e, start, k, tries[0]);
      if FilesWhole(e, k) {
        TriedFilesWhole(e, k, tries[0]);
      }
      AllTriedContinue(e, start, Tried(e, k, tries[0]), tries[1..]);
    }
  }

  /** Every attempt works towards the same total. */
  lemma {:induction false} TotalOfTries(e: Env, k: Kept, tries: seq<Try>)
    requires FitAll(e, k, tries)
    ensures SumTotal(Started(AllTried(e, k, tries).u)) == SumTotal(k.u)
  {
    AllTriedContinue(e, k, k, tries);
    TotalOfBasis(k.u, Started(AllTried(e, k, tries).u));
  }

  /** An attempt that gets the right reply to every request succeeds. */
  lemma RightRepliesSucceed(e: Env, k: Kept, order: seq<Digest>, contents: Digest -> Bytes)
    requires Fits(order, k.u) && Obtainable(e, k.u, contents)
    ensures Succeeds(e, k, Try(order, NoPolls(), Replies(order, contents, |order|, None), false))
  {
    RightReplies(e, k.u, order, contents, |order|, None);
    AttemptExactly(e, k.blobs, k.u, order, NoPolls(), Replies(order, contents, |order|, None));
  }

  /** A blob lost although recorded as fetched stays lost through all later attempts. */
  lemma {:induction false} LostForever(e: Env, k: Kept, tries: seq<Try>, d: Digest)
    requires FitAll(e, k, tries) && d in OkBlobs(k.u) && d !in k.blobs
    ensures var k' := AllTried(e, k, tries); d in OkBlobs(k'.u) && d !in k'.blobs
    decreases |tries|
  {
    if tries != [] {
      var t, next := tries[0], Tried(e, k, tries[0]);
      FetchedStay(e, k.blobs, k.u, t.order, t.polls, t.reply);
      assert d !in Elems(t.order);
      CopiesUntouched(e, k.blobs, k.u, t.order, t.polls, t.reply, |t.order|, d);
      PollManyKeepsBasis(Copies(e, Begin(k.blobs, k.u), t.order, t.polls, t.reply, |t.order|).0, t.polls(|t.order|));
      LostForever(e, next, tries[1..], d);
    }
  }

  /** The context ends as soon as the first blob is committed. */
  function CommitOne(order: seq<Digest>, contents: Digest -> Bytes): Try {
    Try(order, NoPolls(), Replies(order, contents, 1, None), true)
  }

  /** The two interruptions after which a blob is lost: the first commits it, the second has it recorded, then
      deletes it and fails to fetch it again. */
  function Losing(order: seq<Digest>, contents: Digest -> Bytes, bad: Bytes): seq<Try> {
    [CommitOne(order, contents), Try(order, PollAt(0), Replies(order, contents, 0, Some(bad)), false)]
  }

  /** Something is to be fetched, all of it obtainable, and a wrong reply is possible for the first blob. */
  ghost predicate Losable(e: Env, u: Records, order: seq<Digest>, contents: Digest -> Bytes, bad: Bytes) {
    && Fits(order, u) && Obtainable(e, u, contents) && order != []
    && order[0] in u && !Right(e, order[0], u[order[0]].size, bad)
  }

  lemma {:induction false} TwoInterruptionsLoseBlob(e: Env, k: Kept, order: seq<Digest>,
      contents: Digest -> Bytes, bad: Bytes)
    requires Losable(e, k.u, order, contents, bad)
    ensures FitAll(e, k, Losing(order, contents, bad))
    ensures var k' := AllTried(e, k, Losing(order, contents, bad)); order[0] in OkBlobs(k'.u) && order[0] !in k'.blobs
    ensures !Succeeds(e, k, Losing(order, contents, bad)[0])
  {
    var tries := Losing(order, contents, bad);
    FirstCommitOnly(e, k, order, contents);
    var mid := Tried(e, k, tries[0]);
    CommittedBlobIsLost(e, mid.blobs, mid.u, order, contents, 0, bad);
    TwoTries(e, k, tries[0], tries[1]);
  }

  lemma {:induction false} OneTry(e: Env, k: Kept, t: Try)
    requires Fits(t.order, k.u)
    ensures FitAll(e, k, [t]) && AllTried(e, k, [t]) == Tried(e, k, t)
  {
    assert [t][1..] == [];
    assert FitAll(e, Tried(e, k, t), []) && AllTried(e, Tried(e, k, t), []) == Tried(e, k, t);
  }

  lemma {:induction false} TwoTries(e: Env, k: Kept, first: Try, second: Try)
    requires Fits(first.order, k.u) && Fits(second.order, Tried(e, k, first).u)
    ensures FitAll(e, k, [first, second]) && AllTried(e, k, [first, second]) == Tried(e, Tried(e, k, first), second)
  {
    assert [first, second][1..] == [second];
    OneTry(e, Tried(e, k, first), second);
  }

  lemma {:induction false} FirstCommitOnly(e: Env, k: Kept, order: seq<Digest>, contents: Digest -> Bytes)
    requires Fits(order, k.u) && Obtainable(e, k.u, contents) && order != []
    ensures var t := CommitOne(order, contents);
      !Succeeds(e, k, t) && Tried(e, k, t) == Kept(k.blobs[order[0] := contents(order[0])], k.u)
  {
    var polls, reply := NoPolls(), Replies(order, contents, 1, None);
    var begin := Begin(k.blobs, k.u);
    assert order[0] in Elems(order) && order[0] in Pending(k.u);
    assert Copies(e, begin, order, polls, reply, 0) == (begin, true);
    var one := begin.(blobs := k.blobs[order[0] := contents(order[0])]);
    assert Copies(e, begin, order, polls, reply, 1) == (one, true);
    if |order| > 1 {
      assert order[1] in Elems(order);
      FailingRound(e, k.blobs, k.u, order, polls, reply, 1);
    } else {
      assert PollMany(one, []) == one;
    }
  }
}
