/** Cancelling an update, and how initializing, fetching and cancelling fit together
    (pkg/update/cancel.go, pkg/update/init.go, pkg/update/update.go). */
module Rollback {
  import opened Base
  import opened Tree
  import opened Loader
  import opened AppStore
  import opened Closure
  import opened Blobs
  import opened Progress
  import opened Fetch
  import opened Resume
  import opened Init

  // ---------- Cancel ----------

  /** Rounding half away from zero, as math.Round does, of 100 over a positive count. */
  function ProgressStep(count: int): (step: int)
    requires count > 0
    ensures step >= 0
  {
    (200 + count) / (2 * count)
  }

  /** The files left after removing the given ones, except those that cannot be removed. */
  function Left(blobs: map<Digest, Bytes>, removed: set<Digest>, stuck: set<Digest>): map<Digest, Bytes> {
    map x | x in blobs && (x in removed ==> x in stuck) :: blobs[x]
  }

  function Failures(blobs: map<Digest, Bytes>, removed: set<Digest>, stuck: set<Digest>): set<Digest> {
    set x | x in removed && x in stuck && x in blobs
  }

  /** Remove the files of the recorded blobs, in any order; `stuck` files cannot be removed. The progress is
      stepped per blob and clamped. */
  method CancelBlobs(store: AppStore, records: Records, stuck: set<Digest>) returns (ok: bool, progress: int)
    modifies store`blobs
    ensures store.blobs == Left(old(store.blobs), records.Keys, stuck)
    ensures ok <==> Failures(old(store.blobs), records.Keys, stuck) == {}
    ensures forall d :: d in store.blobs <==> d in old(store.blobs) && (d in records ==> d in stuck)
    ensures forall d :: d in store.blobs ==> store.blobs[d] == old(store.blobs)[d]
    ensures ok <==> forall d :: d in records && d in stuck ==> d !in old(store.blobs)
    ensures records == map[] ==> progress == 0
    ensures records != map[] ==> progress == FinalProgress(|records.Keys|)
  {
    if records != map[] {
      CancelProgressExactly(|records.Keys|);
    }
    var step := if |records.Keys| > 0 then ProgressStep(|records.Keys|) else 0;
    var failed: set<Digest>;
    failed, progress := CancelFiles(store, records.Keys, stuck, step);
    ok := failed == {};
    assert forall d :: d in failed <==> d in records && d in stuck && d in old(store.blobs);
  }

  method CancelFiles(store: AppStore, files: set<Digest>, stuck: set<Digest>, step: int)
    returns (failed: set<Digest>, progress: int)
    modifies store`blobs
    ensures store.blobs == Left(old(store.blobs), files, stuck)
    ensures failed == Failures(old(store.blobs), files, stuck)
    ensures progress == Stepped(|files|, step)
  {
    var todo := files;
    failed, progress := {}, 0;
    ghost var done: set<Digest> := {};
    assert Left(store.blobs, {}, stuck) == store.blobs;
    while todo != {}
      invariant done !! todo && done + todo == files
      invariant store.blobs == Left(old(store.blobs), done, stuck)
      invariant failed == Failures(old(store.blobs), done, stuck)
      invariant progress == Stepped(|done|, step)
      decreases todo
    {
      var d :| d in todo;
      OneMoreFile(old(store.blobs), done, d, stuck);
      failed, progress := CancelOne(store, d, stuck, failed, progress, step);
      MoveOne(done, todo, files, d);
      todo, done := todo - {d}, done + {d};
    }
    assert done == files;
  }

  /** Remove one file and step the progress. */
  method CancelOne(store: AppStore, d: Digest, stuck: set<Digest>, failed: set<Digest>, progress: int, step: int)
    returns (failed': set<Digest>, progress': int)
    modifies store`blobs
    ensures store.blobs == Left(old(store.blobs), {d}, stuck)
    ensures failed' == failed + (if d in stuck && d in old(store.blobs) then {d} else {})
    ensures progress' == if progress < 100 then Min(100, progress + step) else progress
  {
    var removed := Remove(store, d, stuck);
    failed' := if removed then failed else failed + {d};
    progress' := progress;
    if progress' < 100 {
      progress' := progress' + step;
      if progress' > 100 {
        progress' := 100;
      }
    }
  }

  lemma MoveOne(done: set<Digest>, todo: set<Digest>, all: set<Digest>, d: Digest)
    requires done !! todo && done + todo == all && d in todo
    ensures done + {d} !! todo - {d} && (done + {d}) + (todo - {d}) == all
    ensures |done + {d}| == |done| + 1
  {
    SizeWithout(done + {d}, d);
    assert (done + {d}) - {d} == done;
  }

  lemma OneMoreFile(blobs: map<Digest, Bytes>, done: set<Digest>, d: Digest, stuck: set<Digest>)
    ensures Left(Left(blobs, done, stuck), {d}, stuck) == Left(blobs, done + {d}, stuck)
    ensures Failures(blobs, done + {d}, stuck)
         == Failures(blobs, done, stuck) + (if d in stuck && d in Left(blobs, done, stuck) then {d} else {})
  {
    forall x ensures x in Left(Left(blobs, done, stuck), {d}, stuck) <==> x in Left(blobs, done + {d}, stuck) {
    }
  }

  /** Remove one file; a file that is not there counts as removed. */
  method Remove(store: AppStore, d: Digest, stuck: set<Digest>) returns (ok: bool)
    modifies store`blobs
    ensures store.blobs == Left(old(store.blobs), {d}, stuck)
    ensures ok <==> !(d in stuck && d in old(store.blobs))
  {
    ok := !(d in stuck && d in store.blobs);
    if d !in stuck {
      store.blobs := store.blobs - {d};
    }
  }

  /** The progress after so many clamped steps. */
  function Stepped(count: nat, step: int): int {
    if count == 0 then 0
    else
      var p := Stepped(count - 1, step);
      if p < 100 then Min(100, p + step) else p
  }

  lemma {:induction false} SteppedExactly(count: nat, step: int)
    requires step >= 0
    ensures Stepped(count, step) == Min(100, count * step)
  {
    if count > 0 {
      SteppedExactly(count - 1, step);
      assert count * step == (count - 1) * step + step;
    }
  }

  /** Where the progress of a cancel of so many blobs ends: what the rounded steps fall short of 100 is the
      remainder that was rounded off. */
  function FinalProgress(count: int): int
    requires count > 0
  {
    if 2 * (100 % count) >= count then 100 else 100 - 100 % count
  }

  /** The progress of a cancel ends at 100 exactly when 100 over the number of blobs is whole or rounds up:
      it ends at 99 for 3 blobs, and never leaves 0 for more than 200. */
  lemma CancelProgressExactly(count: int)
    requires count > 0
    ensures Stepped(count, ProgressStep(count)) == FinalProgress(count)
    ensures FinalProgress(count) == 100 <==> 100 % count == 0 || 2 * (100 % count) >= count
  {
    SteppedExactly(count, ProgressStep(count));
    StepIsRounded(count, 100 / count, 100 % count);
  }

  lemma StepIsRounded(count: int, q: int, r: int)
    requires count > 0 && 100 == q * count + r && 0 <= r < count
    ensures ProgressStep(count) == q + (if 2 * r >= count then 1 else 0)
    ensures count * ProgressStep(count) == 100 - r + (if 2 * r >= count then count else 0)
  {
    var k := q + (if 2 * r >= count then 1 else 0);
    assert k * count == q * count + (if 2 * r >= count then count else 0);
    assert k * (2 * count) == 2 * (k * count);
    DivideBetween(200 + count, 2 * count, k);
    assert count * k == k * count;
  }

  lemma DivideBetween(a: int, b: int, k: int)
    requires b > 0 && k * b <= a < k * b + b
    ensures a / b == k
  {
    var q, r := a / b, a % b;
    assert a == q * b + r;
    QuotientUnique(q, k, r, a - k * b, b);
  }

  lemma QuotientUnique(q: int, k: int, r: int, s: int, b: int)
    requires q * b + r == k * b + s && 0 <= r < b && 0 <= s < b
    ensures q == k
  {
    assert (q - k) * b == s - r;
    if q > k {
      MultiplyMonotone(1, q - k, b);
    } else if q < k {
      MultiplyMonotone(q - k, -1, b);
    }
  }

  /** Cancel rolls back: after one initialization, whatever part of the fetch was done, the blobs that pass
      their check after the cancel are those that passed before the initialization. This is so exactly when
      no digest occurs in the trees with two sizes of which one passes and the other does not. */
  lemma CancelRollsBackExactly(e: Env, before: map<Digest, Bytes>, ingests: map<Ref, int>, nodes: Nodes,
                               fetched: map<Digest, Bytes>)
    requires forall d :: d !in Collected(e, before, ingests, nodes) ==> SameFile(before, fetched, d)
    ensures (forall n :: n in nodes ==>
      (Good(e, fetched - Collected(e, before, ingests, nodes).Keys, n) <==> Good(e, before, n)))
       <==> (forall n, m ::
         n in nodes && m in nodes && n.digest == m.digest && Good(e, before, n) ==> Good(e, before, m))
    ensures forall d :: d !in Collected(e, before, ingests, nodes) ==>
      SameFile(before, fetched - Collected(e, before, ingests, nodes).Keys, d)
  {
    var after := fetched - Collected(e, before, ingests, nodes).Keys;
    forall n | n in nodes
      ensures Good(e, after, n) <==> (forall m :: m in nodes && m.digest == n.digest ==> Good(e, before, m))
    {
      GoodAfterCancel(e, before, ingests, nodes, fetched, n);
    }
  }

  /** After the cancel a node passes exactly when every node of its digest passed before. */
  lemma GoodAfterCancel(e: Env, before: map<Digest, Bytes>, ingests: map<Ref, int>, nodes: Nodes,
                        fetched: map<Digest, Bytes>, n: Node)
    requires forall d :: d !in Collected(e, before, ingests, nodes) ==> SameFile(before, fetched, d)
    requires n in nodes
    ensures Good(e, fetched - Collected(e, before, ingests, nodes).Keys, n)
       <==> (forall m :: m in nodes && m.digest == n.digest ==> Good(e, before, m))
  {
    CollectedExactly(e, before, ingests, nodes, n.digest);
    if n.digest !in Collected(e, before, ingests, nodes) {
      assert SameFile(before, fetched, n.digest);
    }
  }

  /** In particular after any number of attempts to fetch, each resuming the one before it. */
  lemma {:induction false} ResumedCancelRollsBackExactly(e: Env, before: map<Digest, Bytes>,
      ingests: map<Ref, int>, nodes: Nodes, tries: seq<Try>)
    requires FitAll(e, Kept(before, Collected(e, before, ingests, nodes)), tries)
    ensures var k := AllTried(e, Kept(before, Collected(e, before, ingests, nodes)), tries);
      (forall n :: n in nodes ==> (Good(e, k.blobs - k.u.Keys, n) <==> Good(e, before, n)))
      <==> (forall n, m ::
        n in nodes && m in nodes && n.digest == m.digest && Good(e, before, n) ==> Good(e, before, m))
  {
    var start := Kept(before, Collected(e, before, ingests, nodes));
    AllTriedContinue(e, start, start, tries);
    CancelRollsBackExactly(e, before, ingests, nodes, AllTried(e, start, tries).blobs);
  }

  // ---------- Fetch after Init ----------

  /** The first attempt after an initialization, if it succeeds, leaves every blob of the update good, even
      those that began with a wrong size or digest. */
  lemma {:induction false} FetchAfterInitIsComplete(e: Env, blobs: map<Digest, Bytes>, ingests: map<Ref, int>,
      nodes: Nodes, t: Try)
    requires var k := Kept(blobs, Collected(e, blobs, ingests, nodes)); Fits(t.order, k.u) && Succeeds(e, k, t)
    ensures var k := Kept(blobs, Collected(e, blobs, ingests, nodes)); AllWhole(e, k.u, Tried(e, k, t).blobs)
  {
    NoneFetchedYet(e, blobs, ingests, nodes);
    FetchSucceedsExactly(e, blobs, Collected(e, blobs, ingests, nodes), t.order, t.polls, t.reply);
  }

  /** No blob of the update begins with a wrong size or digest. One that passes may have trailing bytes. */
  predicate CleanStart(e: Env, blobs: map<Digest, Bytes>, nodes: Nodes) {
    forall n :: n in nodes ==> n.digest !in blobs || Good(e, blobs, n)
  }

  /** From a clean start, the successful attempt that ends any number of interrupted ones leaves every blob of
      the update good exactly when each blob it began with as fetched still had its file. */
  lemma {:induction false} ResumedFetchIsCompleteExactly(e: Env, blobs: map<Digest, Bytes>,
      ingests: map<Ref, int>, nodes: Nodes, tries: seq<Try>, t: Try)
    requires CleanStart(e, blobs, nodes) && FitAll(e, Kept(blobs, Collected(e, blobs, ingests, nodes)), tries)
    requires var k := AllTried(e, Kept(blobs, Collected(e, blobs, ingests, nodes)), tries);
      Fits(t.order, k.u) && Succeeds(e, k, t)
    ensures var k := AllTried(e, Kept(blobs, Collected(e, blobs, ingests, nodes)), tries);
      AllWhole(e, k.u, Tried(e, k, t).blobs) <==> OkBlobs(k.u) <= k.blobs.Keys
  {
    var start := Kept(blobs, Collected(e, blobs, ingests, nodes));
    CleanFilesWhole(e, blobs, ingests, nodes);
    AllTriedContinue(e, start, start, tries);
    var k := AllTried(e, start, tries);
    FetchSucceedsExactly(e, k.blobs, k.u, t.order, t.polls, t.reply);
  }

  /** A clean start records only blobs that have no file. */
  lemma CleanFilesWhole(e: Env, blobs: map<Digest, Bytes>, ingests: map<Ref, int>, nodes: Nodes)
    requires CleanStart(e, blobs, nodes)
    ensures Collected(e, blobs, ingests, nodes).Keys !! blobs.Keys
    ensures FilesWhole(e, Kept(blobs, Collected(e, blobs, ingests, nodes)))
  {
    forall d | d in Collected(e, blobs, ingests, nodes) ensures d !in blobs {
      CollectedExactly(e, blobs, ingests, nodes, d);
    }
  }

  /** The trees of an update's apps as the registry gives them. */
  function RemoteTrees(e: Env, registry: map<Digest, Bytes>, apps: seq<Ref>): seq<Node>
    requires forall app :: app in apps ==> RemoteLoads(e, registry, app)
  {
    if apps == [] then []
    else
      assert RemoteLoads(e, registry, apps[0]);
      [LoadApp(e, Remote(registry), apps[0]).value] + RemoteTrees(e, registry, apps[1..])
  }

  lemma {:induction false} NodeOfTrees(e: Env, registry: map<Digest, Bytes>, apps: seq<Ref>, app: Ref, n: Node)
    requires forall a :: a in apps ==> RemoteLoads(e, registry, a)
    requires app in apps && RemoteLoads(e, registry, app) && n in RemoteNodes(e, registry, app)
    ensures n in PreorderAll(RemoteTrees(e, registry, apps))
  {
    var trees := RemoteTrees(e, registry, apps);
    if app != apps[0] {
      assert trees[1..] == RemoteTrees(e, registry, apps[1..]);
      NodeOfTrees(e, registry, apps[1..], app, n);
    }
  }

  // ---------- What a fetch does to the closure of the store ----------

  /** An update from a registry, about to be initialized on a closed store, from a clean start. */
  ghost predicate Starts(e: Env, registry: map<Digest, Bytes>, s: Store, apps: seq<Ref>) {
    && Closed(e, s) && CollisionFree(e) && Honest(e, registry)
    && (forall app :: app in apps ==> RemoteLoads(e, registry, app))
    && CleanStart(e, s.blobs, PreorderAll(RemoteTrees(e, registry, apps)))
  }

  /** The files and records once the update is initialized. */
  ghost function Initially(e: Env, registry: map<Digest, Bytes>, s: Store, apps: seq<Ref>, ingests: map<Ref, int>): Kept
    requires Starts(e, registry, s, apps)
  {
    Kept(s.blobs, Collected(e, s.blobs, ingests, PreorderAll(RemoteTrees(e, registry, apps))))
  }

  /** Later records of the update, and files, with none stale or corrupt among those recorded as fetched. */
  ghost predicate Underway(e: Env, start: Kept, k: Kept) {
    Continues(start, k) && forall d :: d in OkBlobs(k.u) && d in k.blobs ==> Whole(e, k.blobs, d, k.u[d].size)
  }

  /** The store after a fetch: only a successful one files the update's apps. */
  ghost function FetchEnd(e: Env, s: Store, apps: seq<Ref>, k: Kept, t: Try): Store
    requires Elems(t.order) <= k.u.Keys
  {
    (if Succeeds(e, k, t) then Added(e, s, apps) else s).(blobs := Tried(e, k, t).blobs)
  }

  /** Every mandatory blob of the app that is recorded as fetched has its file. */
  ghost predicate NoneLost(e: Env, registry: map<Digest, Bytes>, app: Ref, k: Kept)
    requires RemoteLoads(e, registry, app)
  {
    Mandatory(app, RemoteCore(e, registry, app)) * OkBlobs(k.u) <= k.blobs.Keys
  }

  /** Nothing stands in the way of closure with this app: its manifest and image roots can be read, as far as
      they were there when the update was initialized, and none of its mandatory blobs was lost. */
  ghost predicate Sound(e: Env, registry: map<Digest, Bytes>, s: Store, app: Ref, k: Kept)
    requires RemoteLoads(e, registry, app)
  {
    CoreReads(s.blobs, app, RemoteCore(e, registry, app)) && NoneLost(e, registry, app, k)
  }

  /** A node's blob after a successful attempt: intact if it is there at all, and it is not only if it was
      recorded as fetched although its file was gone. */
  lemma {:induction false} AfterSuccess(e: Env, blobs: map<Digest, Bytes>, ingests: map<Ref, int>, nodes: Nodes,
      k: Kept, t: Try, n: Node)
    requires CleanStart(e, blobs, nodes) && n in nodes
    requires Underway(e, Kept(blobs, Collected(e, blobs, ingests, nodes)), k) && Fits(t.order, k.u) && Succeeds(e, k, t)
    ensures var after, u := Tried(e, k, t).blobs, Collected(e, blobs, ingests, nodes);
      && (n.digest in after <==> !(n.digest in OkBlobs(k.u) && n.digest !in k.blobs))
      && (n.digest in after ==>
          if n.digest in u then n.digest !in blobs && Whole(e, after, n.digest, u[n.digest].size)
          else Good(e, after, n) && SameFile(blobs, after, n.digest))
  {
    var u := Collected(e, blobs, ingests, nodes);
    CollectedExactly(e, blobs, ingests, nodes, n.digest);
    CleanFilesWhole(e, blobs, ingests, nodes);
    SuccessfulFiles(e, k.blobs, k.u, t.order, t.polls, t.reply);
    if n.digest !in u {
      assert SameFile(blobs, k.blobs, n.digest) && n.digest !in Pending(k.u);
    } else {
      assert n.digest in Pending(k.u) || n.digest in OkBlobs(k.u);
    }
  }

  lemma {:induction false} FetchAddsOnly(e: Env, blobs: map<Digest, Bytes>, ingests: map<Ref, int>, nodes: Nodes,
      k: Kept, t: Try, d: Digest)
    requires CleanStart(e, blobs, nodes) && d in blobs
    requires Continues(Kept(blobs, Collected(e, blobs, ingests, nodes)), k) && Fits(t.order, k.u)
    ensures SameFile(blobs, Tried(e, k, t).blobs, d)
  {
    CleanFilesWhole(e, blobs, ingests, nodes);
    TriedContinues(e, Kept(blobs, Collected(e, blobs, ingests, nodes)), k, t);
  }

  /** The same for the nodes of an app's tree. */
  lemma {:induction false} NodeAfterSuccess(e: Env, registry: map<Digest, Bytes>, s: Store, apps: seq<Ref>,
      ingests: map<Ref, int>, k: Kept, t: Try, app: Ref, n: Node)
    requires Starts(e, registry, s, apps) && Underway(e, Initially(e, registry, s, apps, ingests), k)
    requires Fits(t.order, k.u) && Succeeds(e, k, t) && app in apps && n in RemoteNodes(e, registry, app)
    ensures var s' := FetchEnd(e, s, apps, k, t);
      && (n.digest in s'.blobs <==> !(n.digest in OkBlobs(k.u) && n.digest !in k.blobs))
      && (n.digest in s'.blobs ==> Intact(e, s', n))
      && (n.digest in s'.blobs ==>
        SameFile(s.blobs, s'.blobs, n.digest) || (n.digest !in s.blobs && Verified(e, s', n.digest)))
  {
    NodeOfTrees(e, registry, apps, app, n);
    AfterSuccess(e, s.blobs, ingests, PreorderAll(RemoteTrees(e, registry, apps)), k, t, n);
  }

  lemma {:induction false} MandatoryAfterSuccess(e: Env, registry: map<Digest, Bytes>, s: Store, apps: seq<Ref>,
      ingests: map<Ref, int>, k: Kept, t: Try, app: Ref)
    requires Starts(e, registry, s, apps) && Underway(e, Initially(e, registry, s, apps, ingests), k)
    requires Fits(t.order, k.u) && Succeeds(e, k, t) && app in apps
    ensures Mandatory(app, RemoteCore(e, registry, app)) <= FetchEnd(e, s, apps, k, t).blobs.Keys
       <==> NoneLost(e, registry, app, k)
  {
    var c := RemoteCore(e, registry, app);
    AppTreeDigests(e, Remote(registry), app, c);
    var tree := AppTree(e, Remote(registry), app, c);
    forall d | d in Mandatory(app, c)
      ensures d in FetchEnd(e, s, apps, k, t).blobs.Keys <==> !(d in OkBlobs(k.u) && d !in k.blobs)
    {
      PreorderDigests(tree, d);
      var i :| 0 <= i < |Preorder(tree)| && Preorder(tree)[i].digest == d;
      NodeAfterSuccess(e, registry, s, apps, ingests, k, t, app, Preorder(tree)[i]);
    }
  }

  lemma {:induction false} RootAfterSuccess(e: Env, registry: map<Digest, Bytes>, s: Store, apps: seq<Ref>,
      ingests: map<Ref, int>, k: Kept, t: Try, app: Ref, n: Node)
    requires Starts(e, registry, s, apps) && Underway(e, Initially(e, registry, s, apps, ingests), k)
    requires Fits(t.order, k.u) && Succeeds(e, k, t) && app in apps && n in RemoteNodes(e, registry, app)
    requires n.digest in registry && |registry[n.digest]| == n.size
    ensures Unpadded(FetchEnd(e, s, apps, k, t).blobs, n) <==> Unpadded(s.blobs, n)
  {
    NodeAfterSuccess(e, registry, s, apps, ingests, k, t, app, n);
    if n.digest in s.blobs {
      FetchAddsOnly(e, s.blobs, ingests, PreorderAll(RemoteTrees(e, registry, apps)), k, t, n.digest);
    }
  }

  /** No manifest or image root becomes padded or stops being so. */
  lemma {:induction false} RootsAfterSuccess(e: Env, registry: map<Digest, Bytes>, s: Store, apps: seq<Ref>,
      ingests: map<Ref, int>, k: Kept, t: Try, app: Ref)
    requires Starts(e, registry, s, apps) && Underway(e, Initially(e, registry, s, apps, ingests), k)
    requires Fits(t.order, k.u) && Succeeds(e, k, t) && app in apps
    ensures var c := RemoteCore(e, registry, app);
      var after := FetchEnd(e, s, apps, k, t).blobs;
      && ((app.digest in after ==> |after[app.digest]| == c.size) <==>
          (app.digest in s.blobs ==> |s.blobs[app.digest]| == c.size))
      && forall n :: n in c.bundle.children ==> (Unpadded(after, n) <==> Unpadded(s.blobs, n))
  {
    var c := RemoteCore(e, registry, app);
    var root := AppTree(e, Remote(registry), app, c);
    RemoteRootSizes(e, registry, app);
    RootsAreNodes(root, c.bundle);
    RootAfterSuccess(e, registry, s, apps, ingests, k, t, app, root);
    forall n | n in c.bundle.children
      ensures Unpadded(FetchEnd(e, s, apps, k, t).blobs, n) <==> Unpadded(s.blobs, n)
    {
      RootAfterSuccess(e, registry, s, apps, ingests, k, t, app, n);
    }
  }

  /** What can be read of an app after a fetch is what could be read, as far as it was there, before. */
  lemma {:induction false} ReadsAfterSuccess(e: Env, registry: map<Digest, Bytes>, s: Store, apps: seq<Ref>,
      ingests: map<Ref, int>, k: Kept, t: Try, app: Ref)
    requires Starts(e, registry, s, apps) && Underway(e, Initially(e, registry, s, apps, ingests), k)
    requires Fits(t.order, k.u) && Succeeds(e, k, t) && app in apps
    ensures var c := RemoteCore(e, registry, app);
      CoreReads(FetchEnd(e, s, apps, k, t).blobs, app, c) <==> CoreReads(s.blobs, app, c)
  {
    RootsAfterSuccess(e, registry, s, apps, ingests, k, t, app);
  }

  lemma RootsAreNodes(root: Node, bundle: Node)
    requires bundle in root.children
    ensures root in Preorder(root) && forall n :: n in bundle.children ==> n in Preorder(root)
  {
    forall n | n in bundle.children ensures n in Preorder(root) {
      assert n in Preorder(n);
      PreorderOfOne(bundle.children, n, n);
      PreorderOfOne(root.children, bundle, n);
    }
  }

  /** A successful attempt from any state the update can be in: the store is closed afterwards, with the
      update's apps filed, exactly when these are sound. */
  lemma {:induction false} FetchKeepsClosedFrom(e: Env, registry: map<Digest, Bytes>, s: Store, apps: seq<Ref>,
      ingests: map<Ref, int>, k: Kept, t: Try)
    requires Starts(e, registry, s, apps) && Underway(e, Initially(e, registry, s, apps, ingests), k)
    requires Fits(t.order, k.u) && Succeeds(e, k, t)
    ensures Closed(e, FetchEnd(e, s, apps, k, t))
       <==> forall app :: app in apps && app in Listed(FetchEnd(e, s, apps, k, t)) ==> Sound(e, registry, s, app, k)
  {
    var s' := FetchEnd(e, s, apps, k, t);
    forall d | d in s.blobs ensures SameFile(s.blobs, s'.blobs, d) {
      FetchAddsOnly(e, s.blobs, ingests, PreorderAll(RemoteTrees(e, registry, apps)), k, t, d);
    }
    forall app, n | app in apps && n in RemoteNodes(e, registry, app) && n.digest in s'.blobs ensures Intact(e, s', n) {
      NodeAfterSuccess(e, registry, s, apps, ingests, k, t, app, n);
    }
    forall app | app in apps
      ensures Mandatory(app, RemoteCore(e, registry, app)) <= s'.blobs.Keys <==> NoneLost(e, registry, app, k)
      ensures CoreReads(s'.blobs, app, RemoteCore(e, registry, app)) <==>
        CoreReads(s.blobs, app, RemoteCore(e, registry, app))
    {
      MandatoryAfterSuccess(e, registry, s, apps, ingests, k, t, app);
      ReadsAfterSuccess(e, registry, s, apps, ingests, k, t, app);
    }
    FetchKeepsClosedExactly(e, registry, s, s', apps);
  }

  /** Hence it does so exactly when their manifests and image roots can be read, if the records it began with
      were true. */
  lemma {:induction false} FetchFromTrueRecordsKeepsClosed(e: Env, registry: map<Digest, Bytes>, s: Store,
      apps: seq<Ref>, ingests: map<Ref, int>, k: Kept, t: Try)
    requires Starts(e, registry, s, apps) && Continues(Initially(e, registry, s, apps, ingests), k)
    requires RecordsHold(e, k.u, k.blobs) && Fits(t.order, k.u) && Succeeds(e, k, t)
    ensures Closed(e, FetchEnd(e, s, apps, k, t))
       <==> forall app :: app in apps && app in Listed(FetchEnd(e, s, apps, k, t)) ==>
              CoreReads(s.blobs, app, RemoteCore(e, registry, app))
  {
    assert forall d :: d in OkBlobs(k.u) ==> Whole(e, k.blobs, d, k.u[d].size);
    FetchKeepsClosedFrom(e, registry, s, apps, ingests, k, t);
  }

  /** Initialize an update, and fetch it in any number of interrupted attempts and one that succeeds. */
  lemma {:induction false} InitAndFetchKeepClosed(e: Env, registry: map<Digest, Bytes>, s: Store, apps: seq<Ref>,
      ingests: map<Ref, int>, tries: seq<Try>, t: Try)
    requires Starts(e, registry, s, apps) && FitAll(e, Initially(e, registry, s, apps, ingests), tries)
    requires var k := AllTried(e, Initially(e, registry, s, apps, ingests), tries);
      Fits(t.order, k.u) && Succeeds(e, k, t)
    ensures var k := AllTried(e, Initially(e, registry, s, apps, ingests), tries);
      Closed(e, FetchEnd(e, s, apps, k, t))
      <==> forall app :: app in apps && app in Listed(FetchEnd(e, s, apps, k, t)) ==>
             Sound(e, registry, s, app, k)
  {
    TriesAreUnderway(e, registry, s, apps, ingests, tries);
    FetchKeepsClosedFrom(e, registry, s, apps, ingests,
      AllTried(e, Initially(e, registry, s, apps, ingests), tries), t);
  }

  lemma {:induction false} TriesAreUnderway(e: Env, registry: map<Digest, Bytes>, s: Store, apps: seq<Ref>,
      ingests: map<Ref, int>, tries: seq<Try>)
    requires Starts(e, registry, s, apps) && FitAll(e, Initially(e, registry, s, apps, ingests), tries)
    ensures Underway(e, Initially(e, registry, s, apps, ingests),
      AllTried(e, Initially(e, registry, s, apps, ingests), tries))
  {
    var start := Initially(e, registry, s, apps, ingests);
    CleanFilesWhole(e, s.blobs, ingests, PreorderAll(RemoteTrees(e, registry, apps)));
    AllTriedContinue(e, start, start, tries);
  }

  /** With at most one interruption nothing can be lost. */
  lemma {:induction false} OnceInterruptedKeepsClosed(e: Env, registry: map<Digest, Bytes>, s: Store,
      apps: seq<Ref>, ingests: map<Ref, int>, tries: seq<Try>, t: Try)
    requires Starts(e, registry, s, apps) && FitAll(e, Initially(e, registry, s, apps, ingests), tries) && |tries| <= 1
    requires var k := AllTried(e, Initially(e, registry, s, apps, ingests), tries);
      Fits(t.order, k.u) && Succeeds(e, k, t)
    ensures var k := AllTried(e, Initially(e, registry, s, apps, ingests), tries);
      Closed(e, FetchEnd(e, s, apps, k, t))
      <==> forall app :: app in apps && app in Listed(FetchEnd(e, s, apps, k, t)) ==>
              CoreReads(s.blobs, app, RemoteCore(e, registry, app))
  {
    var nodes := PreorderAll(RemoteTrees(e, registry, apps));
    var start := Initially(e, registry, s, apps, ingests);
    NoneFetchedYet(e, s.blobs, ingests, nodes);
    CleanFilesWhole(e, s.blobs, ingests, nodes);
    TriesAreUnderway(e, registry, s, apps, ingests, tries);
    var k := AllTried(e, start, tries);
    if tries != [] {
      InterruptedFetchKeepsRecords(e, start.blobs, start.u, tries[0].order, tries[0].polls, tries[0].reply);
      assert tries[1..] == [];
    }
    FetchFromTrueRecordsKeepsClosed(e, registry, s, apps, ingests, k, t);
  }

  /** A fetch that succeeds with a mandatory blob of a listed app lost leaves the store open. */
  lemma {:induction false} LostBlobBreaksClosure(e: Env, registry: map<Digest, Bytes>, s: Store, apps: seq<Ref>,
      ingests: map<Ref, int>, k: Kept, t: Try, app: Ref, d: Digest)
    requires Starts(e, registry, s, apps) && Underway(e, Initially(e, registry, s, apps, ingests), k)
    requires Fits(t.order, k.u) && Succeeds(e, k, t)
    requires app in apps && app in Listed(Added(e, s, apps)) && d in Mandatory(app, RemoteCore(e, registry, app))
    requires d in OkBlobs(k.u) && d !in k.blobs
    ensures !Closed(e, FetchEnd(e, s, apps, k, t))
  {
    FetchKeepsClosedFrom(e, registry, s, apps, ingests, k, t);
    assert Listed(FetchEnd(e, s, apps, k, t)) == Listed(Added(e, s, apps));
    assert !Sound(e, registry, s, app, k) by {
      assert d in Mandatory(app, RemoteCore(e, registry, app)) * OkBlobs(k.u);
    }
  }

  /** With two interruptions it can come to that: from a clean start, and whatever attempts follow, a fetch that
      succeeds leaves the store open once a mandatory blob of a listed app was lost in them. */
  lemma {:induction false} TwoInterruptionsBreakClosure(e: Env, registry: map<Digest, Bytes>, s: Store,
      apps: seq<Ref>, ingests: map<Ref, int>, order: seq<Digest>, contents: Digest -> Bytes, bad: Bytes, app: Ref,
      more: seq<Try>, t: Try)
    requires Starts(e, registry, s, apps)
      && Losable(e, Initially(e, registry, s, apps, ingests).u, order, contents, bad)
    requires app in apps && app in Listed(Added(e, s, apps)) && order[0] in Mandatory(app, RemoteCore(e, registry, app))
    requires FitAll(e, Initially(e, registry, s, apps, ingests), Losing(order, contents, bad))
    requires FitAll(e, AllTried(e, Initially(e, registry, s, apps, ingests), Losing(order, contents, bad)), more)
    requires var k :=
      AllTried(e, AllTried(e, Initially(e, registry, s, apps, ingests), Losing(order, contents, bad)), more);
      Fits(t.order, k.u) && Succeeds(e, k, t)
    ensures var k :=
      AllTried(e, AllTried(e, Initially(e, registry, s, apps, ingests), Losing(order, contents, bad)), more);
      !Closed(e, FetchEnd(e, s, apps, k, t))
  {
    var k := AllTried(e, AllTried(e, Initially(e, registry, s, apps, ingests), Losing(order, contents, bad)), more);
    LosingIsUnderway(e, registry, s, apps, ingests, order, contents, bad, more);
    LostBlobBreaksClosure(e, registry, s, apps, ingests, k, t, app, order[0]);
  }

  lemma {:induction false} LosingIsUnderway(e: Env, registry: map<Digest, Bytes>, s: Store, apps: seq<Ref>,
      ingests: map<Ref, int>, order: seq<Digest>, contents: Digest -> Bytes, bad: Bytes, more: seq<Try>)
    requires Starts(e, registry, s, apps)
      && Losable(e, Initially(e, registry, s, apps, ingests).u, order, contents, bad)
    requires var start := Initially(e, registry, s, apps, ingests);
      FitAll(e, start, Losing(order, contents, bad))
        && FitAll(e, AllTried(e, start, Losing(order, contents, bad)), more)
    ensures var start := Initially(e, registry, s, apps, ingests);
      var k := AllTried(e, AllTried(e, start, Losing(order, contents, bad)), more);
      Underway(e, start, k) && order[0] in OkBlobs(k.u) && order[0] !in k.blobs
  {
    var start := Initially(e, registry, s, apps, ingests);
    var lost := AllTried(e, start, Losing(order, contents, bad));
    TwoInterruptionsLoseBlob(e, start, order, contents, bad);
    LostForever(e, lost, more, order[0]);
    CleanFilesWhole(e, s.blobs, ingests, PreorderAll(RemoteTrees(e, registry, apps)));
    AllTriedContinue(e, start, start, Losing(order, contents, bad));
    AllTriedContinue(e, start, lost, more);
  }

  // ---------- Padded blobs ----------

  /** A manifest with trailing bytes passes the check of every initialization, so it is in no records and is
      never fetched; the store refuses to read it, so it stays open after any fetch. */
  lemma {:induction false} PaddedManifestBreaksClosure(e: Env, registry: map<Digest, Bytes>, s: Store,
      apps: seq<Ref>, ingests: map<Ref, int>, tries: seq<Try>, t: Try, app: Ref)
    requires Starts(e, registry, s, apps) && FitAll(e, Initially(e, registry, s, apps, ingests), tries)
    requires var k := AllTried(e, Initially(e, registry, s, apps, ingests), tries);
      Fits(t.order, k.u) && Succeeds(e, k, t)
    requires app in apps && app in Listed(Added(e, s, apps))
    requires app.digest in s.blobs && |s.blobs[app.digest]| > RemoteCore(e, registry, app).size
    ensures var k := AllTried(e, Initially(e, registry, s, apps, ingests), tries);
      && app.digest !in k.u && SameFile(s.blobs, FetchEnd(e, s, apps, k, t).blobs, app.digest)
      && !Closed(e, FetchEnd(e, s, apps, k, t))
  {
    var nodes := PreorderAll(RemoteTrees(e, registry, apps));
    var k := AllTried(e, Initially(e, registry, s, apps, ingests), tries);
    TriesAreUnderway(e, registry, s, apps, ingests, tries);
    CleanFilesWhole(e, s.blobs, ingests, nodes);
    FetchAddsOnly(e, s.blobs, ingests, nodes, k, t, app.digest);
    FetchKeepsClosedFrom(e, registry, s, apps, ingests, k, t);
    assert Listed(FetchEnd(e, s, apps, k, t)) == Listed(Added(e, s, apps));
    assert !Sound(e, registry, s, app, k);
  }

  // ---------- Initializing again ----------

  /** A blob recorded is recorded with the size this node gives it. */
  predicate SizeFits(u: Records, n: Node) {
    n.digest in u ==> n.size == u[n.digest].size > 0
  }

  /** An update interrupted any number of times can be initialized again from where it is, exactly when the blobs
      fetched so far have the sizes all its nodes give them. */
  lemma {:induction false} InterruptedStartsAgainExactly(e: Env, registry: map<Digest, Bytes>, s: Store,
      apps: seq<Ref>, ingests: map<Ref, int>, tries: seq<Try>)
    requires Starts(e, registry, s, apps) && FitAll(e, Initially(e, registry, s, apps, ingests), tries)
    ensures var k := AllTried(e, Initially(e, registry, s, apps, ingests), tries);
      Starts(e, registry, s.(blobs := k.blobs), apps)
      <==> forall n :: n in PreorderAll(RemoteTrees(e, registry, apps)) && n.digest in k.blobs ==> SizeFits(k.u, n)
  {
    var nodes := PreorderAll(RemoteTrees(e, registry, apps));
    var start := Initially(e, registry, s, apps, ingests);
    var k := AllTried(e, start, tries);
    CleanFilesWhole(e, s.blobs, ingests, nodes);
    AllTriedContinue(e, start, start, tries);
    GrownStaysClosed(e, s, k.blobs);
    CleanAgainExactly(e, s.blobs, ingests, nodes, k);
  }

  lemma GrownStaysClosed(e: Env, s: Store, blobs: map<Digest, Bytes>)
    requires Closed(e, s) && forall d :: d in s.blobs ==> SameFile(s.blobs, blobs, d)
    ensures Closed(e, s.(blobs := blobs))
  {
    forall app | app in Listed(s) ensures Complete(e, s.(blobs := blobs), app) {
      GrowthKeepsComplete(e, s, s.(blobs := blobs), app);
    }
  }

  lemma CleanAgainExactly(e: Env, blobs: map<Digest, Bytes>, ingests: map<Ref, int>, nodes: Nodes, k: Kept)
    requires CleanStart(e, blobs, nodes) && CollisionFree(e)
    requires Continues(Kept(blobs, Collected(e, blobs, ingests, nodes)), k) && FilesWhole(e, k)
    ensures CleanStart(e, k.blobs, nodes) <==> forall n :: n in nodes && n.digest in k.blobs ==> SizeFits(k.u, n)
  {
    forall n | n in nodes && n.digest in k.blobs ensures Good(e, k.blobs, n) <==> SizeFits(k.u, n) {
      FileAgain(e, blobs, ingests, nodes, k, n);
    }
  }

  lemma FileAgain(e: Env, blobs: map<Digest, Bytes>, ingests: map<Ref, int>, nodes: Nodes, k: Kept, n: Node)
    requires CleanStart(e, blobs, nodes) && CollisionFree(e) && n in nodes && n.digest in k.blobs
    requires Continues(Kept(blobs, Collected(e, blobs, ingests, nodes)), k) && FilesWhole(e, k)
    ensures Good(e, k.blobs, n) <==> SizeFits(k.u, n)
  {
    CollectedExactly(e, blobs, ingests, nodes, n.digest);
    CheckExactly(e, blobs, n.digest, n.size);
    CheckExactly(e, k.blobs, n.digest, n.size);
    assert k.blobs[n.digest][..|k.blobs[n.digest]|] == k.blobs[n.digest];
  }

  /** So a new initialization repairs what interruptions lost: a fetch that follows it at once and succeeds
      leaves the store closed exactly when the listed manifests and image roots can be read. */
  lemma {:induction false} InitAgainRepairs(e: Env, registry: map<Digest, Bytes>, s: Store, apps: seq<Ref>,
      ingests: map<Ref, int>, tries: seq<Try>, again: map<Ref, int>, t: Try)
    requires Starts(e, registry, s, apps) && FitAll(e, Initially(e, registry, s, apps, ingests), tries)
    requires var k := AllTried(e, Initially(e, registry, s, apps, ingests), tries);
      forall n :: n in PreorderAll(RemoteTrees(e, registry, apps)) && n.digest in k.blobs ==> SizeFits(k.u, n)
    ensures var s' := s.(blobs := AllTried(e, Initially(e, registry, s, apps, ingests), tries).blobs);
      && Starts(e, registry, s', apps)
      && var k' := Initially(e, registry, s', apps, again);
         Fits(t.order, k'.u) && Succeeds(e, k', t) ==>
           (Closed(e, FetchEnd(e, s', apps, k', t))
           <==> forall app :: app in apps && app in Listed(FetchEnd(e, s', apps, k', t)) ==>
                  CoreReads(s'.blobs, app, RemoteCore(e, registry, app)))
  {
    InterruptedStartsAgainExactly(e, registry, s, apps, ingests, tries);
    var s' := s.(blobs := AllTried(e, Initially(e, registry, s, apps, ingests), tries).blobs);
    var k' := Initially(e, registry, s', apps, again);
    if Fits(t.order, k'.u) && Succeeds(e, k', t) {
      OnceInterruptedKeepsClosed(e, registry, s', apps, again, [], t);
    }
  }

  // ---------- Cancelling after a fetch ----------

  /** The store once a fetched update is canceled: its recorded blobs are gone, its apps remain filed. */
  ghost function CancelEnd(e: Env, s: Store, apps: seq<Ref>, k: Kept, t: Try): Store
    requires Elems(t.order) <= k.u.Keys
  {
    var s' := FetchEnd(e, s, apps, k, t);
    s'.(blobs := s'.blobs - k.u.Keys)
  }

  /** Initialize, fetch in any number of attempts, then cancel: the blobs are those before the initialization. If
      the last attempt succeeded the store is closed exactly when the update's listed apps were complete but for
      their `uri` entries all along. */
  lemma {:induction false} CancelAfterFetchExactly(e: Env, registry: map<Digest, Bytes>, s: Store, apps: seq<Ref>,
      ingests: map<Ref, int>, tries: seq<Try>, t: Try)
    requires Starts(e, registry, s, apps) && FitAll(e, Initially(e, registry, s, apps, ingests), tries)
    requires Fits(t.order, AllTried(e, Initially(e, registry, s, apps, ingests), tries).u)
    ensures var k := AllTried(e, Initially(e, registry, s, apps, ingests), tries);
      var end := CancelEnd(e, s, apps, k, t);
      && end.blobs == s.blobs
      && (!Succeeds(e, k, t) ==> end == s)
      && (Succeeds(e, k, t) ==>
           (Closed(e, end) <==> forall app :: app in apps && app in Listed(Added(e, s, apps)) ==>
             && CoreReads(s.blobs, app, RemoteCore(e, registry, app))
             && Mandatory(app, RemoteCore(e, registry, app)) <= s.blobs.Keys))
  {
    var nodes := PreorderAll(RemoteTrees(e, registry, apps));
    var start := Initially(e, registry, s, apps, ingests);
    var k := AllTried(e, start, tries);
    var end := CancelEnd(e, s, apps, k, t);
    CleanFilesWhole(e, s.blobs, ingests, nodes);
    AllTriedContinue(e, start, start, tries);
    TriedContinues(e, start, k, t);
    forall d ensures SameFile(end.blobs, s.blobs, d) {
    }
    SameFilesSameMap(end.blobs, s.blobs);
    if Succeeds(e, k, t) {
      forall app, n | app in apps && n in RemoteNodes(e, registry, app) && n.digest in end.blobs
          ensures Intact(e, end, n) {
        NodeOfTrees(e, registry, apps, app, n);
        assert Good(e, s.blobs, n);
      }
      FetchKeepsClosedExactly(e, registry, s, end, apps);
      assert Listed(end) == Listed(Added(e, s, apps));
    }
  }

  /** In particular, once the fetch brought in the manifest of an app that is then listed, cancelling leaves the
      store open, and it refuses every prune unless a skopeo-made manifest file stands in. */
  lemma {:induction false} CancelAfterFetchBreaksClosure(e: Env, registry: map<Digest, Bytes>, s: Store,
      apps: seq<Ref>, ingests: map<Ref, int>, tries: seq<Try>, t: Try, app: Ref)
    requires Starts(e, registry, s, apps) && FitAll(e, Initially(e, registry, s, apps, ingests), tries)
    requires var k := AllTried(e, Initially(e, registry, s, apps, ingests), tries);
      Fits(t.order, k.u) && Succeeds(e, k, t)
    requires app in apps && app in Listed(Added(e, s, apps)) && app.digest in Initially(e, registry, s, apps, ingests).u
    ensures var end := CancelEnd(e, s, apps, AllTried(e, Initially(e, registry, s, apps, ingests), tries), t);
      !Closed(e, end) && (!StandsIn(e, end, app) ==> !Prunable(e, end))
  {
    var end := CancelEnd(e, s, apps, AllTried(e, Initially(e, registry, s, apps, ingests), tries), t);
    CancelAfterFetchExactly(e, registry, s, apps, ingests, tries, t);
    CleanFilesWhole(e, s.blobs, ingests, PreorderAll(RemoteTrees(e, registry, apps)));
    assert app.digest in Mandatory(app, RemoteCore(e, registry, app));
    assert Listed(end) == Listed(Added(e, s, apps));
    if !StandsIn(e, end, app) {
      UnreadableBlocksPrune(e, end, app);
    }
  }
}
