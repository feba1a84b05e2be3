/** An update from beginning to end: what initializing, fetching and completing it leave in the store
    (pkg/update/update.go). */
module Cycle {
  import opened Base
  import opened Tree
  import opened Loader
  import opened AppStore
  import opened Blobs
  import opened Progress
  import opened Fetch
  import opened Resume
  import opened Init
  import opened Rollback
  import C = Closure
  import L = UpdateLog
  import opened Complete

  /** After a successful attempt a node whose blob is there passes its check exactly when its size is the
      recorded one. */
  lemma {:induction false} FetchedNodePasses(e: Env, blobs: map<Digest, Bytes>, ingests: map<Ref, int>,
      nodes: Nodes, k: Kept, t: Try, n: Node)
    requires CleanStart(e, blobs, nodes) && n in nodes && C.CollisionFree(e)
    requires Underway(e, Kept(blobs, Collected(e, blobs, ingests, nodes)), k) && Fits(t.order, k.u) && Succeeds(e, k, t)
    requires n.digest in Tried(e, k, t).blobs
    ensures Good(e, Tried(e, k, t).blobs, n) <==> SizeFits(k.u, n)
  {
    var after := Tried(e, k, t).blobs;
    CollectedExactly(e, blobs, ingests, nodes, n.digest);
    AfterSuccess(e, blobs, ingests, nodes, k, t, n);
    CheckExactly(e, after, n.digest, n.size);
    CheckExactly(e, blobs, n.digest, n.size);
    assert after[n.digest][..|after[n.digest]|] == after[n.digest];
  }

  lemma {:induction false} PreorderAllConcat(a: seq<Node>, b: seq<Node>)
    ensures PreorderAll(a + b) == PreorderAll(a) + PreorderAll(b)
  {
    if a == [] {
      assert a + b == b;
    } else {
      assert (a + b)[1..] == a[1..] + b;
      PreorderAllConcat(a[1..], b);
    }
  }

  /** The nodes of an app's tree. */
  lemma NodesOfApp(e: Env, p: Provider, app: Ref, c: Core)
    ensures Preorder(AppTree(e, p, app, c))
         == [AppTree(e, p, app, c)]
          + (PreorderAll(MetaNodes(e, p, app, c.doc)) + PreorderAll(IndexNodes(p, app, c)) + Preorder(c.bundle))
  {
    var meta, index := MetaNodes(e, p, app, c.doc), IndexNodes(p, app, c);
    PreorderAllConcat(meta + index, [c.bundle]);
    PreorderAllConcat(meta, index);
    assert PreorderAll([c.bundle]) == Preorder(c.bundle);
  }

  /** The nodes of an app's tree whose blobs are checked wherever they are there: all but the metadata, which
      was checked as it was read. */
  function CheckedNodes(e: Env, registry: map<Digest, Bytes>, app: Ref, c: Core): Nodes {
    [AppTree(e, Remote(registry), app, c)] + PreorderAll(IndexNodes(Remote(registry), app, c)) + Preorder(c.bundle)
  }

  /** Those nodes pass whose blobs are there. */
  predicate PassIfThere(e: Env, s: Store, nodes: Nodes) {
    forall n :: n in nodes && n.digest in s.blobs ==> Passes(e, s.blobs, n.digest, n.size)
  }

  /** The optional nodes of the store's tree pass as far as they are to be checked. */
  lemma OptionalNodesPass(e: Env, registry: map<Digest, Bytes>, s: Store, app: Ref, c: Core)
    requires c.direct
    ensures NodesPass(e, s, PreorderAll(MetaNodes(e, Local(s), app, c.doc)))
    ensures NodesPass(e, s, PreorderAll(IndexNodes(Local(s), app, c)))
       <==> PassIfThere(e, s, PreorderAll(IndexNodes(Remote(registry), app, c)))
  {
    var meta, index := MetaNodes(e, Local(s), app, c.doc), IndexNodes(Remote(registry), app, c);
    assert meta != [] ==> PreorderAll(meta) == [meta[0]];
    if index != [] {
      assert PreorderAll(index) == [index[0]];
      assert IndexNodes(Local(s), app, c) == if index[0].digest in s.blobs then index else [];
    }
  }

  /** The bundle's nodes are all there. */
  lemma BundleNodesThere(s: Store, c: Core, n: Node)
    requires Digests(c.bundle) <= s.blobs.Keys && n in Preorder(c.bundle)
    ensures n.digest in s.blobs
  {
    var i :| 0 <= i < |Preorder(c.bundle)| && Preorder(c.bundle)[i] == n;
    PreorderDigests(c.bundle, n.digest);
    assert n.digest in Digests(c.bundle);
  }

  /** So, with the mandatory blobs there, all nodes of the tree the store loads pass exactly when those to be
      checked do. */
  lemma StoreNodesPass(e: Env, registry: map<Digest, Bytes>, s: Store, app: Ref, c: Core)
    requires c.direct && Mandatory(app, c) <= s.blobs.Keys
    ensures NodesPass(e, s, Preorder(AppTree(e, Local(s), app, c)))
       <==> PassIfThere(e, s, CheckedNodes(e, registry, app, c))
  {
    var root, remote := AppTree(e, Local(s), app, c), AppTree(e, Remote(registry), app, c);
    var meta, index := PreorderAll(MetaNodes(e, Local(s), app, c.doc)), PreorderAll(IndexNodes(Local(s), app, c));
    NodesOfApp(e, Local(s), app, c);
    OptionalNodesPass(e, registry, s, app, c);
    forall n | n in Preorder(c.bundle) ensures n.digest in s.blobs {
      BundleNodesThere(s, c, n);
    }
    assert root.digest == remote.digest == app.digest && root.size == remote.size;
    AllPass(e, s, root, meta, index, Preorder(c.bundle));
    SomePass(e, s, remote, PreorderAll(IndexNodes(Remote(registry), app, c)), Preorder(c.bundle));
  }

  lemma AllPass(e: Env, s: Store, root: Node, meta: Nodes, index: Nodes, bundle: Nodes)
    ensures NodesPass(e, s, [root] + (meta + index + bundle))
       <==> NodesPass(e, s, [root]) && NodesPass(e, s, meta) && NodesPass(e, s, index) && NodesPass(e, s, bundle)
  {
    var all := [root] + (meta + index + bundle);
    assert forall n :: n in all <==> n == root || n in meta || n in index || n in bundle;
  }

  lemma SomePass(e: Env, s: Store, root: Node, index: Nodes, bundle: Nodes)
    requires root.digest in s.blobs && forall n :: n in bundle ==> n.digest in s.blobs
    ensures PassIfThere(e, s, [root] + index + bundle)
       <==> Passes(e, s.blobs, root.digest, root.size) && PassIfThere(e, s, index) && NodesPass(e, s, bundle)
  {
    var all := [root] + index + bundle;
    assert forall n :: n in all <==> n == root || n in index || n in bundle;
  }

  /** So the app is verified exactly when its manifest and image roots can be read, it has all its mandatory
      blobs, and the nodes to be checked pass. */
  lemma FetchedAppVerified(e: Env, registry: map<Digest, Bytes>, s: Store, app: Ref)
    requires C.CollisionFree(e) && Honest(e, registry) && C.RemoteLoads(e, registry, app)
    requires forall n :: n in C.RemoteNodes(e, registry, app) && n.digest in s.blobs ==> C.Intact(e, s, n)
    ensures var c := C.RemoteCore(e, registry, app);
      AppVerified(e, s, app) <==>
        && CoreReads(s.blobs, app, c) && Mandatory(app, c) <= s.blobs.Keys
        && PassIfThere(e, s, CheckedNodes(e, registry, app, c))
  {
    var c := C.RemoteCore(e, registry, app);
    C.FetchedAppComplete(e, registry, s, app);
    assert forall n :: C.Intact(e, Strict(s), n) <==> C.Intact(e, s, n);
    C.FetchedAppComplete(e, registry, Strict(s), app);
    if AppVerified(e, s, app) {
      VerifiedIsComplete(e, s, app);
    }
    if CoreReads(s.blobs, app, c) && Mandatory(app, c) <= s.blobs.Keys {
      StoreNodesPass(e, registry, Strict(s), app, c);
    }
  }

  /** The nodes of the app that have their blobs are recorded with the sizes they give. */
  ghost predicate SizesFit(e: Env, registry: map<Digest, Bytes>, app: Ref, k: Kept)
    requires C.RemoteLoads(e, registry, app)
  {
    forall n :: n in CheckedNodes(e, registry, app, C.RemoteCore(e, registry, app)) ==>
      (n.digest in OkBlobs(k.u) && n.digest !in k.blobs) || SizeFits(k.u, n)
  }

  lemma CheckedNodesOfTrees(e: Env, registry: map<Digest, Bytes>, apps: seq<Ref>, app: Ref, n: Node)
    requires forall a :: a in apps ==> C.RemoteLoads(e, registry, a)
    requires app in apps && C.RemoteLoads(e, registry, app)
    requires n in CheckedNodes(e, registry, app, C.RemoteCore(e, registry, app))
    ensures n in PreorderAll(RemoteTrees(e, registry, apps))
  {
    var c := C.RemoteCore(e, registry, app);
    NodesOfApp(e, Remote(registry), app, c);
    assert n in Preorder(AppTree(e, Remote(registry), app, c));
    NodeOfTrees(e, registry, apps, app, n);
  }

  /** After the successful attempt that ends fetching, however often that was interrupted, the check completing
      begins with passes for an update app exactly when it is sound and its nodes have the recorded sizes. */
  lemma {:induction false} FetchedUpdateVerified(e: Env, registry: map<Digest, Bytes>, s: Store, apps: seq<Ref>,
      ingests: map<Ref, int>, k: Kept, t: Try, app: Ref)
    requires Starts(e, registry, s, apps)
    requires Underway(e, Initially(e, registry, s, apps, ingests), k) && Fits(t.order, k.u) && Succeeds(e, k, t)
    requires app in apps
    ensures AppVerified(e, FetchEnd(e, s, apps, k, t), app)
       <==> Sound(e, registry, s, app, k) && SizesFit(e, registry, app, k)
  {
    var s' := FetchEnd(e, s, apps, k, t);
    forall n | n in CheckedNodes(e, registry, app, C.RemoteCore(e, registry, app))
      ensures n.digest in s'.blobs <==> !(n.digest in OkBlobs(k.u) && n.digest !in k.blobs)
      ensures n.digest in s'.blobs ==> (Passes(e, s'.blobs, n.digest, n.size) <==> SizeFits(k.u, n))
    {
      CheckedAfterSuccess(e, registry, s, apps, ingests, k, t, app, n);
    }
    forall n | n in C.RemoteNodes(e, registry, app) && n.digest in s'.blobs ensures C.Intact(e, s', n) {
      NodeAfterSuccess(e, registry, s, apps, ingests, k, t, app, n);
    }
    ReadsAfterSuccess(e, registry, s, apps, ingests, k, t, app);
    MandatoryAfterSuccess(e, registry, s, apps, ingests, k, t, app);
    FetchedAppVerified(e, registry, s', app);
  }

  lemma {:induction false} CheckedAfterSuccess(e: Env, registry: map<Digest, Bytes>, s: Store, apps: seq<Ref>,
      ingests: map<Ref, int>, k: Kept, t: Try, app: Ref, n: Node)
    requires Starts(e, registry, s, apps)
    requires Underway(e, Initially(e, registry, s, apps, ingests), k) && Fits(t.order, k.u) && Succeeds(e, k, t)
    requires app in apps && n in CheckedNodes(e, registry, app, C.RemoteCore(e, registry, app))
    ensures var after := Tried(e, k, t).blobs;
      && (n.digest in after <==> !(n.digest in OkBlobs(k.u) && n.digest !in k.blobs))
      && (n.digest in after ==> (Passes(e, after, n.digest, n.size) <==> SizeFits(k.u, n)))
  {
    var nodes := PreorderAll(RemoteTrees(e, registry, apps));
    CheckedNodesOfTrees(e, registry, apps, app, n);
    AfterSuccess(e, s.blobs, ingests, nodes, k, t, n);
    if n.digest in Tried(e, k, t).blobs {
      FetchedNodePasses(e, s.blobs, ingests, nodes, k, t, n);
    }
  }

  /** A whole update of a closed store, from a clean start, fetched in any number of interrupted attempts and
      one that succeeds. The store is then closed exactly when the update's apps are sound, and its blobs verify
      exactly when moreover every blob has one size in all of them. In that case completing it with pruning
      cannot fail in the store, and leaves a closed store that lists exactly the update's apps and holds exactly
      the blobs of their trees. */
  lemma {:induction false} UpdateLeavesExactlyItsApps(e: Env, registry: map<Digest, Bytes>, s: Store,
      apps: seq<Ref>, ingests: map<Ref, int>, tries: seq<Try>, t: Try, removed: seq<Ref>)
    requires Starts(e, registry, s, apps) && Filed(e, s)
    requires FitAll(e, Initially(e, registry, s, apps, ingests), tries)
    requires var k := AllTried(e, Initially(e, registry, s, apps, ingests), tries);
      && Fits(t.order, k.u) && Succeeds(e, k, t)
      && forall app :: app in removed <==> Unwanted(e, FetchEnd(e, s, apps, k, t), apps, app)
    requires forall app :: app in apps ==> NotReplaced(e, apps, app)
    ensures var k := AllTried(e, Initially(e, registry, s, apps, ingests), tries);
      var s' := FetchEnd(e, s, apps, k, t);
      && (C.Closed(e, s') <==> forall app :: app in apps ==> Sound(e, registry, s, app, k))
      && (UpdateVerified(e, s', apps)
          <==> C.Closed(e, s') && forall app :: app in apps ==> SizesFit(e, registry, app, k))
      && (UpdateVerified(e, s', apps) ==>
          && Prunable(e, Removed(e, s', removed))
          && (var end := Pruned(e, Removed(e, s', removed));
              C.Closed(e, end) && Listed(end) == Elems(apps) && end.blobs.Keys == DigestsOf(e, s', Elems(apps))))
  {
    var k := AllTried(e, Initially(e, registry, s, apps, ingests), tries);
    var s' := FetchEnd(e, s, apps, k, t);
    TriesAreUnderway(e, registry, s, apps, ingests, tries);
    AllListed(e, s, apps);
    assert Listed(s') == Listed(Added(e, s, apps)) && Filed(e, s');
    ClosedAndVerifiedExactly(e, registry, s, apps, ingests, k, t);
    if UpdateVerified(e, s', apps) {
      C.RemoveKeepsClosed(e, s', removed);
      CompleteLeavesExactlyTheUpdate(e, s', apps, removed);
    }
  }

  lemma {:induction false} ClosedAndVerifiedExactly(e: Env, registry: map<Digest, Bytes>, s: Store,
      apps: seq<Ref>, ingests: map<Ref, int>, k: Kept, t: Try)
    requires Starts(e, registry, s, apps) && Elems(apps) <= Listed(Added(e, s, apps))
    requires Underway(e, Initially(e, registry, s, apps, ingests), k) && Fits(t.order, k.u) && Succeeds(e, k, t)
    ensures var s' := FetchEnd(e, s, apps, k, t);
      && (C.Closed(e, s') <==> forall app :: app in apps ==> Sound(e, registry, s, app, k))
      && (UpdateVerified(e, s', apps)
          <==> C.Closed(e, s') && forall app :: app in apps ==> SizesFit(e, registry, app, k))
  {
    var s' := FetchEnd(e, s, apps, k, t);
    forall app | app in apps
      ensures app in Listed(s')
      ensures AppVerified(e, s', app) <==> Sound(e, registry, s, app, k) && SizesFit(e, registry, app, k)
    {
      assert app in Elems(apps);
      FetchedUpdateVerified(e, registry, s, apps, ingests, k, t, app);
    }
    FetchKeepsClosedFrom(e, registry, s, apps, ingests, k, t);
  }

  lemma AllListed(e: Env, s: Store, apps: seq<Ref>)
    requires Filed(e, s) && forall app :: app in apps ==> NotReplaced(e, apps, app)
    ensures Elems(apps) <= Listed(Added(e, s, apps)) && Filed(e, Added(e, s, apps))
  {
    AddedApps(e, s, apps);
    forall app | app in apps ensures app in Listed(Added(e, s, apps)) {
      AddedIsListed(e, s, apps, app);
    }
  }

  // ---------- Fetched but not filed ----------

  /** An update that has nothing to fetch, all its apps being sound already, verifies. */
  lemma NothingToFetch(e: Env, registry: map<Digest, Bytes>, s: Store, apps: seq<Ref>, ingests: map<Ref, int>)
    requires Starts(e, registry, s, apps) && Initially(e, registry, s, apps, ingests).u == map[]
    requires forall app :: app in apps ==> CoreReads(s.blobs, app, C.RemoteCore(e, registry, app))
    ensures UpdateVerified(e, s, apps)
  {
    var nodes := PreorderAll(RemoteTrees(e, registry, apps));
    forall app | app in apps ensures AppVerified(e, s, app) {
      forall n | n in C.RemoteNodes(e, registry, app) ensures Good(e, s.blobs, n) && n.digest in s.blobs {
        NodeOfTrees(e, registry, apps, app, n);
        CollectedExactly(e, s.blobs, ingests, nodes, n.digest);
      }
      AllThere(e, registry, s, app);
      FetchedAppVerified(e, registry, s, app);
      forall n | n in CheckedNodes(e, registry, app, C.RemoteCore(e, registry, app)) ensures Good(e, s.blobs, n) {
        NodesOfApp(e, Remote(registry), app, C.RemoteCore(e, registry, app));
        assert n in C.RemoteNodes(e, registry, app);
      }
    }
  }

  lemma AllThere(e: Env, registry: map<Digest, Bytes>, s: Store, app: Ref)
    requires C.RemoteLoads(e, registry, app)
    requires forall n :: n in C.RemoteNodes(e, registry, app) ==> n.digest in s.blobs
    ensures Mandatory(app, C.RemoteCore(e, registry, app)) <= s.blobs.Keys
  {
    var c := C.RemoteCore(e, registry, app);
    var tree := AppTree(e, Remote(registry), app, c);
    AppTreeDigests(e, Remote(registry), app, c);
    forall d | d in Mandatory(app, c) ensures d in s.blobs {
      PreorderDigests(tree, d);
      var i :| 0 <= i < |Preorder(tree)| && Preorder(tree)[i].digest == d;
      assert Preorder(tree)[i] in C.RemoteNodes(e, registry, app);
    }
  }

  /** Init alone, asked to check the status of an update with nothing to fetch, can leave its record fetched,
      installed or started, and files no app. If none was filed before, completing the update, which its record
      then allows as soon as it is started, verifies its blobs and then sweeps them all. */
  lemma InitSkipsFiling(e: Env, registry: map<Digest, Bytes>, s: Store, apps: seq<Ref>, ingests: map<Ref, int>,
                        status: L.Status, removed: seq<Ref>)
    requires Starts(e, registry, s, apps) && Initially(e, registry, s, apps, ingests).u == map[] && Filed(e, s)
    requires forall app :: app in apps ==> CoreReads(s.blobs, app, C.RemoteCore(e, registry, app))
    requires Elems(apps) !! Listed(s) && forall app :: app in removed <==> Unwanted(e, s, apps, app)
    ensures var state := L.After(L.Op.Init(true, false, L.Done, Some(status)));
      && state == (if status.running then L.Started else if status.installed then L.Installed
                   else if status.fetched then L.Fetched else L.Initialized)
      && (status.running ==> L.Accepts(L.Op.Complete(L.Done, false), state))
    ensures UpdateVerified(e, s, apps) && Prunable(e, Removed(e, s, removed))
    ensures Pruned(e, Removed(e, s, removed)).blobs == map[]
  {
    NothingToFetch(e, registry, s, apps, ingests);
    C.RemoveKeepsClosed(e, s, removed);
    UnfiledUpdateIsSwept(e, s, apps, removed);
  }

  /** Every blob still to fetch sits in an open ingest in full length. */
  predicate AllButCommitted(u: Records, ingests: map<Ref, int>) {
    forall d :: d in Pending(u) ==> u[d].ref in ingests && ingests[u[d].ref] == u[d].size
  }

  /** An attempt cut off before its first copy, after one report. */
  function CutOff(order: seq<Digest>, ingests: map<Ref, int>): Try {
    Try(order, i => if i == 0 then [Poll(ingests, {}, true)] else [], NoReplies(), false)
  }

  lemma {:induction false} AfterCutOff(e: Env, k: Kept, order: seq<Digest>, ingests: map<Ref, int>)
    requires Fits(order, k.u) && order != []
    ensures var t := CutOff(order, ingests);
      Attempt(e, k.blobs, k.u, order, t.polls, t.reply)
      == (PollOnce(Begin(k.blobs, k.u), Poll(ingests, {}, true)), false)
  {
    var t := CutOff(order, ingests);
    var poll, begin := Poll(ingests, {}, true), Begin(k.blobs, k.u);
    assert [poll][..0] == [];
    assert PollMany(begin, [poll]) == PollOnce(PollMany(begin, []), poll);
    assert Copies(e, begin, order, t.polls, t.reply, 0) == (begin, true);
    assert order[0] in Elems(order);
    FailingRound(e, k.blobs, k.u, order, t.polls, t.reply, 0);
  }

  /** A fetch cut off with all bytes written but not committed: its last report reads one hundred percent and
      no further blob counts as fetched. The record is then left Fetched, so that Install is accepted; but the
      store has gained no file, and does not list the update's apps. */
  lemma {:induction false} FetchedButNotFiled(e: Env, s: Store, apps: seq<Ref>, k: Kept, order: seq<Digest>,
      ingests: map<Ref, int>)
    requires Fits(order, k.u) && order != [] && AllButCommitted(k.u, ingests) && k.blobs == s.blobs
    ensures var t := CutOff(order, ingests);
      && !Succeeds(e, k, t) && FetchEnd(e, s, apps, k, t) == s
      && OkBlobs(Tried(e, k, t).u) == OkBlobs(k.u)
      && (var p := Attempt(e, k.blobs, k.u, order, t.polls, t.reply).0.p;
          Full(p) && Percent(SumFetched(p), SumTotal(k.u)) == 100)
    ensures var op := L.Op.Fetch(L.Interrupted, true);
      L.After(op) == L.Fetched && L.Accepts(L.Op.Install(L.Done), L.After(op))
  {
    AfterCutOff(e, k, order, ingests);
    FullBeforeCommit(k.u, View(ingests, {}, Sizes(k.blobs)));
    var one := PollOnce(Begin(k.blobs, k.u), Poll(ingests, {}, true));
    assert OkBlobs(one.u) == OkBlobs(k.u);
  }
}
