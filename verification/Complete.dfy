/** Completing an update: verify all its blobs first, then drop every other app and its blobs
    (pkg/update/complete.go, pkg/compose/list.go, pkg/compose/remove.go). */
module Complete {
  import opened Base
  import opened Tree
  import opened Loader
  import opened AppStore
  import C = Closure
  import opened Blobs

  /** The update's own view of the store does not fall back to the apps directory. */
  function Strict(s: Store): Store {
    s.(skopeoAware := false)
  }

  predicate NodesPass(e: Env, s: Store, nodes: seq<Node>) {
    forall n :: n in nodes ==> Passes(e, s.blobs, n.digest, n.size)
  }

  predicate AppVerified(e: Env, s: Store, app: Ref) {
    Loads(e, Strict(s), app) && NodesPass(e, s, Preorder(LoadApp(e, Local(Strict(s)), app).value))
  }

  /** Every app of the update loads and every blob of every tree passes its check. */
  predicate UpdateVerified(e: Env, s: Store, apps: seq<Ref>) {
    forall app :: app in apps ==> AppVerified(e, s, app)
  }

  /** The listed apps that load and are not of the update. */
  predicate Unwanted(e: Env, s: Store, apps: seq<Ref>, app: Ref) {
    app in Listed(s) && Loads(e, s, app) && app !in apps
  }

  method VerifyApp(store: AppStore, app: Ref) returns (ok: bool)
    ensures ok <==> AppVerified(store.env, store.View(), app)
  {
    var s := store.View();
    var tree := LoadApp(store.env, Local(Strict(s)), app);
    if tree.Err? {
      return false;
    }
    LoadedTreeIsShallow(store.env, Local(Strict(s)), app);
    var visited := Walk(tree.value, 0).visited;
    ok := true;
    for i := 0 to |visited|
      invariant ok <==> NodesPass(store.env, s, visited[..i])
    {
      assert visited[..i + 1] == visited[..i] + [visited[i]];
      // a check that fails as such ends the call with an error, one that does not pass is counted as missing
      var state := CheckBlob(store.env, s.blobs, visited[i].digest, visited[i].size);
      if state != Some(BlobOk) {
        ok := false;
      }
    }
    assert visited[..|visited|] == visited;
  }

  /** The listed apps that load, less those of the update; None if the store cannot be listed. */
  method FindUnwanted(store: AppStore, apps: seq<Ref>) returns (r: Option<seq<Ref>>)
    ensures r.Some? <==> UrisParse(store.View())
    ensures r.Some? ==> forall app :: app in r.value <==> Unwanted(store.env, store.View(), apps, app)
  {
    var listed := store.ListApps();
    if listed.None? {
      return None;
    }
    var refs := listed.value;
    var found: seq<Ref> := [];
    for i := 0 to |refs|
      invariant Elems(found) == Unlisted(store.env, store.View(), apps, Elems(refs[..i]))
    {
      assert Elems(refs[..i + 1]) == Elems(refs[..i]) + {refs[i]};
      if Loads(store.env, store.View(), refs[i]) && refs[i] !in apps {
        assert Elems(found + [refs[i]]) == Elems(found) + {refs[i]};
        found := found + [refs[i]];
      }
    }
    assert refs[..|refs|] == refs;
    forall app ensures app in found <==> Unwanted(store.env, store.View(), apps, app) {
      assert app in found <==> app in Elems(found);
    }
    r := Some(found);
  }

  function Unlisted(e: Env, s: Store, apps: seq<Ref>, among: set<Ref>): set<Ref> {
    set app | app in among && Loads(e, s, app) && app !in apps
  }

  /** Exactly the listed apps that load and are not of the update. */
  ghost predicate ListsUnwanted(e: Env, s: Store, apps: seq<Ref>, refs: seq<Ref>) {
    forall app :: app in refs <==> app in Listed(s) && LoadApp(e, Local(s), app).Ok? && app !in apps
  }

  /** A complete with pruning can go through: the store can be listed, docker uninstalled the unwanted apps, and
      what is listed without them loads. */
  ghost predicate CanRemove(e: Env, s: Store, refs: seq<Ref>, uninstalled: bool) {
    UrisParse(s) && uninstalled && Prunable(e, Removed(e, s, refs))
  }

  /** Complete an update. `uninstalled` is the result of uninstalling the unwanted apps from docker. It succeeds
      exactly when the update verifies and what is to be done afterwards can be done: in a closed store always,
      provided docker uninstalls. */
  method CompleteUpdate(store: AppStore, apps: seq<Ref>, prune: bool, uninstalled: bool)
    returns (ok: bool, ghost removed: seq<Ref>)
    modifies store
    ensures !prune ==>
      (ok <==> UpdateVerified(store.env, old(store.View()), apps) && Prunable(store.env, old(store.View())))
    ensures prune ==> forall refs :: ListsUnwanted(store.env, old(store.View()), apps, refs) ==>
      (ok <==> UpdateVerified(store.env, old(store.View()), apps)
               && CanRemove(store.env, old(store.View()), refs, uninstalled))
    ensures (C.Closed(store.env, old(store.View())) && UpdateVerified(store.env, old(store.View()), apps)
             && (prune ==> uninstalled)) ==> ok
    ensures !UpdateVerified(store.env, old(store.View()), apps) ==> !ok && store.View() == old(store.View())
    ensures prune && !uninstalled ==> !ok && store.View() == old(store.View())
    ensures ok ==> Prunable(store.env, Removed(store.env, old(store.View()), removed))
    ensures ok ==> store.View() == Pruned(store.env, Removed(store.env, old(store.View()), removed))
    ensures ok && prune ==> ListsUnwanted(store.env, old(store.View()), apps, removed)
    ensures ok && !prune ==> removed == []
    ensures !ok ==> store.View() == Removed(store.env, old(store.View()), removed)
  {
    var e := store.env;
    ghost var s := store.View();
    removed := [];
    RemoveNothing(e, s);
    ok := VerifyAll(store, apps);
    if !ok {
      return;
    }
    if !prune {
      ok := Sweep(store);
      if C.Closed(e, s) {
        C.PruneKeepsClosed(e, s);
      }
    } else {
      ok, removed := RemoveUnwanted(store, apps, uninstalled);
      if ok {
        if removed != [] {
          PruneTwice(e, Removed(e, s, removed));
        }
        ok := Sweep(store);
      }
      OnlyOneRemoval(e, s, apps, removed, uninstalled);
    }
  }

  method Sweep(store: AppStore) returns (ok: bool)
    modifies store`blobs
    ensures ok <==> Prunable(store.env, old(store.View()))
    ensures store.View() == if ok then Pruned(store.env, old(store.View())) else old(store.View())
  {
    var garbage := store.Prune();
    ok := garbage.Some?;
  }

  /** Remove the unwanted apps, with pruning if there are any. */
  method RemoveUnwanted(store: AppStore, apps: seq<Ref>, uninstalled: bool) returns (ok: bool, ghost removed: seq<Ref>)
    modifies store
    ensures !uninstalled || !UrisParse(old(store.View())) ==> !ok && removed == []
    ensures uninstalled && UrisParse(old(store.View())) ==> ListsUnwanted(store.env, old(store.View()), apps, removed)
    ensures uninstalled && UrisParse(old(store.View())) ==>
      (ok <==> removed == [] || Prunable(store.env, Removed(store.env, old(store.View()), removed)))
    ensures ok && removed != [] ==> store.View() == Pruned(store.env, Removed(store.env, old(store.View()), removed))
    ensures !ok || removed == [] ==> store.View() == Removed(store.env, old(store.View()), removed)
  {
    removed := [];
    RemoveNothing(store.env, store.View());
    var unwanted := FindUnwanted(store, apps);
    if unwanted.None? || !uninstalled {
      return false, [];
    }
    removed := unwanted.value;
    assert ListsUnwanted(store.env, store.View(), apps, removed);
    ok := true;
    if |unwanted.value| > 0 {
      ok := store.RemoveApps(unwanted.value, true);
    }
  }

  /** All listings of the unwanted apps stand for the same removal. */
  lemma OnlyOneRemoval(e: Env, s: Store, apps: seq<Ref>, removed: seq<Ref>, uninstalled: bool)
    ensures forall refs :: ListsUnwanted(e, s, apps, refs) && ListsUnwanted(e, s, apps, removed) ==>
      CanRemove(e, s, refs, uninstalled) == CanRemove(e, s, removed, uninstalled)
    ensures C.Closed(e, s) && uninstalled ==> CanRemove(e, s, removed, uninstalled)
    ensures C.Closed(e, s) ==> UrisParse(s)
  {
    forall refs | ListsUnwanted(e, s, apps, refs) && ListsUnwanted(e, s, apps, removed)
      ensures CanRemove(e, s, refs, uninstalled) == CanRemove(e, s, removed, uninstalled)
    {
      assert (set app | app in refs :: KeyOf(e, app)) == (set app | app in removed :: KeyOf(e, app));
    }
    if C.Closed(e, s) {
      C.RemoveKeepsClosed(e, s, removed);
    }
  }

  method VerifyAll(store: AppStore, apps: seq<Ref>) returns (ok: bool)
    ensures ok <==> UpdateVerified(store.env, store.View(), apps)
  {
    for i := 0 to |apps|
      invariant forall app :: app in apps[..i] ==> AppVerified(store.env, store.View(), app)
    {
      ok := VerifyApp(store, apps[i]);
      if !ok {
        return;
      }
    }
    ok := true;
  }

  lemma RemoveNothing(e: Env, s: Store)
    ensures Removed(e, s, []) == s
  {
    assert s.apps - (set app | app in [] :: KeyOf(e, app)) == s.apps;
  }

  /** A verified app is complete in the store, and has the same tree with and without the fallback. */
  lemma VerifiedIsComplete(e: Env, s: Store, app: Ref)
    requires AppVerified(e, s, app)
    ensures C.Complete(e, s, app) && LoadApp(e, Local(s), app) == LoadApp(e, Local(Strict(s)), app)
  {
    var tree := LoadApp(e, Local(Strict(s)), app).value;
    forall d | d in Digests(tree) ensures d in s.blobs {
      PreorderDigests(tree, d);
      var i :| 0 <= i < |Preorder(tree)| && Preorder(tree)[i].digest == d;
      assert Preorder(tree)[i] in Preorder(tree);
      assert Passes(e, s.blobs, d, Preorder(tree)[i].size);
    }
    SweepKeepsTree(e, Strict(s), s, app);
  }

  /** Which apps are listed after the removal: with every update app listed, exactly those of the update. */
  lemma ListedAfterRemoval(e: Env, s: Store, apps: seq<Ref>, removed: seq<Ref>)
    requires Filed(e, s) && Elems(apps) <= Listed(s)
    requires forall app :: app in removed <==> Unwanted(e, s, apps, app)
    requires Prunable(e, Removed(e, s, removed))
    ensures Listed(Removed(e, s, removed)) == Elems(apps)
  {
    var s' := Removed(e, s, removed);
    forall app | app in Listed(s') ensures app in apps {
      assert app in Listed(s) && KeyOf(e, app) in s'.apps;
      assert Loads(e, s', app);
      SweepKeepsTree(e, s', s, app);
    }
    forall app | app in apps ensures app in Listed(s') {
      assert app in Elems(apps);
      var k := KeyOf(e, app);
      assert k in s.apps && s.apps[k].uri == Uri(app);
      forall r | r in removed ensures KeyOf(e, r) != k {
        assert r in Listed(s);
      }
      assert k in s'.apps;
    }
  }

  /** What the removal and the sweep leave of one verified app: everything. */
  lemma AppSurvives(e: Env, s: Store, removed: seq<Ref>, app: Ref)
    requires AppVerified(e, s, app) && Prunable(e, Removed(e, s, removed)) && app in Listed(Removed(e, s, removed))
    ensures TreeDigests(e, Removed(e, s, removed), app) == TreeDigests(e, s, app) <= s.blobs.Keys
    ensures LoadApp(e, Local(Pruned(e, Removed(e, s, removed))), app) == LoadApp(e, Local(s), app)
    ensures C.Complete(e, Pruned(e, Removed(e, s, removed)), app)
  {
    VerifiedIsComplete(e, s, app);
    SweepKeepsTree(e, s, Removed(e, s, removed), app);
    PruneKeepsTrees(e, Removed(e, s, removed), app);
  }

  /** A complete with pruning that succeeds, of an update whose apps were all listed: afterwards the store
      lists exactly the update's apps, holds exactly the blobs of their trees, each as it was verified, and
      the loader gives the same trees. */
  lemma CompleteLeavesExactlyTheUpdate(e: Env, s: Store, apps: seq<Ref>, removed: seq<Ref>)
    requires Filed(e, s) && Elems(apps) <= Listed(s) && UpdateVerified(e, s, apps)
    requires forall app :: app in removed <==> Unwanted(e, s, apps, app)
    requires Prunable(e, Removed(e, s, removed))
    ensures Listed(Pruned(e, Removed(e, s, removed))) == Elems(apps)
    ensures Pruned(e, Removed(e, s, removed)).blobs.Keys == DigestsOf(e, s, Elems(apps))
    ensures forall d :: d in Pruned(e, Removed(e, s, removed)).blobs ==>
      SameFile(s.blobs, Pruned(e, Removed(e, s, removed)).blobs, d)
    ensures forall app :: app in apps ==>
      C.Complete(e, Pruned(e, Removed(e, s, removed)), app) &&
        LoadApp(e, Local(Pruned(e, Removed(e, s, removed))), app) == LoadApp(e, Local(s), app)
  {
    var mid := Removed(e, s, removed);
    ListedAfterRemoval(e, s, apps, removed);
    forall app | app in apps
      ensures TreeDigests(e, mid, app) == TreeDigests(e, s, app) <= s.blobs.Keys
      ensures C.Complete(e, Pruned(e, mid), app) && LoadApp(e, Local(Pruned(e, mid)), app) == LoadApp(e, Local(s), app)
    {
      assert app in Elems(apps);
      AppSurvives(e, s, removed, app);
    }
    SameDigests(e, s, mid, Elems(apps));
  }

  /** In general, filed or not: after a complete that succeeds, a verified app is still complete exactly when
      trees of apps that are still listed have all its mandatory blobs. */
  lemma SurvivesCompleteExactly(e: Env, s: Store, removed: seq<Ref>, app: Ref)
    requires AppVerified(e, s, app) && Prunable(e, Removed(e, s, removed))
    ensures Loads(e, s, app)
    ensures C.Complete(e, Pruned(e, Removed(e, s, removed)), app)
       <==> C.MandatoryIn(e, s, app) <= Referenced(e, Removed(e, s, removed))
  {
    var mid := Removed(e, s, removed);
    VerifiedIsComplete(e, s, app);
    SweepKeepsTree(e, s, mid, app);
    C.CompleteExactly(e, s, app);
    CoreFrame(e, s, mid, app);
    C.DeletionKeepsCompleteExactly(e, mid, Garbage(e, mid), app);
  }

  /** So completing an update of which no app was filed empties the store of all blobs, its own verified ones
      included. */
  lemma UnfiledUpdateIsSwept(e: Env, s: Store, apps: seq<Ref>, removed: seq<Ref>)
    requires Filed(e, s) && Elems(apps) !! Listed(s)
    requires forall app :: app in removed <==> Unwanted(e, s, apps, app)
    requires Prunable(e, Removed(e, s, removed))
    ensures Listed(Pruned(e, Removed(e, s, removed))) == {} && Pruned(e, Removed(e, s, removed)).blobs == map[]
  {
    var mid := Removed(e, s, removed);
    forall app ensures app !in Listed(mid) {
      if app in Listed(mid) {
        assert app in Listed(s) && KeyOf(e, app) in mid.apps && Loads(e, mid, app);
        SweepKeepsTree(e, mid, s, app);
      }
    }
    assert Listed(mid) == {} && Referenced(e, mid) == {};
    assert Pruned(e, mid).blobs.Keys == {};
  }

  lemma SameDigests(e: Env, s: Store, s': Store, apps: set<Ref>)
    requires s'.blobs == s.blobs
    requires forall app :: app in apps ==> TreeDigests(e, s', app) == TreeDigests(e, s, app) <= s.blobs.Keys
    ensures DigestsOf(e, s', apps) == DigestsOf(e, s, apps) <= s.blobs.Keys
    ensures (s'.blobs - (s'.blobs.Keys - DigestsOf(e, s', apps))).Keys == DigestsOf(e, s, apps)
  {
  }

  /** A complete that succeeds keeps closure, whatever it removed. */
  lemma CompleteKeepsClosed(e: Env, s: Store, removed: seq<Ref>)
    requires C.Closed(e, s)
    ensures C.Closed(e, Pruned(e, Removed(e, s, removed)))
  {
    C.RemoveKeepsClosed(e, s, removed);
  }
}
