/** Closure of the app store: every listed app loads and every blob of its tree is there. Which operations
    keep it, and exactly when (pkg/compose/v1/app_store.go, pkg/update/update.go, pkg/update/cancel.go). */
module Closure {
  import opened Base
  import opened Tree
  import opened Loader
  import opened AppStore
  import opened Blobs

  predicate Complete(e: Env, s: Store, app: Ref) {
    Loads(e, s, app) && TreeDigests(e, s, app) <= s.blobs.Keys
  }

  predicate Closed(e: Env, s: Store) {
    UrisParse(s) && forall app :: app in Listed(s) ==> Complete(e, s, app)
  }

  predicate Verified(e: Env, s: Store, d: Digest) {
    d in s.blobs && e.hash(s.blobs[d]) == d
  }

  ghost predicate CollisionFree(e: Env) {
    forall a, b :: e.hash(a) == e.hash(b) ==> a == b
  }

  /** The mandatory blobs of an app that loads. */
  function MandatoryIn(e: Env, s: Store, app: Ref): set<Digest>
    requires Loads(e, s, app)
  {
    Mandatory(app, LoadCore(e, Local(s), app).value)
  }

  /** An app is complete exactly when its mandatory part loads and is present: the optional nodes are only
      in the tree when their blobs are in the store. */
  lemma CompleteExactly(e: Env, s: Store, app: Ref)
    ensures Complete(e, s, app) <==> Loads(e, s, app) && MandatoryIn(e, s, app) <= s.blobs.Keys
  {
    if Loads(e, s, app) {
      var c := LoadCore(e, Local(s), app).value;
      AppTreeDigests(e, Local(s), app, c);
      var meta, index := MetaNodes(e, Local(s), app, c.doc), IndexNodes(Local(s), app, c);
      if meta != [] {
        assert DigestsAll(meta) == Digests(meta[0]) == {meta[0].digest};
      }
      if index != [] {
        assert DigestsAll(index) == Digests(index[0]) == {index[0].digest};
      }
    }
  }

  /** Prune keeps closure. */
  lemma PruneKeepsClosed(e: Env, s: Store)
    requires Closed(e, s)
    ensures Prunable(e, s) && Closed(e, Pruned(e, s))
  {
    forall app | app in Listed(s) ensures Complete(e, Pruned(e, s), app) {
      PruneKeepsTrees(e, s, app);
    }
  }

  /** Removing apps, pruned or not, keeps closure, however many blobs the removed apps share with others. */
  lemma RemoveKeepsClosed(e: Env, s: Store, apps: seq<Ref>)
    requires Closed(e, s)
    ensures Closed(e, Removed(e, s, apps))
    ensures Prunable(e, Removed(e, s, apps)) && Closed(e, Pruned(e, Removed(e, s, apps)))
  {
    var s' := Removed(e, s, apps);
    forall app | app in Listed(s') ensures Complete(e, s', app) {
      assert app in Listed(s);
      SweepKeepsTree(e, s, s', app);
    }
    PruneKeepsClosed(e, s');
  }

  /** Adding blobs keeps a complete app complete, whatever optional nodes its tree gains. */
  lemma GrowthKeepsComplete(e: Env, s: Store, s': Store, app: Ref)
    requires Complete(e, s, app)
    requires forall d :: d in s.blobs ==> SameFile(s.blobs, s'.blobs, d)
    ensures Complete(e, s', app) && MandatoryIn(e, s', app) == MandatoryIn(e, s, app)
  {
    CompleteExactly(e, s, app);
    CoreFrame(e, s, s', app);
    CompleteExactly(e, s', app);
  }

  predicate RemoteLoads(e: Env, registry: map<Digest, Bytes>, app: Ref) {
    LoadApp(e, Remote(registry), app).Ok?
  }

  function RemoteCore(e: Env, registry: map<Digest, Bytes>, app: Ref): Core
    requires RemoteLoads(e, registry, app)
  {
    LoadCore(e, Remote(registry), app).value
  }

  /** The nodes of the app's tree as the registry gives it. */
  function RemoteNodes(e: Env, registry: map<Digest, Bytes>, app: Ref): seq<Node>
    requires RemoteLoads(e, registry, app)
  {
    Preorder(LoadApp(e, Remote(registry), app).value)
  }

  /** The node's file is verified, or at least passes its check, which ignores what follows the bytes the node
      tells. */
  predicate Intact(e: Env, s: Store, n: Node) {
    Verified(e, s, n.digest) || Passes(e, s.blobs, n.digest, n.size)
  }

  lemma IntactIsBegun(e: Env, registry: map<Digest, Bytes>, s: Store, n: Node)
    requires CollisionFree(e) && Honest(e, registry) && Intact(e, s, n)
    ensures Begun(e, s, registry, n)
  {
    CheckExactly(e, s.blobs, n.digest, n.size);
    if n.digest in registry && !Verified(e, s, n.digest) {
      assert s.blobs[n.digest][..n.size] == registry[n.digest];
    }
  }

  /** The store with the app's missing mandatory blobs filled in from the registry. */
  function Filled(e: Env, registry: map<Digest, Bytes>, s: Store, app: Ref): Store
    requires RemoteLoads(e, registry, app)
  {
    var m := Mandatory(app, RemoteCore(e, registry, app));
    s.(blobs := (map d | d in m :: if d in registry then registry[d] else []) + s.blobs)
  }

  lemma FilledBegun(e: Env, registry: map<Digest, Bytes>, s: Store, app: Ref, n: Node)
    requires CollisionFree(e) && Honest(e, registry) && RemoteLoads(e, registry, app)
    requires n.digest in Mandatory(app, RemoteCore(e, registry, app)) && (n.digest in s.blobs ==> Intact(e, s, n))
    ensures Begun(e, Filled(e, registry, s, app), registry, n)
  {
    if n.digest in s.blobs {
      IntactIsBegun(e, registry, s, n);
    }
  }

  lemma FilledCoreBegun(e: Env, registry: map<Digest, Bytes>, s: Store, app: Ref)
    requires CollisionFree(e) && Honest(e, registry) && RemoteLoads(e, registry, app)
    requires forall n :: n in RemoteNodes(e, registry, app) && n.digest in s.blobs ==> Intact(e, s, n)
    ensures CoreBegun(e, registry, Filled(e, registry, s, app), app, RemoteCore(e, registry, app))
  {
    var c := RemoteCore(e, registry, app);
    var root, all := AppTree(e, Remote(registry), app, c), Filled(e, registry, s, app);
    assert root in Preorder(root) && root.digest in Mandatory(app, c);
    FilledBegun(e, registry, s, app, root);
    forall n | n in Preorder(c.bundle) ensures Begun(e, all, registry, n) {
      PreorderOfOne(root.children, c.bundle, n);
      var i :| 0 <= i < |Preorder(c.bundle)| && Preorder(c.bundle)[i] == n;
      PreorderDigests(c.bundle, n.digest);
      FilledBegun(e, registry, s, app, n);
    }
    assert c.bundle in Preorder(c.bundle);
    forall image | image in c.bundle.children
      ensures Begun(e, all, registry, image) && AllBegun(e, all, registry, image.children)
    {
      assert image in Preorder(image);
      PreorderOfOne(c.bundle.children, image, image);
      forall n | n in image.children ensures Begun(e, all, registry, n) {
        assert n in Preorder(n);
        PreorderOfOne(image.children, n, n);
        PreorderOfOne(c.bundle.children, image, n);
      }
    }
  }

  /** An app loaded from a registry, of whose blobs the store holds some, each intact, is complete in the store
      exactly when all its mandatory blobs are there and its manifest and image roots can be read: a padded one
      passes its check and cannot be read, and one of the very limit is accepted from the registry alone. */
  lemma FetchedAppComplete(e: Env, registry: map<Digest, Bytes>, s: Store, app: Ref)
    requires CollisionFree(e) && Honest(e, registry)
    requires RemoteLoads(e, registry, app)
    requires forall n :: n in RemoteNodes(e, registry, app) && n.digest in s.blobs ==> Intact(e, s, n)
    ensures var c := RemoteCore(e, registry, app);
      Complete(e, s, app) <==> CoreReads(s.blobs, app, c) && Mandatory(app, c) <= s.blobs.Keys
    ensures Complete(e, s, app) ==> LoadCore(e, Local(s), app) == LoadCore(e, Remote(registry), app)
  {
    var all := Filled(e, registry, s, app);
    FilledCoreBegun(e, registry, s, app);
    CoreReload(e, registry, all, app);
    CompleteExactly(e, all, app);
    if Mandatory(app, RemoteCore(e, registry, app)) <= s.blobs.Keys {
      assert all.blobs == s.blobs;
    } else if Complete(e, s, app) {
      CompleteExactly(e, s, app);
      GrowthKeepsComplete(e, s, all, app);
    }
  }

  /** A fetch that touched no blob that was there, and put blobs of the update's trees into the store, all of
      these being intact, keeps closure exactly when the update apps it lists have all their mandatory blobs,
      with manifests and image roots that can be read. */
  lemma FetchKeepsClosedExactly(e: Env, registry: map<Digest, Bytes>, s: Store, s': Store, apps: seq<Ref>)
    requires Closed(e, s) && CollisionFree(e) && Honest(e, registry)
    requires forall app :: app in apps ==> RemoteLoads(e, registry, app)
    requires s'.apps == Added(e, s, apps).apps
    requires forall d :: d in s.blobs ==> SameFile(s.blobs, s'.blobs, d)
    requires forall app, n ::
      app in apps && n in RemoteNodes(e, registry, app) && n.digest in s'.blobs ==> Intact(e, s', n)
    ensures Closed(e, s')
       <==> forall app :: app in apps && app in Listed(s') ==>
              && CoreReads(s'.blobs, app, RemoteCore(e, registry, app))
              && Mandatory(app, RemoteCore(e, registry, app)) <= s'.blobs.Keys
  {
    AddedApps(e, s, apps);
    assert Listed(s') == Listed(Added(e, s, apps));
    forall app | app in Listed(s')
      ensures Complete(e, s', app) <==> (app in apps ==>
        && CoreReads(s'.blobs, app, RemoteCore(e, registry, app))
        && Mandatory(app, RemoteCore(e, registry, app)) <= s'.blobs.Keys)
    {
      if app in apps {
        FetchedAppComplete(e, registry, s', app);
      } else {
        GrowthKeepsComplete(e, s, s', app);
      }
    }
  }

  /** Deleting blobs leaves a complete app complete exactly when none of them is mandatory for it. */
  lemma DeletionKeepsCompleteExactly(e: Env, s: Store, deleted: set<Digest>, app: Ref)
    requires Complete(e, s, app)
    ensures Complete(e, s.(blobs := s.blobs - deleted), app) <==> MandatoryIn(e, s, app) !! deleted
  {
    var s' := s.(blobs := s.blobs - deleted);
    CompleteExactly(e, s, app);
    CompleteExactly(e, s', app);
    if Complete(e, s', app) {
      CoreFrame(e, s', s, app);
    }
    if MandatoryIn(e, s, app) !! deleted {
      CoreFrame(e, s, s', app);
    }
  }

  /** So deleting blobs, as Cancel does, keeps closure exactly when no deleted blob is mandatory for a listed
      app. */
  lemma CancelKeepsClosedExactly(e: Env, s: Store, deleted: set<Digest>)
    requires Closed(e, s)
    ensures Closed(e, s.(blobs := s.blobs - deleted))
       <==> forall app :: app in Listed(s) ==> MandatoryIn(e, s, app) !! deleted
  {
    forall app | app in Listed(s)
      ensures Complete(e, s.(blobs := s.blobs - deleted), app) <==> MandatoryIn(e, s, app) !! deleted
    {
      DeletionKeepsCompleteExactly(e, s, deleted, app);
    }
  }

  /** A skopeo-made manifest file stands in for the app's manifest blob. */
  predicate StandsIn(e: Env, s: Store, app: Ref) {
    s.skopeoAware && KeyOf(e, app) in s.apps && s.apps[KeyOf(e, app)].manifestFile.Some?
  }

  /** As long as the store lists an app without its manifest blob, and no skopeo-made manifest file stands in,
      every prune fails. */
  lemma UnreadableBlocksPrune(e: Env, s: Store, app: Ref)
    requires app in Listed(s) && app.digest !in s.blobs && !StandsIn(e, s, app)
    ensures !Prunable(e, s)
  {
    assert Open(e, Local(s), app, ForManifest, app.digest) == Missing;
    assert !Loads(e, s, app);
  }
}
