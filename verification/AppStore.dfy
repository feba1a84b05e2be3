/** The app store and its garbage collector (pkg/compose/v1/app_store.go). */
module AppStore {
  import opened Base
  import opened Tree
  import opened Loader

  // ---------- What the store holds ----------

  /** The apps the store lists: the references in the `uri` files. */
  function Listed(s: Store): set<Ref> {
    set k | k in s.apps && s.apps[k].uri.Uri? :: s.apps[k].uri.ref
  }

  predicate UrisParse(s: Store) {
    forall k :: k in s.apps ==> s.apps[k].uri != BadUri
  }

  /** Every listed app sits in the directory named after it, as AddApps files it. */
  predicate Filed(e: Env, s: Store) {
    forall k :: k in s.apps && s.apps[k].uri.Uri? ==> KeyOf(e, s.apps[k].uri.ref) == k
  }

  predicate Loads(e: Env, s: Store, app: Ref) {
    LoadApp(e, Local(s), app).Ok?
  }

  function TreeDigests(e: Env, s: Store, app: Ref): set<Digest> {
    if Loads(e, s, app) then Digests(LoadApp(e, Local(s), app).value) else {}
  }

  /** The condition under which a prune goes through. */
  predicate Prunable(e: Env, s: Store) {
    UrisParse(s) && forall app :: app in Listed(s) ==> Loads(e, s, app)
  }

  /** The digests of the trees of the given apps. */
  function DigestsOf(e: Env, s: Store, apps: set<Ref>): set<Digest> {
    set app, d | app in apps && d in TreeDigests(e, s, app) :: d
  }

  lemma DigestsOfOneMore(e: Env, s: Store, apps: set<Ref>, app: Ref)
    ensures DigestsOf(e, s, apps + {app}) == DigestsOf(e, s, apps) + TreeDigests(e, s, app)
  {
  }

  function Referenced(e: Env, s: Store): set<Digest> {
    DigestsOf(e, s, Listed(s))
  }

  /** The blob files that are no node of any listed app's tree. */
  function Garbage(e: Env, s: Store): set<Digest> {
    s.blobs.Keys - Referenced(e, s)
  }

  function Pruned(e: Env, s: Store): Store {
    s.(blobs := s.blobs - Garbage(e, s))
  }

  function Removed(e: Env, s: Store, apps: seq<Ref>): Store {
    s.(apps := s.apps - set app | app in apps :: KeyOf(e, app))
  }

  const EMPTY_DIR := AppDir(NoUri, None, map[], map[])

  function Added(e: Env, s: Store, apps: seq<Ref>): Store {
    if apps == [] then s
    else
      var before := Added(e, s, apps[..|apps| - 1]);
      var app := apps[|apps| - 1];
      var k := KeyOf(e, app);
      var dir := if k in before.apps then before.apps[k] else EMPTY_DIR;
      before.(apps := before.apps[k := dir.(uri := Uri(app))])
  }

  /** No reference from the given place on names this directory. */
  ghost predicate Unnamed(e: Env, uris: seq<Option<Ref>>, from: nat, k: AppKey) {
    forall j :: from <= j < |uris| && uris[j].Some? ==> KeyOf(e, uris[j].value) != k
  }

  /** The directory holds what it held, which is nothing if it is new, and the `uri` of this app. */
  ghost predicate IsFiled(before: map<AppKey, AppDir>, after: map<AppKey, AppDir>, k: AppKey, app: Ref) {
    k in after && after[k] == if k in before then before[k].(uri := Uri(app)) else AppDir(Uri(app), None, map[], map[])
  }

  // ---------- The store object ----------

  class AppStore {
    const env: Env
    const skopeoAware: bool
    var blobs: map<Digest, Bytes>
    var apps: map<AppKey, AppDir>

    function View(): Store
      reads this
    {
      Store(blobs, apps, skopeoAware)
    }

    constructor (env: Env, s: Store)
      ensures View() == s && this.env == env
    {
      this.env := env;
      skopeoAware := s.skopeoAware;
      blobs := s.blobs;
      apps := s.apps;
    }

    /** File the given apps; a reference that does not parse (None) refuses the whole call. */
    method AddApps(uris: seq<Option<Ref>>) returns (ok: bool)
      modifies this`apps
      ensures ok <==> None !in uris
      ensures !ok ==> View() == old(View())
      ensures ok ==> View() == Added(env, old(View()),
        seq(|uris|, i requires 0 <= i < |uris| => if uris[i].Some? then uris[i].value else Ref("", "")))
      ensures ok ==> forall k :: (k in old(apps) || k in apps) && Unnamed(env, uris, 0, k) ==>
        k in old(apps) && k in apps && apps[k] == old(apps)[k]
      ensures ok ==> forall i :: 0 <= i < |uris| && Unnamed(env, uris, i + 1, KeyOf(env, uris[i].value)) ==>
        IsFiled(old(apps), apps, KeyOf(env, uris[i].value), uris[i].value)
    {
      var refs: seq<Ref> := [];
      for i := 0 to |uris|
        invariant None !in uris[..i]
        invariant |refs| == i && forall j :: 0 <= j < i ==> uris[j] == Some(refs[j])
      {
        if uris[i].None? {
          return false;
        }
        refs := refs + [uris[i].value];
        assert uris[..i + 1] == uris[..i] + [uris[i]];
      }
      assert uris[..|uris|] == uris;
      assert refs == seq(|uris|, i requires 0 <= i < |uris| => if uris[i].Some? then uris[i].value else Ref("", ""));
      for i := 0 to |refs|
        invariant View() == Added(env, old(View()), refs[..i])
      {
        var k := KeyOf(env, refs[i]);
        var dir := if k in apps then apps[k] else EMPTY_DIR;
        apps := apps[k := dir.(uri := Uri(refs[i]))];
        assert refs[..i + 1][..i] == refs[..i];
      }
      assert refs[..|refs|] == refs;
      FiledExactly(env, old(View()), uris, refs);
      ok := true;
    }

    /** The listed apps, in whatever order the directories are met; None if a `uri` file does not parse. */
    method ListApps() returns (r: Option<seq<Ref>>)
      ensures r.Some? <==> UrisParse(View())
      ensures r.Some? ==> Elems(r.value) == Listed(View())
    {
      var found: seq<Ref>, todo := [], apps.Keys;
      ghost var done: set<AppKey> := {};
      while todo != {}
        invariant todo !! done && todo + done == apps.Keys
        invariant forall k :: k in done ==> apps[k].uri != BadUri
        invariant Elems(found) == set k | k in done && apps[k].uri.Uri? :: apps[k].uri.ref
        decreases todo
      {
        var k :| k in todo;
        if apps[k].uri == BadUri {
          return None;
        }
        if apps[k].uri.Uri? {
          ghost var was := found;
          found := found + [apps[k].uri.ref];
          assert Elems(found) == Elems(was) + {apps[k].uri.ref};
        }
        todo, done := todo - {k}, done + {k};
      }
      assert done == apps.Keys;
      r := Some(found);
    }

    /** Sweep every blob that is no node of a listed app's tree. Nothing is deleted unless all listed apps
        load. */
    method Prune() returns (r: Option<set<Digest>>)
      modifies this`blobs
      ensures r.Some? <==> Prunable(env, old(View()))
      ensures r.Some? ==> r.value == Garbage(env, old(View())) && View() == Pruned(env, old(View()))
      ensures r.None? ==> View() == old(View())
    {
      var listed := ListApps();
      if listed.None? {
        return None;
      }
      var referenced := Reference(listed.value);
      if referenced.None? {
        return None;
      }
      var garbage := FindGarbage(referenced.value);
      Delete(garbage);
      r := Some(garbage);
    }

    /** The digests of the trees of the given apps; None if one of them does not load. */
    method Reference(refs: seq<Ref>) returns (r: Option<set<Digest>>)
      ensures r.Some? <==> forall app :: app in Elems(refs) ==> Loads(env, View(), app)
      ensures r.Some? ==> r.value == DigestsOf(env, View(), Elems(refs))
    {
      var referenced: set<Digest> := {};
      for i := 0 to |refs|
        invariant forall app :: app in Elems(refs[..i]) ==> Loads(env, View(), app)
        invariant referenced == DigestsOf(env, View(), Elems(refs[..i]))
      {
        var tree := LoadApp(env, Local(View()), refs[i]);
        if tree.Err? {
          assert refs[i] in Elems(refs);
          return None;
        }
        LoadedTreeIsShallow(env, Local(View()), refs[i]);
        var marks := Mark(tree.value);
        referenced := referenced + marks;
        DigestsOfOneMore(env, View(), Elems(refs[..i]), refs[i]);
        assert Elems(refs[..i + 1]) == Elems(refs[..i]) + {refs[i]};
      }
      assert refs[..|refs|] == refs;
      r := Some(referenced);
    }

    /** The blob files that carry no referenced digest. */
    method FindGarbage(referenced: set<Digest>) returns (garbage: set<Digest>)
      ensures garbage == blobs.Keys - referenced
    {
      var files := blobs.Keys;
      garbage := {};
      while files != {}
        invariant files <= blobs.Keys
        invariant garbage == (blobs.Keys - files) - referenced
        decreases files
      {
        var d :| d in files;
        if d !in referenced {
          garbage := garbage + {d};
        }
        files := files - {d};
      }
    }

    method Delete(garbage: set<Digest>)
      modifies this`blobs
      ensures blobs == old(blobs) - garbage
    {
      var doomed := garbage;
      while doomed != {}
        invariant doomed <= garbage
        invariant blobs == old(blobs) - (garbage - doomed)
        decreases doomed
      {
        var d :| d in doomed;
        blobs := blobs - {d};
        doomed := doomed - {d};
      }
    }

    /** The digests a walk over a shallow tree visits. */
    method Mark(tree: Node) returns (marks: set<Digest>)
      requires Walk(tree, 0) == Walked(Preorder(tree), true)
      ensures marks == Digests(tree)
    {
      var visited := Walk(tree, 0).visited;
      marks := {};
      for i := 0 to |visited|
        invariant marks == set j | 0 <= j < i :: visited[j].digest
      {
        marks := marks + {visited[i].digest};
      }
      forall d ensures d in marks <==> d in Digests(tree) {
        PreorderDigests(tree, d);
      }
    }

    /** Delete the directories of the given apps, skipping those that have none; prune if asked. */
    method RemoveApps(refs: seq<Ref>, prune: bool) returns (ok: bool)
      modifies this
      ensures ok <==> !prune || Prunable(env, Removed(env, old(View()), refs))
      ensures View() ==
        if prune && ok then Pruned(env, Removed(env, old(View()), refs)) else Removed(env, old(View()), refs)
      ensures forall k :: k in apps <==> k in old(apps) && forall app :: app in refs ==> KeyOf(env, app) != k
      ensures forall k :: k in apps ==> apps[k] == old(apps)[k]
      ensures !(prune && ok) ==> blobs == old(blobs)
    {
      for i := 0 to |refs|
        invariant View() == Removed(env, old(View()), refs[..i])
      {
        var k := KeyOf(env, refs[i]);
        if k in apps {
          apps := apps - {k};
        }
        assert refs[..i + 1] == refs[..i] + [refs[i]];
        assert (set app | app in refs[..i + 1] :: KeyOf(env, app)) ==
          (set app | app in refs[..i] :: KeyOf(env, app)) + {k};
      }
      assert refs[..|refs|] == refs;
      ok := true;
      if prune {
        var pruned := Prune();
        ok := pruned.Some?;
      }
    }
  }

  // ---------- Pruning preserves meaning ----------

  /** Dropping blobs that are no node of an app's tree does not change what the loader returns for it: not
      through the optional metadata and index nodes, nor through the apps directory. */
  lemma SweepKeepsTree(e: Env, s: Store, s': Store, app: Ref)
    requires Loads(e, s, app)
    requires SameDir(e, s, s', app) || TreeDigests(e, s, app) <= s.blobs.Keys
    requires forall d :: d in s'.blobs ==> SameFile(s.blobs, s'.blobs, d)
    requires forall d :: d in s.blobs && d in TreeDigests(e, s, app) ==> d in s'.blobs
    ensures LoadApp(e, Local(s'), app) == LoadApp(e, Local(s), app)
  {
    var c := LoadCore(e, Local(s), app).value;
    AppTreeDigests(e, Local(s), app, c);
    CoreFrame(e, s, s', app);
    OptionalFrame(e, s, s', app, c);
  }

  /** A prune that goes through leaves the tree of every listed app as it was. */
  lemma PruneKeepsTrees(e: Env, s: Store, app: Ref)
    requires Prunable(e, s) && app in Listed(s)
    ensures LoadApp(e, Local(Pruned(e, s)), app) == LoadApp(e, Local(s), app)
    ensures Listed(Pruned(e, s)) == Listed(s)
  {
    SweepKeepsTree(e, s, Pruned(e, s), app);
  }

  lemma PrunedReferences(e: Env, s: Store)
    requires Prunable(e, s)
    ensures Prunable(e, Pruned(e, s)) && Referenced(e, Pruned(e, s)) == Referenced(e, s)
  {
    forall app | app in Listed(s)
      ensures Loads(e, Pruned(e, s), app) && TreeDigests(e, Pruned(e, s), app) == TreeDigests(e, s, app)
    {
      PruneKeepsTrees(e, s, app);
    }
    SameReferences(e, s, Pruned(e, s), Listed(s));
  }

  lemma SameReferences(e: Env, s: Store, s': Store, apps: set<Ref>)
    requires forall app :: app in apps ==> TreeDigests(e, s', app) == TreeDigests(e, s, app)
    ensures DigestsOf(e, s', apps) == DigestsOf(e, s, apps)
  {
  }

  /** A second prune deletes nothing. */
  lemma PruneTwice(e: Env, s: Store)
    requires Prunable(e, s)
    ensures Prunable(e, Pruned(e, s)) && Garbage(e, Pruned(e, s)) == {} && Pruned(e, Pruned(e, s)) == Pruned(e, s)
  {
    PrunedReferences(e, s);
    assert Garbage(e, Pruned(e, s)) == {};
    assert Pruned(e, s).blobs - {} == Pruned(e, s).blobs;
  }

  lemma {:induction false} AddedApps(e: Env, s: Store, apps: seq<Ref>)
    ensures Added(e, s, apps).blobs == s.blobs && Added(e, s, apps).skopeoAware == s.skopeoAware
    ensures forall app :: app in Listed(Added(e, s, apps)) ==> app in apps || app in Listed(s)
    ensures UrisParse(s) ==> UrisParse(Added(e, s, apps))
    ensures Filed(e, s) ==> Filed(e, Added(e, s, apps))
    ensures s.apps.Keys <= Added(e, s, apps).apps.Keys
  {
    if apps != [] {
      AddedApps(e, s, apps[..|apps| - 1]);
    }
  }

  /** Filing leaves the directories of other apps as they are. */
  lemma {:induction false} FilingElsewhere(e: Env, s: Store, apps: seq<Ref>, k: AppKey)
    requires forall i :: 0 <= i < |apps| ==> KeyOf(e, apps[i]) != k
    ensures k in Added(e, s, apps).apps <==> k in s.apps
    ensures k in s.apps ==> Added(e, s, apps).apps[k] == s.apps[k]
  {
    if apps != [] {
      FilingElsewhere(e, s, apps[..|apps| - 1], k);
    }
  }

  /** Filing changes nothing in a directory but its `uri`. */
  lemma {:induction false} FilingKeepsFiles(e: Env, s: Store, apps: seq<Ref>, k: AppKey)
    ensures k in s.apps ==> k in Added(e, s, apps).apps
    ensures k in Added(e, s, apps).apps ==>
      Added(e, s, apps).apps[k].(uri := NoUri) == (if k in s.apps then s.apps[k] else EMPTY_DIR).(uri := NoUri)
  {
    if apps != [] {
      FilingKeepsFiles(e, s, apps[..|apps| - 1], k);
    }
  }

  /** The last of the references of one name and digest is the one filed. */
  lemma {:induction false} LastIsFiled(e: Env, s: Store, apps: seq<Ref>, i: nat)
    requires i < |apps| && forall j :: i < j < |apps| ==> KeyOf(e, apps[j]) != KeyOf(e, apps[i])
    ensures IsFiled(s.apps, Added(e, s, apps).apps, KeyOf(e, apps[i]), apps[i])
  {
    var n := |apps| - 1;
    if i < n {
      assert apps[..n][i] == apps[i];
      LastIsFiled(e, s, apps[..n], i);
    } else {
      FilingKeepsFiles(e, s, apps[..n], KeyOf(e, apps[n]));
    }
  }

  /** What AddApps does to the directories, in terms of the texts it was given. */
  lemma FiledExactly(e: Env, s: Store, uris: seq<Option<Ref>>, refs: seq<Ref>)
    requires |uris| == |refs| && forall i :: 0 <= i < |uris| ==> uris[i] == Some(refs[i])
    ensures forall k :: (k in s.apps || k in Added(e, s, refs).apps) && Unnamed(e, uris, 0, k) ==>
      k in s.apps && k in Added(e, s, refs).apps && Added(e, s, refs).apps[k] == s.apps[k]
    ensures forall i :: 0 <= i < |uris| && Unnamed(e, uris, i + 1, KeyOf(e, uris[i].value)) ==>
      IsFiled(s.apps, Added(e, s, refs).apps, KeyOf(e, uris[i].value), uris[i].value)
  {
    forall k | (k in s.apps || k in Added(e, s, refs).apps) && Unnamed(e, uris, 0, k)
      ensures k in s.apps && k in Added(e, s, refs).apps && Added(e, s, refs).apps[k] == s.apps[k]
    {
      FilingElsewhere(e, s, refs, k);
    }
    forall i | 0 <= i < |uris| && Unnamed(e, uris, i + 1, KeyOf(e, uris[i].value))
      ensures IsFiled(s.apps, Added(e, s, refs).apps, KeyOf(e, uris[i].value), uris[i].value)
    {
      LastIsFiled(e, s, refs, i);
    }
  }

  /** Removing apps takes off the list exactly the apps that share name and digest with one of them. */
  lemma RemovedExactly(e: Env, s: Store, apps: seq<Ref>, app: Ref)
    requires Filed(e, s)
    ensures app in Listed(Removed(e, s, apps)) <==>
      app in Listed(s) && forall a :: a in apps ==> KeyOf(e, a) != KeyOf(e, app)
    ensures Filed(e, Removed(e, s, apps))
  {
    FiledListing(e, s, app);
    FiledListing(e, Removed(e, s, apps), app);
  }

  /** No later reference of the same name and digest follows the app's last place in the list. */
  ghost predicate NotReplaced(e: Env, apps: seq<Ref>, app: Ref) {
    exists i :: 0 <= i < |apps| && apps[i] == app
      && (forall j :: i < j < |apps| && KeyOf(e, apps[j]) == KeyOf(e, app) ==> apps[j] == app)
  }

  lemma NotReplacedPrefix(e: Env, apps: seq<Ref>, app: Ref)
    requires apps != [] && apps[|apps| - 1] != app
    ensures NotReplaced(e, apps, app) <==>
      KeyOf(e, apps[|apps| - 1]) != KeyOf(e, app) && NotReplaced(e, apps[..|apps| - 1], app)
  {
    var n := |apps| - 1;
    if i :| (0 <= i < n && apps[..n][i] == app
             && forall j :: i < j < n && KeyOf(e, apps[..n][j]) == KeyOf(e, app) ==> apps[..n][j] == app) {
      assert apps[i] == app;
      assert forall j :: i < j < n ==> apps[j] == apps[..n][j];
    }
    if i :| (0 <= i < |apps| && apps[i] == app
             && forall j :: i < j < |apps| && KeyOf(e, apps[j]) == KeyOf(e, app) ==> apps[j] == app) {
      assert i < n && apps[..n][i] == app;
    }
  }

  /** AddApps lists an app exactly when no later reference of the same name and digest replaced it. */
  lemma {:induction false} AddedIsListed(e: Env, s: Store, apps: seq<Ref>, app: Ref)
    requires Filed(e, s) && app in apps
    ensures app in Listed(Added(e, s, apps)) <==> NotReplaced(e, apps, app)
  {
    var n := |apps| - 1;
    AddedApps(e, s, apps[..n]);
    AddedApps(e, s, apps);
    FiledListing(e, Added(e, s, apps), app);
    FiledListing(e, Added(e, s, apps[..n]), app);
    if apps[n] == app {
      assert NotReplaced(e, apps, app);
    } else {
      NotReplacedPrefix(e, apps, app);
      assert apps == apps[..n] + [apps[n]];
      AddedIsListed(e, s, apps[..n], app);
    }
  }

  lemma FiledListing(e: Env, s: Store, app: Ref)
    requires Filed(e, s)
    ensures app in Listed(s) <==> KeyOf(e, app) in s.apps && s.apps[KeyOf(e, app)].uri == Uri(app)
  {
  }
}
