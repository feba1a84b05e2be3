/** One concrete update on which the hypotheses about resumed fetches are met, and a blob is lost: a single app
    with a manifest and a bundle without services, fetched into an empty store. */
module Instance {
  import opened Base
  import opened Tree
  import opened Loader
  import opened AppStore
  import opened Closure
  import opened Blobs
  import opened Progress
  import opened Fetch
  import opened Resume
  import opened Init
  import opened Rollback

  /** A hash without collisions. */
  function Spell(b: Bytes): Digest {
    seq(|b|, i requires 0 <= i < |b| => b[i] as char)
  }

  lemma SpellInjective(a: Bytes, b: Bytes)
    requires Spell(a) == Spell(b)
    ensures a == b
  {
    assert |a| == |Spell(a)| == |b|;
    forall i | 0 <= i < |a| ensures a[i] == b[i] {
      assert Spell(a)[i] == Spell(b)[i];
    }
  }

  const MANIFEST: Bytes := [1]
  const BUNDLE: Bytes := [2]
  const MANIFEST_DIGEST := Spell(MANIFEST)
  const BUNDLE_DIGEST := Spell(BUNDLE)
  const DOC := AppDoc(true, [AppLayer(Desc(BUNDLE_DIGEST, 1), true, None, None)])
  const APP := Ref("app", MANIFEST_DIGEST)

  const ENV := Env(
    Spell, b => if b == MANIFEST then Some(DOC) else None, b => false, (b, name) => Project(Some([]), false),
    b => None, b => None, name => name, platform => false)

  const REGISTRY := map[MANIFEST_DIGEST := MANIFEST, BUNDLE_DIGEST := BUNDLE]
  const EMPTY_STORE := Store(map[], map[], false)

  const BUNDLE_NODE := Node(BUNDLE_DIGEST, 1, AppBundle, [Ref("app", BUNDLE_DIGEST)], "", [])
  const TREE := Node(MANIFEST_DIGEST, 1, AppManifest, [APP], "", [BUNDLE_NODE])

  function Contents(d: Digest): Bytes {
    if d == MANIFEST_DIGEST then MANIFEST else BUNDLE
  }

  lemma TwoDigests()
    ensures MANIFEST_DIGEST != BUNDLE_DIGEST && MANIFEST_DIGEST != "" && BUNDLE_DIGEST != ""
  {
    assert MANIFEST_DIGEST[0] != BUNDLE_DIGEST[0];
  }

  lemma Loaded()
    ensures LoadCore(ENV, Remote(REGISTRY), APP) == Ok(Core(DOC, 1, true, BUNDLE_NODE))
    ensures LoadApp(ENV, Remote(REGISTRY), APP) == Ok(TREE)
  {
    TwoDigests();
    assert MANIFEST[..1] == MANIFEST && BUNDLE[..1] == BUNDLE;
    assert ReadLimited(ENV, Remote(REGISTRY), APP, ForManifest, MANIFEST_DIGEST, APP_MANIFEST_MAX) == Ok(MANIFEST);
    assert ReadProject(ENV, Remote(REGISTRY), APP, Desc(BUNDLE_DIGEST, 1)) == Ok([]);
    assert [] + [] + [BUNDLE_NODE] == [BUNDLE_NODE];
  }

  lemma Started()
    ensures Starts(ENV, REGISTRY, EMPTY_STORE, [APP])
    ensures PreorderAll(RemoteTrees(ENV, REGISTRY, [APP])) == [TREE, BUNDLE_NODE]
  {
    Loaded();
    forall a, b | ENV.hash(a) == ENV.hash(b) ensures a == b {
      SpellInjective(a, b);
    }
    assert RemoteTrees(ENV, REGISTRY, [APP]) == [TREE] + RemoteTrees(ENV, REGISTRY, []);
    assert PreorderAll([BUNDLE_NODE]) == [BUNDLE_NODE];
    assert Preorder(TREE) == [TREE] + [BUNDLE_NODE];
  }

  function RecordFor(n: Node): BlobProgress {
    BlobProgress(1, 0, n.kind, FirstRef(n), BlobMissing, 0)
  }

  lemma Records()
    ensures Starts(ENV, REGISTRY, EMPTY_STORE, [APP])
    ensures Initially(ENV, REGISTRY, EMPTY_STORE, [APP], map[])
         == Kept(map[], map[MANIFEST_DIGEST := RecordFor(TREE), BUNDLE_DIGEST := RecordFor(BUNDLE_NODE)])
  {
    Started();
    TwoDigests();
    var nodes := [TREE, BUNDLE_NODE];
    assert nodes[..1] == [TREE] && [TREE][..0] == [];
    assert Collected(ENV, map[], map[], []) == map[];
    assert Collected(ENV, map[], map[], [TREE]) == map[MANIFEST_DIGEST := RecordFor(TREE)];
  }

  const ORDER := [MANIFEST_DIGEST, BUNDLE_DIGEST]

  lemma CanLose()
    ensures Starts(ENV, REGISTRY, EMPTY_STORE, [APP])
    ensures Losable(ENV, Initially(ENV, REGISTRY, EMPTY_STORE, [APP], map[]).u, ORDER, Contents, [])
  {
    Records();
    TwoDigests();
  }

  lemma IsListed()
    ensures APP in Listed(Added(ENV, EMPTY_STORE, [APP]))
  {
    assert [APP][..0] == [];
    var k := KeyOf(ENV, APP);
    assert Added(ENV, EMPTY_STORE, []) == EMPTY_STORE;
    assert Added(ENV, EMPTY_STORE, [APP]).apps[k].uri == Uri(APP);
  }

  /** The blobs still to fetch after the two interruptions, in an order. */
  lemma OrderAfter(u: Progress.Records) returns (order: seq<Digest>)
    requires u.Keys == {MANIFEST_DIGEST, BUNDLE_DIGEST} && MANIFEST_DIGEST in OkBlobs(u)
    ensures Fits(order, u)
  {
    order := if u[BUNDLE_DIGEST].state == BlobOk then [] else [BUNDLE_DIGEST];
  }

  /** The attempt that succeeds after the two interruptions. */
  lemma {:induction false} LastTry() returns (t: Try)
    ensures Starts(ENV, REGISTRY, EMPTY_STORE, [APP])
    ensures FitAll(ENV, Initially(ENV, REGISTRY, EMPTY_STORE, [APP], map[]), Losing(ORDER, Contents, []))
    ensures var k := AllTried(ENV, Initially(ENV, REGISTRY, EMPTY_STORE, [APP], map[]), Losing(ORDER, Contents, []));
      Fits(t.order, k.u) && Succeeds(ENV, k, t)
  {
    CanLose();
    Records();
    var start := Initially(ENV, REGISTRY, EMPTY_STORE, [APP], map[]);
    TwoInterruptionsLoseBlob(ENV, start, ORDER, Contents, []);
    var k := AllTried(ENV, start, Losing(ORDER, Contents, []));
    AllTriedContinue(ENV, start, start, Losing(ORDER, Contents, []));
    var order := OrderAfter(k.u);
    RightRepliesSucceed(ENV, k, order, Contents);
    t := Try(order, NoPolls(), Replies(order, Contents, |order|, None), false);
  }

  /** The whole run: initialized, interrupted twice, then fetched with success, yet the store that lists the app
      is not closed. */
  lemma {:induction false} SucceedsWithoutManifest() returns (t: Try)
    ensures Starts(ENV, REGISTRY, EMPTY_STORE, [APP])
    ensures FitAll(ENV, Initially(ENV, REGISTRY, EMPTY_STORE, [APP], map[]), Losing(ORDER, Contents, []))
    ensures var k := AllTried(ENV, Initially(ENV, REGISTRY, EMPTY_STORE, [APP], map[]), Losing(ORDER, Contents, []));
      && Fits(t.order, k.u) && Succeeds(ENV, k, t)
      && APP in Listed(FetchEnd(ENV, EMPTY_STORE, [APP], k, t)) && !Closed(ENV, FetchEnd(ENV, EMPTY_STORE, [APP], k, t))
  {
    t := LastTry();
    var k := AllTried(ENV, Initially(ENV, REGISTRY, EMPTY_STORE, [APP], map[]), Losing(ORDER, Contents, []));
    CanLose();
    IsListed();
    Loaded();
    TwoInterruptionsBreakClosure(ENV, REGISTRY, EMPTY_STORE, [APP], map[], ORDER, Contents, [], APP, [], t);
    assert Listed(FetchEnd(ENV, EMPTY_STORE, [APP], k, t)) == Listed(Added(ENV, EMPTY_STORE, [APP]));
  }
}
