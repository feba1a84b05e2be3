/** What a tree loaded from the store says about the store: a reference description of app and image trees in
    terms of the documents under their digests, met by every load (pkg/compose/v1/app.go, pkg/compose/image.go). */
module Integrity {
  import opened Base
  import opened Tree
  import opened Reader
  import opened Loader

  /** A leaf for a descriptor, with one reference at the given place. */
  predicate IsLeaf(n: Node, locator: string, desc: Desc, kind: Kind) {
    n.digest == desc.digest && n.size == desc.size && n.kind == kind && n.urls == [Ref(locator, desc.digest)]
    && n.children == []
  }

  /** A config node followed by one node for each distinct layer, that of its first occurrence. */
  ghost predicate ChildrenMatch(children: seq<Node>, locator: string, config: Desc, layers: seq<Desc>) {
    && children != [] && IsLeaf(children[0], locator, config, ImageConfig)
    && (forall i :: 0 < i < |children| ==>
        exists k :: 0 <= k < |layers| && IsLeaf(children[i], locator, layers[k], ImageLayer)
          && forall m :: 0 <= m < k ==> layers[m].digest != layers[k].digest)
    && (forall i, j :: 0 < i < j < |children| ==> children[i].digest != children[j].digest)
    && DigestsAll(children[1..]) == set l | l in layers :: l.digest
  }

  /** A manifest node below an index: its blob begins with bytes of its size and digest, and those bytes are a
      manifest with the node's children. */
  ghost predicate ManifestMatches(e: Env, blobs: map<Digest, Bytes>, image: Ref, n: Node) {
    && n.kind == ImageManifest && n.size > 0 && n.urls == [Ref(image.locator, n.digest), image]
    && n.digest in blobs && |blobs[n.digest]| >= n.size && e.hash(blobs[n.digest][..n.size]) == n.digest
    && e.manifest(blobs[n.digest][..n.size]).Some?
    && (var doc := e.manifest(blobs[n.digest][..n.size]).value;
        ChildrenMatch(n.children, image.locator, doc.config, doc.layers))
  }

  /** The manifests an index contributes: those of the platform, or all of a skopeo-made index. */
  function Selected(e: Env, skopeo: bool, ms: seq<PlatformDesc>): seq<Desc> {
    if ms == [] then []
    else (if skopeo || e.platformOk(ms[0].platform) then [ms[0].desc] else []) + Selected(e, skopeo, ms[1..])
  }

  /** One entry more contributes its manifest last, if it is to be taken. */
  lemma {:induction false} SelectedExactly(e: Env, skopeo: bool, ms: seq<PlatformDesc>, m: PlatformDesc)
    ensures Selected(e, skopeo, []) == []
    ensures Selected(e, skopeo, ms + [m])
         == Selected(e, skopeo, ms) + (if skopeo || e.platformOk(m.platform) then [m.desc] else [])
  {
    if ms == [] {
      assert ms + [m] == [m] && [m][1..] == [];
    } else {
      assert (ms + [m])[1..] == ms[1..] + [m];
      SelectedExactly(e, skopeo, ms[1..], m);
    }
  }

  ghost predicate IndexMatches(e: Env, blobs: map<Digest, Bytes>, image: Ref, children: seq<Node>, skopeo: bool,
                               ms: seq<PlatformDesc>) {
    && |children| == |Selected(e, skopeo, ms)|
    && forall i :: 0 <= i < |children| ==>
      && children[i].digest == Selected(e, skopeo, ms)[i].digest && children[i].size == Selected(e, skopeo, ms)[i].size
      && ManifestMatches(e, blobs, image, children[i])
  }

  /** An image tree and the blobs: the root blob has the root's digest and size and is a document of the
      root's kind, and the children are what that document refers to. */
  ghost predicate ImageMatches(e: Env, blobs: map<Digest, Bytes>, t: Node) {
    && |t.urls| == 1 && t.urls[0].digest == t.digest
    && t.digest in blobs && e.hash(blobs[t.digest]) == t.digest && |blobs[t.digest]| == t.size
    && e.imageRoot(blobs[t.digest]).Some?
    && var root := e.imageRoot(blobs[t.digest]).value;
      && !root.fsLayers
      && match t.kind
        case ImageManifest =>
          root.media == ManifestMedia && root.manifests == Absent && root.config.Present? && root.layers.Present?
          && ChildrenMatch(t.children, t.urls[0].locator, root.config.value, root.layers.value)
        case ImageIndex =>
          root.media == IndexMedia && root.config == Absent && root.layers == Absent && root.manifests.Present?
          && IndexMatches(e, blobs, t.urls[0], t.children, false, root.manifests.value)
        case SkopeoIndex =>
          root.media == OtherMedia && root.schemaVersion == 2 && root.manifests.Present?
          && IndexMatches(e, blobs, t.urls[0], t.children, true, root.manifests.value)
        case _ => false
  }

  lemma ConfigAndLayersMatch(locator: string, config: Desc, layers: seq<Desc>)
    ensures ChildrenMatch(ConfigAndLayers(locator, config, layers), locator, config, layers)
  {
    LayerNodesDistinct(locator, layers, {});
    var nodes, children := LayerNodes(locator, layers, {}), ConfigAndLayers(locator, config, layers);
    assert children[1..] == nodes;
    forall i | 0 < i < |children|
      ensures (exists k :: 0 <= k < |layers| && IsLeaf(children[i], locator, layers[k], ImageLayer)
                && forall m :: 0 <= m < k ==> layers[m].digest != layers[k].digest)
    {
      var k := FirstLayer(locator, layers, {}, i - 1);
      assert children[i] == nodes[i - 1];
    }
  }

  /** Each layer node is the leaf of a first occurrence. */
  lemma {:induction false} FirstLayer(locator: string, layers: seq<Desc>, seen: set<Digest>, i: nat) returns (k: nat)
    requires i < |LayerNodes(locator, layers, seen)|
    ensures k < |layers| && IsLeaf(LayerNodes(locator, layers, seen)[i], locator, layers[k], ImageLayer)
    ensures layers[k].digest !in seen && forall m :: 0 <= m < k ==> layers[m].digest != layers[k].digest
  {
    if layers[0].digest in seen {
      var rest := FirstLayer(locator, layers[1..], seen, i);
      k := rest + 1;
      assert layers[k] == layers[1..][rest];
      assert forall m :: 0 < m < k ==> layers[m] == layers[1..][m - 1];
    } else if i == 0 {
      k := 0;
    } else {
      var rest := FirstLayer(locator, layers[1..], seen + {layers[0].digest}, i - 1);
      k := rest + 1;
      assert layers[k] == layers[1..][rest];
      assert forall m :: 0 < m < k ==> layers[m] == layers[1..][m - 1];
    }
  }

  lemma OneManifestMatches(e: Env, s: Store, app: Ref, image: Ref, d: Desc)
    requires ReadSized(e, Local(s), app, d.digest, d.size).Ok?
    requires e.manifest(ReadSized(e, Local(s), app, d.digest, d.size).value).Some?
    ensures var doc := e.manifest(ReadSized(e, Local(s), app, d.digest, d.size).value).value;
      ManifestMatches(e, s.blobs, image, Node(d.digest, d.size, ImageManifest, [Ref(image.locator, d.digest), image],
                                              "", ConfigAndLayers(image.locator, doc.config, doc.layers)))
  {
    CleanWithExpectedSize(e.hash, d.digest, d.size, s.blobs[d.digest]);
    var doc := e.manifest(s.blobs[d.digest][..d.size]).value;
    ConfigAndLayersMatch(image.locator, doc.config, doc.layers);
  }

  lemma IndexMatchesOneMore(e: Env, blobs: map<Digest, Bytes>, image: Ref, head: Node, rest: seq<Node>, skopeo: bool,
                            ms: seq<PlatformDesc>)
    requires ms != [] && (skopeo || e.platformOk(ms[0].platform))
    requires head.digest == ms[0].desc.digest && head.size == ms[0].desc.size && ManifestMatches(e, blobs, image, head)
    requires IndexMatches(e, blobs, image, rest, skopeo, ms[1..])
    ensures IndexMatches(e, blobs, image, [head] + rest, skopeo, ms)
  {
    var all, children := Selected(e, skopeo, ms), [head] + rest;
    assert all == [ms[0].desc] + Selected(e, skopeo, ms[1..]);
    forall i | 0 <= i < |children|
      ensures children[i].digest == all[i].digest && children[i].size == all[i].size
        && ManifestMatches(e, blobs, image, children[i])
    {
      if i > 0 {
        assert children[i] == rest[i - 1] && all[i] == Selected(e, skopeo, ms[1..])[i - 1];
      }
    }
  }

  lemma {:induction false} ManifestsMatch(e: Env, s: Store, app: Ref, image: Ref, skopeo: bool, ms: seq<PlatformDesc>)
    requires LoadManifests(e, Local(s), app, image, skopeo, ms).Ok?
    ensures IndexMatches(e, s.blobs, image, LoadManifests(e, Local(s), app, image, skopeo, ms).value, skopeo, ms)
  {
    if ms != [] {
      ManifestsMatch(e, s, app, image, skopeo, ms[1..]);
      if skopeo || e.platformOk(ms[0].platform) {
        OneManifestMatches(e, s, app, image, ms[0].desc);
        var nodes := LoadManifests(e, Local(s), app, image, skopeo, ms).value;
        var rest := LoadManifests(e, Local(s), app, image, skopeo, ms[1..]).value;
        assert nodes == [nodes[0]] + rest;
        IndexMatchesOneMore(e, s.blobs, image, nodes[0], rest, skopeo, ms);
      } else {
        assert Selected(e, skopeo, ms) == Selected(e, skopeo, ms[1..]);
      }
    }
  }

  /** An image tree loaded from the store, its root being a blob of the store, matches the blobs. */
  lemma LoadedImageMatches(e: Env, s: Store, app: Ref, service: string, image: Ref)
    requires LoadImage(e, Local(s), app, service, image).Ok? && image.digest in s.blobs
    ensures var t := LoadImage(e, Local(s), app, service, image).value;
      && ImageMatches(e, s.blobs, t) && t.urls == [image] && t.service == service && t.size < IMAGE_ROOT_MAX
  {
    CleanWithLimit(e.hash, image.digest, IMAGE_ROOT_MAX, s.blobs[image.digest]);
    var root := e.imageRoot(s.blobs[image.digest]).value;
    if ValidateRoot(root) == Some(ImageManifest) {
      ConfigAndLayersMatch(image.locator, root.config.value, root.layers.value);
    } else {
      ManifestsMatch(e, s, app, image, ValidateRoot(root) == Some(SkopeoIndex), root.manifests.value);
    }
  }

  lemma {:induction false} LoadedImagesMatch(e: Env, s: Store, app: Ref, services: seq<Service>)
    requires LoadImages(e, Local(s), app, services).Ok?
    requires DigestsAll(LoadImages(e, Local(s), app, services).value) <= s.blobs.Keys
    ensures var images := LoadImages(e, Local(s), app, services).value;
      && |images| == |services|
      && forall i :: 0 <= i < |services| ==> ServiceMatches(e, s.blobs, services[i], images[i])
  {
    if services != [] {
      var images := LoadImages(e, Local(s), app, services).value;
      assert images[1..] == LoadImages(e, Local(s), app, services[1..]).value;
      assert images[0].digest in Digests(images[0]);
      LoadedImageMatches(e, s, app, services[0].name, services[0].image.value);
      assert ServiceMatches(e, s.blobs, services[0], images[0]);
      LoadedImagesMatch(e, s, app, services[1..]);
    }
  }

  /** The image tree of a service of the compose project. */
  ghost predicate ServiceMatches(e: Env, blobs: map<Digest, Bytes>, service: Service, image: Node) {
    && service.image.Some? && image.urls == [service.image.value] && image.service == service.name
    && ImageMatches(e, blobs, image)
  }

  /** The tree of an app and the blobs: the root blob is an app manifest of the root's digest and size; the
      last child is its bundle, with one matching image tree for each service of the compose project, in
      order; before it come at most a metadata node and an index node, those the manifest refers to. */
  ghost predicate AppMatches(e: Env, blobs: map<Digest, Bytes>, app: Ref, t: Node) {
    && t.kind == AppManifest && t.digest == app.digest && t.urls == [app]
    && t.digest in blobs && e.hash(blobs[t.digest]) == t.digest && |blobs[t.digest]| == t.size < APP_MANIFEST_MAX
    && e.appDoc(blobs[t.digest]).Some?
    && var doc := e.appDoc(blobs[t.digest]).value;
      && doc.ociManifest && doc.layers != [] && doc.layers[0].octetStream
      && t.children != [] && |t.children| <= 3
      && (forall i :: 0 <= i < |t.children| - 1 ==>
            t.children[i].digest in blobs && OptionalMatches(app, doc, t.children[i]))
      && BundleMatches(e, blobs, app, t.children[|t.children| - 1], doc.layers[0].desc)
  }

  /** A metadata or index node the manifest refers to. */
  predicate OptionalMatches(app: Ref, doc: AppDoc, n: Node)
    requires doc.layers != []
  {
    || (|doc.layers| > 1 && doc.layers[1].metaVersion == Some("v1")
        && IsLeaf(n, app.locator, doc.layers[1].desc, LayersMeta))
    || (doc.layers[0].index.Some? && IsLeaf(n, app.locator, doc.layers[0].index.value, AppIndex))
  }

  ghost predicate BundleMatches(e: Env, blobs: map<Digest, Bytes>, app: Ref, bundle: Node, desc: Desc) {
    && bundle.kind == AppBundle && bundle.digest == desc.digest && bundle.size == desc.size > 0
    && bundle.urls == [Ref(app.locator, desc.digest)]
    && desc.digest in blobs
    && var project := e.project(blobs[desc.digest][..Min(desc.size, |blobs[desc.digest]|)], e.nameOf(app.locator));
      && project.services.Some?
      && (project.drained ==>
          |blobs[desc.digest]| >= desc.size && e.hash(blobs[desc.digest][..desc.size]) == desc.digest)
      && |bundle.children| == |project.services.value|
      && forall i :: 0 <= i < |bundle.children| ==>
        ServiceMatches(e, blobs, project.services.value[i], bundle.children[i])
  }

  lemma LoadedBundleMatches(e: Env, s: Store, app: Ref)
    requires LoadCore(e, Local(s), app).Ok? && Mandatory(app, LoadCore(e, Local(s), app).value) <= s.blobs.Keys
    ensures var c := LoadCore(e, Local(s), app).value;
      c.doc.layers != [] && BundleMatches(e, s.blobs, app, c.bundle, c.doc.layers[0].desc)
  {
    var c := LoadCore(e, Local(s), app).value;
    var d := c.doc.layers[0].desc;
    assert d.digest in Digests(c.bundle) && d.digest in s.blobs;
    var services := ReadProject(e, Local(s), app, d).value;
    CleanWithExpectedSize(e.hash, d.digest, d.size, s.blobs[d.digest]);
    assert c.bundle.children == LoadImages(e, Local(s), app, services).value;
    LoadedImagesMatch(e, s, app, services);
  }

  /** The children of an app's root before its bundle. */
  lemma ChildrenOfApp(e: Env, s: Store, app: Ref, c: Core, i: nat)
    requires c.doc.layers != []
    requires var t := AppTree(e, Local(s), app, c); i < |t.children| - 1
    ensures OptionalMatches(app, c.doc, AppTree(e, Local(s), app, c).children[i])
    ensures |AppTree(e, Local(s), app, c).children| <= 3
  {
    MetaExactly(e, s, app, c.doc);
  }

  lemma MetaExactly(e: Env, s: Store, app: Ref, doc: AppDoc)
    ensures MetaNodes(e, Local(s), app, doc) == [] ||
      MetaNodes(e, Local(s), app, doc) == [Leaf(app.locator, doc.layers[1].desc, LayersMeta)]
    ensures MetaNodes(e, Local(s), app, doc) != [] <==>
      (|doc.layers| > 1 && doc.layers[1].metaVersion == Some("v1")
       && (var d := doc.layers[1].desc;
           d.size > 0 && d.digest in s.blobs && |s.blobs[d.digest]| >= d.size
           && e.hash(s.blobs[d.digest][..d.size]) == d.digest && e.metaOk(s.blobs[d.digest][..d.size])))
  {
    if |doc.layers| > 1 {
      var d := doc.layers[1].desc;
      if d.size > 0 && d.digest in s.blobs {
        CleanWithExpectedSize(e.hash, d.digest, d.size, s.blobs[d.digest]);
      }
    }
  }

  lemma CoreReadsManifest(e: Env, s: Store, app: Ref)
    requires LoadCore(e, Local(s), app).Ok? && app.digest in s.blobs
    ensures var c := LoadCore(e, Local(s), app).value;
      && e.hash(s.blobs[app.digest]) == app.digest && |s.blobs[app.digest]| == c.size < APP_MANIFEST_MAX
      && e.appDoc(s.blobs[app.digest]) == Some(c.doc) && c.doc.ociManifest && c.doc.layers != []
        && c.doc.layers[0].octetStream
      && c.direct && c.bundle.kind == AppBundle
  {
    CleanWithLimit(e.hash, app.digest, APP_MANIFEST_MAX, s.blobs[app.digest]);
  }

  /** Every complete app in the store has a tree that matches the blobs. */
  lemma LoadedAppMatches(e: Env, s: Store, app: Ref)
    requires LoadApp(e, Local(s), app).Ok? && Digests(LoadApp(e, Local(s), app).value) <= s.blobs.Keys
    ensures AppMatches(e, s.blobs, app, LoadApp(e, Local(s), app).value)
  {
    var c := LoadCore(e, Local(s), app).value;
    var t := AppTree(e, Local(s), app, c);
    AppTreeDigests(e, Local(s), app, c);
    assert app.digest in Mandatory(app, c);
    CoreReadsManifest(e, s, app);
    LoadedBundleMatches(e, s, app);
    assert t.children[|t.children| - 1] == c.bundle;
    forall i | 0 <= i < |t.children| - 1
      ensures |t.children| <= 3 && t.children[i].digest in s.blobs && OptionalMatches(app, c.doc, t.children[i])
    {
      ChildrenOfApp(e, s, app, c, i);
      assert t.children[i].digest in Digests(t);
    }
  }

  /** The optional nodes are there exactly when they can be: the metadata node when its blob can be read and
      parsed, the index node when its blob is present. */
  lemma OptionalNodesExactly(e: Env, s: Store, app: Ref)
    requires LoadApp(e, Local(s), app).Ok? && app.digest in s.blobs
    ensures e.appDoc(s.blobs[app.digest]).Some? && e.appDoc(s.blobs[app.digest]).value.layers != []
    ensures var doc := e.appDoc(s.blobs[app.digest]).value;
      (exists n :: n in LoadApp(e, Local(s), app).value.children && n.kind == LayersMeta) <==>
      (|doc.layers| > 1 && doc.layers[1].metaVersion == Some("v1")
       && (var d := doc.layers[1].desc;
           d.size > 0 && d.digest in s.blobs && |s.blobs[d.digest]| >= d.size
           && e.hash(s.blobs[d.digest][..d.size]) == d.digest && e.metaOk(s.blobs[d.digest][..d.size])))
    ensures var doc := e.appDoc(s.blobs[app.digest]).value;
      (exists n :: n in LoadApp(e, Local(s), app).value.children && n.kind == AppIndex) <==>
      (doc.layers[0].index.Some? && doc.layers[0].index.value.digest in s.blobs)
  {
    var c := LoadCore(e, Local(s), app).value;
    CoreReadsManifest(e, s, app);
    MetaExactly(e, s, app, c.doc);
    KindsOfChildren(e, Local(s), app, c);
  }

  /** From a registry the metadata node is there by the same condition, and the index node whenever the manifest
      refers to one. */
  lemma RemoteOptionalNodesExactly(e: Env, registry: map<Digest, Bytes>, app: Ref)
    requires LoadApp(e, Remote(registry), app).Ok?
    ensures app.digest in registry && e.appDoc(registry[app.digest]).Some?
    ensures e.appDoc(registry[app.digest]).value.layers != []
    ensures var doc := e.appDoc(registry[app.digest]).value;
      (exists n :: n in LoadApp(e, Remote(registry), app).value.children && n.kind == LayersMeta) <==>
      (|doc.layers| > 1 && doc.layers[1].metaVersion == Some("v1")
       && (var d := doc.layers[1].desc;
           d.size > 0 && d.digest in registry && |registry[d.digest]| >= d.size
           && e.hash(registry[d.digest][..d.size]) == d.digest && e.metaOk(registry[d.digest][..d.size])))
    ensures var doc := e.appDoc(registry[app.digest]).value;
      (exists n :: n in LoadApp(e, Remote(registry), app).value.children && n.kind == AppIndex) <==>
      doc.layers[0].index.Some?
  {
    var c := LoadCore(e, Remote(registry), app).value;
    RemoteReadExactly(e, registry, app, ForManifest, app.digest, APP_MANIFEST_MAX);
    RemoteMetaExactly(e, registry, app, c.doc);
    KindsOfChildren(e, Remote(registry), app, c);
  }

  lemma RemoteMetaExactly(e: Env, registry: map<Digest, Bytes>, app: Ref, doc: AppDoc)
    ensures MetaNodes(e, Remote(registry), app, doc) != [] <==>
      (|doc.layers| > 1 && doc.layers[1].metaVersion == Some("v1")
       && (var d := doc.layers[1].desc;
           d.size > 0 && d.digest in registry && |registry[d.digest]| >= d.size
           && e.hash(registry[d.digest][..d.size]) == d.digest && e.metaOk(registry[d.digest][..d.size])))
  {
    if |doc.layers| > 1 {
      var d := doc.layers[1].desc;
      if d.size > 0 && d.digest in registry {
        CleanWithExpectedSize(e.hash, d.digest, d.size, registry[d.digest]);
      }
    }
  }

  lemma KindsOfChildren(e: Env, p: Provider, app: Ref, c: Core)
    requires c.bundle.kind == AppBundle
    ensures (exists n :: n in AppTree(e, p, app, c).children && n.kind == LayersMeta) <==>
      MetaNodes(e, p, app, c.doc) != []
    ensures (exists n :: n in AppTree(e, p, app, c).children && n.kind == AppIndex) <==>
      IndexNodes(p, app, c) != []
  {
    var t := AppTree(e, p, app, c);
    var meta, index := MetaNodes(e, p, app, c.doc), IndexNodes(p, app, c);
    assert forall n :: n in t.children <==> n in meta || n in index || n == c.bundle;
    if meta != [] {
      assert meta[0] in t.children && meta[0].kind == LayersMeta;
    }
    if index != [] {
      assert index[0] in t.children && index[0].kind == AppIndex;
    }
  }

  // ---------- Exactly when a load succeeds ----------

  /** A manifest of an index can be read. */
  predicate ManifestReads(e: Env, blobs: map<Digest, Bytes>, d: Desc) {
    && d.size > 0 && d.digest in blobs && |blobs[d.digest]| >= d.size
    && e.hash(blobs[d.digest][..d.size]) == d.digest && e.manifest(blobs[d.digest][..d.size]).Some?
  }

  /** An image can be read: its root is a short enough blob of the right digest, either a manifest, or an index
      whose manifests of the platform can be read, or a skopeo-made index all of whose manifests can. */
  ghost predicate ImageReads(e: Env, blobs: map<Digest, Bytes>, image: Ref) {
    && image.digest != "" && image.digest in blobs
    && |blobs[image.digest]| < IMAGE_ROOT_MAX && e.hash(blobs[image.digest]) == image.digest
    && e.imageRoot(blobs[image.digest]).Some?
    && var root := e.imageRoot(blobs[image.digest]).value;
      && !root.fsLayers
      && match root.media
        case ManifestMedia => root.manifests == Absent && root.config.Present? && root.layers.Present?
        case IndexMedia =>
          && root.config == Absent && root.layers == Absent && root.manifests.Present?
          && forall m :: m in root.manifests.value && e.platformOk(m.platform) ==> ManifestReads(e, blobs, m.desc)
        case OtherMedia =>
          && root.schemaVersion == 2 && root.manifests.Present?
          && forall m :: m in root.manifests.value ==> ManifestReads(e, blobs, m.desc)
  }

  lemma {:induction false} ManifestsLoadExactly(e: Env, s: Store, app: Ref, image: Ref, skopeo: bool,
                                                ms: seq<PlatformDesc>)
    ensures LoadManifests(e, Local(s), app, image, skopeo, ms).Ok? <==>
      forall m :: m in ms && (skopeo || e.platformOk(m.platform)) ==> ManifestReads(e, s.blobs, m.desc)
  {
    if ms != [] {
      var d := ms[0].desc;
      if d.size > 0 && d.digest in s.blobs {
        CleanWithExpectedSize(e.hash, d.digest, d.size, s.blobs[d.digest]);
      }
      ManifestsLoadExactly(e, s, app, image, skopeo, ms[1..]);
      assert forall m :: m in ms <==> m == ms[0] || m in ms[1..];
    }
  }

  /** An image loads from a store that has its root, or does not fall back, exactly when it can be read. */
  lemma ImageLoadsExactly(e: Env, s: Store, app: Ref, service: string, image: Ref)
    requires image.digest in s.blobs || !s.skopeoAware
    ensures LoadImage(e, Local(s), app, service, image).Ok? <==> ImageReads(e, s.blobs, image)
  {
    if image.digest in s.blobs {
      CleanWithLimit(e.hash, image.digest, IMAGE_ROOT_MAX, s.blobs[image.digest]);
      if e.imageRoot(s.blobs[image.digest]).Some? && e.imageRoot(s.blobs[image.digest]).value.manifests.Present? {
        var ms := e.imageRoot(s.blobs[image.digest]).value.manifests.value;
        ManifestsLoadExactly(e, s, app, image, false, ms);
        ManifestsLoadExactly(e, s, app, image, true, ms);
      }
    }
  }

  ghost predicate AllImagesRead(e: Env, blobs: map<Digest, Bytes>, services: seq<Service>) {
    forall service :: service in services ==> service.image.Some? && ImageReads(e, blobs, service.image.value)
  }

  lemma {:induction false} ImagesLoadExactly(e: Env, s: Store, app: Ref, services: seq<Service>)
    requires !s.skopeoAware
    ensures LoadImages(e, Local(s), app, services).Ok? <==> AllImagesRead(e, s.blobs, services)
  {
    if services != [] {
      if services[0].image.Some? {
        ImageLoadsExactly(e, s, app, services[0].name, services[0].image.value);
      }
      ImagesLoadExactly(e, s, app, services[1..]);
      assert forall service :: service in services <==> service == services[0] || service in services[1..];
    }
  }

  /** An app loads from a store that does not fall back exactly when its manifest is a short enough blob of the
      right digest that names a bundle, the bundle unpacks into services, and all their images can be read. */
  lemma AppLoadsExactly(e: Env, s: Store, app: Ref)
    requires !s.skopeoAware
    ensures LoadApp(e, Local(s), app).Ok? <==>
      && app.digest != "" && app.digest in s.blobs
      && |s.blobs[app.digest]| < APP_MANIFEST_MAX && e.hash(s.blobs[app.digest]) == app.digest
      && e.appDoc(s.blobs[app.digest]).Some?
      && var doc := e.appDoc(s.blobs[app.digest]).value;
        && doc.ociManifest && doc.layers != [] && doc.layers[0].octetStream
        && doc.layers[0].desc.digest in s.blobs
        && (exists services ::
              && BundleReads(e, app, doc.layers[0].desc, s.blobs[doc.layers[0].desc.digest], services)
              && AllImagesRead(e, s.blobs, services))
  {
    if app.digest in s.blobs {
      CleanWithLimit(e.hash, app.digest, APP_MANIFEST_MAX, s.blobs[app.digest]);
      if e.appDoc(s.blobs[app.digest]).Some? && e.appDoc(s.blobs[app.digest]).value.layers != [] {
        var d := e.appDoc(s.blobs[app.digest]).value.layers[0].desc;
        BundleReadsExactly(e, s, app, d);
        forall services {
          ImagesLoadExactly(e, s, app, services);
        }
      }
    }
  }

  lemma BundleReadsExactly(e: Env, s: Store, app: Ref, d: Desc)
    requires !s.skopeoAware
    ensures forall services :: ReadProject(e, Local(s), app, d) == Ok(services) <==>
      d.digest in s.blobs && BundleReads(e, app, d, s.blobs[d.digest], services)
  {
    if d.size > 0 && d.digest in s.blobs {
      CleanWithExpectedSize(e.hash, d.digest, d.size, s.blobs[d.digest]);
    }
  }

  /** A registry's document is admitted up to the limit itself. */
  lemma RemoteReadExactly(e: Env, registry: map<Digest, Bytes>, app: Ref, scope: Scope, d: Digest, limit: int)
    requires limit > 0
    ensures forall b :: ReadLimited(e, Remote(registry), app, scope, d, limit) == Ok(b) <==>
      d in registry && b == registry[d] && |b| <= limit && e.hash(b) == d
  {
    if d in registry {
      assert registry[d][..|registry[d]|] == registry[d];
    }
  }

  // ---------- The apps directory as a fallback ----------

  /** A bundle file is unpacked, up to the size its descriptor tells, into these services; its digest is checked
      if the archive reader runs to the end. */
  predicate BundleReads(e: Env, app: Ref, desc: Desc, b: Bytes, services: seq<Service>) {
    && desc.size > 0
    && var project := e.project(b[..Min(desc.size, |b|)], e.nameOf(app.locator));
      && project.services == Some(services)
      && (project.drained ==> |b| >= desc.size && e.hash(b[..desc.size]) == desc.digest)
  }

  /** What a read of a blob that is not in the store gives. A store that knows of skopeo turns to the app's
      directory: for an app manifest, checked as usual; for an app bundle filed under its digest, checked too;
      for an image root, unchecked. Anything else, as metadata or the manifests of an index, is not found. */
  lemma FallbackExactly(e: Env, s: Store, app: Ref, image: Ref, d: Digest, size: int, limit: int)
    requires d !in s.blobs && limit > 0
    ensures ReadLimited(e, Local(s), app, ForManifest, d, limit).Ok? <==>
      s.skopeoAware && KeyOf(e, app) in s.apps && s.apps[KeyOf(e, app)].manifestFile.Some?
      && (var b := s.apps[KeyOf(e, app)].manifestFile.value; |b| < limit && e.hash(b) == d)
    ensures forall b :: ReadLimited(e, Local(s), app, ForImageRoot(image), d, limit) == Ok(b) <==>
      s.skopeoAware && KeyOf(e, app) in s.apps && image in s.apps[KeyOf(e, app)].imageIndexes &&
        b == s.apps[KeyOf(e, app)].imageIndexes[image]
    ensures forall b :: Open(e, Local(s), app, ForBundle, d) == Checked(b) <==>
      s.skopeoAware && KeyOf(e, app) in s.apps && d in s.apps[KeyOf(e, app)].bundleFiles &&
        b == s.apps[KeyOf(e, app)].bundleFiles[d]
    ensures forall services :: ReadProject(e, Local(s), app, Desc(d, size)) == Ok(services) <==>
      s.skopeoAware && KeyOf(e, app) in s.apps && d in s.apps[KeyOf(e, app)].bundleFiles &&
        BundleReads(e, app, Desc(d, size), s.apps[KeyOf(e, app)].bundleFiles[d], services)
    ensures ReadSized(e, Local(s), app, d, size).Err?
  {
    if size > 0 && KeyOf(e, app) in s.apps && d in s.apps[KeyOf(e, app)].bundleFiles {
      CleanWithExpectedSize(e.hash, d, size, s.apps[KeyOf(e, app)].bundleFiles[d]);
    }
    if KeyOf(e, app) in s.apps && s.apps[KeyOf(e, app)].manifestFile.Some? {
      CleanWithLimit(e.hash, d, limit, s.apps[KeyOf(e, app)].manifestFile.value);
    }
  }

  /** A load reports the app as not found, which lets a caller turn to the registry, exactly when its manifest
      is nowhere to be read. */
  lemma NotFoundExactly(e: Env, p: Provider, app: Ref)
    ensures LoadApp(e, p, app) == Err(AppNotFound) <==>
      app.digest != "" && Open(e, p, app, ForManifest, app.digest) == Missing
  {
    if LoadApp(e, p, app) == Err(AppNotFound) {
      assert LoadCore(e, p, app) == Err(AppNotFound);
      var b := ReadLimited(e, p, app, ForManifest, app.digest, APP_MANIFEST_MAX);
      if b.Ok? && e.appDoc(b.value).Some? && e.appDoc(b.value).value.layers != [] {
        var d := e.appDoc(b.value).value.layers[0].desc;
        var services := ReadProject(e, p, app, d);
        if services.Ok? {
          ImagesFailPlainly(e, p, app, services.value);
        }
      }
    }
  }

  lemma {:induction false} ImagesFailPlainly(e: Env, p: Provider, app: Ref, services: seq<Service>)
    ensures LoadImages(e, p, app, services) != Err(AppNotFound)
  {
    if services != [] {
      ImagesFailPlainly(e, p, app, services[1..]);
    }
  }
}
