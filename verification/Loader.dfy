/** Loading app and image trees from a local store or a registry
    (pkg/compose/v1/app.go, pkg/compose/image.go, and the reads of pkg/compose/v1/app_store.go). */
module Loader {
  import opened Base
  import opened Tree
  import opened Reader

  const APP_MANIFEST_MAX := 50 * 1024
  const IMAGE_ROOT_MAX := 100 * 1024

  // ---------- Parsed documents ----------

  datatype Desc = Desc(digest: Digest, size: int)

  /** A raw JSON field: missing, present but of the wrong shape, or parsed. */
  datatype Field<+T> = Absent | Malformed | Present(value: T)

  datatype Media = ManifestMedia | IndexMedia | OtherMedia

  datatype PlatformDesc = PlatformDesc(desc: Desc, platform: string)

  datatype ImageRoot = ImageRoot(
    schemaVersion: int, media: Media, fsLayers: bool,
    config: Field<Desc>, layers: Field<seq<Desc>>, manifests: Field<seq<PlatformDesc>>)

  datatype ManifestDoc = ManifestDoc(config: Desc, layers: seq<Desc>)

  /** A layer of an app manifest with the annotations the loader looks at. */
  datatype AppLayer = AppLayer(desc: Desc, octetStream: bool, metaVersion: Option<string>, index: Option<Desc>)

  datatype AppDoc = AppDoc(ociManifest: bool, layers: seq<AppLayer>)

  /** A compose service; None is an image text that does not parse. */
  datatype Service = Service(name: string, image: Option<Ref>)

  /** What unpacking an app bundle yields, and whether the archive reader ran to the end of its input
      (only then does the reader below it get to check the digest). */
  datatype Project = Project(services: Option<seq<Service>>, drained: bool)

  /** Hashing, parsing and platform matching, all arbitrary. */
  datatype Env = Env(
    hash: Bytes -> Digest,
    appDoc: Bytes -> Option<AppDoc>,
    metaOk: Bytes -> bool,
    project: (Bytes, string) -> Project,
    imageRoot: Bytes -> Option<ImageRoot>,
    manifest: Bytes -> Option<ManifestDoc>,
    nameOf: string -> string,
    platformOk: string -> bool)

  // ---------- Providers ----------

  datatype AppKey = AppKey(name: string, digest: Digest)

  datatype UriFile = NoUri | BadUri | Uri(ref: Ref)

  /** A directory `apps/<name>/<digest>` with the files a skopeo-made store keeps in it. */
  datatype AppDir = AppDir(uri: UriFile, manifestFile: Option<Bytes>, bundleFiles: map<Digest, Bytes>,
    imageIndexes: map<Ref, Bytes>)

  datatype Store = Store(blobs: map<Digest, Bytes>, apps: map<AppKey, AppDir>, skopeoAware: bool)

  datatype Provider = Local(store: Store) | Remote(registry: map<Digest, Bytes>)

  /** What the read context says about the blob; it decides whether the apps directory is a fallback. */
  datatype Scope = NoScope | ForManifest | ForBundle | ForImageRoot(image: Ref)

  datatype Opened = Missing | Checked(data: Bytes) | Raw(data: Bytes)

  datatype LoadError = AppNotFound | LoadFailed

  function KeyOf(e: Env, app: Ref): AppKey {
    AppKey(e.nameOf(app.locator), app.digest)
  }

  function Fallback(e: Env, s: Store, app: Ref, scope: Scope, d: Digest): Opened {
    if !s.skopeoAware || KeyOf(e, app) !in s.apps then Missing
    else
      var dir := s.apps[KeyOf(e, app)];
      match scope
      case NoScope => Missing
      case ForManifest => if dir.manifestFile.Some? then Checked(dir.manifestFile.value) else Missing
      case ForBundle => if d in dir.bundleFiles then Checked(dir.bundleFiles[d]) else Missing
      case ForImageRoot(image) => if image in dir.imageIndexes then Raw(dir.imageIndexes[image]) else Missing
  }

  function Open(e: Env, p: Provider, app: Ref, scope: Scope, d: Digest): Opened {
    match p
    case Remote(registry) => if d in registry then Checked(registry[d]) else Missing
    case Local(s) => if d in s.blobs then Checked(s.blobs[d]) else Fallback(e, s, app, scope, d)
  }

  function ReadChecked(e: Env, params: Params, data: Bytes): Result<Bytes, LoadError> {
    match ReadWhole(e.hash, params, data)
    case Ok(b) => Ok(b)
    case Err(_) => Err(LoadFailed)
  }

  /** Read a blob of unknown size. The registry resolves the size first, so there the reader gets both a
      size and a limit; the local store passes the limit alone. */
  function ReadLimited(e: Env, p: Provider, app: Ref, scope: Scope, d: Digest, limit: int): Result<Bytes, LoadError> {
    match Open(e, p, app, scope, d)
    case Missing => Err(AppNotFound)
    case Raw(b) => Ok(b)
    case Checked(b) => ReadChecked(e, Params(d, if p.Remote? then |b| else 0, limit), b)
  }

  /** Read a blob of a known size. */
  function ReadSized(e: Env, p: Provider, app: Ref, d: Digest, size: int): Result<Bytes, LoadError> {
    if size <= 0 then Err(LoadFailed)
    else
      match Open(e, p, app, NoScope, d)
      case Checked(b) => ReadChecked(e, Params(d, size, 0), b)
      case _ => Err(LoadFailed)
  }

  // ---------- Image trees ----------

  /** The kind of an image root; None when the document is refused or of no known kind. */
  function ValidateRoot(root: ImageRoot): Option<Kind> {
    if root.fsLayers then None
    else if root.media == ManifestMedia then
      if root.manifests != Absent then None else Some(ImageManifest)
    else if root.media == IndexMedia then
      if root.config != Absent || root.layers != Absent then None else Some(ImageIndex)
    else if root.schemaVersion == 2 && root.manifests != Absent then Some(SkopeoIndex)
    else None
  }

  function Leaf(locator: string, d: Desc, kind: Kind): Node {
    Node(d.digest, d.size, kind, [Ref(locator, d.digest)], "", [])
  }

  /** One node per distinct layer digest, at its first occurrence. */
  function LayerNodes(locator: string, layers: seq<Desc>, seen: set<Digest>): seq<Node> {
    if layers == [] then []
    else if layers[0].digest in seen then LayerNodes(locator, layers[1..], seen)
    else [Leaf(locator, layers[0], ImageLayer)] + LayerNodes(locator, layers[1..], seen + {layers[0].digest})
  }

  function ConfigAndLayers(locator: string, config: Desc, layers: seq<Desc>): seq<Node> {
    [Leaf(locator, config, ImageConfig)] + LayerNodes(locator, layers, {})
  }

  /** The manifests of an index: all of them for a skopeo index, else those of the platform. */
  function LoadManifests(e: Env, p: Provider, app: Ref, image: Ref, skopeo: bool, ms: seq<PlatformDesc>)
    : Result<seq<Node>, LoadError>
  {
    if ms == [] then Ok([])
    else if !skopeo && !e.platformOk(ms[0].platform) then LoadManifests(e, p, app, image, skopeo, ms[1..])
    else
      var d := ms[0].desc;
      var b :- ReadSized(e, p, app, d.digest, d.size);
      if e.manifest(b).None? then Err(LoadFailed)
      else
        var doc := e.manifest(b).value;
        var rest :- LoadManifests(e, p, app, image, skopeo, ms[1..]);
        Ok([Node(d.digest, d.size, ImageManifest, [Ref(image.locator, d.digest), image], "",
                 ConfigAndLayers(image.locator, doc.config, doc.layers))] + rest)
  }

  function LoadImage(e: Env, p: Provider, app: Ref, service: string, image: Ref): Result<Node, LoadError> {
    if image.digest == "" then Err(LoadFailed)
    else
      var b :- ReadLimited(e, p, app, ForImageRoot(image), image.digest, IMAGE_ROOT_MAX);
      if e.imageRoot(b).None? then Err(LoadFailed)
      else
        var root := e.imageRoot(b).value;
        match ValidateRoot(root)
        case Some(ImageManifest) =>
          if root.config.Present? && root.layers.Present? then
            Ok(Node(image.digest, |b|, ImageManifest, [image], service,
                    ConfigAndLayers(image.locator, root.config.value, root.layers.value)))
          else Err(LoadFailed)
        case Some(kind) =>
          if !root.manifests.Present? then Err(LoadFailed)
          else
            var children :- LoadManifests(e, p, app, image, kind == SkopeoIndex, root.manifests.value);
            Ok(Node(image.digest, |b|, kind, [image], service, children))
        case None => Err(LoadFailed)
  }

  function LoadImages(e: Env, p: Provider, app: Ref, services: seq<Service>): Result<seq<Node>, LoadError> {
    if services == [] then Ok([])
    else if services[0].image.None? then Err(LoadFailed)
    else if LoadImage(e, p, app, services[0].name, services[0].image.value).Err? then Err(LoadFailed)
    else
      var image := LoadImage(e, p, app, services[0].name, services[0].image.value).value;
      var rest :- LoadImages(e, p, app, services[1..]);
      Ok([image] + rest)
  }

  // ---------- App trees ----------

  /** The part of an app tree that must be readable: its manifest and its bundle with the image trees.
      `direct` tells an app pulled by this tool from one laid out by skopeo. */
  datatype Core = Core(doc: AppDoc, size: int, direct: bool, bundle: Node)

  function ReadProject(e: Env, p: Provider, app: Ref, d: Desc): Result<seq<Service>, LoadError> {
    match Open(e, p, app, ForBundle, d.digest)
    case Checked(b) =>
      var params := Params(d.digest, d.size, 0);
      if Normalize(params).None? then Err(LoadFailed)
      else
        var project := e.project(Visible(Normalize(params).value, b), e.nameOf(app.locator));
        if project.services.None? || (project.drained && ReadChecked(e, params, b).Err?) then Err(LoadFailed)
        else Ok(project.services.value)
    case _ => Err(LoadFailed)
  }

  function LoadCore(e: Env, p: Provider, app: Ref): Result<Core, LoadError> {
    if app.digest == "" then Err(LoadFailed)
    else
      var b :- ReadLimited(e, p, app, ForManifest, app.digest, APP_MANIFEST_MAX);
      match e.appDoc(b)
      case None => Err(LoadFailed)
      case Some(doc) =>
        if !doc.ociManifest || doc.layers == [] || !doc.layers[0].octetStream then Err(LoadFailed)
        else
          var d := doc.layers[0].desc;
          var services :- ReadProject(e, p, app, d);
          var images :- LoadImages(e, p, app, services);
          Ok(Core(doc, |b|, p.Remote? || app.digest in p.store.blobs,
                  Node(d.digest, d.size, AppBundle, [Ref(app.locator, d.digest)], "", images)))
  }

  /** The layers metadata node, when the manifest refers to metadata that can be read and parsed. */
  function MetaNodes(e: Env, p: Provider, app: Ref, doc: AppDoc): seq<Node> {
    if |doc.layers| < 2 || doc.layers[1].metaVersion != Some("v1") then []
    else
      var d := doc.layers[1].desc;
      match ReadSized(e, p, app, d.digest, d.size)
      case Ok(b) => if e.metaOk(b) then [Leaf(app.locator, d, LayersMeta)] else []
      case Err(_) => []
  }

  /** The bundle index node: always for a registry, only if its blob is there for a local store. */
  function IndexNodes(p: Provider, app: Ref, c: Core): seq<Node> {
    if !c.direct || c.doc.layers == [] || c.doc.layers[0].index.None? then []
    else
      var d := c.doc.layers[0].index.value;
      if p.Remote? || d.digest in p.store.blobs then [Leaf(app.locator, d, AppIndex)] else []
  }

  function AppTree(e: Env, p: Provider, app: Ref, c: Core): Node {
    Node(app.digest, c.size, AppManifest, [app], "",
         MetaNodes(e, p, app, c.doc) + IndexNodes(p, app, c) + [c.bundle])
  }

  function LoadApp(e: Env, p: Provider, app: Ref): Result<Node, LoadError> {
    var c :- LoadCore(e, p, app);
    Ok(AppTree(e, p, app, c))
  }

  /** The digests without which an app cannot be loaded, or not be complete. */
  function Mandatory(app: Ref, c: Core): set<Digest> {
    {app.digest} + Digests(c.bundle)
  }

  lemma AppTreeDigests(e: Env, p: Provider, app: Ref, c: Core)
    ensures Digests(AppTree(e, p, app, c))
         == Mandatory(app, c) + DigestsAll(MetaNodes(e, p, app, c.doc)) + DigestsAll(IndexNodes(p, app, c))
  {
    var meta, index := MetaNodes(e, p, app, c.doc), IndexNodes(p, app, c);
    DigestsAllConcat(meta + index, [c.bundle]);
    DigestsAllConcat(meta, index);
    assert DigestsAll([c.bundle]) == Digests(c.bundle);
  }

  // ---------- Shape of loaded trees ----------

  lemma {:induction false} LayersAreLeaves(locator: string, layers: seq<Desc>, seen: set<Digest>)
    ensures HeightAll(LayerNodes(locator, layers, seen)) == 0
  {
    if layers != [] {
      LayersAreLeaves(locator, layers[1..], seen);
      LayersAreLeaves(locator, layers[1..], seen + {layers[0].digest});
    }
  }

  /** The layer nodes are exactly the distinct layer digests, each once. */
  lemma {:induction false} LayerNodesDistinct(locator: string, layers: seq<Desc>, seen: set<Digest>)
    ensures var nodes := LayerNodes(locator, layers, seen);
      && (forall i, j :: 0 <= i < j < |nodes| ==> nodes[i].digest != nodes[j].digest)
      && (forall i :: 0 <= i < |nodes| ==> nodes[i].digest !in seen && nodes[i].kind == ImageLayer)
      && DigestsAll(nodes) == (set l | l in layers :: l.digest) - seen
  {
    if layers != [] {
      assert layers == [layers[0]] + layers[1..];
      if layers[0].digest in seen {
        LayerNodesDistinct(locator, layers[1..], seen);
      } else {
        LayerNodesDistinct(locator, layers[1..], seen + {layers[0].digest});
        var rest := LayerNodes(locator, layers[1..], seen + {layers[0].digest});
        var leaf := Leaf(locator, layers[0], ImageLayer);
        assert ([leaf] + rest)[1..] == rest;
        assert Digests(leaf) == {layers[0].digest};
      }
    }
  }

  lemma ConfigAndLayersHeight(locator: string, config: Desc, layers: seq<Desc>)
    ensures HeightAll(ConfigAndLayers(locator, config, layers)) == 0
  {
    LayersAreLeaves(locator, layers, {});
    HeightAllConcat([Leaf(locator, config, ImageConfig)], LayerNodes(locator, layers, {}));
  }

  lemma {:induction false} ManifestsHeight(e: Env, p: Provider, app: Ref, image: Ref, skopeo: bool,
                                           ms: seq<PlatformDesc>)
    requires LoadManifests(e, p, app, image, skopeo, ms).Ok?
    ensures HeightAll(LoadManifests(e, p, app, image, skopeo, ms).value) <= 1
  {
    if ms != [] {
      ManifestsHeight(e, p, app, image, skopeo, ms[1..]);
      if skopeo || e.platformOk(ms[0].platform) {
        var doc := e.manifest(ReadSized(e, p, app, ms[0].desc.digest, ms[0].desc.size).value).value;
        ConfigAndLayersHeight(image.locator, doc.config, doc.layers);
        var nodes := LoadManifests(e, p, app, image, skopeo, ms).value;
        assert nodes[1..] == LoadManifests(e, p, app, image, skopeo, ms[1..]).value;
      }
    }
  }

  lemma {:induction false} ImagesHeight(e: Env, p: Provider, app: Ref, services: seq<Service>)
    requires LoadImages(e, p, app, services).Ok?
    ensures HeightAll(LoadImages(e, p, app, services).value) <= 2
  {
    if services != [] {
      ImagesHeight(e, p, app, services[1..]);
      var nodes := LoadImages(e, p, app, services).value;
      assert nodes[1..] == LoadImages(e, p, app, services[1..]).value;
      var image := services[0].image.value;
      var root := e.imageRoot(ReadLimited(e, p, app, ForImageRoot(image), image.digest, IMAGE_ROOT_MAX).value).value;
      if ValidateRoot(root) == Some(ImageManifest) {
        ConfigAndLayersHeight(image.locator, root.config.value, root.layers.value);
      } else {
        ManifestsHeight(e, p, app, image, ValidateRoot(root) == Some(SkopeoIndex), root.manifests.value);
      }
    }
  }

  /** Every loaded app tree is at most four levels below its root, so a walk over it never meets the depth
      error and counting its nodes never panics. */
  lemma LoadedTreeIsShallow(e: Env, p: Provider, app: Ref)
    requires LoadApp(e, p, app).Ok?
    ensures Height(LoadApp(e, p, app).value) <= 4
    ensures Walk(LoadApp(e, p, app).value, 0) == Walked(Preorder(LoadApp(e, p, app).value), true)
  {
    var c := LoadCore(e, p, app).value;
    var b := ReadLimited(e, p, app, ForManifest, app.digest, APP_MANIFEST_MAX).value;
    var services := ReadProject(e, p, app, e.appDoc(b).value.layers[0].desc).value;
    ImagesHeight(e, p, app, services);
    var meta, index := MetaNodes(e, p, app, c.doc), IndexNodes(p, app, c);
    HeightAllConcat(meta + index, [c.bundle]);
    HeightAllConcat(meta, index);
    WalkExact(AppTree(e, p, app, c), 0);
  }

  // ---------- What a load depends on ----------

  predicate SameDir(e: Env, s: Store, s': Store, app: Ref) {
    && s.skopeoAware == s'.skopeoAware
    && (KeyOf(e, app) in s.apps <==> KeyOf(e, app) in s'.apps)
    && (KeyOf(e, app) in s.apps ==> s.apps[KeyOf(e, app)] == s'.apps[KeyOf(e, app)])
  }

  /** On the given digests the two stores hold the same files; where one is missing from both, the app's
      directory is the same too. */
  ghost predicate Undisturbed(e: Env, s: Store, s': Store, app: Ref, ds: set<Digest>) {
    forall d :: d in ds ==> SameFile(s.blobs, s'.blobs, d) && (d in s.blobs || SameDir(e, s, s', app))
  }

  lemma {:induction false} ManifestsFrame(e: Env, s: Store, s': Store, app: Ref, image: Ref, skopeo: bool,
                                          ms: seq<PlatformDesc>)
    requires LoadManifests(e, Local(s), app, image, skopeo, ms).Ok?
    requires Undisturbed(e, s, s', app, DigestsAll(LoadManifests(e, Local(s), app, image, skopeo, ms).value))
    ensures LoadManifests(e, Local(s'), app, image, skopeo, ms) == LoadManifests(e, Local(s), app, image, skopeo, ms)
  {
    if ms != [] {
      if skopeo || e.platformOk(ms[0].platform) {
        var nodes := LoadManifests(e, Local(s), app, image, skopeo, ms).value;
        assert nodes[0].digest == ms[0].desc.digest && nodes[0].digest in Digests(nodes[0]);
        assert SameFile(s.blobs, s'.blobs, ms[0].desc.digest);
        assert nodes[1..] == LoadManifests(e, Local(s), app, image, skopeo, ms[1..]).value;
      }
      ManifestsFrame(e, s, s', app, image, skopeo, ms[1..]);
    }
  }

  lemma {:induction false} ImageFrame(e: Env, s: Store, s': Store, app: Ref, service: string, image: Ref)
    requires LoadImage(e, Local(s), app, service, image).Ok?
    requires Undisturbed(e, s, s', app, Digests(LoadImage(e, Local(s), app, service, image).value))
    ensures LoadImage(e, Local(s'), app, service, image) == LoadImage(e, Local(s), app, service, image)
  {
    var t := LoadImage(e, Local(s), app, service, image).value;
    assert t.digest == image.digest && t.digest in Digests(t);
    var b := ReadLimited(e, Local(s), app, ForImageRoot(image), image.digest, IMAGE_ROOT_MAX).value;
    assert ReadLimited(e, Local(s'), app, ForImageRoot(image), image.digest, IMAGE_ROOT_MAX) == Ok(b);
    var root := e.imageRoot(b).value;
    if ValidateRoot(root) != Some(ImageManifest) {
      ManifestsFrame(e, s, s', app, image, ValidateRoot(root) == Some(SkopeoIndex), root.manifests.value);
    }
  }

  lemma {:induction false} ImagesFrame(e: Env, s: Store, s': Store, app: Ref, services: seq<Service>)
    requires LoadImages(e, Local(s), app, services).Ok?
    requires Undisturbed(e, s, s', app, DigestsAll(LoadImages(e, Local(s), app, services).value))
    ensures LoadImages(e, Local(s'), app, services) == LoadImages(e, Local(s), app, services)
  {
    if services != [] {
      var nodes := LoadImages(e, Local(s), app, services).value;
      assert nodes[0] == LoadImage(e, Local(s), app, services[0].name, services[0].image.value).value;
      assert nodes[1..] == LoadImages(e, Local(s), app, services[1..]).value;
      ImageFrame(e, s, s', app, services[0].name, services[0].image.value);
      ImagesFrame(e, s, s', app, services[1..]);
    }
  }

  /** A load of the mandatory part depends only on the mandatory blobs. */
  lemma CoreFrame(e: Env, s: Store, s': Store, app: Ref)
    requires LoadCore(e, Local(s), app).Ok?
    requires Undisturbed(e, s, s', app, Mandatory(app, LoadCore(e, Local(s), app).value))
    ensures LoadCore(e, Local(s'), app) == LoadCore(e, Local(s), app)
  {
    var c := LoadCore(e, Local(s), app).value;
    var b := ReadLimited(e, Local(s), app, ForManifest, app.digest, APP_MANIFEST_MAX).value;
    assert app.digest in Mandatory(app, c);
    assert ReadLimited(e, Local(s'), app, ForManifest, app.digest, APP_MANIFEST_MAX) == Ok(b);
    var d := e.appDoc(b).value.layers[0].desc;
    assert c.bundle.digest == d.digest && c.bundle.digest in Digests(c.bundle);
    var services := ReadProject(e, Local(s), app, d).value;
    assert ReadProject(e, Local(s'), app, d) == Ok(services);
    ImagesFrame(e, s, s', app, services);
  }

  /** The optional nodes are the same too, if no blob appeared and those of optional nodes stayed. */
  lemma OptionalFrame(e: Env, s: Store, s': Store, app: Ref, c: Core)
    requires forall d :: d in s'.blobs ==> SameFile(s.blobs, s'.blobs, d)
    requires forall d :: d in s.blobs && d in DigestsAll(MetaNodes(e, Local(s), app, c.doc)) ==> d in s'.blobs
    requires forall d :: d in s.blobs && d in DigestsAll(IndexNodes(Local(s), app, c)) ==> d in s'.blobs
    ensures MetaNodes(e, Local(s'), app, c.doc) == MetaNodes(e, Local(s), app, c.doc)
    ensures IndexNodes(Local(s'), app, c) == IndexNodes(Local(s), app, c)
  {
    var meta := MetaNodes(e, Local(s), app, c.doc);
    if meta != [] {
      assert meta[0].digest in Digests(meta[0]);
    }
    var index := IndexNodes(Local(s), app, c);
    if index != [] {
      assert index[0].digest in Digests(index[0]);
    }
  }

  // ---------- Registry and store give the same trees ----------

  ghost predicate Honest(e: Env, registry: map<Digest, Bytes>) {
    forall d :: d in registry ==> e.hash(registry[d]) == d
  }

  /** The node's blob is in the store as the registry serves it; or padded, that is with as many bytes as the
      node tells and others after them, which do not have its digest. */
  ghost predicate Begun(e: Env, s: Store, registry: map<Digest, Bytes>, n: Node) {
    n.digest in s.blobs && (n.digest in registry ==>
      || s.blobs[n.digest] == registry[n.digest]
      || (|registry[n.digest]| == n.size && registry[n.digest] < s.blobs[n.digest]
        && e.hash(s.blobs[n.digest]) != n.digest))
  }

  ghost predicate AllBegun(e: Env, s: Store, registry: map<Digest, Bytes>, nodes: seq<Node>) {
    forall n :: n in nodes ==> Begun(e, s, registry, n)
  }

  /** The node's file, if there is one, has no bytes after those the node tells. */
  predicate Unpadded(blobs: map<Digest, Bytes>, n: Node) {
    n.digest in blobs ==> |blobs[n.digest]| == n.size
  }

  /** No image root is padded, and none has exactly the maximal size, which the registry path admits and the
      store path does not. */
  predicate RootsRead(blobs: map<Digest, Bytes>, images: seq<Node>) {
    forall n :: n in images ==> n.size != IMAGE_ROOT_MAX && Unpadded(blobs, n)
  }

  /** A limited read takes a blob of the registry from the store exactly when it is not padded and does not
      have the maximal size. */
  lemma LimitedReload(e: Env, registry: map<Digest, Bytes>, s: Store, app: Ref, scope: Scope, n: Node, limit: int)
    requires Honest(e, registry) && limit > 0
    requires ReadLimited(e, Remote(registry), app, scope, n.digest, limit).Ok?
    requires Begun(e, s, registry, n) && |ReadLimited(e, Remote(registry), app, scope, n.digest, limit).value| == n.size
    ensures ReadLimited(e, Local(s), app, scope, n.digest, limit)
         == if n.size != limit && Unpadded(s.blobs, n) then Ok(registry[n.digest]) else Err(LoadFailed)
    ensures ReadLimited(e, Remote(registry), app, scope, n.digest, limit) == Ok(registry[n.digest])
  {
    var b := registry[n.digest];
    assert b[..|b|] == b;
    CleanWithLimit(e.hash, n.digest, limit, s.blobs[n.digest]);
  }

  /** A sized read takes it whether padded or not. */
  lemma SizedReload(e: Env, registry: map<Digest, Bytes>, s: Store, app: Ref, n: Node)
    requires ReadSized(e, Remote(registry), app, n.digest, n.size).Ok? && Begun(e, s, registry, n)
    ensures ReadSized(e, Local(s), app, n.digest, n.size) == ReadSized(e, Remote(registry), app, n.digest, n.size)
  {
    CleanWithExpectedSize(e.hash, n.digest, n.size, registry[n.digest]);
    CleanWithExpectedSize(e.hash, n.digest, n.size, s.blobs[n.digest]);
    if s.blobs[n.digest] != registry[n.digest] {
      assert s.blobs[n.digest][..n.size] == registry[n.digest] == registry[n.digest][..n.size];
    }
  }

  lemma {:induction false} ManifestsReload(e: Env, registry: map<Digest, Bytes>, s: Store, app: Ref, image: Ref,
                                           skopeo: bool, ms: seq<PlatformDesc>)
    requires LoadManifests(e, Remote(registry), app, image, skopeo, ms).Ok?
    requires AllBegun(e, s, registry, LoadManifests(e, Remote(registry), app, image, skopeo, ms).value)
    ensures LoadManifests(e, Local(s), app, image, skopeo, ms) ==
      LoadManifests(e, Remote(registry), app, image, skopeo, ms)
  {
    if ms != [] {
      if skopeo || e.platformOk(ms[0].platform) {
        var nodes := LoadManifests(e, Remote(registry), app, image, skopeo, ms).value;
        assert nodes[0].digest == ms[0].desc.digest && nodes[0].size == ms[0].desc.size;
        assert nodes == [nodes[0]] + LoadManifests(e, Remote(registry), app, image, skopeo, ms[1..]).value;
        SizedReload(e, registry, s, app, nodes[0]);
      }
      ManifestsReload(e, registry, s, app, image, skopeo, ms[1..]);
    }
  }

  /** An image tree loads from the store exactly when its root can be read there. */
  lemma ImageReload(e: Env, registry: map<Digest, Bytes>, s: Store, app: Ref, service: string, image: Ref)
    requires Honest(e, registry) && LoadImage(e, Remote(registry), app, service, image).Ok?
    requires var t := LoadImage(e, Remote(registry), app, service, image).value;
      Begun(e, s, registry, t) && AllBegun(e, s, registry, t.children)
    ensures var t := LoadImage(e, Remote(registry), app, service, image).value;
      if RootsRead(s.blobs, [t]) then LoadImage(e, Local(s), app, service, image) == Ok(t)
      else LoadImage(e, Local(s), app, service, image).Err?
  {
    var t := LoadImage(e, Remote(registry), app, service, image).value;
    LimitedReload(e, registry, s, app, ForImageRoot(image), t, IMAGE_ROOT_MAX);
    assert t in [t];
    var root := e.imageRoot(registry[t.digest]).value;
    if ValidateRoot(root) != Some(ImageManifest) {
      ManifestsReload(e, registry, s, app, image, ValidateRoot(root) == Some(SkopeoIndex), root.manifests.value);
    }
  }

  lemma {:induction false} ImagesReload(e: Env, registry: map<Digest, Bytes>, s: Store, app: Ref,
                                        services: seq<Service>)
    requires Honest(e, registry)
    requires LoadImages(e, Remote(registry), app, services).Ok?
    requires forall n :: n in LoadImages(e, Remote(registry), app, services).value ==>
      Begun(e, s, registry, n) && AllBegun(e, s, registry, n.children)
    ensures var images := LoadImages(e, Remote(registry), app, services);
      if RootsRead(s.blobs, images.value) then LoadImages(e, Local(s), app, services) == images
      else LoadImages(e, Local(s), app, services).Err?
  {
    if services != [] {
      var images := LoadImages(e, Remote(registry), app, services).value;
      assert images == [images[0]] + LoadImages(e, Remote(registry), app, services[1..]).value;
      ImageReload(e, registry, s, app, services[0].name, services[0].image.value);
      ImagesReload(e, registry, s, app, services[1..]);
      OneMoreRoot(s.blobs, images);
    }
  }

  lemma OneMoreRoot(blobs: map<Digest, Bytes>, images: seq<Node>)
    requires images != []
    ensures RootsRead(blobs, images) <==> RootsRead(blobs, [images[0]]) && RootsRead(blobs, images[1..])
  {
    assert images == [images[0]] + images[1..];
  }

  lemma BundleReload(e: Env, registry: map<Digest, Bytes>, s: Store, app: Ref, d: Desc, n: Node)
    requires n.digest == d.digest && n.size == d.size && Begun(e, s, registry, n)
    requires ReadProject(e, Remote(registry), app, d).Ok?
    ensures ReadProject(e, Local(s), app, d) == ReadProject(e, Remote(registry), app, d)
  {
    if s.blobs[d.digest] != registry[d.digest] {
      assert s.blobs[d.digest][..d.size] == registry[d.digest] == registry[d.digest][..d.size];
    }
  }

  /** Every node an app needs has its blob in the store, as the registry serves it or padded. */
  ghost predicate CoreBegun(e: Env, registry: map<Digest, Bytes>, s: Store, app: Ref, c: Core) {
    && Begun(e, s, registry, AppTree(e, Remote(registry), app, c)) && Begun(e, s, registry, c.bundle)
    && forall n :: n in c.bundle.children ==> Begun(e, s, registry, n) && AllBegun(e, s, registry, n.children)
  }

  /** Its manifest and its image roots can be read from the store, where these reads are limited. */
  predicate CoreReads(blobs: map<Digest, Bytes>, app: Ref, c: Core) {
    && c.size != APP_MANIFEST_MAX && (app.digest in blobs ==> |blobs[app.digest]| == c.size)
    && RootsRead(blobs, c.bundle.children)
  }

  /** An app whose tree was loaded from a registry, and whose blobs are all in the store, loads from the
      store exactly when neither its manifest nor an image root is padded or has the maximal size; then the
      store gives back the same mandatory part. */
  lemma CoreReload(e: Env, registry: map<Digest, Bytes>, s: Store, app: Ref)
    requires Honest(e, registry)
    requires LoadCore(e, Remote(registry), app).Ok?
    requires CoreBegun(e, registry, s, app, LoadCore(e, Remote(registry), app).value)
    ensures var c := LoadCore(e, Remote(registry), app).value;
      && (LoadCore(e, Local(s), app).Ok? <==> CoreReads(s.blobs, app, c))
      && (LoadCore(e, Local(s), app).Ok? ==> LoadCore(e, Local(s), app) == Ok(c))
  {
    var c := LoadCore(e, Remote(registry), app).value;
    LimitedReload(e, registry, s, app, ForManifest, AppTree(e, Remote(registry), app, c), APP_MANIFEST_MAX);
    var d := e.appDoc(registry[app.digest]).value.layers[0].desc;
    BundleReload(e, registry, s, app, d, c.bundle);
    ImagesReload(e, registry, s, app, ReadProject(e, Remote(registry), app, d).value);
  }

  /** In a tree from a registry the manifest and the image roots have the sizes of what was read. */
  lemma RemoteRootSizes(e: Env, registry: map<Digest, Bytes>, app: Ref)
    requires Honest(e, registry) && LoadCore(e, Remote(registry), app).Ok?
    ensures var c := LoadCore(e, Remote(registry), app).value;
      && app.digest in registry && |registry[app.digest]| == c.size
      && forall n :: n in c.bundle.children ==> n.digest in registry && |registry[n.digest]| == n.size
  {
    var c := LoadCore(e, Remote(registry), app).value;
    assert registry[app.digest][..|registry[app.digest]|] == registry[app.digest];
    var d := e.appDoc(registry[app.digest]).value.layers[0].desc;
    ImageRootSizes(e, registry, app, ReadProject(e, Remote(registry), app, d).value);
  }

  lemma {:induction false} ImageRootSizes(e: Env, registry: map<Digest, Bytes>, app: Ref, services: seq<Service>)
    requires Honest(e, registry) && LoadImages(e, Remote(registry), app, services).Ok?
    ensures forall n :: n in LoadImages(e, Remote(registry), app, services).value ==>
      n.digest in registry && |registry[n.digest]| == n.size
  {
    if services != [] {
      var images := LoadImages(e, Remote(registry), app, services).value;
      assert images == [images[0]] + LoadImages(e, Remote(registry), app, services[1..]).value;
      var b := registry[images[0].digest];
      assert b[..|b|] == b;
      ImageRootSizes(e, registry, app, services[1..]);
    }
  }
}
