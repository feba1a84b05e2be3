/** The report of an app's layers per architecture (pkg/compose/layers.go). */
module Layers {
  import opened Base

  /** A descriptor; `rest` stands for its fields other than these. */
  datatype LayerDesc = LayerDesc(mediaType: string, digest: Digest, size: int, rest: string)

  datatype ListEntry = ListEntry(arch: string, os: string, digest: Digest)

  /** What the registry serves for a service's image: a list of manifests, one manifest with the architecture
      of its config (None if that cannot be read), or something else. */
  datatype ImageDoc = ManifestList(entries: seq<ListEntry>) | SingleManifest(arch: Option<string>) | OtherDoc

  /** A service's image: its digest, and what the registry answers. Every service has a manifest service of
      its own, so the tables below are keyed by the service. `layers` gives the layers of a manifest. */
  datatype Image = Image(digest: Digest, doc: Option<ImageDoc>, layers: map<Digest, seq<LayerDesc>>)

  type Images = map<string, Image>
  type Table = map<string, map<string, Digest>>
  type Report = map<string, seq<LayerDesc>>

  predicate Allowed(archs: seq<string>, arch: string) {
    archs == [] || arch in archs
  }

  predicate Eligible(archs: seq<string>, entry: ListEntry) {
    Allowed(archs, entry.arch) && entry.os == "linux"
  }

  /** An entry of a manifest list that can be taken for the architecture. */
  predicate Serves(entry: ListEntry, archs: seq<string>, arch: string) {
    entry.arch == arch && entry.os == "linux" && (archs == [] || arch in archs)
  }

  /** The image's manifest for an architecture: from a list, that of the last entry that serves it; a single
      manifest, if its config names the architecture. */
  ghost predicate Picks(image: Image, archs: seq<string>, arch: string, d: Digest) {
    match image.doc
    case Some(ManifestList(entries)) =>
      (exists i :: 0 <= i < |entries| && Serves(entries[i], archs, arch) && entries[i].digest == d
        && forall j :: i < j < |entries| ==> !Serves(entries[j], archs, arch))
    case Some(SingleManifest(a)) => a == Some(arch) && d == image.digest
    case _ => false
  }

  /** The image has a manifest for the architecture. */
  ghost predicate HasManifest(image: Image, archs: seq<string>, arch: string) {
    match image.doc
    case Some(ManifestList(entries)) => (exists i :: 0 <= i < |entries| && Serves(entries[i], archs, arch))
    case Some(SingleManifest(a)) => a == Some(arch)
    case _ => false
  }

  lemma {:induction false} LastForExactly(entries: seq<ListEntry>, archs: seq<string>, arch: string) returns (i: int)
    ensures LastFor(entries, archs, arch) == None ==>
      i == -1 && forall j :: 0 <= j < |entries| ==> !Serves(entries[j], archs, arch)
    ensures LastFor(entries, archs, arch).Some? ==>
      && 0 <= i < |entries| && Serves(entries[i], archs, arch)
      && LastFor(entries, archs, arch) == Some(entries[i].digest)
      && forall j :: i < j < |entries| ==> !Serves(entries[j], archs, arch)
  {
    if entries == [] {
      i := -1;
    } else {
      var n := |entries| - 1;
      if Serves(entries[n], archs, arch) {
        i := n;
      } else {
        i := LastForExactly(entries[..n], archs, arch);
        assert forall j :: 0 <= j < n ==> entries[..n][j] == entries[j];
      }
    }
  }

  /** The choice of manifests is right. */
  lemma ChosenExactly(image: Image, archs: seq<string>, arch: string)
    requires Readable(image)
    ensures forall d :: Chosen(image, archs, arch) == Some(d) <==> Picks(image, archs, arch, d)
    ensures Chosen(image, archs, arch).Some? <==> HasManifest(image, archs, arch)
  {
    if image.doc.value.ManifestList? {
      var entries := image.doc.value.entries;
      var i := LastForExactly(entries, archs, arch);
      forall d | Picks(image, archs, arch, d) ensures Chosen(image, archs, arch) == Some(d) {
        var k :| 0 <= k < |entries| && Serves(entries[k], archs, arch) && entries[k].digest == d
          && forall j :: k < j < |entries| ==> !Serves(entries[j], archs, arch);
        assert k == i;
      }
    }
  }

  /** The last eligible manifest of an architecture in a list. */
  function LastFor(entries: seq<ListEntry>, archs: seq<string>, arch: string): Option<Digest> {
    if entries == [] then None
    else
      var last := entries[|entries| - 1];
      if last.arch == arch && Eligible(archs, last) then Some(last.digest)
        else LastFor(entries[..|entries| - 1], archs, arch)
  }

  /** The image root can be used at all. */
  predicate Readable(image: Image) {
    match image.doc
    case Some(ManifestList(_)) => true
    case Some(SingleManifest(arch)) => arch.Some?
    case _ => false
  }

  /** The manifest chosen for an architecture. */
  function Chosen(image: Image, archs: seq<string>, arch: string): Option<Digest>
    requires Readable(image)
  {
    match image.doc.value
    case ManifestList(entries) => LastFor(entries, archs, arch)
    case SingleManifest(a) => if a == Some(arch) then Some(image.digest) else None
  }

  predicate AllReadable(images: Images) {
    forall svc :: svc in images ==> Readable(images[svc])
  }

  /** An architecture is reported when it is allowed and every service has a manifest for it. */
  predicate Reported(images: Images, archs: seq<string>, arch: string)
    requires AllReadable(images)
  {
    images != map[] && Allowed(archs, arch) && forall svc :: svc in images ==> Chosen(images[svc], archs, arch).Some?
  }

  /** The manifests chosen for an architecture can all be read. */
  predicate LayersKnown(images: Images, archs: seq<string>, arch: string)
    requires AllReadable(images) && Reported(images, archs, arch)
  {
    forall svc :: svc in images ==> Chosen(images[svc], archs, arch).value in images[svc].layers
  }

  // ---------- The order of hashes ----------

  predicate Before(a: string, b: string) {
    b != "" && (a == "" || a[0] < b[0] || (a[0] == b[0] && Before(a[1..], b[1..])))
  }

  lemma {:induction false} BeforeTransitive(a: string, b: string, c: string)
    requires Before(a, b) && Before(b, c)
    ensures Before(a, c)
  {
    if a != "" && a[0] == b[0] && b[0] == c[0] {
      BeforeTransitive(a[1..], b[1..], c[1..]);
    }
  }

  lemma {:induction false} BeforeTotal(a: string, b: string)
    ensures !(Before(a, b) && Before(b, a)) && (Before(a, b) || Before(b, a) || a == b)
    ensures !Before(a, a)
    decreases |a| + |b|
  {
    if a != "" && b != "" {
      BeforeTotal(a[1..], b[1..]);
      assert a == [a[0]] + a[1..] && b == [b[0]] + b[1..];
    }
    if a != "" {
      BeforeTotal(a[1..], "");
    }
  }

  /** The order is that of bytes from the left: a prefix comes first, else the first difference decides. */
  lemma {:induction false} BeforeExactly(a: string, b: string)
    ensures Before(a, b) <==>
      exists k :: 0 <= k <= |a| && k < |b| && a[..k] == b[..k] && (k == |a| || a[k] < b[k])
  {
    if b != "" && a != "" && a[0] == b[0] {
      BeforeExactly(a[1..], b[1..]);
      if k :| (0 <= k <= |a[1..]| && k < |b[1..]| && a[1..][..k] == b[1..][..k]
               && (k == |a[1..]| || a[1..][k] < b[1..][k])) {
        assert a[..k + 1] == [a[0]] + a[1..][..k] && b[..k + 1] == [b[0]] + b[1..][..k];
      }
      if k :| 0 <= k <= |a| && k < |b| && a[..k] == b[..k] && (k == |a| || a[k] < b[k]) {
        assert k > 0;
        assert a[1..][..k - 1] == a[..k][1..] && b[1..][..k - 1] == b[..k][1..];
      }
    } else if b != "" {
      assert a[..0] == b[..0];
      if k :| 0 <= k <= |a| && k < |b| && a[..k] == b[..k] && (k == |a| || a[k] < b[k]) {
        if k > 0 {
          assert a[..k][0] == b[..k][0];
        }
      }
    }
  }

  predicate Increasing(s: seq<string>) {
    forall i, j :: 0 <= i < j < |s| ==> Before(s[i], s[j])
  }

  function Hashes(layers: seq<LayerDesc>): seq<string> {
    seq(|layers|, i requires 0 <= i < |layers| => layers[i].digest)
  }

  /** Two increasing sequences of the same strings are the same. */
  lemma {:induction false} IncreasingUnique(a: seq<string>, b: seq<string>)
    requires Increasing(a) && Increasing(b) && Elems(a) == Elems(b)
    ensures a == b
    decreases |a|
  {
    NoElems(a);
    NoElems(b);
    if a != [] {
      assert a[0] in Elems(a) && b[0] in Elems(b);
      var i :| 0 <= i < |b| && b[i] == a[0];
      var j :| 0 <= j < |a| && a[j] == b[0];
      BeforeTotal(a[0], b[0]);
      assert a[0] == b[0];
      TailElems(a);
      TailElems(b);
      IncreasingUnique(a[1..], b[1..]);
    }
  }

  lemma NoElems(s: seq<string>)
    ensures Elems(s) == {} <==> s == []
  {
    if s != [] {
      assert s[0] in Elems(s);
    }
  }

  lemma TailElems(s: seq<string>)
    requires Increasing(s) && s != []
    ensures Increasing(s[1..]) && Elems(s[1..]) == Elems(s) - {s[0]}
  {
    forall x ensures x in Elems(s[1..]) <==> x in Elems(s) - {s[0]} {
      if x in s[1..] {
        var i :| 0 <= i < |s[1..]| && s[1..][i] == x;
        assert s[i + 1] == x;
        BeforeTotal(s[0], x);
      }
    }
  }

  // ---------- Collecting manifests ----------

  function Get(table: Table, arch: string, svc: string): Option<Digest> {
    if arch in table && svc in table[arch] then Some(table[arch][svc]) else None
  }

  predicate RowsFilled(table: Table) {
    forall arch :: arch in table ==> table[arch] != map[]
  }

  function Put(table: Table, arch: string, svc: string, d: Digest): (put: Table)
    ensures forall a, s :: Get(put, a, s) == if a == arch && s == svc then Some(d) else Get(table, a, s)
    ensures RowsFilled(table) ==> RowsFilled(put)
  {
    assert svc in (if arch in table then table[arch] else map[])[svc := d];
    table[arch := (if arch in table then table[arch] else map[])[svc := d]]
  }

  /** The entries of one list, put into the table one after another. */
  method PutList(table: Table, svc: string, entries: seq<ListEntry>, archs: seq<string>) returns (table': Table)
    requires RowsFilled(table) && forall arch :: Get(table, arch, svc) == None
    ensures RowsFilled(table')
    ensures forall arch, other ::
        Get(table', arch, other) == if other == svc then LastFor(entries, archs, arch) else Get(table, arch, other)
  {
    table' := table;
    for i := 0 to |entries|
      invariant RowsFilled(table')
      invariant forall arch, other ::
        Get(table', arch, other) == if other == svc then LastFor(entries[..i], archs, arch) else Get(table, arch, other)
    {
      assert entries[..i + 1][..i] == entries[..i];
      if Eligible(archs, entries[i]) {
        table' := Put(table', entries[i].arch, svc, entries[i].digest);
      }
    }
    assert entries[..|entries|] == entries;
  }

  /** The table holds exactly the choices of the services looked at. */
  ghost predicate Holds(table: Table, images: Images, archs: seq<string>, done: set<string>)
    requires done <= images.Keys && forall svc :: svc in done ==> Readable(images[svc])
  {
    RowsFilled(table)
    && forall arch, svc :: Get(table, arch, svc) == if svc in done then Chosen(images[svc], archs, arch) else None
  }

  /** The contribution of one service. */
  method CollectOne(table: Table, image: Image, svc: string, archs: seq<string>) returns (r: Option<Table>)
    requires RowsFilled(table) && forall arch :: Get(table, arch, svc) == None
    ensures r.Some? <==> Readable(image)
    ensures r.Some? ==> RowsFilled(r.value)
    ensures r.Some? ==> forall arch, other ::
        Get(r.value, arch, other) == if other == svc then Chosen(image, archs, arch) else Get(table, arch, other)
  {
    match image.doc {
      case Some(ManifestList(entries)) =>
        var table' := PutList(table, svc, entries, archs);
        r := Some(table');
      case Some(SingleManifest(Some(arch))) =>
        r := Some(Put(table, arch, svc, image.digest));
      case _ =>
        r := None;
    }
  }

  /** All images, in any order; None if one of them cannot be read. */
  method Collect(images: Images, archs: seq<string>) returns (r: Option<Table>)
    ensures r.Some? <==> AllReadable(images)
    ensures r.Some? ==> Holds(r.value, images, archs, images.Keys)
    ensures r.Some? ==> forall arch, svc, d ::
        Get(r.value, arch, svc) == Some(d) <==> svc in images && Picks(images[svc], archs, arch, d)
  {
    var table: Table, todo := map[], images.Keys;
    ghost var done: set<string> := {};
    while todo != {}
      invariant todo !! done && todo + done == images.Keys
      invariant forall svc :: svc in done ==> Readable(images[svc])
      invariant Holds(table, images, archs, done)
      decreases todo
    {
      var svc :| svc in todo;
      var put := CollectOne(table, images[svc], svc, archs);
      if put.None? {
        return None;
      }
      table := put.value;
      todo, done := todo - {svc}, done + {svc};
    }
    assert done == images.Keys;
    HoldsExactly(table, images, archs);
    r := Some(table);
  }

  lemma HoldsExactly(table: Table, images: Images, archs: seq<string>)
    requires AllReadable(images) && Holds(table, images, archs, images.Keys)
    ensures forall arch, svc, d ::
        Get(table, arch, svc) == Some(d) <==> svc in images && Picks(images[svc], archs, arch, d)
  {
    forall arch, svc, d
      ensures Get(table, arch, svc) == Some(d) <==> svc in images && Picks(images[svc], archs, arch, d)
    {
      if svc in images {
        ChosenExactly(images[svc], archs, arch);
      }
    }
  }

  /** An architecture is reported exactly when it is allowed and every service's image has a manifest for it. */
  lemma ReportedExactly(images: Images, archs: seq<string>, arch: string)
    requires AllReadable(images)
    ensures Reported(images, archs, arch) <==>
      && images != map[] && (archs == [] || arch in archs)
      && forall svc :: svc in images ==> HasManifest(images[svc], archs, arch)
  {
    forall svc | svc in images
      ensures Chosen(images[svc], archs, arch).Some? <==> HasManifest(images[svc], archs, arch)
    {
      ChosenExactly(images[svc], archs, arch);
    }
  }

  /** A row is complete exactly when it has as many entries as there are services. */
  lemma FullRow(table: Table, images: Images, archs: seq<string>, arch: string)
    requires AllReadable(images) && Holds(table, images, archs, images.Keys)
    ensures arch in table && |table[arch]| == |images| && Allowed(archs, arch) <==> Reported(images, archs, arch)
    ensures Reported(images, archs, arch) ==> table[arch].Keys == images.Keys
    ensures Reported(images, archs, arch) ==> forall svc :: svc in images ==>
      table[arch][svc] == Chosen(images[svc], archs, arch).value
  {
    forall svc ensures Get(table, arch, svc) == if svc in images then Chosen(images[svc], archs, arch) else None {
    }
    if Reported(images, archs, arch) {
      var svc :| svc in images;
      assert Get(table, arch, svc).Some?;
      forall x ensures x in table[arch].Keys <==> x in images.Keys {
        assert Get(table, arch, x).Some? <==> x in table[arch];
      }
      assert table[arch].Keys == images.Keys;
      assert |table[arch].Keys| == |table[arch]| && |images.Keys| == |images|;
    } else if arch in table && |table[arch]| == |images| {
      forall x | x in table[arch].Keys ensures x in images.Keys {
        assert Get(table, arch, x).Some?;
      }
      SubsetOfSameSize(table[arch].Keys, images.Keys);
      assert images != map[];
    }
  }

  lemma {:induction false} SubsetOfSameSize(a: set<string>, b: set<string>)
    requires a <= b && |a| == |b|
    ensures a == b
  {
    if b - a != {} {
      var x :| x in b - a;
      assert a <= b - {x};
      SubsetSize(a, b - {x});
    }
  }

  lemma {:induction false} SubsetSize(a: set<string>, b: set<string>)
    requires a <= b
    ensures |a| <= |b|
    decreases a
  {
    if a != {} {
      var x :| x in a;
      SubsetSize(a - {x}, b - {x});
    }
  }

  // ---------- Collecting and sorting layers ----------

  /** The layers found so far, by hash, come from the given layers, and every one of those has its hash there. */
  predicate Covers(found: map<Digest, LayerDesc>, layers: set<LayerDesc>) {
    && (forall h :: h in found ==> found[h].digest == h && found[h] in layers)
    && (forall l :: l in layers ==> l.digest in found)
  }

  function RowLayers(images: Images, row: map<string, Digest>, done: set<string>): set<LayerDesc>
    requires done <= row.Keys <= images.Keys
    requires forall svc :: svc in done ==> row[svc] in images[svc].layers
  {
    set svc, l | svc in done && l in images[svc].layers[row[svc]] :: l
  }

  /** The layers of a manifest laid over those found so far; of several with one digest the last stays. */
  function Overlaid(found: map<Digest, LayerDesc>, layers: seq<LayerDesc>): map<Digest, LayerDesc> {
    if layers == [] then found
    else
      var last := layers[|layers| - 1];
      Overlaid(found, layers[..|layers| - 1])[last.digest := last]
  }

  /** All manifests of a row can be read. */
  predicate RowKnown(images: Images, row: map<string, Digest>) {
    forall svc :: svc in row ==> svc in images && row[svc] in images[svc].layers
  }

  /** What a row of manifests yields when they are looked at in the given order. */
  function Merged(images: Images, row: map<string, Digest>, order: seq<string>): map<Digest, LayerDesc>
    requires RowKnown(images, row) && Elems(order) <= row.Keys
  {
    if order == [] then map[]
    else
      var n := |order| - 1;
      assert order[n] in Elems(order) && Elems(order[..n]) <= Elems(order);
      Overlaid(Merged(images, row, order[..n]), images[order[n]].layers[row[order[n]]])
  }

  predicate OrderOf(order: seq<string>, keys: set<string>) {
    Elems(order) == keys && forall i, j :: 0 <= i < j < |order| ==> order[i] != order[j]
  }

  method AddLayers(found: map<Digest, LayerDesc>, layers: seq<LayerDesc>, ghost have: set<LayerDesc>)
    returns (found': map<Digest, LayerDesc>)
    requires Covers(found, have)
    ensures Covers(found', have + Elems(layers)) && found' == Overlaid(found, layers)
  {
    found' := found;
    for i := 0 to |layers|
      invariant Covers(found', have + Elems(layers[..i])) && found' == Overlaid(found, layers[..i])
    {
      assert layers[..i + 1][..i] == layers[..i];
      found' := found'[layers[i].digest := layers[i]];
      assert Elems(layers[..i + 1]) == Elems(layers[..i]) + {layers[i]};
    }
    assert layers[..|layers|] == layers;
  }

  /** The layers of one row, over its manifests in any order; None if one of them cannot be read. */
  method RowFound(images: Images, row: map<string, Digest>)
    returns (r: Option<map<Digest, LayerDesc>>, ghost order: seq<string>)
    requires row.Keys <= images.Keys
    ensures r.Some? <==> RowKnown(images, row)
    ensures r.Some? ==> Covers(r.value, RowLayers(images, row, row.Keys))
    ensures r.Some? ==> OrderOf(order, row.Keys) && r.value == Merged(images, row, order)
  {
    var found: map<Digest, LayerDesc>, todo := map[], row.Keys;
    order := [];
    while todo != {}
      invariant todo !! Elems(order) && todo + Elems(order) == row.Keys && OrderOf(order, Elems(order))
      invariant forall svc :: svc in order ==> row[svc] in images[svc].layers
      invariant Covers(found, RowLayers(images, row, Elems(order)))
      invariant found == MergedSoFar(images, row, order)
      decreases todo
    {
      var svc :| svc in todo;
      if row[svc] !in images[svc].layers {
        return None, [];
      }
      found := AddLayers(found, images[svc].layers[row[svc]], RowLayers(images, row, Elems(order)));
      OneMoreManifest(images, row, order, svc);
      todo, order := todo - {svc}, order + [svc];
    }
    MergedAll(images, row, order);
    r := Some(found);
  }

  /** The row restricted to the manifests looked at. */
  function MergedSoFar(images: Images, row: map<string, Digest>, order: seq<string>): map<Digest, LayerDesc>
    requires row.Keys <= images.Keys && Elems(order) <= row.Keys
    requires forall svc :: svc in order ==> row[svc] in images[svc].layers
  {
    Merged(images, map svc | svc in order :: row[svc], order)
  }

  lemma OneMoreManifest(images: Images, row: map<string, Digest>, order: seq<string>, svc: string)
    requires row.Keys <= images.Keys && Elems(order) <= row.Keys && svc in row && svc !in order
    requires forall x :: x in order + [svc] ==> row[x] in images[x].layers
    ensures Elems(order + [svc]) == Elems(order) + {svc}
    ensures RowLayers(images, row, Elems(order + [svc])) ==
      RowLayers(images, row, Elems(order)) + Elems(images[svc].layers[row[svc]])
    ensures MergedSoFar(images, row, order + [svc])
         == Overlaid(MergedSoFar(images, row, order), images[svc].layers[row[svc]])
  {
    assert Elems(order + [svc]) == Elems(order) + {svc};
    assert (order + [svc])[..|order|] == order;
    MergedOfSubrow(images, map x | x in order + [svc] :: row[x], map x | x in order :: row[x], order);
  }

  lemma {:induction false} MergedOfSubrow(images: Images, row: map<string, Digest>, sub: map<string, Digest>,
                                          order: seq<string>)
    requires RowKnown(images, row) && RowKnown(images, sub) && Elems(order) <= sub.Keys <= row.Keys
    requires forall svc :: svc in sub ==> sub[svc] == row[svc]
    ensures Merged(images, row, order) == Merged(images, sub, order)
  {
    if order != [] {
      var n := |order| - 1;
      assert order[n] in Elems(order) && Elems(order[..n]) <= Elems(order);
      MergedOfSubrow(images, row, sub, order[..n]);
    }
  }

  lemma MergedAll(images: Images, row: map<string, Digest>, order: seq<string>)
    requires row.Keys <= images.Keys && Elems(order) == row.Keys
    requires forall svc :: svc in order ==> row[svc] in images[svc].layers
    ensures RowKnown(images, row) && MergedSoFar(images, row, order) == Merged(images, row, order)
  {
    forall svc | svc in row ensures row[svc] in images[svc].layers {
      assert svc in Elems(order);
    }
    assert (map svc | svc in order :: row[svc]) == row;
  }

  /** Sorting distinct strings, by insertion. */
  method SortStrings(unsorted: set<string>) returns (sorted: seq<string>)
    ensures Increasing(sorted) && Elems(sorted) == unsorted
  {
    sorted := [];
    var todo := unsorted;
    while todo != {}
      invariant todo <= unsorted && Increasing(sorted) && Elems(sorted) == unsorted - todo
      decreases todo
    {
      var x :| x in todo;
      sorted := Insert(sorted, x);
      todo := todo - {x};
    }
  }

  method Insert(sorted: seq<string>, x: string) returns (grown: seq<string>)
    requires Increasing(sorted) && x !in sorted
    ensures Increasing(grown) && Elems(grown) == Elems(sorted) + {x}
  {
    var k := 0;
    while k < |sorted| && Before(sorted[k], x)
      invariant k <= |sorted| && forall i :: 0 <= i < k ==> Before(sorted[i], x)
    {
      k := k + 1;
    }
    forall i | k <= i < |sorted| ensures Before(x, sorted[i]) {
      BeforeTotal(x, sorted[k]);
      assert Before(x, sorted[k]);
      if i > k {
        BeforeTransitive(x, sorted[k], sorted[i]);
      }
    }
    grown := sorted[..k] + [x] + sorted[k..];
    assert sorted == sorted[..k] + sorted[k..];
  }

  /** The layers found, in the order of their hashes. */
  ghost predicate Lists(sorted: seq<LayerDesc>, found: map<Digest, LayerDesc>) {
    && Increasing(Hashes(sorted)) && Elems(Hashes(sorted)) == found.Keys
    && forall l :: l in sorted ==> l.digest in found && found[l.digest] == l
  }

  method SortLayers(found: map<Digest, LayerDesc>, ghost layers: set<LayerDesc>) returns (sorted: seq<LayerDesc>)
    requires Covers(found, layers)
    ensures Lists(sorted, found)
    ensures Elems(Hashes(sorted)) == set l | l in layers :: l.digest
    ensures forall l :: l in sorted ==> l in layers
  {
    var hashes := SortStrings(found.Keys);
    sorted := [];
    for i := 0 to |hashes|
      invariant Hashes(sorted) == hashes[..i]
      invariant forall l :: l in sorted ==> l in layers && l.digest in found && found[l.digest] == l
    {
      assert hashes[i] in Elems(hashes);
      sorted := sorted + [found[hashes[i]]];
      assert Hashes(sorted) == hashes[..i] + [hashes[i]];
    }
    assert hashes[..|hashes|] == hashes;
  }

  /** The layers chosen for a reported architecture. */
  function ArchLayers(images: Images, archs: seq<string>, arch: string): set<LayerDesc>
    requires AllReadable(images) && Reported(images, archs, arch) && LayersKnown(images, archs, arch)
  {
    set svc, l | svc in images && l in images[svc].layers[Chosen(images[svc], archs, arch).value] :: l
  }

  /** The manifests chosen for a reported architecture. */
  function RowOf(images: Images, archs: seq<string>, arch: string): map<string, Digest>
    requires AllReadable(images) && Reported(images, archs, arch)
  {
    map svc | svc in images :: Chosen(images[svc], archs, arch).value
  }

  /** What is reported comes from looking at the manifests of a row in some order. */
  ghost predicate ComesFrom(images: Images, row: map<string, Digest>, layers: seq<LayerDesc>) {
    RowKnown(images, row) && exists order :: OrderOf(order, row.Keys) && Lists(layers, Merged(images, row, order))
  }

  /** What is promised of a reported architecture: the hashes of all layers of the chosen manifests, in increasing
      order, with descriptors as some order of the manifests leaves them. */
  ghost predicate ReportsRightly(images: Images, archs: seq<string>, arch: string, layers: seq<LayerDesc>)
    requires AllReadable(images) && Reported(images, archs, arch)
  {
    && LayersKnown(images, archs, arch)
    && Increasing(Hashes(layers))
    && Elems(Hashes(layers)) == (set l | l in ArchLayers(images, archs, arch) :: l.digest)
    && (forall l :: l in layers ==> l in ArchLayers(images, archs, arch))
    && ComesFrom(images, RowOf(images, archs, arch), layers)
  }

  /** The layers of one reported architecture. */
  method ReportArch(images: Images, archs: seq<string>, arch: string, row: map<string, Digest>)
    returns (r: Option<seq<LayerDesc>>)
    requires AllReadable(images) && Reported(images, archs, arch) && row == RowOf(images, archs, arch)
    ensures r.Some? <==> LayersKnown(images, archs, arch)
    ensures r.Some? ==> ReportsRightly(images, archs, arch, r.value)
  {
    var found;
    ghost var order;
    found, order := RowFound(images, row);
    if found.None? {
      assert !LayersKnown(images, archs, arch);
      return None;
    }
    assert RowLayers(images, row, row.Keys) == ArchLayers(images, archs, arch);
    var sorted := SortLayers(found.value, ArchLayers(images, archs, arch));
    r := Some(sorted);
  }

  /** One row of the table: whether it could be read as far as needed, and its layers if it is reported. */
  method ReportRow(images: Images, archs: seq<string>, table: Table, arch: string)
    returns (ok: bool, layers: Option<seq<LayerDesc>>)
    requires AllReadable(images) && Holds(table, images, archs, images.Keys) && arch in table
    ensures !ok ==> Reported(images, archs, arch) && !LayersKnown(images, archs, arch)
    ensures ok ==> (layers.Some? <==> Reported(images, archs, arch))
    ensures ok && layers.Some? ==> ReportsRightly(images, archs, arch, layers.value)
  {
    FullRow(table, images, archs, arch);
    if |table[arch]| != |images| || !Allowed(archs, arch) {
      return true, None;
    }
    assert table[arch] == RowOf(images, archs, arch);
    layers := ReportArch(images, archs, arch, table[arch]);
    ok := layers.Some?;
  }

  /** The whole report, over images, architectures and manifests in any order: it fails exactly when an image
      or a manifest needed for a reported architecture cannot be read; otherwise it reports rightly exactly the
      allowed architectures for which every service has a manifest. */
  method GetAppLayers(images: Images, archs: seq<string>) returns (r: Option<Report>)
    ensures r.Some? <==>
      AllReadable(images) && forall arch :: Reported(images, archs, arch) ==> LayersKnown(images, archs, arch)
    ensures r.Some? ==> forall arch :: arch in r.value <==> Reported(images, archs, arch)
    ensures r.Some? ==> forall arch :: arch in r.value <==>
      && images != map[] && (archs == [] || arch in archs)
      && forall svc :: svc in images ==> HasManifest(images[svc], archs, arch)
    ensures r.Some? ==> forall arch :: arch in r.value ==> ReportsRightly(images, archs, arch, r.value[arch])
  {
    var collected := Collect(images, archs);
    if collected.None? {
      return None;
    }
    var table := collected.value;
    var report: Report, todo := map[], table.Keys;
    while todo != {}
      invariant todo <= table.Keys
      invariant forall arch :: arch in report <==> arch in table.Keys - todo && Reported(images, archs, arch)
      invariant forall arch :: arch in report ==> ReportsRightly(images, archs, arch, report[arch])
      decreases todo
    {
      var arch :| arch in todo;
      var ok, layers := ReportRow(images, archs, table, arch);
      if !ok {
        return None;
      }
      if layers.Some? {
        report := report[arch := layers.value];
      }
      todo := todo - {arch};
    }
    forall arch | Reported(images, archs, arch) ensures arch in report && LayersKnown(images, archs, arch) {
      FullRow(table, images, archs, arch);
      assert ReportsRightly(images, archs, arch, report[arch]);
    }
    forall arch {
      ReportedExactly(images, archs, arch);
    }
    r := Some(report);
  }

  /** So the reported hashes do not depend on any order of iteration: two reports with the promised properties
      list the same hashes in the same order. */
  lemma ReportIsDetermined(images: Images, archs: seq<string>, arch: string, a: seq<LayerDesc>, b: seq<LayerDesc>)
    requires AllReadable(images) && Reported(images, archs, arch) && LayersKnown(images, archs, arch)
    requires Increasing(Hashes(a)) && Elems(Hashes(a)) == (set l | l in ArchLayers(images, archs, arch) :: l.digest)
    requires Increasing(Hashes(b)) && Elems(Hashes(b)) == (set l | l in ArchLayers(images, archs, arch) :: l.digest)
    ensures Hashes(a) == Hashes(b)
  {
    IncreasingUnique(Hashes(a), Hashes(b));
  }

  // ---------- What depends on the order ----------

  /** The last layer of a digest in a manifest: the one that stays. */
  function LastWith(layers: seq<LayerDesc>, h: Digest): Option<LayerDesc> {
    if layers == [] then None
    else if layers[|layers| - 1].digest == h then Some(layers[|layers| - 1])
    else LastWith(layers[..|layers| - 1], h)
  }

  lemma {:induction false} OverlaidAt(found: map<Digest, LayerDesc>, layers: seq<LayerDesc>, h: Digest)
    ensures h in Overlaid(found, layers) <==> h in found || LastWith(layers, h).Some?
    ensures h in Overlaid(found, layers) ==>
      Overlaid(found, layers)[h] == if LastWith(layers, h).Some? then LastWith(layers, h).value else found[h]
  {
    if layers != [] {
      OverlaidAt(found, layers[..|layers| - 1], h);
    }
  }

  function LayersOf(images: Images, row: map<string, Digest>, svc: string): seq<LayerDesc>
    requires RowKnown(images, row) && svc in row
  {
    images[svc].layers[row[svc]]
  }

  /** The manifests of a row give each digest they share one descriptor. */
  ghost predicate Agree(images: Images, row: map<string, Digest>)
    requires RowKnown(images, row)
  {
    forall svc, other, h ::
      (svc in row && other in row
       && LastWith(LayersOf(images, row, svc), h).Some? && LastWith(LayersOf(images, row, other), h).Some?) ==>
        LastWith(LayersOf(images, row, svc), h) == LastWith(LayersOf(images, row, other), h)
  }

  /** A digest is found when some manifest has it, with the descriptor of the last such manifest in the order. */
  lemma {:induction false} MergedAt(images: Images, row: map<string, Digest>, order: seq<string>, h: Digest)
    requires RowKnown(images, row) && Elems(order) <= row.Keys
    ensures h in Merged(images, row, order) <==>
      exists svc :: svc in order && svc in row && LastWith(LayersOf(images, row, svc), h).Some?
    ensures h in Merged(images, row, order) ==>
      exists svc :: svc in order && svc in row
        && LastWith(LayersOf(images, row, svc), h) == Some(Merged(images, row, order)[h])
  {
    if order != [] {
      var n := |order| - 1;
      assert order[n] in Elems(order) && Elems(order[..n]) <= Elems(order);
      assert order == order[..n] + [order[n]];
      MergedAt(images, row, order[..n], h);
      OverlaidAt(Merged(images, row, order[..n]), LayersOf(images, row, order[n]), h);
    }
  }

  lemma AgreeingOrders(images: Images, row: map<string, Digest>, a: seq<string>, b: seq<string>)
    requires RowKnown(images, row) && Agree(images, row) && OrderOf(a, row.Keys) && OrderOf(b, row.Keys)
    ensures Merged(images, row, a) == Merged(images, row, b)
  {
    var x, y := Merged(images, row, a), Merged(images, row, b);
    forall svc ensures svc in a <==> svc in b {
      assert svc in a <==> svc in Elems(a);
      assert svc in b <==> svc in Elems(b);
    }
    forall h ensures h in x <==> h in y {
      MergedAt(images, row, a, h);
      MergedAt(images, row, b, h);
    }
    assert x.Keys == y.Keys;
    forall h | h in x ensures x[h] == y[h] {
      MergedAt(images, row, a, h);
      MergedAt(images, row, b, h);
    }
  }

  lemma {:induction false} SomeOrder(keys: set<string>) returns (order: seq<string>)
    ensures OrderOf(order, keys)
    decreases keys
  {
    if keys == {} {
      order := [];
    } else {
      var x :| x in keys;
      var rest := SomeOrder(keys - {x});
      assert x !in Elems(rest);
      order := rest + [x];
      assert Elems(order) == Elems(rest) + {x};
    }
  }

  /** An order that looks at the given manifest last, so that its descriptors stay. */
  lemma OrderEndingIn(images: Images, row: map<string, Digest>, svc: string, h: Digest) returns (order: seq<string>)
    requires RowKnown(images, row) && svc in row && LastWith(LayersOf(images, row, svc), h).Some?
    ensures OrderOf(order, row.Keys) && h in Merged(images, row, order)
    ensures Some(Merged(images, row, order)[h]) == LastWith(LayersOf(images, row, svc), h)
  {
    var rest := SomeOrder(row.Keys - {svc});
    assert svc !in Elems(rest);
    order := rest + [svc];
    assert Elems(order) == Elems(rest) + {svc};
    assert order[..|rest|] == rest;
    OverlaidAt(Merged(images, row, rest), LayersOf(images, row, svc), h);
  }

  /** Where manifests disagree on a digest, it depends on the order which descriptor stays. */
  lemma DifferentOrders(images: Images, row: map<string, Digest>) returns (a: seq<string>, b: seq<string>)
    requires RowKnown(images, row) && !Agree(images, row)
    ensures OrderOf(a, row.Keys) && OrderOf(b, row.Keys) && Merged(images, row, a) != Merged(images, row, b)
  {
    var svc, other, h :| svc in row && other in row
      && LastWith(LayersOf(images, row, svc), h).Some? && LastWith(LayersOf(images, row, other), h).Some?
      && LastWith(LayersOf(images, row, svc), h) != LastWith(LayersOf(images, row, other), h);
    a := OrderEndingIn(images, row, svc, h);
    b := OrderEndingIn(images, row, other, h);
  }

  /** Two reports are the same exactly when the layers found for them are. */
  lemma ListsExactly(a: seq<LayerDesc>, b: seq<LayerDesc>, found: map<Digest, LayerDesc>, other: map<Digest, LayerDesc>)
    requires Lists(a, found) && Lists(b, other)
    ensures a == b <==> found == other
  {
    if found == other {
      IncreasingUnique(Hashes(a), Hashes(b));
      assert |a| == |Hashes(a)| == |b|;
      forall i | 0 <= i < |a| ensures a[i] == b[i] {
        assert Hashes(a)[i] == Hashes(b)[i] && a[i] in a && b[i] in b;
      }
    }
    if a == b {
      assert found.Keys == other.Keys;
      forall h | h in found ensures found[h] == other[h] {
        assert h in Elems(Hashes(a));
        var i :| 0 <= i < |a| && Hashes(a)[i] == h;
        assert a[i] in a;
      }
    }
  }

  function Inserted(sorted: seq<string>, x: string): seq<string> {
    if sorted == [] || !Before(sorted[0], x) then [x] + sorted else [sorted[0]] + Inserted(sorted[1..], x)
  }

  lemma {:induction false} InsertedIncreases(sorted: seq<string>, x: string)
    requires Increasing(sorted) && x !in sorted
    ensures Increasing(Inserted(sorted, x)) && Elems(Inserted(sorted, x)) == Elems(sorted) + {x}
  {
    var grown := Inserted(sorted, x);
    if sorted == [] {
    } else if !Before(sorted[0], x) {
      BeforeTotal(x, sorted[0]);
      forall i, j | 0 <= i < j < |grown| ensures Before(grown[i], grown[j]) {
        if i == 0 && j > 1 {
          BeforeTransitive(x, sorted[0], sorted[j - 1]);
        }
      }
    } else {
      var rest := Inserted(sorted[1..], x);
      InsertedIncreases(sorted[1..], x);
      assert sorted == [sorted[0]] + sorted[1..] && grown == [sorted[0]] + rest;
      forall i, j | 0 <= i < j < |grown| ensures Before(grown[i], grown[j]) {
        if i == 0 {
          assert grown[j] == rest[j - 1] && rest[j - 1] in Elems(rest);
        } else {
          assert grown[i] == rest[i - 1] && grown[j] == rest[j - 1];
        }
      }
    }
  }

  lemma {:induction false} SomeIncreasing(keys: set<string>) returns (sorted: seq<string>)
    ensures Increasing(sorted) && Elems(sorted) == keys
    decreases keys
  {
    if keys == {} {
      sorted := [];
    } else {
      var x :| x in keys;
      var rest := SomeIncreasing(keys - {x});
      assert x !in Elems(rest);
      InsertedIncreases(rest, x);
      sorted := Inserted(rest, x);
    }
  }

  /** Whatever was found can be listed. */
  lemma SomeList(images: Images, row: map<string, Digest>, order: seq<string>) returns (sorted: seq<LayerDesc>)
    requires RowKnown(images, row) && Elems(order) <= row.Keys
    ensures Lists(sorted, Merged(images, row, order))
  {
    var found := Merged(images, row, order);
    FoundByDigest(images, row, order);
    var hashes := SomeIncreasing(found.Keys);
    assert forall i :: 0 <= i < |hashes| ==> hashes[i] in Elems(hashes);
    sorted := seq(|hashes|, i requires 0 <= i < |hashes| => found[hashes[i]]);
    assert Hashes(sorted) == hashes;
  }

  lemma FoundByDigest(images: Images, row: map<string, Digest>, order: seq<string>)
    requires RowKnown(images, row) && Elems(order) <= row.Keys
    ensures forall h :: h in Merged(images, row, order) ==> Merged(images, row, order)[h].digest == h
  {
    forall h | h in Merged(images, row, order) ensures Merged(images, row, order)[h].digest == h {
      MergedAt(images, row, order, h);
      var svc :| svc in order && svc in row
        && LastWith(LayersOf(images, row, svc), h) == Some(Merged(images, row, order)[h]);
      LastHasDigest(LayersOf(images, row, svc), h);
    }
  }

  lemma {:induction false} LastHasDigest(layers: seq<LayerDesc>, h: Digest)
    ensures LastWith(layers, h).Some? ==> LastWith(layers, h).value.digest == h
  {
    if layers != [] {
      LastHasDigest(layers[..|layers| - 1], h);
    }
  }

  lemma SameReports(images: Images, row: map<string, Digest>, a: seq<LayerDesc>, b: seq<LayerDesc>)
    requires RowKnown(images, row) && Agree(images, row)
    requires ComesFrom(images, row, a) && ComesFrom(images, row, b)
    ensures a == b
  {
    var x :| OrderOf(x, row.Keys) && Lists(a, Merged(images, row, x));
    var y :| OrderOf(y, row.Keys) && Lists(b, Merged(images, row, y));
    AgreeingOrders(images, row, x, y);
    ListsExactly(a, b, Merged(images, row, x), Merged(images, row, y));
  }

  lemma TwoReports(images: Images, row: map<string, Digest>) returns (a: seq<LayerDesc>, b: seq<LayerDesc>)
    requires RowKnown(images, row) && !Agree(images, row)
    ensures ComesFrom(images, row, a) && ComesFrom(images, row, b) && a != b
  {
    var x, y := DifferentOrders(images, row);
    a := SomeList(images, row, x);
    b := SomeList(images, row, y);
    ListsExactly(a, b, Merged(images, row, x), Merged(images, row, y));
  }

  /** So the report of an architecture, descriptors included, is the same for every order of iteration exactly
      when the chosen manifests give each digest they share one descriptor. */
  lemma ReportIsDeterminedExactly(images: Images, row: map<string, Digest>)
    requires RowKnown(images, row)
    ensures (forall a, b :: ComesFrom(images, row, a) && ComesFrom(images, row, b) ==> a == b) <==> Agree(images, row)
  {
    if Agree(images, row) {
      forall a, b | ComesFrom(images, row, a) && ComesFrom(images, row, b) ensures a == b {
        SameReports(images, row, a, b);
      }
    } else {
      var a, b := TwoReports(images, row);
    }
  }
}
