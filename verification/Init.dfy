/** Initializing an update: which blobs it has to fetch (pkg/update/init.go). */
module Init {
  import opened Base
  import opened Tree
  import opened Loader
  import opened Blobs
  import opened Progress

  type Nodes = seq<Node>

  function FirstRef(n: Node): Ref {
    if n.urls == [] then Ref("", "") else n.urls[0]
  }

  predicate Good(e: Env, blobs: map<Digest, Bytes>, n: Node) {
    Passes(e, blobs, n.digest, n.size)
  }

  /** No check of a node's blob fails as a check. */
  predicate Checkable(e: Env, blobs: map<Digest, Bytes>, nodes: Nodes) {
    forall n :: n in nodes ==> CheckBlob(e, blobs, n.digest, n.size).Some?
  }

  /** The record of a blob that did not pass; an open ingest overrides the state the check found. */
  function RecordOf(e: Env, blobs: map<Digest, Bytes>, ingests: map<Ref, int>, n: Node): BlobProgress {
    var found := CheckBlob(e, blobs, n.digest, n.size);
    var ref := FirstRef(n);
    if ref in ingests then BlobProgress(n.size, ingests[ref], n.kind, ref, BlobFetching, ingests[ref])
    else BlobProgress(n.size, 0, n.kind, ref, if found.Some? then found.value else Undefined, 0)
  }

  /** The records collected from the nodes in order; the first failing node of a digest makes its record. */
  function Collected(e: Env, blobs: map<Digest, Bytes>, ingests: map<Ref, int>, nodes: Nodes): Records {
    if nodes == [] then map[]
    else
      var before := Collected(e, blobs, ingests, nodes[..|nodes| - 1]);
      var n := nodes[|nodes| - 1];
      if Good(e, blobs, n) || n.digest in before then before
      else before[n.digest := RecordOf(e, blobs, ingests, n)]
  }

  /** Look at one node: record its blob if it does not pass and is not recorded yet. */
  method InitNode(e: Env, blobs: map<Digest, Bytes>, ingests: map<Ref, int>, n: Node, records: Records, total: int,
                  ghost seen: Nodes)
    returns (ok: bool, records': Records, total': int)
    requires records == Collected(e, blobs, ingests, seen) && total == SumTotal(records)
    ensures ok <==> CheckBlob(e, blobs, n.digest, n.size).Some?
    ensures ok ==> records' == Collected(e, blobs, ingests, seen + [n]) && total' == SumTotal(records')
  {
    records', total' := records, total;
    var found := CheckBlob(e, blobs, n.digest, n.size);
    if found.None? {
      return false, records, total;
    }
    ok := true;
    assert (seen + [n])[..|seen|] == seen;
    if found.value != BlobOk && n.digest !in records {
      var ref := FirstRef(n);
      var r := BlobProgress(n.size, 0, n.kind, ref, found.value, 0);
      if ref in ingests {
        r := r.(state := BlobFetching, initial := ingests[ref], fetched := ingests[ref]);
      }
      Step(records, n.digest, r);
      records' := records[n.digest := r];
      total' := total + (n.size - r.initial);
    }
  }

  lemma OneFurther(seen: Nodes, visited: Nodes, j: nat)
    requires j < |visited|
    ensures seen + visited[..j] + [visited[j]] == seen + visited[..j + 1]
    ensures forall n :: n in visited[..j + 1] <==> n in visited[..j] || n == visited[j]
  {
    assert visited[..j + 1] == visited[..j] + [visited[j]];
  }

  method InitTree(e: Env, blobs: map<Digest, Bytes>, ingests: map<Ref, int>, tree: Node, records: Records, total: int,
                  ghost seen: Nodes)
    returns (ok: bool, records': Records, total': int)
    requires Walk(tree, 0) == Walked(Preorder(tree), true)
    requires records == Collected(e, blobs, ingests, seen) && total == SumTotal(records)
    ensures ok <==> Checkable(e, blobs, Preorder(tree))
    ensures ok ==> records' == Collected(e, blobs, ingests, seen + Preorder(tree)) && total' == SumTotal(records')
  {
    var visited := Walk(tree, 0).visited;
    records', total', ok := records, total, true;
    assert seen + visited[..0] == seen;
    for j := 0 to |visited|
      invariant Checkable(e, blobs, visited[..j])
      invariant records' == Collected(e, blobs, ingests, seen + visited[..j]) && total' == SumTotal(records')
    {
      ok, records', total' := InitNode(e, blobs, ingests, visited[j], records', total', seen + visited[..j]);
      if !ok {
        assert visited[j] in visited;
        return;
      }
      OneFurther(seen, visited, j);
    }
    assert visited[..|visited|] == visited;
    ok := true;
  }

  /** Walk the trees of the update's apps, in any order of the apps, and record each blob that does not
      pass its check, once, with the bytes still to download. */
  method InitBlobs(e: Env, blobs: map<Digest, Bytes>, ingests: map<Ref, int>, trees: seq<Node>)
    returns (ok: bool, records: Records, total: int)
    requires forall i :: 0 <= i < |trees| ==> Walk(trees[i], 0) == Walked(Preorder(trees[i]), true)
    ensures ok <==> Checkable(e, blobs, PreorderAll(trees))
    ensures ok ==> records == Collected(e, blobs, ingests, PreorderAll(trees)) && total == SumTotal(records)
  {
    records, total, ok := map[], 0, true;
    ghost var seen: Nodes := [];
    for i := 0 to |trees|
      invariant seen == PreorderAll(trees[..i])
      invariant Checkable(e, blobs, seen)
      invariant records == Collected(e, blobs, ingests, seen) && total == SumTotal(records)
    {
      OneTreeFurther(trees, i);
      ok, records, total := InitTree(e, blobs, ingests, trees[i], records, total, seen);
      if !ok {
        PrefixOfTrees(trees, i + 1);
        return;
      }
      seen := seen + Preorder(trees[i]);
    }
    assert trees[..|trees|] == trees;
    ok := true;
  }

  /** The record of an initialized update, with the total that every attempt to fetch will work towards. */
  method InitUpdate(e: Env, blobs: map<Digest, Bytes>, ingests: map<Ref, int>, trees: seq<Node>)
    returns (u: Option<UpdateProgress>)
    requires forall i :: 0 <= i < |trees| ==> Walk(trees[i], 0) == Walked(Preorder(trees[i]), true)
    ensures u.Some? <==> Checkable(e, blobs, PreorderAll(trees))
    ensures u.Some? ==> fresh(u.value) && u.value.Accounted()
    ensures u.Some? ==> u.value.blobs == Collected(e, blobs, ingests, PreorderAll(trees))
    ensures u.Some? ==> forall d :: d in u.value.blobs ==>
        RecordsFirst(e, blobs, ingests, PreorderAll(trees), d, u.value.blobs[d])
  {
    var ok, records, total := InitBlobs(e, blobs, ingests, trees);
    if !ok {
      return None;
    }
    forall d | d in records ensures RecordsFirst(e, blobs, ingests, PreorderAll(trees), d, records[d]) {
      RecordedExactly(e, blobs, ingests, PreorderAll(trees), d);
    }
    var record := new UpdateProgress(records, total);
    u := Some(record);
  }

  lemma {:induction false} OneTreeFurther(trees: seq<Node>, i: nat)
    requires i < |trees|
    ensures PreorderAll(trees[..i + 1]) == PreorderAll(trees[..i]) + Preorder(trees[i])
    decreases i
  {
    if i == 0 {
      assert trees[..1] == [trees[0]];
      assert [trees[0]][1..] == [];
    } else {
      OneTreeFurther(trees[1..], i - 1);
      assert trees[..i + 1][1..] == trees[1..][..i] && trees[..i][1..] == trees[1..][..i - 1];
      assert trees[..i + 1][0] == trees[..i][0] == trees[0];
    }
  }

  lemma {:induction false} PrefixOfTrees(trees: seq<Node>, i: nat)
    requires i <= |trees|
    ensures forall n :: n in PreorderAll(trees[..i]) ==> n in PreorderAll(trees)
    decreases |trees| - i
  {
    if i < |trees| {
      OneTreeFurther(trees, i);
      PrefixOfTrees(trees, i + 1);
    } else {
      assert trees[..i] == trees;
    }
  }

  /** A digest is recorded exactly when some node of that digest did not pass, whatever the order of the
      nodes, and its record is that of such a node; none is recorded as fetched. */
  lemma {:induction false} CollectedExactly(e: Env, blobs: map<Digest, Bytes>, ingests: map<Ref, int>, nodes: Nodes,
                                            d: Digest)
    ensures d in Collected(e, blobs, ingests, nodes) <==> exists n :: n in nodes && n.digest == d && !Good(e, blobs, n)
    ensures d in Collected(e, blobs, ingests, nodes)
        ==> (exists n :: n in nodes && n.digest == d && !Good(e, blobs, n)
              && Collected(e, blobs, ingests, nodes)[d] == RecordOf(e, blobs, ingests, n))
  {
    if nodes != [] {
      var k := |nodes| - 1;
      assert nodes == nodes[..k] + [nodes[k]];
      CollectedExactly(e, blobs, ingests, nodes[..k], d);
      if d in Collected(e, blobs, ingests, nodes[..k]) {
        var n :| n in nodes[..k] && n.digest == d && !Good(e, blobs, n) &&
          Collected(e, blobs, ingests, nodes[..k])[d] == RecordOf(e, blobs, ingests, n);
        assert n in nodes;
      } else if d in Collected(e, blobs, ingests, nodes) {
        assert nodes[k] in nodes && nodes[k].digest == d;
      }
      if n :| n in nodes && n.digest == d && !Good(e, blobs, n) {
        assert n in nodes[..k] || n == nodes[k];
      }
    }
  }

  /** What is recorded of a node that does not pass: its size, kind and first reference; with something already
      written under that reference how much, as being fetched; else nothing, with what the check found. */
  predicate Describes(e: Env, blobs: map<Digest, Bytes>, ingests: map<Ref, int>, n: Node, r: BlobProgress) {
    && r.size == n.size && r.kind == n.kind && (n.urls != [] ==> r.ref == n.urls[0]) && r.fetched == r.initial
    && (r.ref in ingests ==> r.initial == ingests[r.ref] && r.state == BlobFetching)
    && (r.ref !in ingests ==> r.initial == 0 && StateFits(e, blobs, n, r.state))
  }

  predicate StateFits(e: Env, blobs: map<Digest, Bytes>, n: Node, state: BlobState) {
    && (state == BlobMissing <==> n.digest !in blobs)
    && (state == BlobSizeInvalid <==> n.digest in blobs && |blobs[n.digest]| < n.size)
    && (state == BlobDigestInvalid <==>
        n.digest in blobs && 0 < n.size <= |blobs[n.digest]| && e.hash(blobs[n.digest][..n.size]) != n.digest)
  }

  lemma RecordDescribes(e: Env, blobs: map<Digest, Bytes>, ingests: map<Ref, int>, n: Node)
    ensures Describes(e, blobs, ingests, n, RecordOf(e, blobs, ingests, n))
  {
    CheckExactly(e, blobs, n.digest, n.size);
  }

  /** The record is that of the first node of its digest that does not pass. */
  ghost predicate RecordsFirst(e: Env, blobs: map<Digest, Bytes>, ingests: map<Ref, int>, nodes: Nodes, d: Digest,
                               r: BlobProgress) {
    exists i :: 0 <= i < |nodes| && FailsFirst(e, blobs, nodes, d, i) && Describes(e, blobs, ingests, nodes[i], r)
  }

  predicate FailsFirst(e: Env, blobs: map<Digest, Bytes>, nodes: Nodes, d: Digest, i: nat)
    requires i < |nodes|
  {
    && nodes[i].digest == d && !Good(e, blobs, nodes[i])
    && forall j :: 0 <= j < i && nodes[j].digest == d ==> Good(e, blobs, nodes[j])
  }

  lemma {:induction false} RecordedExactly(e: Env, blobs: map<Digest, Bytes>, ingests: map<Ref, int>, nodes: Nodes,
                                           d: Digest)
    requires d in Collected(e, blobs, ingests, nodes)
    ensures RecordsFirst(e, blobs, ingests, nodes, d, Collected(e, blobs, ingests, nodes)[d])
  {
    var k := |nodes| - 1;
    CollectedExactly(e, blobs, ingests, nodes[..k], d);
    if d in Collected(e, blobs, ingests, nodes[..k]) {
      RecordedExactly(e, blobs, ingests, nodes[..k], d);
      FirstOfPrefix(e, blobs, ingests, nodes, d, Collected(e, blobs, ingests, nodes)[d]);
    } else {
      RecordDescribes(e, blobs, ingests, nodes[k]);
      forall j | 0 <= j < k && nodes[j].digest == d ensures Good(e, blobs, nodes[j]) {
        assert nodes[..k][j] in nodes[..k];
      }
      assert FailsFirst(e, blobs, nodes, d, k);
    }
  }

  lemma FirstOfPrefix(e: Env, blobs: map<Digest, Bytes>, ingests: map<Ref, int>, nodes: Nodes, d: Digest,
                      r: BlobProgress)
    requires nodes != [] && RecordsFirst(e, blobs, ingests, nodes[..|nodes| - 1], d, r)
    ensures RecordsFirst(e, blobs, ingests, nodes, d, r)
  {
    var front := nodes[..|nodes| - 1];
    var i :| 0 <= i < |front| && FailsFirst(e, blobs, front, d, i) && Describes(e, blobs, ingests, front[i], r);
    assert FailsFirst(e, blobs, nodes, d, i) && nodes[i] == front[i];
  }

  lemma NoneFetchedYet(e: Env, blobs: map<Digest, Bytes>, ingests: map<Ref, int>, nodes: Nodes)
    ensures OkBlobs(Collected(e, blobs, ingests, nodes)) == {}
  {
    forall d | d in Collected(e, blobs, ingests, nodes)
      ensures Collected(e, blobs, ingests, nodes)[d].state != BlobOk
    {
      CollectedExactly(e, blobs, ingests, nodes, d);
    }
  }
}
