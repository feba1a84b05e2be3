/** Merkle trees of blobs and their traversal (pkg/compose/tree.go). */
module Tree {
  import opened Base

  const MAX_DEPTH := 10

  datatype Kind =
    | AppManifest | AppBundle | AppIndex | LayersMeta
    | ImageIndex | SkopeoIndex | ImageManifest | ImageConfig | ImageLayer

  /** A tree node: its descriptor (digest, size, references, the service it belongs to) and children. */
  datatype Node = Node(digest: Digest, size: int, kind: Kind, urls: seq<Ref>, service: string, children: seq<Node>)

  /** The nodes in the order a traversal visits them: a node before its children, children in order. */
  function Preorder(t: Node): seq<Node>
    decreases t, 1
  {
    [t] + PreorderAll(t.children)
  }

  function PreorderAll(ts: seq<Node>): seq<Node>
    decreases ts, 0
  {
    if ts == [] then [] else Preorder(ts[0]) + PreorderAll(ts[1..])
  }

  function Height(t: Node): nat
    decreases t, 1
  {
    if t.children == [] then 0 else 1 + HeightAll(t.children)
  }

  function HeightAll(ts: seq<Node>): nat
    decreases ts, 0
  {
    if ts == [] then 0 else Max(Height(ts[0]), HeightAll(ts[1..]))
  }

  function Digests(t: Node): set<Digest>
    decreases t, 1
  {
    {t.digest} + DigestsAll(t.children)
  }

  function DigestsAll(ts: seq<Node>): set<Digest>
    decreases ts, 0
  {
    if ts == [] then {} else Digests(ts[0]) + DigestsAll(ts[1..])
  }

  /** What a walk handed to its callback, and whether it got through without the depth error. */
  datatype Walked = Walked(visited: seq<Node>, ok: bool)

  function Walk(t: Node, depth: nat): Walked
    decreases t, 1
  {
    if depth > MAX_DEPTH then Walked([], false)
    else
      var below := WalkAll(t.children, depth + 1);
      Walked([t] + below.visited, below.ok)
  }

  function WalkAll(ts: seq<Node>, depth: nat): Walked
    decreases ts, 0
  {
    if ts == [] then Walked([], true)
    else
      var first := Walk(ts[0], depth);
      if !first.ok then first
      else
        var rest := WalkAll(ts[1..], depth);
        Walked(first.visited + rest.visited, rest.ok)
  }

  /** A walk succeeds exactly on trees that stay within the depth limit, and then visits every node once,
      in preorder. */
  lemma {:induction false} WalkExact(t: Node, depth: nat)
    ensures Walk(t, depth).ok <==> depth + Height(t) <= MAX_DEPTH
    ensures Walk(t, depth).ok ==> Walk(t, depth).visited == Preorder(t)
    decreases t, 1
  {
    if depth <= MAX_DEPTH {
      WalkAllExact(t.children, depth + 1);
    }
  }

  lemma {:induction false} WalkAllExact(ts: seq<Node>, depth: nat)
    ensures WalkAll(ts, depth).ok <==> ts == [] || depth + HeightAll(ts) <= MAX_DEPTH
    ensures WalkAll(ts, depth).ok ==> WalkAll(ts, depth).visited == PreorderAll(ts)
    decreases ts, 0
  {
    if ts != [] {
      WalkExact(ts[0], depth);
      WalkAllExact(ts[1..], depth);
    }
  }

  /** The nodes below a tree of a list are among the nodes of the list. */
  lemma {:induction false} PreorderOfOne(ts: seq<Node>, t: Node, n: Node)
    requires t in ts && n in Preorder(t)
    ensures n in PreorderAll(ts)
  {
    if t != ts[0] {
      PreorderOfOne(ts[1..], t, n);
    }
  }

  /** The digests of a tree are the digests of the nodes a walk visits. */
  lemma {:induction false} PreorderDigests(t: Node, d: Digest)
    ensures d in Digests(t) <==> exists i :: 0 <= i < |Preorder(t)| && Preorder(t)[i].digest == d
    decreases t, 1
  {
    PreorderAllDigests(t.children, d);
    var rest := PreorderAll(t.children);
    if d in Digests(t) {
      if t.digest == d {
        assert Preorder(t)[0].digest == d;
      } else {
        var i :| 0 <= i < |rest| && rest[i].digest == d;
        assert Preorder(t)[i + 1].digest == d;
      }
    }
    if i :| 0 <= i < |Preorder(t)| && Preorder(t)[i].digest == d {
      assert Preorder(t) == [t] + rest;
      if i > 0 {
        assert rest[i - 1] == Preorder(t)[i];
      }
    }
  }

  lemma {:induction false} PreorderAllDigests(ts: seq<Node>, d: Digest)
    ensures d in DigestsAll(ts) <==> exists i :: 0 <= i < |PreorderAll(ts)| && PreorderAll(ts)[i].digest == d
    decreases ts, 0
  {
    if ts != [] {
      PreorderDigests(ts[0], d);
      PreorderAllDigests(ts[1..], d);
      var first, rest := Preorder(ts[0]), PreorderAll(ts[1..]);
      if i :| 0 <= i < |rest| && rest[i].digest == d {
        assert PreorderAll(ts)[|first| + i].digest == d;
      }
      if i :| 0 <= i < |first| && first[i].digest == d {
        assert PreorderAll(ts)[i].digest == d;
      }
      if i :| 0 <= i < |PreorderAll(ts)| && PreorderAll(ts)[i].digest == d {
        if i < |first| {
          assert first[i].digest == d;
        } else {
          assert rest[i - |first|].digest == d;
        }
      }
    }
  }

  lemma {:induction false} DigestsAllConcat(a: seq<Node>, b: seq<Node>)
    ensures DigestsAll(a + b) == DigestsAll(a) + DigestsAll(b)
  {
    if a == [] {
      assert a + b == b;
    } else {
      assert (a + b)[1..] == a[1..] + b;
      DigestsAllConcat(a[1..], b);
    }
  }

  lemma {:induction false} HeightAllConcat(a: seq<Node>, b: seq<Node>)
    ensures HeightAll(a + b) == Max(HeightAll(a), HeightAll(b))
  {
    if a == [] {
      assert a + b == b;
    } else {
      assert (a + b)[1..] == a[1..] + b;
      HeightAllConcat(a[1..], b);
    }
  }
}
