/** Sums over digest-keyed maps. */
module Sums {
  import opened Base

  ghost function Sum<V>(m: map<Digest, V>, f: V -> int): int
    decreases |m|
  {
    if m == map[] then 0
    else
      var d :| d in m;
      f(m[d]) + Sum(m - {d}, f)
  }

  lemma {:induction false} SumRemove<V>(m: map<Digest, V>, f: V -> int, d: Digest)
    requires d in m
    ensures Sum(m, f) == f(m[d]) + Sum(m - {d}, f)
    decreases |m|
  {
    var x :| x in m && Sum(m, f) == f(m[x]) + Sum(m - {x}, f);
    if x != d {
      SumRemove(m - {x}, f, d);
      SumRemove(m - {d}, f, x);
      assert m - {x} - {d} == m - {d} - {x};
    }
  }

  /** Setting one entry changes the sum by that entry alone. */
  lemma SumSet<V>(m: map<Digest, V>, f: V -> int, d: Digest, v: V)
    ensures Sum(m[d := v], f) == Sum(m, f) + f(v) - (if d in m then f(m[d]) else 0)
  {
    SumRemove(m[d := v], f, d);
    assert m[d := v] - {d} == m - {d};
    if d in m {
      SumRemove(m, f, d);
    } else {
      assert m - {d} == m;
    }
  }

  /** A sum is monotone in its terms, and two ordered sums are equal exactly when all terms are. */
  lemma {:induction false} SumLeq<V>(m: map<Digest, V>, f: V -> int, g: V -> int)
    requires forall d :: d in m ==> f(m[d]) <= g(m[d])
    ensures Sum(m, f) <= Sum(m, g)
    ensures Sum(m, f) == Sum(m, g) <==> forall d :: d in m ==> f(m[d]) == g(m[d])
    decreases |m|
  {
    if m != map[] {
      var d :| d in m;
      SumRemove(m, f, d);
      SumRemove(m, g, d);
      SumLeq(m - {d}, f, g);
      assert forall x :: x in m <==> x == d || x in m - {d};
      assert forall x :: x in m - {d} ==> (m - {d})[x] == m[x];
    }
  }

  /** Maps with the same keys and equal terms have equal sums. */
  lemma {:induction false} SumSame<V>(a: map<Digest, V>, b: map<Digest, V>, f: V -> int)
    requires a.Keys == b.Keys && forall d :: d in a ==> f(a[d]) == f(b[d])
    ensures Sum(a, f) == Sum(b, f)
    decreases |a|
  {
    if a == map[] {
      assert b.Keys == {};
      assert b == map[];
    } else {
      var d :| d in a;
      SumRemove(a, f, d);
      SumRemove(b, f, d);
      SumSame(a - {d}, b - {d}, f);
    }
  }

  lemma {:induction false} SumOfZeros<V>(m: map<Digest, V>, f: V -> int)
    requires forall d :: d in m ==> f(m[d]) == 0
    ensures Sum(m, f) == 0
    decreases |m|
  {
    if m != map[] {
      var d :| d in m;
      SumRemove(m, f, d);
      SumOfZeros(m - {d}, f);
    }
  }
}

/** Checking one blob of the store (pkg/compose/blob.go). */
module Blobs {
  import opened Base
  import opened Reader
  import opened Loader

  datatype BlobState = Undefined | BlobOk | BlobFetching | BlobMissing | BlobSizeInvalid | BlobDigestInvalid

  /** The state of a blob against its descriptor; None when the check itself fails. The stores checked here
      do not fall back to the apps directory. */
  function CheckBlob(e: Env, blobs: map<Digest, Bytes>, d: Digest, size: int): Option<BlobState> {
    if d !in blobs then Some(BlobMissing)
    else
      match ReadWhole(e.hash, Params(d, size, 0), blobs[d])
      case Ok(_) => Some(BlobOk)
      case Err(ReadFailed(SizeMismatch(_, _))) => Some(BlobSizeInvalid)
      case Err(ReadFailed(DigestMismatch(_, _))) => Some(BlobDigestInvalid)
      case Err(_) => None
  }

  predicate Passes(e: Env, blobs: map<Digest, Bytes>, d: Digest, size: int) {
    CheckBlob(e, blobs, d, size) == Some(BlobOk)
  }

  /** The check passes exactly when the file starts with that many bytes of the right digest; it does not
      look at anything after them. It fails as a check exactly for a present blob of non-positive size. */
  lemma CheckExactly(e: Env, blobs: map<Digest, Bytes>, d: Digest, size: int)
    ensures Passes(e, blobs, d, size) <==> size > 0 && d in blobs && |blobs[d]| >= size && e.hash(blobs[d][..size]) == d
    ensures CheckBlob(e, blobs, d, size).None? <==> d in blobs && size <= 0
    ensures CheckBlob(e, blobs, d, size) == Some(BlobMissing) <==> d !in blobs
    ensures CheckBlob(e, blobs, d, size) == Some(BlobSizeInvalid) <==> d in blobs && |blobs[d]| < size
    ensures CheckBlob(e, blobs, d, size) == Some(BlobDigestInvalid) <==>
      d in blobs && 0 < size <= |blobs[d]| && e.hash(blobs[d][..size]) != d
  {
  }

  /** So a blob with trailing bytes passes the check, yet cannot be read under a limit, as manifests and
      image roots are. */
  lemma PaddedBlobPassesButDoesNotRead(e: Env, s: Store, app: Ref, scope: Scope, d: Digest, size: int, limit: int)
    requires d in s.blobs && 0 < size < |s.blobs[d]| && limit > 0
    requires e.hash(s.blobs[d][..size]) == d && e.hash(s.blobs[d]) != d
    ensures Passes(e, s.blobs, d, size)
    ensures ReadLimited(e, Local(s), app, scope, d, limit).Err?
  {
    CheckExactly(e, s.blobs, d, size);
    CleanWithLimit(e.hash, d, limit, s.blobs[d]);
  }
}
