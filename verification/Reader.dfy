/** The size- and digest-checking reader (pkg/compose/reader.go). */
module Reader {
  import opened Base

  datatype Params = Params(expectedDigest: Digest, expectedSize: int, readLimit: int)

  /** How a reader that is read to its end finishes. */
  datatype Outcome =
    | Clean
    | SizeMismatch(size: int, read: int)
    | LimitExceeded(limit: int)
    | DigestMismatch(digest: Digest, calculated: Digest)
    | Panicked

  datatype ReadError = BadParams | ReadFailed(outcome: Outcome)

  datatype Signal = More | End(outcome: Outcome)

  /** The parameters a new reader works with; None when the constructor refuses them. */
  function Normalize(p: Params): Option<Params> {
    if p.expectedSize > 0 && p.readLimit > 0 && p.readLimit < p.expectedSize then None
    else
      var q := if p.expectedSize > 0 && p.readLimit <= 0 then p.(readLimit := p.expectedSize) else p;
      if q.readLimit == 0 then None else Some(q)
  }

  predicate Accepted(p: Params) {
    p.readLimit != 0 && (p.expectedSize > 0 ==> p.readLimit >= p.expectedSize)
  }

  /** The bytes a limited reader lets through. */
  function Visible(p: Params, all: Bytes): Bytes {
    if p.readLimit <= 0 then [] else all[..Min(p.readLimit, |all|)]
  }

  function DigestCheck(hash: Bytes -> Digest, p: Params, data: Bytes): Outcome {
    if hash(data) == p.expectedDigest then Clean else DigestMismatch(p.expectedDigest, hash(data))
  }

  /** What draining must yield for a whole source, said without buffers or chunks. */
  function Drain(hash: Bytes -> Digest, p: Params, all: Bytes): Outcome
    requires Accepted(p)
  {
    if p.expectedSize > 0 then
      if |all| < p.expectedSize then SizeMismatch(p.expectedSize, |all|)
      else if |all| > p.expectedSize && p.readLimit > p.expectedSize then Panicked
      else DigestCheck(hash, p, all[..p.expectedSize])
    else if 0 < p.readLimit <= |all| then LimitExceeded(p.readLimit)
    else DigestCheck(hash, p, Visible(p, all))
  }

  /** Open a reader and read it to the end: the bytes, or the reason there are none. */
  function ReadWhole(hash: Bytes -> Digest, p: Params, all: Bytes): Result<Bytes, ReadError> {
    match Normalize(p)
    case None => Err(BadParams)
    case Some(q) =>
      var outcome := Drain(hash, q, all);
      if outcome == Clean then Ok(Visible(q, all)) else Err(ReadFailed(outcome))
  }

  function Flatten(chunks: seq<Bytes>): Bytes {
    if chunks == [] then [] else chunks[0] + Flatten(chunks[1..])
  }

  function Weight(chunks: seq<Bytes>): nat {
    if chunks == [] then 0 else |chunks[0]| + 1 + Weight(chunks[1..])
  }

  /** An underlying reader that hands out its bytes in pieces. Each pending piece is served by one or
      more reads, an empty piece by a read of no bytes; `eager` readers report the end together with the
      last bytes, the others in a read of its own. */
  class Source {
    var chunks: seq<Bytes>
    const eager: bool

    constructor (chunks: seq<Bytes>, eager: bool)
      ensures this.chunks == chunks && this.eager == eager
    {
      this.chunks := chunks;
      this.eager := eager;
    }

    method Read(room: nat) returns (data: Bytes, eof: bool)
      requires room > 0
      modifies this
      ensures |data| <= room
      ensures data + Flatten(chunks) == old(Flatten(chunks))
      ensures eof ==> chunks == []
      ensures !eof ==> Weight(chunks) < old(Weight(chunks))
    {
      if chunks == [] {
        return [], true;
      }
      var head := chunks[0];
      if |head| <= room {
        data := head;
        chunks := chunks[1..];
      } else {
        data := head[..room];
        assert head == head[..room] + head[room..];
        assert ([head[room..]] + chunks[1..])[1..] == chunks[1..];
        chunks := [head[room..]] + chunks[1..];
      }
      eof := eager && chunks == [];
    }
  }

  class SecureReader {
    const hash: Bytes -> Digest
    const params: Params
    const src: Source
    var n: int              // what the limited reader may still hand out
    var hashed: Bytes       // everything fed to the digester
    var readBytes: int
    ghost const all: Bytes  // the whole source as it was when the reader was opened

    ghost predicate Valid()
      reads this, src
    {
      && Accepted(params)
      && hashed + Flatten(src.chunks) == all
      && readBytes == |hashed|
      && n == params.readLimit - |hashed|
      && (params.readLimit > 0 ==> n >= 0)
      && (params.readLimit < 0 ==> hashed == [])
    }

    constructor (hash: Bytes -> Digest, src: Source, params: Params)
      requires Accepted(params)
      ensures Valid() && this.hash == hash && this.src == src && this.params == params
      ensures all == Flatten(src.chunks) && hashed == []
    {
      this.hash := hash;
      this.params := params;
      this.src := src;
      n := params.readLimit;
      hashed := [];
      readBytes := 0;
      all := Flatten(src.chunks);
    }

    /** One read into a buffer of `room` bytes. */
    method Read(room: nat) returns (data: Bytes, s: Signal)
      requires Valid() && room > 0
      modifies this, src
      ensures Valid() && |data| <= room
      ensures hashed == old(hashed) + data
      ensures s == More ==> Weight(src.chunks) < old(Weight(src.chunks))
      ensures s != More ==> hashed == Visible(params, all) && s == End(Drain(hash, params, all))
    {
      var eof: bool;
      if n <= 0 {
        data, eof := [], true;
      } else {
        data, eof := src.Read(Min(room, n));
        n := n - |data|;
        readBytes := readBytes + |data|;
        hashed := hashed + data;
      }
      if !eof {
        return data, More;
      }
      assert hashed == Visible(params, all);
      if params.expectedSize > 0 {
        if readBytes < params.expectedSize {
          s := End(SizeMismatch(params.expectedSize, readBytes));
        } else if readBytes > params.expectedSize {
          s := End(Panicked);
        } else {
          assert hashed == all[..params.expectedSize];
          s := End(DigestCheck(hash, params, hashed));
        }
      } else if n == 0 {
        s := End(LimitExceeded(params.readLimit));
      } else {
        s := End(DigestCheck(hash, params, hashed));
      }
    }
  }

  /** Opening and draining a source gives the same answer for every split into pieces and every
      sequence of positive buffer sizes. */
  method ReadAll(hash: Bytes -> Digest, p: Params, src: Source, buffer: nat -> nat)
    returns (r: Result<Bytes, ReadError>)
    requires forall i :: buffer(i) > 0
    modifies src
    ensures r == ReadWhole(hash, p, old(Flatten(src.chunks)))
  {
    var q := Normalize(p);
    if q.None? {
      return Err(BadParams);
    }
    var reader := new SecureReader(hash, src, q.value);
    var data: Bytes, i := [], 0;
    while true
      invariant reader.Valid() && reader.src == src && reader.hash == hash && reader.params == q.value
      invariant reader.all == old(Flatten(src.chunks))
      invariant data == reader.hashed
      invariant fresh(reader)
      decreases Weight(src.chunks)
    {
      var piece, s := reader.Read(buffer(i));
      data, i := data + piece, i + 1;
      if s.End? {
        return if s.outcome == Clean then Ok(data) else Err(ReadFailed(s.outcome));
      }
    }
  }

  /** With a limit equal to the expected size, a read is clean exactly when the source holds that many
      bytes and their digest is the expected one; what follows them does not matter. */
  lemma CleanWithExpectedSize(hash: Bytes -> Digest, digest: Digest, size: int, all: Bytes)
    requires size > 0
    ensures ReadWhole(hash, Params(digest, size, 0), all).Ok?
       <==> |all| >= size && hash(all[..size]) == digest
    ensures ReadWhole(hash, Params(digest, size, 0), all).Ok?
        ==> ReadWhole(hash, Params(digest, size, 0), all).value == all[..size]
    ensures ReadWhole(hash, Params(digest, size, 0), all) == Err(ReadFailed(SizeMismatch(size, |all|)))
       <==> |all| < size
  {
  }

  /** With only a limit, a read is clean exactly when the source is strictly shorter than the limit and
      its digest is the expected one. */
  lemma CleanWithLimit(hash: Bytes -> Digest, digest: Digest, limit: int, all: Bytes)
    requires limit > 0
    ensures ReadWhole(hash, Params(digest, 0, limit), all).Ok? <==> |all| < limit && hash(all) == digest
    ensures ReadWhole(hash, Params(digest, 0, limit), all).Ok?
        ==> ReadWhole(hash, Params(digest, 0, limit), all).value == all
    ensures ReadWhole(hash, Params(digest, 0, limit), all) == Err(ReadFailed(LimitExceeded(limit)))
       <==> |all| >= limit
  {
    assert all[..|all|] == all;
  }

  /** The panic of the reader is reached exactly when the limit exceeds a given expected size and the
      source is longer than that size. */
  lemma PanicExactly(hash: Bytes -> Digest, p: Params, all: Bytes)
    ensures ReadWhole(hash, p, all) == Err(ReadFailed(Panicked))
       <==> 0 < p.expectedSize < p.readLimit && |all| > p.expectedSize
  {
  }

  /** Opening a reader is refused exactly for a limit below a given expected size, and for neither of the two. */
  lemma RefusedExactly(hash: Bytes -> Digest, p: Params, all: Bytes)
    ensures ReadWhole(hash, p, all) == Err(BadParams)
       <==> (0 < p.readLimit < p.expectedSize) || (p.expectedSize <= 0 && p.readLimit == 0)
  {
  }

  /** A source that is long enough but has another digest is told so, with both digests. */
  lemma MismatchExactly(hash: Bytes -> Digest, digest: Digest, size: int, limit: int, all: Bytes, other: Digest)
    requires size > 0 && limit > 0
    ensures ReadWhole(hash, Params(digest, size, 0), all) == Err(ReadFailed(DigestMismatch(digest, other)))
       <==> |all| >= size && other == hash(all[..size]) != digest
    ensures ReadWhole(hash, Params(digest, 0, limit), all) == Err(ReadFailed(DigestMismatch(digest, other)))
       <==> |all| < limit && other == hash(all) != digest
  {
    assert all[..|all|] == all;
  }
}
