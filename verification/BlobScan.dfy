/** Storing a file by digest while scanning it for a secret, chunk by chunk. */
module BlobScan {
  type Byte = bv8
  type Bytes = seq<Byte>
  type Digest = nat

  /** p occurs in s as a contiguous piece. */
  ghost predicate OccursAt(p: Bytes, s: Bytes, i: nat)
  {
    i + |p| <= |s| && s[i..i + |p|] == p
  }

  ghost predicate Occurs(p: Bytes, s: Bytes)
  {
    exists i: nat :: OccursAt(p, s, i)
  }

  function Concat(chunks: seq<Bytes>): Bytes
  {
    if chunks == [] then [] else Concat(chunks[..|chunks| - 1]) + chunks[|chunks| - 1]
  }

  /** The last k bytes, or everything when there are fewer. */
  function Tail(s: Bytes, k: nat): Bytes
  {
    if |s| > k then s[|s| - k..] else s
  }

  lemma SliceLeft(x: Bytes, y: Bytes, i: nat, n: nat)
    requires i + n <= |x|
    ensures (x + y)[i..i + n] == x[i..i + n]
  {
  }

  lemma SliceRight(x: Bytes, y: Bytes, i: nat, n: nat)
    requires i + n <= |y|
    ensures (x + y)[|x| + i..|x| + i + n] == y[i..i + n]
  {
  }

  lemma Regroup(x: Bytes, y: Bytes, c: Bytes)
    ensures x + y + c == x + (y + c)
  {
  }

  lemma TailSplit(s: Bytes, k: nat) returns (x: Bytes)
    ensures s == x + Tail(s, k) && (x == [] || |Tail(s, k)| == k)
  {
    x := s[..|s| - |Tail(s, k)|];
  }

  lemma TailOfLonger(x: Bytes, y: Bytes, k: nat)
    requires x == [] || |y| >= k
    ensures Tail(x + y, k) == Tail(y, k)
  {
    if x == [] {
      assert x + y == y;
    } else {
      var d := |y| - k;
      assert (x + y)[|x| + d..] == y[d..];
    }
  }

  lemma TailStep(s: Bytes, c: Bytes, k: nat)
    ensures Tail(Tail(s, k) + c, k) == Tail(s + c, k)
  {
    var x := TailSplit(s, k);
    Regroup(x, Tail(s, k), c);
    TailOfLonger(x, Tail(s, k) + c, k);
  }

  lemma OccursBefore(p: Bytes, s: Bytes, c: Bytes)
    requires Occurs(p, s)
    ensures Occurs(p, s + c)
  {
    var i: nat :| OccursAt(p, s, i);
    SliceLeft(s, c, i, |p|);
    assert OccursAt(p, s + c, i);
  }

  lemma OccursAfter(p: Bytes, x: Bytes, y: Bytes)
    requires Occurs(p, y)
    ensures Occurs(p, x + y)
  {
    var i: nat :| OccursAt(p, y, i);
    SliceRight(x, y, i, |p|);
    assert OccursAt(p, x + y, |x| + i);
  }

  lemma OccursAcross(p: Bytes, s: Bytes, c: Bytes)
    requires p != [] && Occurs(p, Tail(s, |p| - 1) + c)
    ensures Occurs(p, s + c)
  {
    var x := TailSplit(s, |p| - 1);
    OccursAfter(p, x, Tail(s, |p| - 1) + c);
    Regroup(x, Tail(s, |p| - 1), c);
  }

  lemma AtBefore(p: Bytes, s: Bytes, c: Bytes, i: nat)
    requires OccursAt(p, s + c, i) && i + |p| <= |s|
    ensures Occurs(p, s)
  {
    SliceLeft(s, c, i, |p|);
    assert OccursAt(p, s, i);
  }

  lemma AtAfter(p: Bytes, x: Bytes, y: Bytes, i: nat)
    requires OccursAt(p, x + y, i) && |x| <= i
    ensures Occurs(p, y)
  {
    SliceRight(x, y, i - |x|, |p|);
    assert OccursAt(p, y, i - |x|);
  }

  lemma OccursSplit(p: Bytes, s: Bytes, c: Bytes)
    requires p != [] && Occurs(p, s + c)
    ensures Occurs(p, s) || Occurs(p, Tail(s, |p| - 1) + c)
  {
    var i: nat :| OccursAt(p, s + c, i);
    if i + |p| <= |s| {
      AtBefore(p, s, c, i);
    } else {
      var x := TailSplit(s, |p| - 1);
      Regroup(x, Tail(s, |p| - 1), c);
      AtAfter(p, x, Tail(s, |p| - 1) + c, i);
    }
  }

  /** Keeping |p| - 1 bytes of context is enough to see every occurrence. */
  lemma OverlapSuffices(p: Bytes, s: Bytes, c: Bytes)
    requires p != []
    ensures Occurs(p, s + c) <==> Occurs(p, s) || Occurs(p, Tail(s, |p| - 1) + c)
  {
    if Occurs(p, s) {
      OccursBefore(p, s, c);
    }
    if Occurs(p, Tail(s, |p| - 1) + c) {
      OccursAcross(p, s, c);
    }
    if Occurs(p, s + c) {
      OccursSplit(p, s, c);
    }
  }

  /** `secret in data`. */
  method Contains(p: Bytes, s: Bytes) returns (found: bool)
    ensures found <==> Occurs(p, s)
  {
    found := false;
    var i := 0;
    while i + |p| <= |s| && !found
      invariant i <= |s| + 1 && (found <==> exists k: nat | k < i :: OccursAt(p, s, k))
      decreases |s| + 1 - i, !found
    {
      if s[i..i + |p|] == p {
        assert OccursAt(p, s, i);
        found := true;
      }
      i := i + 1;
    }
  }

  /** The scan of a stream read in non-empty chunks until end of file: its contents, and
      whether the secret is in it. */
  method ScanChunks(chunks: seq<Bytes>, secret: Bytes) returns (content: Bytes, hit: bool)
    ensures content == Concat(chunks)
    ensures hit <==> secret != [] && Occurs(secret, Concat(chunks))
  {
    content, hit := [], false;
    var overlap := if |secret| > 0 then |secret| - 1 else 0;
    var tail: Bytes := [];
    if secret != [] {
      NotInEmpty(secret);
    }
    for i := 0 to |chunks|
      invariant content == Concat(chunks[..i])
      invariant secret != [] ==> tail == Tail(content, overlap)
      invariant hit <==> secret != [] && Occurs(secret, content)
    {
      var chunk := chunks[i];
      assert chunks[..i + 1][..i] == chunks[..i];
      if secret != [] {
        var data := tail + chunk;
        var here := Contains(secret, data);
        OverlapSuffices(secret, content, chunk);
        TailStep(content, chunk, overlap);
        hit := hit || here;
        tail := Tail(data, overlap);
      }
      content := content + chunk;
    }
    assert chunks[..|chunks|] == chunks;
  }

  lemma NotInEmpty(p: Bytes)
    requires p != []
    ensures !Occurs(p, [])
  {
  }

  // ---- the store ----

  datatype Outcome = SizeMismatch | Collision | Stored(digest: Digest, hit: bool)

  /** Every blob is filed under its own digest and is free of the secret. */
  ghost predicate Clean(blobs: map<Digest, Bytes>, hash: Bytes -> Digest, secret: Bytes)
  {
    forall d | d in blobs :: hash(blobs[d]) == d && (secret != [] ==> !Occurs(secret, blobs[d]))
  }

  /** The digest is collision-free. */
  ghost predicate Injective(hash: Bytes -> Digest)
  {
    forall x, y | hash(x) == hash(y) :: x == y
  }

  class BlobStore {
    var blobs: map<Digest, Bytes>

    constructor ()
      ensures blobs == map[]
    {
      blobs := map[];
    }

    /** _scan_and_store_blob: nothing is published unless the size is right and the secret
        is absent, and a published blob is never overwritten. */
    method ScanAndStore(chunks: seq<Bytes>, expected: nat, secret: Bytes, hash: Bytes -> Digest) returns (r: Outcome)
      modifies this
      ensures var stream := Concat(chunks); var d := hash(stream); var hit := secret != [] && Occurs(secret, stream);
        && (r == SizeMismatch <==> |stream| != expected)
        && (r == Collision <==> |stream| == expected && !hit && d in old(blobs) && |old(blobs)[d]| != expected)
        && (r.Stored? ==> r == Stored(d, hit))
        && blobs == (if r == Stored(d, false) && d !in old(blobs) then old(blobs)[d := stream] else old(blobs))
      ensures old(Clean(blobs, hash, secret)) ==> Clean(blobs, hash, secret)
      ensures old(Clean(blobs, hash, secret)) && Injective(hash) ==> r != Collision
      ensures old(Clean(blobs, hash, secret)) && Injective(hash) && r.Stored? && !r.hit ==>
        r.digest in blobs && blobs[r.digest] == Concat(chunks)
    {
      var content, hit := ScanChunks(chunks, secret);
      if |content| != expected {
        return SizeMismatch;
      }
      var d := hash(content);
      if hit {
        return Stored(d, true);
      }
      if d in blobs {
        if |blobs[d]| != |content| {
          return Collision;
        }
      } else {
        blobs := blobs[d := content];
      }
      return Stored(d, hit);
    }
  }
}
