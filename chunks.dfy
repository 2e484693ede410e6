/** Byte chunks and the byte-level view of a list of chunks. */
module Chunks {

  type Byte = b: int | 0 <= b < 256

  /** One `Buffer` held by a list node, as a value. */
  type Chunk = seq<Byte>

  /** The bytes of `cs`, chunk after chunk. */
  function Flatten(cs: seq<Chunk>): seq<Byte>
  {
    if cs == [] then [] else cs[0] + Flatten(cs[1..])
  }

  lemma {:induction false} FlattenAppend(a: seq<Chunk>, b: seq<Chunk>)
    ensures Flatten(a + b) == Flatten(a) + Flatten(b)
  {
    if a == [] {
      assert a + b == b;
    } else {
      assert (a + b)[1..] == a[1..] + b;
      FlattenAppend(a[1..], b);
    }
  }

  /** Splitting the chunk list at `k` splits its bytes at the byte count of the first `k` chunks. */
  lemma FlattenSplit(cs: seq<Chunk>, k: nat)
    requires k <= |cs|
    ensures Flatten(cs) == Flatten(cs[..k]) + Flatten(cs[k..])
  {
    assert cs == cs[..k] + cs[k..];
    FlattenAppend(cs[..k], cs[k..]);
  }

  /** The first |Flatten(cs[..k])| + m bytes end with the first m bytes of chunk k. */
  lemma FlattenPrefixInChunk(cs: seq<Chunk>, k: nat, m: nat)
    requires k < |cs| && m <= |cs[k]|
    ensures |Flatten(cs[..k])| + m <= |Flatten(cs)|
    ensures Flatten(cs)[..|Flatten(cs[..k])| + m] == Flatten(cs[..k]) + cs[k][..m]
  {
    FlattenSplit(cs, k);
    assert cs[k..] == [cs[k]] + cs[k + 1..];
    assert Flatten(cs[k..]) == cs[k] + Flatten(cs[k + 1..]);
  }

  /** The chunk list left after the first `n` bytes are taken from the front:
      whole chunks are dropped while they are shorter than what is still owed,
      a chunk that is exactly used up is dropped, and a chunk that is only
      partly used keeps its remainder at the front. */
  function DropBytes(cs: seq<Chunk>, n: nat): (rest: seq<Chunk>)
    requires n <= |Flatten(cs)|
    ensures |rest| <= |cs|
    ensures rest != [] ==> rest[1..] == cs[|cs| - |rest| + 1..]
    ensures rest != [] ==> |rest[0]| <= |cs[|cs| - |rest|]|
    ensures rest != [] ==> rest[0] == cs[|cs| - |rest|][|cs[|cs| - |rest|]| - |rest[0]|..]
  {
    if cs == [] then []
    else if n < |cs[0]| then [cs[0][n..]] + cs[1..]
    else if n == |cs[0]| then cs[1..]
    else DropBytes(cs[1..], n - |cs[0]|)
  }

  /** Round trip of a partial consumption: the bytes left are exactly the
      bytes after the first `n`. */
  lemma {:induction false} DropBytesFlatten(cs: seq<Chunk>, n: nat)
    requires n <= |Flatten(cs)|
    ensures Flatten(DropBytes(cs, n)) == Flatten(cs)[n..]
  {
    if cs == [] {
    } else if n < |cs[0]| {
      assert Flatten([cs[0][n..]] + cs[1..]) == cs[0][n..] + Flatten(cs[1..]) by {
        assert ([cs[0][n..]] + cs[1..])[1..] == cs[1..];
      }
    } else if n == |cs[0]| {
    } else {
      DropBytesFlatten(cs[1..], n - |cs[0]|);
    }
  }

  /** Taking the first `n` bytes and then the bytes that remain gives back every byte. */
  lemma ConsumeRoundTrip(cs: seq<Chunk>, n: nat)
    requires n <= |Flatten(cs)|
    ensures Flatten(cs)[..n] + Flatten(DropBytes(cs, n)) == Flatten(cs)
  {
    DropBytesFlatten(cs, n);
  }

  /** Where the walk of a multi-node consumption stops: after the first `k`
      chunks, `m` bytes are still owed and chunk `k` holds them. */
  lemma DropBytesAt(cs: seq<Chunk>, n: nat, k: nat, m: nat)
    requires k < |cs| && 0 < m <= |cs[k]|
    requires n == |Flatten(cs[..k])| + m && n <= |Flatten(cs)|
    requires m <= |Flatten(cs[k..])| && DropBytes(cs, n) == DropBytes(cs[k..], m)
    ensures Flatten(cs)[..n] == Flatten(cs[..k]) + cs[k][..m]
    ensures DropBytes(cs, n) == if m == |cs[k]| then cs[k + 1..] else [cs[k][m..]] + cs[k + 1..]
    ensures Flatten(cs)[..n] + Flatten(DropBytes(cs, n)) == Flatten(cs)
  {
    FlattenPrefixInChunk(cs, k, m);
    assert cs[k..][1..] == cs[k + 1..];
    ConsumeRoundTrip(cs, n);
  }

  /** One step of that walk: chunk `k` is shorter than the `m` bytes still owed,
      so it is taken whole. */
  lemma DropBytesStep(cs: seq<Chunk>, n: nat, k: nat, m: nat)
    requires k < |cs| && |cs[k]| < m && n == |Flatten(cs[..k])| + m
    requires n <= |Flatten(cs)| ==> m <= |Flatten(cs[k..])| && DropBytes(cs, n) == DropBytes(cs[k..], m)
    ensures Flatten(cs[..k + 1]) == Flatten(cs[..k]) + cs[k]
    ensures n == |Flatten(cs[..k + 1])| + (m - |cs[k]|)
    ensures n <= |Flatten(cs)| ==>
      m - |cs[k]| <= |Flatten(cs[k + 1..])| &&
      DropBytes(cs, n) == DropBytes(cs[k + 1..], m - |cs[k]|)
  {
    assert cs[..k + 1] == cs[..k] + [cs[k]];
    FlattenAppend(cs[..k], [cs[k]]);
    assert cs[k..] == [cs[k]] + cs[k + 1..];
    assert cs[k..][1..] == cs[k + 1..];
    assert Flatten(cs[k..]) == cs[k] + Flatten(cs[k + 1..]);
  }
}
