/** The chunk queue of the stream engine: a singly linked list of buffer
    nodes with `head`, `tail` and a `length` counter.

    `length` is kept exactly as the code keeps it, which is NOT the number of
    nodes: `Shift` increments it, and a multi-node `Consume` lowers it by the
    number of nodes it walked over. Nor is `tail` always the last node reached
    from `head`; `TailIsLast()` names the regime in which it is. `Valid()`
    therefore constrains only the chain reached from `head`. */
module LinkedBuffer {
  import opened Common
  import opened Chunks

  class BufferNode {
    var data: Chunk
    var next: BufferNode?

    constructor (data: Chunk, next: BufferNode?)
      ensures this.data == data && this.next == next
    {
      this.data := data;
      this.next := next;
    }
  }

  /** `Uint8Array.prototype.set`: copies `src` into `target` at `offset`, or
      throws a RangeError (reported as `false`) without copying anything when
      `src` does not fit. */
  method SetBytes(target: array<Byte>, src: seq<Byte>, offset: nat) returns (ok: bool)
    modifies target
    ensures ok == (offset + |src| <= target.Length)
    ensures ok ==> target[..] == old(target[..])[..offset] + src + old(target[..])[offset + |src|..]
    ensures !ok ==> target[..] == old(target[..])
  {
    if offset + |src| > target.Length {
      return false;
    }
    for i := 0 to |src|
      invariant forall j :: 0 <= j < target.Length ==>
        target[j] == if offset <= j < offset + i then src[j - offset] else old(target[j])
    {
      target[offset + i] := src[i];
    }
    assert target[..] == old(target[..])[..offset] + src + old(target[..])[offset + |src|..];
    return true;
  }

  /** Node `i` of `ns` points at node `i + 1`, the last one at nothing. */
  ghost predicate LinkedAt(ns: seq<BufferNode>, i: int)
    requires 0 <= i < |ns|
    reads (ns[i] as BufferNode)`next
  {
    ns[i].next == if i + 1 < |ns| then ns[i + 1] else null
  }

  /** Copies a whole chunk to `offset`, after the bytes already copied. */
  method CopyWhole(out: array<Byte>, src: seq<Byte>, offset: nat, ghost prefix: seq<Byte>)
    requires offset + |src| <= out.Length && out[..offset] == prefix
    modifies out
    ensures out[..offset + |src|] == prefix + src
  {
    var ok := SetBytes(out, src, offset);
    assert out[..offset + |src|] == old(out[..])[..offset] + src;
  }

  /** Fills the last `remaining` cells of `out`, whose other cells already hold
      `prefix`, with the first `remaining` bytes of `src`. */
  method CopyLast(out: array<Byte>, src: seq<Byte>, remaining: nat, ghost prefix: seq<Byte>)
    requires 0 < remaining <= |src| && remaining <= out.Length
    requires out[..out.Length - remaining] == prefix
    modifies out
    ensures out[..] == prefix + src[..remaining]
  {
    var ok := SetBytes(out, src[..remaining], out.Length - remaining);
    assert out[..] == old(out[..])[..out.Length - remaining] + src[..remaining];
  }

  /** The walk of the multi-node consumption over the nodes that are used up
      whole: copies them into `out` one after the other and stops at the first
      node holding at least the bytes still owed, or after the last node. */
  method CopyWholeNodes(head: BufferNode?, ghost ns: seq<BufferNode>, ghost cs: seq<Chunk>, out: array<Byte>)
    returns (curr: BufferNode?, remaining: nat, consumedNodes: nat)
    requires |ns| == |cs| && head == (if ns == [] then null else ns[0])
    requires (forall i :: 0 <= i < |ns| ==> LinkedAt(ns, i)) && (forall i :: 0 <= i < |ns| ==> ns[i].data == cs[i])
    requires 0 < out.Length
    modifies out
    ensures consumedNodes <= |ns|
    ensures curr == if consumedNodes < |ns| then ns[consumedNodes] else null
    ensures 0 < remaining && remaining == out.Length - |Flatten(cs[..consumedNodes])|
    ensures out[..out.Length - remaining] == Flatten(cs[..consumedNodes])
    ensures curr != null ==> remaining <= |cs[consumedNodes]| && out.Length <= |Flatten(cs)|
    ensures out.Length <= |Flatten(cs)| ==>
      remaining <= |Flatten(cs[consumedNodes..])| &&
      DropBytes(cs, out.Length) == DropBytes(cs[consumedNodes..], remaining)
  {
    remaining := out.Length;
    curr := head;
    consumedNodes := 0;
    assert cs[..0] == [] && cs[0..] == cs;
    while curr != null && remaining > |curr.data|
      invariant Copied(ns, cs, out, consumedNodes, remaining, curr)
      decreases |ns| - consumedNodes
    {
      curr, remaining := CopyNode(curr, ns, cs, out, consumedNodes, remaining);
      consumedNodes := consumedNodes + 1;
    }
    if curr != null {
      FlattenPrefixInChunk(cs, consumedNodes, remaining);
    }
  }

  /** The walk of `consume` has copied the first `k` chunks whole, and
      `remaining` bytes are still wanted, from `curr` on. */
  ghost predicate Copied(ns: seq<BufferNode>, cs: seq<Chunk>, out: array<Byte>, k: nat, remaining: nat, curr: BufferNode?)
    reads out
  {
    && |ns| == |cs| && k <= |ns|
    && curr == (if k < |ns| then ns[k] else null)
    && 0 < remaining && remaining == out.Length - |Flatten(cs[..k])|
    && out[..out.Length - remaining] == Flatten(cs[..k])
    && (out.Length <= |Flatten(cs)| ==>
          remaining <= |Flatten(cs[k..])| && DropBytes(cs, out.Length) == DropBytes(cs[k..], remaining))
  }

  /** One turn of the walk: copies the whole chunk at `curr`. */
  method CopyNode(curr: BufferNode, ghost ns: seq<BufferNode>, ghost cs: seq<Chunk>, out: array<Byte>, ghost k: nat, remaining: nat)
    returns (next: BufferNode?, rest: nat)
    requires |ns| == |cs| && (forall i :: 0 <= i < |ns| ==> LinkedAt(ns, i)) && (forall i :: 0 <= i < |ns| ==> ns[i].data == cs[i])
    requires Copied(ns, cs, out, k, remaining, curr) && remaining > |curr.data|
    modifies out
    ensures Copied(ns, cs, out, k + 1, rest, next)
  {
    var buf := curr.data;
    assert k < |ns| && buf == cs[k];
    var n := out.Length;
    DropBytesStep(cs, n, k, remaining);
    CopyWhole(out, buf, n - remaining, Flatten(cs[..k]));
    rest := remaining - |buf|;
    assert out[..n - rest] == Flatten(cs[..k + 1]);
    assert LinkedAt(ns, k);
    next := curr.next;
  }

  /** Copies the first `n` bytes of the chain into a fresh buffer of `n`
      cells: whole nodes first, then the part of the node holding the last
      byte owed. When the chain holds fewer than `n` bytes, the copied bytes
      lead the buffer and the rest is left as allocated. */
  method GatherBytes(head: BufferNode?, ghost ns: seq<BufferNode>, ghost cs: seq<Chunk>, n: nat)
    returns (out: array<Byte>, curr: BufferNode?, remaining: nat, consumedNodes: nat)
    requires |ns| == |cs| && head == (if ns == [] then null else ns[0])
    requires (forall i :: 0 <= i < |ns| ==> LinkedAt(ns, i)) && (forall i :: 0 <= i < |ns| ==> ns[i].data == cs[i])
    requires 0 < n
    ensures fresh(out) && out.Length == n
    ensures consumedNodes <= |ns|
    ensures curr == if consumedNodes < |ns| then ns[consumedNodes] else null
    ensures |Flatten(cs)| < n ==>
      curr == null && consumedNodes == |cs| && out[..|Flatten(cs)|] == Flatten(cs)
    ensures n <= |Flatten(cs)| ==>
      && curr != null && 0 < remaining <= |cs[consumedNodes]|
      && out[..] == Flatten(cs)[..n]
      && DropBytes(cs, n) == if remaining == |cs[consumedNodes]| then cs[consumedNodes + 1..]
                             else [cs[consumedNodes][remaining..]] + cs[consumedNodes + 1..]
  {
    out := new Byte[n];
    curr, remaining, consumedNodes := CopyWholeNodes(head, ns, cs, out);
    if curr == null {
      assert cs[..consumedNodes] == cs;
      return;
    }
    ghost var k := consumedNodes;
    DropBytesAt(cs, n, k, remaining);
    CopyLast(out, curr.data, remaining, Flatten(cs[..k]));
  }

  class BufferList {
    var head: BufferNode?
    var tail: BufferNode?
    var length: int

    /** The nodes reached from `head` by following `next`, and their data. */
    ghost var Nodes: seq<BufferNode>
    ghost var Contents: seq<Chunk>

    ghost predicate Valid()
      reads this, Nodes
    {
      && |Nodes| == |Contents|
      && (if Nodes == [] then head == null else head == Nodes[0])
      && (forall i :: 0 <= i < |Nodes| ==> Nodes[i].data == Contents[i])
      && (forall i :: 0 <= i < |Nodes| ==> LinkedAt(Nodes, i))
      && (forall i, j :: 0 <= i < j < |Nodes| ==> Nodes[i] != Nodes[j])
    }

    /** The regime the list is built for: `tail` is the last node of the chain. */
    ghost predicate TailIsLast()
      reads this
    {
      tail == if Nodes == [] then null else Nodes[|Nodes| - 1]
    }

    constructor ()
      ensures Valid() && TailIsLast()
      ensures Contents == [] && length == 0 && head == null && tail == null
    {
      head := null;
      tail := null;
      length := 0;
      Nodes := [];
      Contents := [];
    }

    /** Appends `data` after the current tail. When `length` is zero or there is
        no tail, the new node becomes the whole chain. A tail that is not on the
        chain (left behind by `Shift`) swallows the new node. */
    method Push(data: Chunk)
      requires Valid()
      modifies this, tail
      ensures Valid()
      ensures length == old(length) + 1
      ensures tail != null && fresh(tail) && tail.data == data
      ensures old(length) == 0 || old(tail) == null ==> Contents == [data] && TailIsLast()
      ensures old(length) != 0 && old(tail) != null && old(tail) !in old(Nodes) ==>
        Contents == old(Contents)
      ensures old(length) != 0 && old(tail) != null && old(tail) in old(Nodes) ==>
        exists k :: 0 <= k < |old(Nodes)| && old(Nodes)[k] == old(tail) &&
          Contents == old(Contents)[..k + 1] + [data]
      ensures old(TailIsLast()) && (old(length) == 0 ==> old(Contents) == []) ==>
        Contents == old(Contents) + [data] && TailIsLast()
    {
      var node := new BufferNode(data, null);
      ghost var ns, cs, oldTail := Nodes, Contents, tail;
      ghost var attached := length != 0 && tail != null;
      if length != 0 && tail != null {
        tail.next := node;
      } else {
        head := node;
      }
      tail := node;
      length := length + 1;
      if !attached {
        Nodes, Contents := [node], [data];
      } else if oldTail in ns {
        ghost var k :| 0 <= k < |ns| && ns[k] == oldTail;
        Nodes, Contents := ns[..k + 1] + [node], cs[..k + 1] + [data];
        forall i | 0 <= i < |Nodes| ensures LinkedAt(Nodes, i) {
          if i < k { assert old(LinkedAt(ns, i)); }
        }
      } else {
        forall i | 0 <= i < |Nodes| ensures LinkedAt(Nodes, i) {
          assert old(LinkedAt(ns, i));
        }
      }
    }

    /** Prepends `data`; on a list whose `length` is zero the new node is also the tail. */
    method Unshift(data: Chunk)
      requires Valid()
      modifies this
      ensures Valid()
      ensures Contents == [data] + old(Contents)
      ensures length == old(length) + 1
      ensures head != null && fresh(head)
      ensures tail == if old(length) == 0 then head else old(tail)
      ensures old(TailIsLast()) && (old(length) == 0 <==> old(Contents) == []) ==> TailIsLast()
    {
      var node := new BufferNode(data, head);
      head := node;
      if length == 0 {
        tail := node;
      }
      length := length + 1;
      Nodes := [node] + Nodes;
      Contents := [data] + Contents;
      forall i | 0 <= i < |Nodes| ensures LinkedAt(Nodes, i) {
        if 0 < i { assert old(LinkedAt(Nodes, i - 1)); }
      }
    }

    /** Removes and returns the head chunk. With `length` zero or no head it
        returns `undefined` and changes nothing. With `length` one it empties the
        list (whatever follows the head is dropped). `length` goes UP by one. */
    method Shift() returns (r: Option<Chunk>)
      requires Valid()
      modifies this
      ensures Valid()
      ensures old(length) == 0 || old(Contents) == [] ==>
        r == None && Contents == old(Contents) && length == old(length) &&
        head == old(head) && tail == old(tail)
      ensures old(length) != 0 && old(Contents) != [] ==>
        && r == Some(old(Contents)[0])
        && length == old(length) + 1
        && (old(length) == 1 ==> Contents == [] && head == null && tail == null)
        && (old(length) != 1 ==> Contents == old(Contents)[1..] && tail == old(tail))
    {
      if length == 0 || head == null {
        return None;
      }
      var out := head.data;
      assert LinkedAt(Nodes, 0);
      if length == 1 {
        tail := null;
        head := null;
        Nodes, Contents := [], [];
      } else {
        head := head.next;
        Nodes, Contents := Nodes[1..], Contents[1..];
      }
      length := length + 1;
      forall i | 0 <= i < |Nodes| ensures LinkedAt(Nodes, i) {
        assert old(LinkedAt(Nodes, i + 1));
      }
      return Some(out);
    }

    method Clear()
      requires Valid()
      modifies this
      ensures Valid() && TailIsLast()
      ensures Contents == [] && head == null && tail == null && length == 0
    {
      head := null;
      tail := null;
      length := 0;
      Nodes, Contents := [], [];
    }

    /** The head chunk, or `undefined` on an empty chain. */
    method First() returns (r: Option<Chunk>)
      requires Valid()
      ensures Contents == [] <==> r == None
      ensures Contents != [] ==> r == Some(Contents[0])
    {
      if head == null {
        return None;
      }
      return Some(head.data);
    }

    /** Copies every chunk, in order, into one buffer of `nBytes >>> 0` bytes.
        With `length` zero the result is empty. A list holding more bytes than
        the buffer throws a RangeError; bytes after the copied ones are whatever
        the unsafe allocation held. The list is left as it is. */
    method Concat(nBytes: int) returns (r: Result<seq<Byte>, RangeError>)
      requires Valid()
      ensures length == 0 ==> r == Ok([])
      ensures length != 0 && |Flatten(Contents)| > nBytes % 0x1_0000_0000 ==> r == Err(RangeError)
      ensures length != 0 && |Flatten(Contents)| <= nBytes % 0x1_0000_0000 ==>
        r.Ok? && |r.value| == nBytes % 0x1_0000_0000 &&
        r.value[..|Flatten(Contents)|] == Flatten(Contents)
    {
      if length == 0 {
        return Ok([]);
      }
      var out := new Byte[nBytes % 0x1_0000_0000];
      var curr := head;
      var idx := 0;
      ghost var k := 0;
      while curr != null
        invariant 0 <= k <= |Nodes|
        invariant curr == if k < |Nodes| then Nodes[k] else null
        invariant idx == |Flatten(Contents[..k])| && idx <= out.Length
        invariant out[..idx] == Flatten(Contents[..k])
        decreases |Nodes| - k
      {
        FlattenPrefixInChunk(Contents, k, |curr.data|);
        assert Contents[..k + 1] == Contents[..k] + [Contents[k]];
        FlattenAppend(Contents[..k], [Contents[k]]);
        var ok := SetBytes(out, curr.data, idx);
        if !ok {
          FlattenSplit(Contents, k + 1);
          return Err(RangeError);
        }
        assert out[..idx + |Contents[k]|] == out[..idx] + Contents[k];
        idx := idx + |curr.data|;
        assert LinkedAt(Nodes, k);
        curr := curr.next;
        k := k + 1;
      }
      assert Contents[..k] == Contents;
      return Ok(out[..]);
    }

    /** Takes the first `nBytes` bytes off the front.
        - no head: `undefined`;
        - exactly the head chunk: the same as `Shift`;
        - less than the head chunk: its first bytes, and the head keeps the rest;
        - more: walks node after node copying into an `nBytes` buffer, drops
          every node it uses up, keeps the remainder of the node it stops in, and
          lowers `length` by the number of nodes used up. Asking for more bytes
          than the list holds walks every node, leaves the list in place and
          lowers `length` by the node count. */
    method Consume(nBytes: nat) returns (r: Option<seq<Byte>>)
      requires Valid()
      modifies this, Nodes
      ensures Valid()
      ensures old(Contents) == [] ==>
        r == None && Contents == old(Contents) && length == old(length) && tail == old(tail)
      ensures old(Contents) != [] && nBytes == |old(Contents)[0]| && (old(length) == 0) ==>
        r == None && Contents == old(Contents) && length == old(length) && tail == old(tail)
      ensures old(Contents) != [] && nBytes == |old(Contents)[0]| && old(length) != 0 ==>
        && r == Some(old(Contents)[0])
        && length == old(length) + 1
        && (old(length) == 1 ==> Contents == [] && tail == null)
        && (old(length) != 1 ==> Contents == old(Contents)[1..] && tail == old(tail))
      ensures old(Contents) != [] && nBytes < |old(Contents)[0]| ==>
        && r == Some(old(Contents)[0][..nBytes])
        && Contents == [old(Contents)[0][nBytes..]] + old(Contents)[1..]
        && length == old(length) && tail == old(tail)
      ensures old(Contents) != [] && |old(Contents)[0]| < nBytes <= |Flatten(old(Contents))| ==>
        && r == Some(Flatten(old(Contents))[..nBytes])
        && r.value + Flatten(Contents) == Flatten(old(Contents))
        && Contents == DropBytes(old(Contents), nBytes)
        && length == old(length) - (|old(Contents)| - |Contents|)
        && tail == (if Contents == [] then null else old(tail))
      ensures old(Contents) != [] && |Flatten(old(Contents))| < nBytes ==>
        && r.Some? && |r.value| == nBytes
        && r.value[..|Flatten(old(Contents))|] == Flatten(old(Contents))
        && Contents == old(Contents) && head == old(head) && tail == old(tail)
        && length == old(length) - |old(Contents)|
    {
      if head == null {
        return None;
      }
      var data := head.data;
      if nBytes == |data| {
        r := Shift();
        return;
      }
      if nBytes < |data| {
        var out := data[..nBytes];
        head.data := data[nBytes..];
        Contents := [data[nBytes..]] + Contents[1..];
        forall i | 0 <= i < |Nodes| ensures LinkedAt(Nodes, i) {
          assert old(LinkedAt(Nodes, i));
        }
        return Some(out);
      }
      r := ConsumeAcross(nBytes);
    }

    /** The multi-node branch of `Consume`: `nBytes` exceeds the head chunk. */
    method ConsumeAcross(nBytes: nat) returns (r: Option<seq<Byte>>)
      requires Valid() && Contents != [] && |Contents[0]| < nBytes
      modifies this, Nodes
      ensures Valid()
      ensures nBytes <= |Flatten(old(Contents))| ==>
        && r == Some(Flatten(old(Contents))[..nBytes])
        && r.value + Flatten(Contents) == Flatten(old(Contents))
        && Contents == DropBytes(old(Contents), nBytes)
        && length == old(length) - (|old(Contents)| - |Contents|)
        && tail == (if Contents == [] then null else old(tail))
      ensures |Flatten(old(Contents))| < nBytes ==>
        && r.Some? && |r.value| == nBytes
        && r.value[..|Flatten(old(Contents))|] == Flatten(old(Contents))
        && Contents == old(Contents) && head == old(head) && tail == old(tail)
        && length == old(length) - |old(Contents)|
    {
      var out, curr, remaining, consumedNodes := GatherBytes(head, Nodes, Contents, nBytes);
      if curr == null {
        // More bytes were asked for than the list holds: every node was walked.
        length := length - consumedNodes;
        return Some(out[..]);
      }
      DropThrough(curr, consumedNodes, remaining);
      ConsumeRoundTrip(old(Contents), nBytes);
      return Some(out[..]);
    }

    /** Removes the bytes before offset `m` of `curr` (chain position `k`) and
        every node before it, lowering `length` by the number of nodes dropped
        whole. */
    method DropThrough(curr: BufferNode, k: nat, m: nat)
      requires Valid() && k < |Nodes| && curr == Nodes[k] && 0 < m <= |Contents[k]|
      modifies this, curr
      ensures Valid()
      ensures Contents == if m == |old(Contents)[k]| then old(Contents)[k + 1..]
                          else [old(Contents)[k][m..]] + old(Contents)[k + 1..]
      ensures length == old(length) - (|old(Contents)| - |Contents|)
      ensures tail == if Contents == [] then null else old(tail)
    {
      if m == |curr.data| {
        AdvancePast(curr, k);
        length := length - (k + 1);
      } else {
        TrimNode(curr, k, m);
        length := length - k;
      }
    }

    /** Makes the node after `curr` (chain position `k`) the head; when there is
        none, the list is left with no head and no tail. */
    method AdvancePast(curr: BufferNode, ghost k: nat)
      requires Valid() && k < |Nodes| && curr == Nodes[k]
      modifies this
      ensures Valid()
      ensures Contents == old(Contents)[k + 1..]
      ensures tail == if Contents == [] then null else old(tail)
      ensures length == old(length)
    {
      ghost var ns := Nodes;
      assert forall j :: 0 <= j < |ns| ==> LinkedAt(ns, j);
      assert LinkedAt(ns, k);
      if curr.next != null {
        head := curr.next;
      } else {
        head := null;
        tail := null;
      }
      Nodes, Contents := ns[k + 1..], Contents[k + 1..];
      forall i | 0 <= i < |Nodes| ensures LinkedAt(Nodes, i) {
        assert LinkedAt(ns, i + k + 1);
      }
    }

    /** Keeps only the bytes of `curr` (chain position `k`) from offset `m` on and
        makes it the head. */
    method TrimNode(curr: BufferNode, ghost k: nat, m: nat)
      requires Valid() && k < |Nodes| && curr == Nodes[k] && m <= |curr.data|
      modifies this, curr
      ensures Valid()
      ensures Contents == [old(Contents)[k][m..]] + old(Contents)[k + 1..]
      ensures tail == old(tail) && length == old(length)
    {
      ghost var ns := Nodes;
      assert forall j :: 0 <= j < |ns| ==> LinkedAt(ns, j);
      curr.data := curr.data[m..];
      head := curr;
      Nodes, Contents := ns[k..], [curr.data] + Contents[k + 1..];
      forall i | 0 <= i < |Nodes| ensures LinkedAt(Nodes, i) {
        assert LinkedAt(ns, i + k);
      }
    }
  }

  datatype RangeError = RangeError
}
