/** The chain of fixed-size nodes of ByteArray, and that it is a queue of bytes. */
module ByteChain {
  import opened Bytes

  class Node {
    const buf: array<Byte>
    var next: Node?

    constructor (size: nat)
      ensures fresh(buf) && buf.Length == size && next == null
    {
      buf := new Byte[size];
      next := null;
    }
  }

  /** All bytes of a run of nodes, first node first. */
  ghost function Flat(nodes: seq<Node>): seq<Byte>
    reads set n <- nodes :: n.buf
  {
    if nodes == [] then [] else nodes[0].buf[..] + Flat(nodes[1..])
  }

  lemma {:induction false} FlatAppend(nodes: seq<Node>, n: Node)
    ensures Flat(nodes + [n]) == Flat(nodes) + n.buf[..]
  {
    if nodes == [] {
      assert [n][1..] == [];
    } else {
      assert (nodes + [n])[1..] == nodes[1..] + [n];
      FlatAppend(nodes[1..], n);
    }
  }

  /** The bytes of src overwrite those of dst from position at on. */
  method MemCopy(dst: array<Byte>, at: nat, src: seq<Byte>)
    requires at + |src| <= dst.Length
    modifies dst
    ensures dst[..at] == old(dst[..at])
    ensures dst[at..at + |src|] == src
    ensures dst[at + |src|..] == old(dst[at + |src|..])
  {
    var i := 0;
    while i < |src|
      invariant 0 <= i <= |src|
      invariant dst[..at] == old(dst[..at]) && dst[at..at + i] == src[..i]
      invariant dst[at + |src|..] == old(dst[at + |src|..])
    {
      dst[at + i] := src[i];
      i := i + 1;
    }
  }

  class ByteArray {
    /** m_pos, as an offset into the write node's buffer. */
    var pos: nat
    /** m_cur, as an offset into the root node's buffer. */
    var cur: nat
    var size: nat
    const baseSize: nat
    var capacity: nat
    var root: Node
    var writeNode: Node
    /** The chain from root along next. */
    ghost var Nodes: seq<Node>
    /** This object, the nodes and their buffers. */
    ghost var Repr: set<object>

    ghost predicate Linked()
      reads this, Repr
    {
      && this in Repr
      && (forall i :: 0 <= i < |Nodes| ==> Nodes[i] in Repr && Nodes[i].buf in Repr)
      && |Nodes| > 0 && root == Nodes[0] && writeNode == Nodes[|Nodes| - 1]
      && writeNode.next == null
      && (forall i :: 0 <= i < |Nodes| - 1 ==> Nodes[i].next == Nodes[i + 1])
      && (forall i, j :: 0 <= i < j < |Nodes| ==> Nodes[i] != Nodes[j] && Nodes[i].buf != Nodes[j].buf)
      && (forall i :: 0 <= i < |Nodes| ==> Nodes[i].buf.Length == baseSize)
    }

    /** The nodes before the write node are full; the write node holds pos bytes. */
    ghost function Stored(): seq<Byte>
      reads this, Repr
      requires Linked() && pos <= baseSize
    {
      Flat(Nodes[..|Nodes| - 1]) + writeNode.buf[..pos]
    }

    ghost predicate Valid()
      reads this, Repr
      ensures Valid() ==> this in Repr
    {
      && baseSize > 0 && Linked()
      && pos <= baseSize && cur <= baseSize
      && cur <= |Stored()| == cur + size
      && capacity == size + (baseSize - pos)
    }

    /** The bytes written and not yet read, oldest first. */
    ghost function Contents(): seq<Byte>
      reads this, Repr
      requires Valid()
      ensures |Contents()| == size
    {
      Stored()[cur..]
    }

    constructor (size: nat)
      requires size > 0
      ensures Valid() && Contents() == [] && baseSize == size
      ensures fresh(Repr)
    {
      pos, cur, this.size := 0, 0, 0;
      baseSize, capacity := size, size;
      var node := new Node(size);
      root, writeNode := node, node;
      Nodes := [node];
      Repr := {this, node, node.buf};
      new;
      assert Nodes[..0] == [] && Flat([]) == [];
    }

    function UseCapacity(): nat
      reads this
      requires pos <= baseSize
    {
      baseSize - pos
    }

    function ReadLastSize(): nat
      reads this
      requires cur <= baseSize
    {
      baseSize - cur
    }

    /** The write node takes part at m_pos, which moves behind it. */
    method CopyIn(part: seq<Byte>)
      requires Valid() && pos + |part| <= baseSize
      modifies `pos, `size, writeNode.buf
      ensures Valid() && pos == old(pos) + |part|
      ensures Contents() == old(Contents()) + part
    {
      hide Flat;
      ghost var full := Nodes[..|Nodes| - 1];
      MemCopy(writeNode.buf, pos, part);
      assert Flat(full) == old(Flat(full));
      pos := pos + |part|;
      size := size + |part|;
      assert writeNode.buf[..pos] == old(writeNode.buf[..pos]) + part;
      assert Stored() == old(Stored()) + part;
    }

    /** The full write node gets a successor, which becomes the write node. */
    method NextNode()
      requires Valid() && pos == baseSize
      modifies `writeNode, `pos, `capacity, `Nodes, `Repr, writeNode`next
      ensures Valid() && fresh(Repr - old(Repr)) && pos == 0
      ensures Contents() == old(Contents())
      ensures Nodes == old(Nodes) + [writeNode] && fresh(writeNode)
      ensures capacity == old(capacity) + baseSize
    {
      hide Flat;
      ghost var stored := Stored();
      assert stored == Flat(Nodes) by {
        FlatAppend(Nodes[..|Nodes| - 1], writeNode);
        assert Nodes[..|Nodes| - 1] + [writeNode] == Nodes;
        assert writeNode.buf[..pos] == writeNode.buf[..];
      }
      if writeNode.next == null {
        var node := new Node(baseSize);
        writeNode.next := node;
        capacity := capacity + baseSize;
        Nodes := Nodes + [node];
        Repr := Repr + {node, node.buf};
      }
      writeNode := writeNode.next;
      pos := 0;
      assert Nodes[..|Nodes| - 1] == old(Nodes);
      assert Stored() == stored;
    }

    /** write: the queue grows by buf. */
    method Write(buf: seq<Byte>)
      requires Valid()
      modifies Repr
      ensures Valid() && fresh(Repr - old(Repr))
      ensures Contents() == old(Contents()) + buf
    {
      hide Flat;
      var rest := buf;
      while UseCapacity() < |rest|
        invariant Valid() && fresh(Repr - old(Repr))
        invariant Contents() + rest == old(Contents()) + buf
        decreases |rest|, if pos == baseSize then 1 else 0
      {
        var lastSize := UseCapacity();
        CopyIn(rest[..lastSize]);
        rest := rest[lastSize..];
        NextNode();
      }
      CopyIn(rest);
    }

    /** What is left in the root node is all there is exactly when it is also the write node. */
    lemma RootHoldsPrefix()
      requires Valid()
      ensures |Nodes| == 1 ==> Contents() == root.buf[..][cur..pos]
      ensures |Nodes| > 1 ==> root.buf[..][cur..] <= Contents() && root.next == Nodes[1] && root != writeNode
      ensures cur <= (if |Nodes| == 1 then pos else baseSize)
    {
      var full := Nodes[..|Nodes| - 1];
      if |Nodes| > 1 {
        assert Flat(full) == root.buf[..] + Flat(full[1..]);
        assert Stored() == root.buf[..] + (Flat(full[1..]) + writeNode.buf[..pos]);
      } else {
        assert Flat(full) == [];
      }
    }

    /** The root node, read to its end, is given up; m_cur starts on its successor. */
    method DropRoot(lastSize: nat)
      requires Valid() && |Nodes| > 1 && lastSize == baseSize - cur
      modifies this
      ensures Valid() && Repr == old(Repr) && cur == 0 && pos == old(pos) && writeNode == old(writeNode)
      ensures Nodes == old(Nodes)[1..]
      ensures lastSize <= |old(Contents())| && Contents() == old(Contents())[lastSize..]
    {
      RootHoldsPrefix();
      ghost var full := Nodes[..|Nodes| - 1];
      assert Stored() == root.buf[..] + (Flat(full[1..]) + writeNode.buf[..pos]);
      root := root.next;
      cur := 0;
      capacity := capacity - lastSize;
      size := size - lastSize;
      Nodes := Nodes[1..];
      assert Nodes[..|Nodes| - 1] == full[1..];
    }

    /** One turn of the loop of read: everything left in the root node, which is then given up. */
    method TakeRoot() returns (part: seq<Byte>)
      requires Valid() && ReadLastSize() < size
      modifies this
      ensures Valid() && Repr == old(Repr) && pos == old(pos) && writeNode == old(writeNode)
      ensures |part| == old(ReadLastSize()) && part + Contents() == old(Contents())
      ensures |Nodes| < |old(Nodes)|
    {
      hide Flat;
      RootHoldsPrefix();
      assert root.buf == Nodes[0].buf;
      part := root.buf[cur..];
      DropRoot(ReadLastSize());
    }

    /** The last memcpy of read, which stays inside the root node. */
    method CopyOut(n: nat) returns (part: seq<Byte>)
      requires Valid() && n <= size && n <= ReadLastSize()
      modifies `cur, `capacity, `size
      ensures Valid() && |part| == n
      ensures part + Contents() == old(Contents())
    {
      hide Flat;
      RootHoldsPrefix();
      assert root.buf == Nodes[0].buf;
      ghost var queue := Contents();
      part := root.buf[cur..cur + n];
      cur := cur + n;
      capacity := capacity - n;
      size := size - n;
      assert Contents() == queue[n..];
    }

    /** The loop of read and the copy behind it, once there is enough in the queue. */
    method Take(n: nat) returns (buf: seq<Byte>)
      requires Valid() && n <= size
      modifies this
      ensures Valid() && Repr == old(Repr) && writeNode == old(writeNode) && pos == old(pos)
      ensures |buf| == n && buf + Contents() == old(Contents())
    {
      hide Flat, Linked, Stored, Contents;
      ghost var queue := Contents();
      var left: nat := n;
      buf := [];
      while ReadLastSize() < left
        invariant Valid() && Repr == old(Repr) && writeNode == old(writeNode) && pos == old(pos)
        invariant |buf| + left == n && left <= size
        invariant buf + Contents() == queue
        decreases |Nodes|
      {
        var part := TakeRoot();
        ConcatAssociative(buf, part, Contents());
        buf, left := buf + part, left - |part|;
      }
      var part := CopyOut(left);
      ConcatAssociative(buf, part, Contents());
      buf := buf + part;
    }

    /** read: the first n bytes, if there are that many, and otherwise nothing changes. */
    method Read(n: nat) returns (ok: bool, buf: seq<Byte>)
      requires Valid()
      modifies this
      ensures Valid() && Repr == old(Repr) && writeNode == old(writeNode) && pos == old(pos)
      ensures ok == (n <= |old(Contents())|)
      ensures ok ==> buf == old(Contents())[..n] && Contents() == old(Contents())[n..]
      ensures !ok ==> buf == [] && unchanged(this)
    {
      hide Flat;
      if n > size {
        return false, [];
      }
      buf := Take(n);
      ok := true;
    }
  }
}
