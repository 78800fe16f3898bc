/** Any run of writes and reads on a ByteArray is a run on a plain queue of bytes. */
module ByteRuns {
  import opened Bytes
  import opened ByteChain

  datatype Op = Put(bytes: seq<Byte>) | Get(n: nat)

  /** What one operation does to a queue: the bytes it hands out and the queue it leaves. */
  function Effect(queue: seq<Byte>, op: Op): (seq<Byte>, seq<Byte>) {
    match op
    case Put(bytes) => ([], queue + bytes)
    case Get(n) => if n <= |queue| then (queue[..n], queue[n..]) else ([], queue)
  }

  function Effects(queue: seq<Byte>, ops: seq<Op>): (seq<Byte>, seq<Byte>)
    decreases |ops|
  {
    if ops == [] then ([], queue)
    else
      var (out, left) := Effect(queue, ops[0]);
      var (outs, end) := Effects(left, ops[1..]);
      (out + outs, end)
  }

  function Written(ops: seq<Op>): seq<Byte> {
    if ops == [] then []
    else (if ops[0].Put? then ops[0].bytes else []) + Written(ops[1..])
  }

  /** The chain of nodes does what the queue does, over any number of node boundaries. */
  method Run(b: ByteArray, ops: seq<Op>) returns (outs: seq<Byte>)
    requires b.Valid()
    modifies b.Repr
    ensures b.Valid() && fresh(b.Repr - old(b.Repr))
    ensures (outs, b.Contents()) == Effects(old(b.Contents()), ops)
    decreases |ops|
  {
    hide ByteArray.Valid, ByteArray.Contents;
    outs := [];
    if ops != [] {
      match ops[0] {
        case Put(bytes) => b.Write(bytes);
        case Get(n) => var ok, buf := b.Read(n); outs := buf;
      }
      var more := Run(b, ops[1..]);
      outs := outs + more;
    }
  }

  /** First in, first out, and nothing lost: what came out and what is left spell what was there and went in. */
  lemma {:induction false} Conservation(queue: seq<Byte>, ops: seq<Op>)
    ensures var (outs, end) := Effects(queue, ops); outs + end == queue + Written(ops)
    decreases |ops|
  {
    if ops == [] {
      assert [] + queue == queue + Written(ops);
    } else {
      var (out, left) := Effect(queue, ops[0]);
      var (outs, end) := Effects(left, ops[1..]);
      var came := if ops[0].Put? then ops[0].bytes else [];
      assert out + left == queue + came;
      Conservation(left, ops[1..]);
      calc {
        (out + outs) + end;
        { ConcatAssociative(out, outs, end); }
        out + (left + Written(ops[1..]));
        { ConcatAssociative(out, left, Written(ops[1..])); }
        (queue + came) + Written(ops[1..]);
        { ConcatAssociative(queue, came, Written(ops[1..])); }
        queue + Written(ops);
      }
    }
  }
}
