/** The two block queues of one UIPClient socket, as values: what each change of the slot arrays and of
    the memory pool does to the bytes that are queued. */
module SocketQueues {
  import opened MachineInts

  type Handle = nat

  type Pool = map<Handle, seq<UInt8>>

  predicate Distinct(hs: seq<Handle>) {
    forall i, j :: 0 <= i < j < |hs| ==> hs[i] != hs[j]
  }

  /** Every handle names a block of the pool that is not empty. */
  predicate Stored(hs: seq<Handle>, blocks: Pool) {
    forall h :: h in hs ==> h in blocks && blocks[h] != []
  }

  /** The bytes of the blocks, in order. */
  function Joined(hs: seq<Handle>, blocks: Pool): seq<UInt8>
    requires Stored(hs, blocks)
  {
    if hs == [] then [] else Joined(hs[..|hs| - 1], blocks) + blocks[hs[|hs| - 1]]
  }

  /** Occupied input and output slots, the pool, and how far the last output block is filled. */
  datatype Queues = Queues(ins: seq<Handle>, outs: seq<Handle>, blocks: Pool, outPos: nat) {
    predicate Ok() {
      && Distinct(ins + outs) && Stored(ins, blocks) && Stored(outs, blocks)
      && (outs != [] ==> outPos <= |blocks[Last()]|)
    }

    function Last(): Handle
      requires outs != []
    {
      outs[|outs| - 1]
    }

    /** The last output block is full. */
    predicate Full()
      requires Ok() && outs != []
    {
      outPos == |blocks[Last()]|
    }

    function Received(): seq<UInt8>
      requires Ok()
    {
      Joined(ins, blocks)
    }

    /** All output blocks, the last one cut at outPos. */
    function ToSend(): seq<UInt8>
      requires Ok()
    {
      if outs == [] then [] else Joined(outs[..|outs| - 1], blocks) + blocks[Last()][..outPos]
    }

    /** The pool memory that the blocks take. */
    function Held(): nat
      requires Ok()
    {
      |Joined(ins, blocks)| + |Joined(outs, blocks)|
    }

    /** The first output block is these bytes, all of them to be sent. */
    predicate HeadIs(bytes: seq<UInt8>) {
      && outs != [] && outs[0] in blocks && bytes == blocks[outs[0]] && (|outs| == 1 ==> outPos == |bytes|)
    }

    // ----- the changes

    function PushIn(h: Handle, data: seq<UInt8>): Queues {
      Queues(ins + [h], outs, blocks[h := data], outPos)
    }

    function PopIn(): Queues
      requires ins != []
    {
      Queues(ins[1..], outs, blocks - {ins[0]}, outPos)
    }

    /** resizeBlock(handle, k) on the first input block: the first k bytes are dropped. */
    function DropIn(k: nat): Queues
      requires Ok() && ins != [] && k <= |blocks[ins[0]]|
    {
      Queues(ins, outs, blocks[ins[0] := blocks[ins[0]][k..]], outPos)
    }

    function PushOut(h: Handle, block: seq<UInt8>): Queues {
      Queues(ins, outs + [h], blocks[h := block], 0)
    }

    /** writePacket into the last output block at outPos. */
    function Append(bytes: seq<UInt8>): Queues
      requires Ok() && outs != [] && outPos + |bytes| <= |blocks[Last()]|
    {
      var b := blocks[Last()];
      Queues(ins, outs, blocks[Last() := b[..outPos] + bytes + b[outPos + |bytes|..]], outPos + |bytes|)
    }

    /** resizeBlock(handle, 0, outPos) on the only output block: its unwritten tail is cut off. */
    function CutOut(): Queues
      requires Ok() && |outs| == 1
    {
      Queues(ins, outs, blocks[outs[0] := blocks[outs[0]][..outPos]], outPos)
    }

    function PopOut(): Queues
      requires outs != []
    {
      Queues(ins, outs[1..], blocks - {outs[0]}, outPos)
    }
  }

  // ----- blocks outside a list do not matter to it

  lemma {:induction false} JoinedFrame(hs: seq<Handle>, a: Pool, b: Pool)
    requires Stored(hs, a) && forall h :: h in hs ==> h in b && b[h] == a[h]
    ensures Stored(hs, b) && Joined(hs, a) == Joined(hs, b)
    decreases |hs|
  {
    if hs != [] {
      JoinedFrame(hs[..|hs| - 1], a, b);
    }
  }

  lemma {:induction false} JoinedHead(hs: seq<Handle>, blocks: Pool)
    requires hs != [] && Stored(hs, blocks)
    ensures Stored(hs[1..], blocks) && Joined(hs, blocks) == blocks[hs[0]] + Joined(hs[1..], blocks)
    decreases |hs|
  {
    if |hs| > 1 {
      JoinedHead(hs[..|hs| - 1], blocks);
      assert hs[..|hs| - 1][1..] == hs[1..][..|hs| - 2];
    } else {
      assert hs[1..] == [];
    }
  }

  lemma JoinedNone(blocks: Pool)
    ensures Joined([], blocks) == []
  {}

  lemma JoinedLast(hs: seq<Handle>, blocks: Pool)
    requires hs != [] && Stored(hs, blocks)
    ensures Stored(hs[..|hs| - 1], blocks) && Joined(hs, blocks) == Joined(hs[..|hs| - 1], blocks) + blocks[hs[|hs| - 1]]
  {}

  lemma JoinedMore(hs: seq<Handle>, h: Handle, blocks: Pool)
    requires Stored(hs + [h], blocks)
    ensures Stored(hs, blocks) && Joined(hs + [h], blocks) == Joined(hs, blocks) + blocks[h]
  {
    assert forall g :: g in hs ==> g in hs + [h];
    assert (hs + [h])[..|hs|] == hs;
  }

  /** As JoinedFrame, for the output queue. */
  lemma ToSendFrame(q: Queues, blocks: Pool)
    requires q.Ok() && forall h :: h in q.outs ==> h in blocks && blocks[h] == q.blocks[h]
    ensures Stored(q.outs, blocks)
    ensures q.outs != [] ==> q.ToSend() == Joined(q.outs[..|q.outs| - 1], blocks) + blocks[q.Last()][..q.outPos]
  {
    if q.outs != [] {
      JoinedFrame(q.outs[..|q.outs| - 1], q.blocks, blocks);
    }
  }

  lemma DistinctMember(ins: seq<Handle>, outs: seq<Handle>, i: nat, j: nat)
    requires Distinct(ins + outs)
    ensures i < |ins| && j < |outs| ==> ins[i] != outs[j]
    ensures i < |ins| && j < |ins| && i != j ==> ins[i] != ins[j]
    ensures i < |outs| && j < |outs| && i != j ==> outs[i] != outs[j]
  {
    var all := ins + outs;
    assert i < |ins| ==> all[i] == ins[i];
    assert j < |ins| ==> all[j] == ins[j];
    assert i < |outs| ==> all[|ins| + i] == outs[i];
    assert j < |outs| ==> all[|ins| + j] == outs[j];
  }

  lemma NotAmongOthers(q: Queues)
    requires q.Ok()
    ensures q.ins != [] ==> q.ins[0] !in q.outs && q.ins[0] !in q.ins[1..]
    ensures q.outs != [] ==> q.outs[0] !in q.ins && q.outs[0] !in q.outs[1..]
    ensures q.outs != [] ==> q.Last() !in q.ins && q.Last() !in q.outs[..|q.outs| - 1]
  {
    hide Distinct;
    forall i: nat, j: nat
      ensures i < |q.ins| && j < |q.outs| ==> q.ins[i] != q.outs[j]
      ensures i < |q.ins| && j < |q.ins| && i != j ==> q.ins[i] != q.ins[j]
      ensures i < |q.outs| && j < |q.outs| && i != j ==> q.outs[i] != q.outs[j]
    {
      DistinctMember(q.ins, q.outs, i, j);
    }
  }

  // ----- what the changes do to the streams

  lemma PushInEffect(q: Queues, h: Handle, data: seq<UInt8>)
    requires q.Ok() && h !in q.blocks && data != []
    ensures var r := q.PushIn(h, data);
            r.Ok() && r.Received() == q.Received() + data && r.ToSend() == q.ToSend() && r.Held() == q.Held() + |data|
    ensures forall bytes :: q.HeadIs(bytes) ==> q.PushIn(h, data).HeadIs(bytes)
  {
    var r := q.PushIn(h, data);
    assert Distinct(r.ins + r.outs) by { DistinctGrows(q.ins, q.outs, h); }
    JoinedFrame(q.ins, q.blocks, r.blocks);
    JoinedFrame(q.outs, q.blocks, r.blocks);
    ToSendFrame(q, r.blocks);
    JoinedMore(q.ins, h, r.blocks);
  }

  lemma DistinctGrows(ins: seq<Handle>, outs: seq<Handle>, h: Handle)
    requires Distinct(ins + outs) && h !in ins && h !in outs
    ensures Distinct((ins + [h]) + outs) && Distinct(ins + (outs + [h]))
  {
    var all, a, b := ins + outs, (ins + [h]) + outs, ins + (outs + [h]);
    assert forall i :: 0 <= i < |ins| ==> a[i] == all[i] && b[i] == all[i];
    assert forall i :: |ins| < i < |a| ==> a[i] == all[i - 1];
    assert forall i :: |ins| <= i < |all| ==> b[i] == all[i];
  }

  lemma PopInEffect(q: Queues)
    requires q.Ok() && q.ins != []
    ensures var r := q.PopIn();
            r.Ok() && q.Received() == q.blocks[q.ins[0]] + r.Received() && r.ToSend() == q.ToSend()
            && q.Held() == r.Held() + |q.blocks[q.ins[0]]|
    ensures forall bytes :: q.HeadIs(bytes) ==> q.PopIn().HeadIs(bytes)
  {
    hide Distinct, Joined;
    var r := q.PopIn();
    NotAmongOthers(q);
    DistinctTail(q.ins, q.outs);
    JoinedHead(q.ins, q.blocks);
    JoinedFrame(r.ins, q.blocks, r.blocks);
    JoinedFrame(q.outs, q.blocks, r.blocks);
    ToSendFrame(q, r.blocks);
  }

  lemma DistinctTail(ins: seq<Handle>, outs: seq<Handle>)
    requires Distinct(ins + outs) && ins != []
    ensures Distinct(ins[1..] + outs)
  {
    assert ins[1..] + outs == (ins + outs)[1..];
  }

  lemma DropInEffect(q: Queues, k: nat)
    requires q.Ok() && q.ins != [] && k < |q.blocks[q.ins[0]]|
    ensures var r := q.DropIn(k);
            r.Ok() && q.Received() == q.blocks[q.ins[0]][..k] + r.Received() && r.ToSend() == q.ToSend()
            && q.Held() == r.Held() + k
    ensures forall bytes :: q.HeadIs(bytes) ==> q.DropIn(k).HeadIs(bytes)
  {
    hide Distinct, Joined;
    var r := q.DropIn(k);
    NotAmongOthers(q);
    JoinedHead(q.ins, q.blocks);
    JoinedFrame(q.ins[1..], q.blocks, r.blocks);
    assert Stored(r.ins, r.blocks);
    JoinedHead(r.ins, r.blocks);
    JoinedFrame(q.outs, q.blocks, r.blocks);
    ToSendFrame(q, r.blocks);
  }

  lemma PushOutEffect(q: Queues, h: Handle, block: seq<UInt8>)
    requires q.Ok() && h !in q.blocks && block != [] && (q.outs != [] ==> q.Full())
    ensures var r := q.PushOut(h, block);
            r.Ok() && r.Received() == q.Received() && r.ToSend() == q.ToSend() && r.Held() == q.Held() + |block|
    ensures forall bytes :: q.HeadIs(bytes) ==> q.PushOut(h, block).HeadIs(bytes)
  {
    hide Distinct, Joined;
    var r := q.PushOut(h, block);
    DistinctGrows(q.ins, q.outs, h);
    JoinedFrame(q.ins, q.blocks, r.blocks);
    JoinedFrame(q.outs, q.blocks, r.blocks);
    JoinedMore(q.outs, h, r.blocks);
    ToSendFrame(q, r.blocks);
    assert r.outs[..|q.outs|] == q.outs;
    JoinedNone(r.blocks);
    if q.outs != [] {
      JoinedLast(q.outs, r.blocks);
      assert r.blocks[q.Last()][..q.outPos] == r.blocks[q.Last()];
    }
  }

  lemma AppendEffect(q: Queues, bytes0: seq<UInt8>)
    requires q.Ok() && q.outs != [] && q.outPos + |bytes0| <= |q.blocks[q.Last()]|
    ensures var r := q.Append(bytes0);
            r.Ok() && r.Received() == q.Received() && r.ToSend() == q.ToSend() + bytes0
            && (r.Full() <==> q.outPos + |bytes0| == |q.blocks[q.Last()]|) && r.Held() == q.Held()
    ensures forall bytes :: q.HeadIs(bytes) ==> q.Append(bytes0).HeadIs(bytes)
  {
    hide Distinct, Joined;
    var r := q.Append(bytes0);
    NotAmongOthers(q);
    JoinedFrame(q.ins, q.blocks, r.blocks);
    JoinedFrame(q.outs[..|q.outs| - 1], q.blocks, r.blocks);
    FilledUp(q.blocks[q.Last()], q.outPos, bytes0, Joined(q.outs[..|q.outs| - 1], q.blocks));
    JoinedLast(q.outs, q.blocks);
    JoinedLast(r.outs, r.blocks);
  }

  /** Bytes put into a block behind what it is filled with are appended to that. */
  lemma FilledUp(block: seq<UInt8>, at: nat, bytes: seq<UInt8>, before: seq<UInt8>)
    requires at + |bytes| <= |block|
    ensures var filled := block[..at] + bytes + block[at + |bytes|..];
            |filled| == |block| && before + filled[..at + |bytes|] == before + block[..at] + bytes
  {
    var filled := block[..at] + bytes + block[at + |bytes|..];
    assert filled[..at + |bytes|] == block[..at] + bytes;
  }

  lemma CutOutEffect(q: Queues)
    requires q.Ok() && |q.outs| == 1 && q.outPos > 0
    ensures var r := q.CutOut();
            r.Ok() && r.Received() == q.Received() && r.ToSend() == q.ToSend() && r.HeadIs(r.ToSend()) && r.ToSend() != []
            && q.Held() == r.Held() + (|q.blocks[q.outs[0]]| - q.outPos)
    ensures forall bytes :: q.HeadIs(bytes) ==> q.CutOut() == q
  {
    var r := q.CutOut();
    NotAmongOthers(q);
    JoinedFrame(q.ins, q.blocks, r.blocks);
    assert q.outs[..0] == [];
    JoinedNone(r.blocks);
    JoinedNone(q.blocks);
    forall bytes | q.HeadIs(bytes) ensures r == q {
      assert q.blocks[q.outs[0]][..q.outPos] == q.blocks[q.outs[0]];
    }
  }

  /** Removing the first output block: it was the head of the stream, provided it is sent in full. */
  lemma PopOutEffect(q: Queues, bytes: seq<UInt8>)
    requires q.Ok() && q.HeadIs(bytes)
    ensures var r := q.PopOut();
            r.Ok() && r.Received() == q.Received() && q.ToSend() == bytes + r.ToSend() && q.Held() == r.Held() + |bytes|
  {
    hide Distinct, Joined;
    var r := q.PopOut();
    NotAmongOthers(q);
    DistinctShrinks(q.ins, q.outs);
    JoinedFrame(q.ins, q.blocks, r.blocks);
    HeldBehind(q.outs, q.blocks, r.blocks);
    ToSendBehind(q, bytes);
  }

  lemma ToSendBehind(q: Queues, bytes: seq<UInt8>)
    requires q.Ok() && q.HeadIs(bytes) && q.PopOut().Ok() && q.outs[0] !in q.outs[1..]
    ensures q.ToSend() == bytes + q.PopOut().ToSend()
  {
    hide Distinct, Joined;
    if |q.outs| > 1 {
      ToSendTail(q.outs, q.blocks, q.PopOut().blocks, q.outPos);
    } else {
      JoinedNone(q.blocks);
      assert q.outs[..0] == [];
      assert q.blocks[q.outs[0]][..q.outPos] == q.blocks[q.outs[0]];
    }
  }

  /** Without its first block a list holds just that much less. */
  lemma HeldBehind(hs: seq<Handle>, a: Pool, b: Pool)
    requires hs != [] && Stored(hs, a) && forall h :: h in hs[1..] ==> h in b && b[h] == a[h]
    ensures Stored(hs[1..], b) && |Joined(hs, a)| == |a[hs[0]]| + |Joined(hs[1..], b)|
  {
    hide Joined;
    JoinedHead(hs, a);
    JoinedFrame(hs[1..], a, b);
  }

  /** The output stream without its first block. */
  lemma ToSendTail(outs: seq<Handle>, a: Pool, b: Pool, outPos: nat)
    requires |outs| > 1 && Stored(outs, a) && outPos <= |a[outs[|outs| - 1]]|
    requires forall h :: h in outs[1..] ==> h in b && b[h] == a[h]
    ensures Stored(outs[1..], b) && Stored(outs[..|outs| - 1], a) && Stored(outs[1..][..|outs| - 2], b)
    ensures Joined(outs[..|outs| - 1], a) + a[outs[|outs| - 1]][..outPos]
         == a[outs[0]] + (Joined(outs[1..][..|outs| - 2], b) + b[outs[|outs| - 1]][..outPos])
  {
    hide Joined;
    var init := outs[..|outs| - 1];
    assert outs[|outs| - 1] == outs[1..][|outs| - 2];
    JoinedHead(init, a);
    assert init[1..] == outs[1..][..|outs| - 2];
    JoinedFrame(init[1..], a, b);
  }

  lemma DistinctShrinks(ins: seq<Handle>, outs: seq<Handle>)
    requires Distinct(ins + outs) && outs != []
    ensures Distinct(ins + outs[1..])
  {
    var all, a := ins + outs, ins + outs[1..];
    assert forall i :: 0 <= i < |a| ==> a[i] == all[if i < |ins| then i else i + 1];
  }

  /** A first output block that is not the only one is sent in full. */
  lemma HeadOfMany(q: Queues)
    requires q.Ok() && |q.outs| > 1
    ensures q.HeadIs(q.blocks[q.outs[0]]) && q.blocks[q.outs[0]] != [] && q.ToSend() != []
  {
    JoinedHead(q.outs[..|q.outs| - 1], q.blocks);
  }
}
