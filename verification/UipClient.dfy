/** UIPClient: the slot arrays that the user side (_write, read, _available) and the network callback
    (uipclient_appcall) change in turn, and the bytes that go through them. */
module UipClient {
  import opened Arithmetic
  import opened MachineInts
  import opened SocketQueues

  const NOBLOCK: nat := 0
  const NUMPACKETS: nat := 5

  /** The first n slots are occupied, and no others. */
  predicate Packed(slots: seq<Handle>, n: nat) {
    && n <= |slots| == NUMPACKETS
    && (forall i :: 0 <= i < n ==> slots[i] != NOBLOCK)
    && (forall i :: n <= i < |slots| ==> slots[i] == NOBLOCK)
  }

  /** The connection ends in the course of these events. */
  predicate Ends(events: seq<Event>) {
    exists k :: 0 <= k < |events| && events[k].Closed?
  }

  lemma EndsSoFar(events: seq<Event>, k: nat)
    requires k < |events|
    ensures Ends(events[..k + 1]) <==> Ends(events[..k]) || events[k].Closed?
  {
    assert forall j :: 0 <= j < k ==> events[..k + 1][j] == events[..k][j];
    assert events[..k + 1][k] == events[k];
  }

  lemma EndsAtFirst(events: seq<Event>)
    ensures !Ends(events[..0]) && events[..|events|] == events
  {}

  predicate TimeUp(turns: seq<Turn>) {
    exists t :: 0 <= t < |turns| && turns[t].timeUp
  }

  lemma OneQuietTurn()
    ensures !TimeUp([Turn([], false)])
  {}

  lemma OnTime(turns: seq<Turn>, t: nat)
    requires t < |turns|
    ensures !TimeUp(turns) ==> !turns[t].timeUp
    ensures TimeUp(turns[..t + 1]) <==> TimeUp(turns[..t]) || turns[t].timeUp
    ensures turns[..|turns|] == turns
  {
    assert forall s :: 0 <= s < t ==> turns[..t + 1][s] == turns[..t][s];
    assert turns[..t + 1][t] == turns[t];
  }

  lemma NoTurns(turns: seq<Turn>)
    ensures !TimeUp(turns[..0]) && turns[..|turns|] == turns
  {}

  /** The first n of the bytes have been appended. */
  predicate Appended(before: seq<UInt8>, now: seq<UInt8>, bytes: seq<UInt8>, n: nat) {
    n <= |bytes| && now == before + bytes[..n]
  }

  lemma AppendedNone(before: seq<UInt8>, bytes: seq<UInt8>)
    ensures Appended(before, before, bytes, 0)
  {
    assert before + bytes[..0] == before;
  }

  lemma AppendedMore(before: seq<UInt8>, between: seq<UInt8>, now: seq<UInt8>, bytes: seq<UInt8>, n: nat, k: nat)
    requires n <= |bytes| && Appended(before, between, bytes, n) && Appended(between, now, bytes[n..], k)
    ensures n + k <= |bytes| && Appended(before, now, bytes, n + k)
  {
    assert bytes[..n] + bytes[n..][..k] == bytes[..n + k];
  }

  /** A history has grown at its end. */
  ghost predicate Extends<T>(a: seq<T>, b: seq<T>) { a <= b }

  lemma PackedMore(slots: seq<Handle>, n: nat, h: Handle)
    requires Packed(slots, n) && n < NUMPACKETS && h != NOBLOCK
    ensures Packed(slots[n := h], n + 1) && slots[n := h][..n + 1] == slots[..n] + [h]
  {}

  lemma PackedLess(slots: seq<Handle>, n: nat)
    requires Packed(slots, n) && n > 0
    ensures Packed(slots[1..] + [NOBLOCK], n - 1) && (slots[1..] + [NOBLOCK])[..n - 1] == slots[..n][1..]
  {}

  lemma PackedNone(slots: seq<Handle>)
    requires |slots| == NUMPACKETS && forall i :: 0 <= i < |slots| ==> slots[i] == NOBLOCK
    ensures Packed(slots, 0)
  {}

  /** A segment that uIP has taken over and that is not yet acknowledged. */
  datatype Segment = NoSegment | Unacked(bytes: seq<UInt8>)

  /** What uIP reports to an open connection, and other sockets taking or giving pool memory. */
  datatype Event =
    | NewData(data: seq<UInt8>)
    | Acked(data: seq<UInt8>)
    | Poll
    | Rexmit
    | Closed(data: seq<UInt8>)
    | RoomChanged(room: nat)

  /** One pass through the waiting loop of _write: what tick() delivers, and whether the time is up. */
  datatype Turn = Turn(events: seq<Event>, timeUp: bool)

  /** Done carries what _write returns; Waiting means the turns ended while it was still looping. */
  datatype WriteResult = Done(count: nat) | Waiting

  /** The segment is what has been written from the given offset on. */
  predicate SliceAt(written: seq<UInt8>, offset: nat, segment: seq<UInt8>) {
    segment != [] && offset + |segment| <= |written| && written[offset..offset + |segment|] == segment
  }

  /** Of two segments put on the network one after the other, the second is the first again, or lies behind it in
      the stream. */
  predicate AgainOrBehind(offset: nat, segment: seq<UInt8>, later: nat, laterSegment: seq<UInt8>) {
    (later == offset && laterSegment == segment) || offset + |segment| <= later
  }

  /** Each segment on the network is the part of the written stream at its offset; sent again it is the same; and
      what lies at the first unacknowledged byte is the segment that uIP has taken over. */
  ghost predicate InStep(wire: seq<seq<UInt8>>, offsets: seq<nat>, acked: seq<UInt8>, written: seq<UInt8>,
                         last: Segment, cutOff: bool) {
    && |offsets| == |wire|
    && (forall k :: 0 <= k < |wire| ==> SliceAt(written, offsets[k], wire[k]))
    && (forall k :: 0 <= k < |wire| ==>
          offsets[k] + |wire[k]| <= |acked| || (offsets[k] == |acked| && (cutOff || last == Unacked(wire[k]))))
    && (forall j, k :: 0 <= j < k < |wire| ==> AgainOrBehind(offsets[j], wire[j], offsets[k], wire[k]))
  }

  /** A segment at the first unacknowledged byte goes out, for the first time or again. */
  lemma SentInStep(wire: seq<seq<UInt8>>, offsets: seq<nat>, acked: seq<UInt8>, written: seq<UInt8>, last: Segment,
                   segment: seq<UInt8>)
    requires InStep(wire, offsets, acked, written, last, false)
    requires SliceAt(written, |acked|, segment) && (last.Unacked? ==> last.bytes == segment)
    ensures InStep(wire, offsets, acked, written, Unacked(segment), false)
    ensures InStep(wire + [segment], offsets + [|acked|], acked, written, Unacked(segment), false)
  {
    hide SliceAt;
    SlicesNotEmpty(written);
    var w, o := wire + [segment], offsets + [|acked|];
    forall j, k | 0 <= j < k < |w| ensures AgainOrBehind(o[j], w[j], o[k], w[k]) {
      assert k == |wire| ==> o[k] == |acked| && w[k] == segment;
      assert w[j] == wire[j] && o[j] == offsets[j];
    }
  }

  lemma SlicesNotEmpty(written: seq<UInt8>)
    ensures forall offset, segment :: SliceAt(written, offset, segment) ==> segment != []
  {}

  lemma AckedInStep(wire: seq<seq<UInt8>>, offsets: seq<nat>, acked: seq<UInt8>, written: seq<UInt8>,
                    segment: seq<UInt8>)
    requires InStep(wire, offsets, acked, written, Unacked(segment), false)
    ensures InStep(wire, offsets, acked + segment, written, NoSegment, false)
  {
    hide SliceAt, AgainOrBehind;
  }

  lemma WrittenInStep(wire: seq<seq<UInt8>>, offsets: seq<nat>, acked: seq<UInt8>, written: seq<UInt8>, last: Segment,
                      cutOff: bool, more: seq<UInt8>)
    requires InStep(wire, offsets, acked, written, last, cutOff)
    ensures InStep(wire, offsets, acked, written + more, last, cutOff)
  {
    hide AgainOrBehind;
    forall k | 0 <= k < |wire| ensures SliceAt(written + more, offsets[k], wire[k]) {
      assert SliceAt(written, offsets[k], wire[k]);
      assert (written + more)[offsets[k]..offsets[k] + |wire[k]|] == written[offsets[k]..offsets[k] + |wire[k]|];
    }
  }

  lemma CutInStep(wire: seq<seq<UInt8>>, offsets: seq<nat>, acked: seq<UInt8>, written: seq<UInt8>, last: Segment)
    requires InStep(wire, offsets, acked, written, last, false)
    ensures InStep(wire, offsets, acked, written, NoSegment, true)
  {
    hide SliceAt, AgainOrBehind;
  }

  /** What has been put on the network since lies at or behind the given offset. */
  ghost predicate SentSince(before: seq<seq<UInt8>>, wire: seq<seq<UInt8>>, offsets: seq<nat>, from: nat) {
    before <= wire && |offsets| == |wire| && forall k :: |before| <= k < |wire| ==> offsets[k] >= from
  }

  lemma SentNothing(wire: seq<seq<UInt8>>, offsets: seq<nat>, from: nat)
    requires |offsets| == |wire|
    ensures SentSince(wire, wire, offsets, from)
  {}

  lemma SentOne(wire: seq<seq<UInt8>>, offsets: seq<nat>, from: nat)
    requires |offsets| == |wire|
    ensures forall segment, at: nat :: at >= from ==> SentSince(wire, wire + [segment], offsets + [at], from)
  {}

  lemma SentMore(a: seq<seq<UInt8>>, b: seq<seq<UInt8>>, between: seq<nat>, c: seq<seq<UInt8>>, offsets: seq<nat>,
                 from: nat, later: nat)
    requires SentSince(a, b, between, from) && SentSince(b, c, offsets, later) && from <= later
    requires Extends(between, offsets)
    ensures SentSince(a, c, offsets, from)
  {}

  /** Segments between two acknowledgements are all the same. */
  lemma SameUntilAcked(before: seq<seq<UInt8>>, wire: seq<seq<UInt8>>, offsets: seq<nat>, acked: seq<UInt8>,
                       written: seq<UInt8>, last: Segment, cutOff: bool)
    requires InStep(wire, offsets, acked, written, last, cutOff) && SentSince(before, wire, offsets, |acked|)
    ensures forall j, k :: |before| <= j < k < |wire| ==> wire[j] == wire[k]
  {
    hide SliceAt;
    SlicesNotEmpty(written);
    forall j, k | |before| <= j < k < |wire| ensures wire[j] == wire[k] {
      assert AgainOrBehind(offsets[j], wire[j], offsets[k], wire[k]);
      assert SliceAt(written, offsets[j], wire[j]) && SliceAt(written, offsets[k], wire[k]);
    }
  }

  /** One new block uses one free slot and serves as many bytes as a block holds. */
  lemma OneBlockLess(dataLen: nat, slots: nat, room: nat)
    requires dataLen > 0 && slots > 0 && room >= dataLen
    ensures dataLen * Min(slots, room / dataLen) == dataLen + dataLen * Min(slots - 1, (room - dataLen) / dataLen)
  {
    DivisionRest(room, dataLen);
    QuotientIs(room - dataLen, dataLen, room / dataLen - 1);
    NextMultiple(Min(slots, room / dataLen) - 1, dataLen);
    assert dataLen * Min(slots, room / dataLen) == Min(slots, room / dataLen) * dataLen;
  }

  lemma Distribute(d: int, a: int, b: int)
    ensures d * (a - b) == d * a - d * b && d * (a + b) == d * a + d * b
  {}

  lemma MinIs(a: int, b: int)
    ensures (a <= b ==> Min(a, b) == a) && (b <= a ==> Min(a, b) == b)
  {}

  lemma NoBlockMore(dataLen: nat, slots: nat, room: nat)
    requires dataLen > 0 && (slots == 0 || room < dataLen)
    ensures dataLen * Min(slots, room / dataLen) == 0
  {
    QuotientNotNegative(room, dataLen);
    if room < dataLen {
      QuotientIs(room, dataLen, 0);
    }
  }

  lemma BlocksNotNegative(dataLen: nat, slots: nat, room: nat)
    requires dataLen > 0
    ensures dataLen * Min(slots, room / dataLen) >= 0
  {
    QuotientNotNegative(room, dataLen);
    MulMono(0, Min(slots, room / dataLen), dataLen);
  }

  class Connection {
    const dataLen: UInt16 // UIP_SOCKET_DATALEN
    const headerLen: nat // pool bytes that a packet needs besides its data
    const packetsIn: array<Handle>
    const packetsOut: array<Handle>
    var outPos: nat
    var closing: bool // UIP_CLIENT_CLOSE
    var remoteClosed: bool // UIP_CLIENT_REMOTECLOSED
    var gone: bool // state == 0
    var attached: bool // the UIPClient still points to this socket
    var restart: bool // UIP_CLIENT_RESTART
    var stopped: bool // UIP_STOPPED of the uIP connection
    var outstanding: Segment
    var wire: seq<seq<UInt8>> // segments put on the network

    // The memory pool of Enc28J60Network, as far as this connection sees it.
    var blocks: Pool
    var room: nat
    var nextHandle: Handle

    // History.
    ghost var nIn: nat
    ghost var nOut: nat
    ghost var accepted: seq<UInt8> // taken from uIP
    ghost var returned: seq<UInt8> // handed to the user by read
    ghost var written: seq<UInt8> // taken from the user by _write
    ghost var acked: seq<UInt8> // acknowledged by the peer
    ghost var thrownAway: bool // stop() has thrown the input away
    ghost var cutOff: bool // the connection has ended under the socket, and the output queue with it
    ghost var pool: nat // memory that is free or held by this connection
    ghost var offsets: seq<nat> // how many bytes were acknowledged when each segment was put on the network

    ghost function View(): Queues
      reads this`nIn, this`nOut, this`blocks, this`outPos, packetsIn, packetsOut
      requires nIn <= packetsIn.Length && nOut <= packetsOut.Length
    {
      Queues(packetsIn[..nIn], packetsOut[..nOut], blocks, outPos)
    }

    /** Occupied slots are a prefix, no two slots share a block, and no block is empty. What the blocks do not take is
        free. */
    ghost predicate SlotsOk()
      reads this`nIn, this`nOut, this`blocks, this`outPos, this`nextHandle, this`room, this`pool, packetsIn, packetsOut
    {
      && packetsIn != packetsOut && dataLen > 0
      && Packed(packetsIn[..], nIn) && Packed(packetsOut[..], nOut) && View().Ok()
      && nextHandle > 0 && (forall h :: h in blocks ==> 0 < h < nextHandle)
      && room + View().Held() == pool
    }

    /** Nothing received is lost, repeated or reordered, until stop() throws the input away. Nothing
        written is lost, repeated or reordered, until the connection ends. An unacknowledged segment is exactly
        the first block. */
    ghost predicate StreamsOk(q: Queues)
      reads this`thrownAway, this`returned, this`accepted, this`cutOff, this`acked, this`written, this`outstanding
      requires q.Ok()
    {
      && (!thrownAway ==> returned + q.Received() == accepted)
      && (!cutOff ==> acked + q.ToSend() == written)
      && (outstanding.Unacked? ==> q.HeadIs(outstanding.bytes))
    }

    /** When input has been thrown away or the connection has ended, and what is left of it then. */
    ghost predicate StatesOk(q: Queues)
      reads this`closing, this`thrownAway, this`attached, this`gone, this`cutOff, this`remoteClosed
    {
      && (closing ==> thrownAway) && (attached || closing || gone)
      && (thrownAway ==> q.ins == [] && (closing || gone) && !attached)
      && (cutOff ==> q.outs == [] && (remoteClosed || gone))
      && (remoteClosed ==> cutOff && !closing && !gone)
      && (gone ==> q.ins == [] && q.outs == [] && (cutOff || thrownAway))
    }

    ghost predicate WireOk()
      reads this`wire, this`offsets, this`acked, this`written, this`outstanding, this`cutOff
    {
      InStep(wire, offsets, acked, written, outstanding, cutOff)
    }

    ghost predicate Valid()
      reads this, packetsIn, packetsOut
    {
      SlotsOk() && StreamsOk(View()) && StatesOk(View()) && WireOk()
    }

    /** The received bytes that read has not returned. */
    ghost function QueuedIn(): seq<UInt8>
      reads this, packetsIn, packetsOut
      requires Valid()
    {
      View().Received()
    }

    /** The written bytes that are not acknowledged. */
    ghost function QueuedOut(): seq<UInt8>
      reads this, packetsIn, packetsOut
      requires Valid()
    {
      View().ToSend()
    }

    constructor (dataLen: UInt16, headerLen: nat, room: nat)
      requires dataLen > 0
      ensures Valid() && attached && !closing && !remoteClosed && !gone && nIn == 0 && nOut == 0 && outstanding == NoSegment
      ensures fresh(packetsIn) && fresh(packetsOut) && this.dataLen == dataLen && this.room == room
      ensures accepted == [] && returned == [] && written == [] && acked == [] && wire == []
      ensures !restart && !stopped
    {
      this.dataLen, this.headerLen := dataLen, headerLen;
      packetsIn := new Handle[NUMPACKETS](_ => NOBLOCK);
      packetsOut := new Handle[NUMPACKETS](_ => NOBLOCK);
      outPos, closing, gone, restart, stopped, outstanding, wire := 0, false, false, false, false, NoSegment, [];
      blocks, this.room, nextHandle, pool := map[], room, 1, room;
      remoteClosed, attached, thrownAway, cutOff := false, true, false, false;
      nIn, nOut, accepted, returned, written, acked, offsets := 0, 0, [], [], [], [], [];
    }

    // ----- memory pool

    /** allocBlock: a fresh block, or NOBLOCK when the size is 0 or there is not enough room. */
    method AllocBlock(size: nat) returns (h: Handle)
      requires nextHandle > 0 && forall h :: h in blocks ==> 0 < h < nextHandle
      modifies this`blocks, this`room, this`nextHandle
      ensures h == NOBLOCK <==> size == 0 || size > old(room)
      ensures h == NOBLOCK ==> blocks == old(blocks) && room == old(room) && nextHandle == old(nextHandle)
      ensures h != NOBLOCK ==> h !in old(blocks) && h in blocks && |blocks[h]| == size && blocks == old(blocks)[h := blocks[h]]
      ensures h != NOBLOCK ==> h == old(nextHandle) && nextHandle == h + 1 && room == old(room) - size
    {
      if size == 0 || size > room {
        return NOBLOCK;
      }
      h := nextHandle;
      blocks := blocks[h := seq(size, _ => 0)];
      room := room - size;
      nextHandle := nextHandle + 1;
    }

    method FreeBlock(h: Handle)
      modifies this`blocks, this`room
      ensures blocks == old(blocks) - {h}
      ensures room == old(room) + if h != NOBLOCK && h in old(blocks) then |old(blocks)[h]| else 0
    {
      if h != NOBLOCK && h in blocks {
        room := room + |blocks[h]|;
      }
      blocks := blocks - {h};
    }

    function BlockSize(h: Handle): nat
      reads this
    {
      if h != NOBLOCK && h in blocks then |blocks[h]| else 0
    }

    // ----- slot arrays

    /** _currentBlock: the last occupied slot, or slot 0. */
    method CurrentBlock(slots: array<Handle>, ghost n: nat) returns (p: nat)
      requires Packed(slots[..], n)
      ensures p == if n == 0 then 0 else n - 1
    {
      for i := 1 to NUMPACKETS
        invariant n >= i || i == 1
      {
        assert slots[..][i] == slots[i] && slots[..][i - 1] == slots[i - 1];
        if slots[i] == NOBLOCK {
          return i - 1;
        }
      }
      return NUMPACKETS - 1;
    }

    /** _eatBlock: free the first block and shift the others down. */
    method EatBlock(slots: array<Handle>)
      requires slots.Length == NUMPACKETS
      modifies this`blocks, this`room, slots
      ensures slots[..] == old(slots[..])[1..] + [NOBLOCK]
      ensures blocks == old(blocks) - {old(slots[0])} && room == old(room + BlockSize(slots[0]))
    {
      FreeBlock(slots[0]);
      for i := 0 to NUMPACKETS - 1
        modifies slots
        invariant forall k :: 0 <= k < i ==> slots[k] == old(slots[k + 1])
        invariant forall k :: i <= k < NUMPACKETS ==> slots[k] == old(slots[k])
      {
        slots[i] := slots[i + 1];
      }
      slots[NUMPACKETS - 1] := NOBLOCK;
    }

    /** _flushBlocks: every block is freed and every slot emptied. */
    method FlushBlocks(slots: array<Handle>, ghost n: nat)
      requires Packed(slots[..], n) && Distinct(slots[..n]) && Stored(slots[..n], blocks) && NOBLOCK !in blocks
      modifies this`blocks, this`room, slots
      ensures forall k :: 0 <= k < NUMPACKETS ==> slots[k] == NOBLOCK
      ensures blocks == old(blocks) - set h | h in old(slots[..])
      ensures room == old(room) + |Joined(old(slots[..n]), old(blocks))|
    {
      hide Packed, Distinct, Stored, Joined;
      PackedSize(slots[..], n);
      ghost var hs := slots[..n];
      FreedNone(hs, blocks);
      for i := 0 to NUMPACKETS
        modifies this`blocks, this`room, slots
        invariant forall k :: 0 <= k < i ==> slots[k] == NOBLOCK
        invariant forall k :: i <= k < NUMPACKETS ==> slots[k] == old(slots[k])
        invariant blocks == old(blocks) - set h | h in old(slots[..])[..i]
        invariant room == old(room) + Freed(hs, old(blocks), i)
      {
        FreedMore(old(slots[..]), n, old(blocks), i);
        FreeBlock(slots[i]);
        slots[i] := NOBLOCK;
        assert old(slots[..])[..i + 1] == old(slots[..])[..i] + [old(slots[i])];
      }
      FreedAll(hs, old(blocks));
      assert old(slots[..])[..NUMPACKETS] == old(slots[..]);
    }

    lemma SlotTaken(i: nat)
      requires SlotsOk() && i < NUMPACKETS
      ensures packetsIn[i] != NOBLOCK <==> i < nIn
      ensures packetsOut[i] != NOBLOCK <==> i < nOut
      ensures i < nIn ==> packetsIn[i] == View().ins[i]
      ensures i < nOut ==> packetsOut[i] == View().outs[i]
    {
      assert packetsIn[..][i] == packetsIn[i] && packetsOut[..][i] == packetsOut[i];
    }

    lemma BlockIsStored(i: nat)
      requires SlotsOk()
      ensures i < nIn ==> packetsIn[i] in blocks && BlockSize(packetsIn[i]) == |blocks[packetsIn[i]]| > 0
      ensures i < nOut ==> packetsOut[i] in blocks && BlockSize(packetsOut[i]) == |blocks[packetsOut[i]]| > 0
    {
      assert i < nIn ==> packetsIn[..nIn][i] in View().ins;
      assert i < nOut ==> packetsOut[..nOut][i] in View().outs;
    }

    /** The bytes in the first i input slots. */
    ghost function BytesBefore(i: nat): nat
      reads this, packetsIn, packetsOut
      requires SlotsOk()
    {
      var k := if i < nIn then i else nIn;
      assert forall h :: h in View().ins[..k] ==> h in View().ins;
      |Joined(View().ins[..k], blocks)|
    }

    lemma BytesBeforeNext(i: nat)
      requires SlotsOk() && i < NUMPACKETS
      ensures BytesBefore(i + 1) == BytesBefore(i) + BlockSize(packetsIn[i])
    {
      SlotTaken(i);
      BlockIsStored(i);
      if i < nIn {
        var ins := View().ins;
        assert ins[..i + 1] == ins[..i] + [ins[i]];
        assert forall h :: h in ins[..i + 1] ==> h in ins;
        JoinedMore(ins[..i], ins[i], blocks);
      }
    }

    lemma BytesBeforeEnds()
      requires SlotsOk()
      ensures BytesBefore(0) == 0 && BytesBefore(NUMPACKETS) == |View().Received()|
    {
      JoinedNone(blocks);
      assert View().ins[..nIn] == View().ins;
    }

    /** _available: the number of received bytes still queued. */
    method Available() returns (len: nat)
      requires Valid()
      ensures len == |QueuedIn()|
    {
      hide SlotsOk, BytesBefore;
      len := 0;
      BytesBeforeEnds();
      for i := 0 to NUMPACKETS
        invariant SlotsOk() && len == BytesBefore(i)
      {
        BytesBeforeNext(i);
        ArraysSized();
        len := len + BlockSize(packetsIn[i]);
      }
    }

    lemma ArraysSized()
      requires SlotsOk()
      ensures packetsIn.Length == NUMPACKETS == packetsOut.Length && packetsIn != packetsOut
      ensures nIn <= NUMPACKETS && nOut <= NUMPACKETS && View().Ok() && |View().ins| == nIn && |View().outs| == nOut
    {}

    lemma SlotsAre()
      requires SlotsOk()
      ensures nextHandle > 0 && dataLen > 0 && forall h :: h in blocks ==> 0 < h < nextHandle
      ensures Packed(packetsIn[..], nIn) && Packed(packetsOut[..], nOut)
      ensures View() == Queues(packetsIn[..nIn], packetsOut[..nOut], blocks, outPos)
      ensures View().Ok() && room + View().Held() == pool
    {}

    // ----- uipclient_appcall

    /** Allocate a block for the empty slot i and copy the packet into it. */
    method StoreInSlot(i: nat, data: seq<UInt8>) returns (took: bool)
      requires Valid() && nIn <= i < NUMPACKETS && data != [] && (i == nIn || |data| > room)
      requires !closing && !gone && !remoteClosed
      modifies this`blocks, this`room, this`nextHandle, this`stopped, this`nIn, this`accepted, packetsIn
      ensures Valid() && took == (|data| <= old(room))
      ensures if took then accepted == old(accepted) + data && nIn == old(nIn) + 1
              else accepted == old(accepted) && nIn == old(nIn) && room == old(room)
      ensures stopped <==> old(stopped) || (took && i == NUMPACKETS - 1)
    {
      hide SlotsOk, StreamsOk, StatesOk, WireOk, View, Packed, Distinct, Joined, Queues.Ok, Queues.ToSend, Queues.Received;
      hide Queues.HeadIs;
      SlotTaken(i);
      ArraysSized();
      SlotsAre();
      var h := AllocBlock(|data|);
      if h != NOBLOCK {
        FillSlot(i, h, data, old(blocks));
        if i == NUMPACKETS - 1 {
          stopped := true;
        }
      }
      took := h != NOBLOCK;
    }

    /** Put the handle of a block just allocated in the first free slot, and the packet in the block. */
    method FillSlot(i: nat, h: Handle, data: seq<UInt8>, ghost before: Pool)
      requires h in blocks && blocks == before[h := blocks[h]] && h !in before && nextHandle == h + 1 && h != NOBLOCK
      requires packetsIn.Length == NUMPACKETS == packetsOut.Length && nIn <= NUMPACKETS && nOut <= NUMPACKETS
      requires packetsIn != packetsOut && dataLen > 0 && data != [] && i == nIn < NUMPACKETS
      requires !closing && !gone && !remoteClosed
      requires Packed(packetsIn[..], nIn) && Packed(packetsOut[..], nOut)
      requires forall g :: g in before ==> 0 < g < h
      requires var q := Queues(packetsIn[..nIn], packetsOut[..nOut], before, outPos);
               q.Ok() && StreamsOk(q) && StatesOk(q) && WireOk() && room + q.Held() + |data| == pool
      modifies this`blocks, this`nIn, this`accepted, packetsIn
      ensures Valid() && accepted == old(accepted) + data && nIn == old(nIn) + 1
    {
      hide SlotsOk, Joined, Distinct, Queues.ToSend, Queues.Received, Queues.Ok, Queues.HeadIs, Packed;
      ghost var q := Queues(packetsIn[..nIn], packetsOut[..nOut], before, outPos);
      PushInEffect(q, h, data);
      FillInput(i, h, data, before);
      Regroup(returned, q.Received(), data);
      accepted := accepted + data;
    }

    /** Filling the first free input slot, as far as the slots are concerned. */
    method FillInput(i: nat, h: Handle, data: seq<UInt8>, ghost before: Pool)
      requires h in blocks && blocks == before[h := blocks[h]] && h !in before && nextHandle == h + 1 && h != NOBLOCK
      requires packetsIn.Length == NUMPACKETS == packetsOut.Length && nIn <= NUMPACKETS && nOut <= NUMPACKETS
      requires packetsIn != packetsOut && dataLen > 0 && data != [] && i == nIn < NUMPACKETS
      requires Packed(packetsIn[..], nIn) && Packed(packetsOut[..], nOut)
      requires forall g :: g in before ==> 0 < g < h
      requires Queues(packetsIn[..nIn], packetsOut[..nOut], before, outPos).Ok()
      requires room + Queues(packetsIn[..nIn], packetsOut[..nOut], before, outPos).Held() + |data| == pool
      modifies this`blocks, this`nIn, packetsIn
      ensures SlotsOk() && nIn == old(nIn) + 1
      ensures View() == Queues(old(packetsIn[..nIn]), packetsOut[..nOut], before, outPos).PushIn(h, data)
    {
      hide Joined, Distinct, Queues.ToSend, Queues.Received, Queues.Ok, Queues.HeadIs, Packed;
      ghost var q := Queues(packetsIn[..nIn], packetsOut[..nOut], before, outPos);
      PushInEffect(q, h, data);
      PackedMore(packetsIn[..], nIn, h);
      packetsIn[i] := h;
      blocks := blocks[h := data];
      nIn := nIn + 1;
      assert packetsIn[..] == old(packetsIn[..])[i := h];
      assert View() == q.PushIn(h, data);
    }

    /** The new-data part: store the packet in the first free slot, or refuse it and stop the peer. */
    method TakeNewData(data: seq<UInt8>) returns (took: bool)
      requires Valid() && !remoteClosed
      modifies this`blocks, this`room, this`nextHandle, this`stopped, this`nIn, this`accepted, packetsIn
      ensures Valid()
      ensures nIn == old(nIn) + if took then 1 else 0
      ensures took <==> data != [] && !gone && !closing && old(nIn) < NUMPACKETS && |data| <= old(room)
      ensures accepted == old(accepted) + if took then data else []
      ensures stopped <==>
        old(stopped) || (data != [] && !gone && !closing && (old(nIn) >= NUMPACKETS - 1 || |data| > old(room)))
    {
      hide SlotsOk, StreamsOk, StatesOk, WireOk, QueuedIn, QueuedOut, NeedsBlock, Packed, Distinct, Joined;
      hide Queues.Ok, Queues.ToSend, Queues.Received, Queues.HeadIs, Queues.Full;
      took := false;
      if |data| > 0 && !gone && !closing {
        var i := 0;
        ArraysSized();
        while i < NUMPACKETS && !took
          invariant 0 <= i <= NUMPACKETS && Valid() && old(nIn) <= NUMPACKETS && !closing && !gone && !remoteClosed
          invariant took ==> old(nIn) < NUMPACKETS && |data| <= old(room) && accepted == old(accepted) + data
          invariant took ==> nIn == old(nIn) + 1 && (stopped <==> old(stopped) || old(nIn) == NUMPACKETS - 1)
          invariant !took ==> accepted == old(accepted) && nIn == old(nIn) && room == old(room) && stopped == old(stopped)
          invariant !took ==> i <= nIn || |data| > room
        {
          ArraysSized();
          SlotTaken(i);
          if packetsIn[i] == NOBLOCK {
            took := StoreInSlot(i, data);
          }
          i := i + 1;
        }
        if !took {
          SetStopped();
        }
      }
    }

    method SetStopped()
      requires Valid()
      modifies this`stopped
      ensures Valid() && stopped && QueuedOut() == old(QueuedOut())
    {
      hide View, SlotsOk, StreamsOk, StatesOk, WireOk, Queues.Received, Queues.ToSend;
      stopped := true;
    }

    /** The acknowledged segment's block is freed. */
    method TakeAck()
      requires Valid() && outstanding.Unacked?
      modifies this`blocks, this`room, this`nOut, this`acked, this`outstanding, packetsOut
      ensures Valid() && outstanding == NoSegment
      ensures acked == old(acked) + old(outstanding.bytes) && nOut == old(nOut) - 1
    {
      hide SlotsOk, Joined, Distinct, Queues.ToSend, Queues.Received, Queues.Ok, Packed;
      ArraysSized();
      ghost var q := View();
      PopOutEffect(q, outstanding.bytes);
      EatOutput(outstanding.bytes);
      ArraysSized();
      Regroup(acked, outstanding.bytes, View().ToSend());
      AckedInStep(wire, offsets, acked, written, outstanding.bytes);
      acked := acked + outstanding.bytes;
      outstanding := NoSegment;
    }

    /** Eating the first output block, as far as the slots are concerned. */
    method EatOutput(ghost bytes: seq<UInt8>)
      requires SlotsOk() && nOut > 0 && View().HeadIs(bytes)
      modifies this`blocks, this`room, this`nOut, packetsOut
      ensures SlotsOk() && nOut == old(nOut) - 1 && View() == old(View()).PopOut()
    {
      hide Joined, Distinct, Queues.ToSend, Queues.Received, Queues.Ok, Packed;
      ArraysSized();
      ghost var q := View();
      PopOutEffect(q, bytes);
      PackedLess(packetsOut[..], nOut);
      SlotTaken(0);
      EatBlock(packetsOut);
      nOut := nOut - 1;
      assert View() == q.PopOut();
    }

    /** The send part: hand the first output block to uIP, cut to what has been written if it is the only
        one. A segment that was outstanding already goes out with the same bytes. */
    method Send()
      requires Valid() && nOut > 0
      modifies this`blocks, this`room, this`outstanding, this`wire, this`offsets
      ensures Valid()
      ensures old(outstanding).Unacked? ==> outstanding == old(outstanding)
      ensures QueuedOut() == [] ==> wire == old(wire) && offsets == old(offsets) && outstanding == old(outstanding)
      ensures QueuedOut() != [] ==> outstanding.Unacked? && outstanding.bytes != [] && outstanding.bytes <= QueuedOut()
      ensures QueuedOut() != [] && headerLen + |outstanding.bytes| <= room ==>
        wire == old(wire) + [outstanding.bytes] && offsets == old(offsets) + [|acked|]
      ensures QueuedOut() != [] && headerLen + |outstanding.bytes| > room ==> wire == old(wire) && offsets == old(offsets)
    {
      hide SlotsOk, StreamsOk, StatesOk, WireOk;
      var sendLen := SizeFirst();
      if sendLen > 0 {
        FirstSlot();
        var segment := blocks[packetsOut[0]][..sendLen];
        assert segment == blocks[packetsOut[0]];
        SegmentQueued(segment);
        TakeOver(segment);
      }
    }

    lemma SegmentQueued(segment: seq<UInt8>)
      requires Valid() && View().HeadIs(segment) && segment != []
      ensures QueuedOut() != [] && segment <= QueuedOut() && !cutOff && SliceAt(written, |acked|, segment)
    {
      hide Joined, Distinct, Queues.ToSend, Queues.Received;
      PopOutEffect(View(), segment);
      assert written[|acked|..] == QueuedOut();
    }

    lemma FirstSlot()
      requires SlotsOk() && nOut > 0
      ensures packetsOut.Length > 0 && packetsOut[0] in blocks && View().outs[0] == packetsOut[0]
    {
      SlotTaken(0);
      BlockIsStored(0);
    }

    /** How much of the first block to send; its unwritten tail is cut off first. */
    method SizeFirst() returns (sendLen: nat)
      requires Valid() && nOut > 0
      modifies this`blocks, this`room
      ensures Valid() && View().ToSend() == old(View().ToSend())
      ensures sendLen == 0 ==> View().ToSend() == []
      ensures sendLen > 0 ==> View().outs != [] && View().outs[0] in blocks && sendLen == |blocks[View().outs[0]]|
                              && View().HeadIs(blocks[View().outs[0]])
    {
      hide Joined, Distinct, Queues.Received, Queues.ToSend;
      SlotTaken(0);
      SlotTaken(1);
      BlockIsStored(0);
      if packetsOut[1] == NOBLOCK {
        sendLen := outPos;
        OnlyBlock(View());
        if sendLen > 0 {
          CutFirst();
        }
      } else {
        HeadOfMany(View());
        sendLen := BlockSize(packetsOut[0]);
      }
    }

    /** Copy the segment to the network if the pool has room for the packet, and uip_send it. */
    method TakeOver(segment: seq<UInt8>)
      requires Valid() && View().HeadIs(segment) && !cutOff && SliceAt(written, |acked|, segment)
      modifies this`outstanding, this`wire, this`offsets
      ensures Valid() && outstanding == Unacked(segment) && QueuedOut() == old(QueuedOut())
      ensures old(outstanding).Unacked? ==> outstanding == old(outstanding)
      ensures headerLen + |segment| <= room ==> wire == old(wire) + [segment] && offsets == old(offsets) + [|acked|]
      ensures headerLen + |segment| > room ==> wire == old(wire) && offsets == old(offsets)
    {
      hide SlotsOk, StatesOk, InStep, SliceAt, Queues.ToSend, Queues.Received;
      SentInStep(wire, offsets, acked, written, outstanding, segment);
      if headerLen + |segment| <= room {
        wire := wire + [segment];
        offsets := offsets + [|acked|];
      }
      outstanding := Unacked(segment);
    }

    /** resizeBlock(packets_out[0], 0, out_pos) */
    method CutFirst()
      requires Valid() && nOut == 1 && outPos > 0
      modifies this`blocks, this`room
      ensures Valid() && View() == old(View().CutOut()) && View().ToSend() == old(View().ToSend())
      ensures View().HeadIs(View().ToSend()) && |View().ToSend()| == outPos
    {
      hide Joined, Distinct, Queues.ToSend, Queues.Received;
      SlotTaken(0);
      BlockIsStored(0);
      CutOutEffect(View());
      ghost var q := View();
      var h := packetsOut[0];
      assert q.outs == [h];
      OnlyBlock(q);
      room := room + (|blocks[h]| - outPos);
      blocks := blocks[h := blocks[h][..outPos]];
      assert View() == q.CutOut();
    }

    /** uipclient_appcall, under uIP's contract that at most one segment is unacknowledged: an acknowledgement or a
        retransmission needs one, a poll needs none. isClosed stands for closed, timed out or aborted. */
    method AppCall(data: seq<UInt8>, isAcked: bool, isPoll: bool, isRexmit: bool, isClosed: bool)
      requires Valid() && !gone && !remoteClosed
      requires isAcked || isRexmit ==> outstanding.Unacked?
      requires isPoll ==> outstanding.NoSegment? && !isRexmit && !isAcked
      requires isRexmit ==> !isAcked
      modifies this`blocks, this`room, this`nextHandle, this`stopped, this`restart, this`outstanding, this`wire
      modifies this`offsets, this`gone
      modifies this`nIn, this`nOut, this`accepted, this`acked, this`remoteClosed, this`cutOff, packetsIn, packetsOut
      ensures Valid()
      ensures accepted == old(accepted)
                          + if !closing && old(nIn) < NUMPACKETS && |data| <= old(room) then data else []
      ensures nIn == old(nIn) + if data != [] && !closing && old(nIn) < NUMPACKETS && |data| <= old(room) then 1 else 0
      ensures !isClosed ==> acked == old(acked) + (if isAcked then old(outstanding.bytes) else [])
                            && nOut == old(nOut) - (if isAcked then 1 else 0) && cutOff == old(cutOff) && !remoteClosed
      ensures isRexmit && !isClosed ==> outstanding == old(outstanding)
      ensures !isClosed && (isAcked || isPoll || isRexmit) && QueuedOut() != [] ==>
        outstanding.Unacked? && outstanding.bytes != [] && outstanding.bytes <= QueuedOut()
        && (if headerLen + |outstanding.bytes| <= room
            then wire == old(wire) + [outstanding.bytes] && offsets == old(offsets) + [|acked|]
            else wire == old(wire) && offsets == old(offsets))
      ensures isClosed || !(isAcked || isPoll || isRexmit) || QueuedOut() == [] ==>
        wire == old(wire) && offsets == old(offsets)
        && outstanding == if isClosed || isAcked then NoSegment else old(outstanding)
      ensures !restart
      ensures stopped <==>
        (!isClosed && closing && nOut > 0 && !(isAcked || isPoll || isRexmit))
        || (!old(restart)
            && (old(stopped) || (data != [] && !closing && (old(nIn) >= NUMPACKETS - 1 || |data| > old(room)))))
      ensures !isClosed ==> (gone <==> closing && nOut == 0)
      ensures isClosed ==> nOut == 0 && cutOff && acked == old(acked) && (remoteClosed <==> nIn > 0) && (gone <==> nIn == 0)
    {
      hide *;
      Receive(data);
      if isClosed {
        EndConnection();
        return;
      }
      if isAcked {
        TakeAck();
      }
      SendOrClose(isAcked || isPoll || isRexmit);
    }

    /** The first part of the callback: new data, and then the restart that read has asked for. */
    method Receive(data: seq<UInt8>)
      requires Valid() && !gone && !remoteClosed
      modifies this`blocks, this`room, this`nextHandle, this`stopped, this`restart, this`nIn, this`accepted, packetsIn
      ensures Valid() && !restart
      ensures accepted == old(accepted)
                          + if !closing && old(nIn) < NUMPACKETS && |data| <= old(room) then data else []
      ensures nIn == old(nIn) + if data != [] && !closing && old(nIn) < NUMPACKETS && |data| <= old(room) then 1 else 0
      ensures stopped <==>
        !old(restart) && (old(stopped) || (data != [] && !closing && (old(nIn) >= NUMPACKETS - 1 || |data| > old(room))))
    {
      hide *;
      var took := TakeNewData(data);
      if restart {
        ClearRestart();
      }
    }

    /** The connection has been closed, timed out or aborted: what is not sent yet is dropped, and received bytes are
        kept to be read. */
    method EndConnection()
      requires Valid() && !gone && !remoteClosed
      modifies this`blocks, this`room, this`nOut, this`outstanding, this`remoteClosed, this`gone, this`cutOff, packetsOut
      ensures Valid() && cutOff && nOut == 0 && outstanding == NoSegment && QueuedIn() == old(QueuedIn())
      ensures (remoteClosed <==> nIn > 0) && (gone <==> nIn == 0)
    {
      hide View, SlotsOk, StreamsOk, WireOk, Joined, Distinct, Packed;
      hide Queues.Received, Queues.ToSend, Queues.HeadIs, Queues.Ok;
      ArraysSized();
      DropOutput();
      ArraysSized();
      SlotTaken(0);
      if packetsIn[0] != NOBLOCK {
        remoteClosed := true;
      } else {
        gone := true;
      }
    }

    /** Dropping the output queue, as far as the slots and streams are concerned. */
    method DropOutput()
      requires Valid() && !gone && !remoteClosed
      modifies this`blocks, this`room, this`nOut, this`outstanding, this`cutOff, packetsOut
      ensures SlotsOk() && StreamsOk(View()) && WireOk() && nOut == 0 && outstanding == NoSegment && cutOff
      ensures View().ins == old(View().ins) && View().outs == [] && View().Received() == old(View().Received())
    {
      hide View, SlotsOk, InStep, Joined, Distinct, Queues.Received, Queues.ToSend, Queues.HeadIs, Queues.Ok, Packed;
      StillConnected();
      CutInStep(wire, offsets, acked, written, outstanding);
      ClearOutput();
      ArraysSized();
      outstanding := NoSegment;
      cutOff := true;
    }

    lemma StillConnected()
      requires SlotsOk() && StatesOk(View()) && !gone && !remoteClosed
      ensures !cutOff
    {}

    /** The rest of the callback: send if asked to and there is a block, else close if that is due. */
    method SendOrClose(send: bool)
      requires Valid() && !gone && !remoteClosed
      modifies this`blocks, this`room, this`stopped, this`outstanding, this`wire, this`offsets, this`gone
      ensures Valid()
      ensures old(outstanding).Unacked? ==> outstanding == old(outstanding)
      ensures send && QueuedOut() != [] ==>
        outstanding.Unacked? && outstanding.bytes != [] && outstanding.bytes <= QueuedOut()
        && (if headerLen + |outstanding.bytes| <= room
            then wire == old(wire) + [outstanding.bytes] && offsets == old(offsets) + [|acked|]
            else wire == old(wire) && offsets == old(offsets))
      ensures !send || QueuedOut() == [] ==>
        wire == old(wire) && offsets == old(offsets) && outstanding == old(outstanding)
      ensures gone <==> closing && nOut == 0
      ensures stopped <==> old(stopped) || (closing && nOut > 0 && !send)
      ensures gone ==> acked == written
    {
      hide SlotsOk, StreamsOk, StatesOk, WireOk, QueuedIn, QueuedOut, NeedsBlock, Packed, Distinct, Joined;
      hide Queues.Ok, Queues.ToSend, Queues.Received, Queues.HeadIs, Queues.Full;
      ArraysSized();
      SlotTaken(0);
      NothingToSend();
      if send && packetsOut[0] != NOBLOCK {
        Send();
      } else if closing {
        if packetsOut[0] == NOBLOCK {
          CloseNow();
        } else {
          SetStopped();
        }
      }
    }

    lemma NothingToSend()
      requires Valid()
      ensures nOut == 0 ==> QueuedOut() == []
    {}

    /** uip_restart() */
    method ClearRestart()
      requires Valid()
      modifies this`restart, this`stopped
      ensures Valid() && !restart && !stopped
    {
      hide View, SlotsOk, StreamsOk, StatesOk, WireOk, Queues.Received, Queues.ToSend;
      restart, stopped := false, false;
    }

    /** uip_close(): only with nothing left to send. */
    method CloseNow()
      requires Valid() && closing && nOut == 0 && !remoteClosed && !gone
      modifies this`gone
      ensures Valid() && gone && acked == written && QueuedOut() == []
    {
      hide Distinct, Joined;
      gone := true;
      assert View().ToSend() == [];
    }

    /** One event, if uIP's contract allows it in the present state; otherwise it does not happen. */
    method Deliver(e: Event)
      requires Valid()
      modifies this`blocks, this`room, this`pool, this`nextHandle, this`stopped, this`restart, this`outstanding, this`wire
      modifies this`offsets, this`gone
      modifies this`nIn, this`nOut, this`accepted, this`acked, this`remoteClosed, this`cutOff, packetsIn, packetsOut
      ensures Valid() && Extends(old(acked), acked) && Extends(old(accepted), accepted)
      ensures (closing ==> accepted == old(accepted)) && (old(gone) ==> gone && accepted == old(accepted))
      ensures Open() ==> old(Open())
      ensures SentSince(old(wire), wire, offsets, |old(acked)|) && Extends(old(offsets), offsets)
      ensures if e.RoomChanged? && !old(gone || remoteClosed) then room == e.room else pool == old(pool)
      ensures e.NewData? && !old(gone || remoteClosed) ==>
        accepted == old(accepted) + if !closing && old(nIn) < NUMPACKETS && |e.data| <= old(room) then e.data else []
      ensures if e.Acked? && old(outstanding.Unacked? && !gone && !remoteClosed)
              then acked == old(acked) + old(outstanding.bytes) && nOut == old(nOut) - 1 && !remoteClosed
              else acked == old(acked)
      ensures (if e.Poll? then old(outstanding).NoSegment? else (e.Acked? || e.Rexmit?) && old(outstanding).Unacked?)
              && !old(gone || remoteClosed) && QueuedOut() != [] ==>
        outstanding.Unacked? && outstanding.bytes != [] && outstanding.bytes <= QueuedOut()
        && wire == old(wire) + if headerLen + |outstanding.bytes| <= room then [outstanding.bytes] else []
      ensures e.Rexmit? && old(outstanding.Unacked?) && !old(gone || remoteClosed) ==> outstanding == old(outstanding)
      ensures e.Closed? && !old(gone || remoteClosed) ==>
        nOut == 0 && cutOff && (remoteClosed <==> nIn > 0) && (gone <==> nIn == 0)
      ensures if e.Closed? then !Open() else cutOff == old(cutOff)
    {
      hide View, SlotsOk, StreamsOk, StatesOk, WireOk, QueuedOut, SentSince;
      WireSized();
      SentNothing(wire, offsets, |acked|);
      SentOne(wire, offsets, |acked|);
      if gone || remoteClosed {
        return;
      }
      match e
      case NewData(data) =>
        AppCall(data, false, false, false, false);
      case Acked(data) =>
        if outstanding.Unacked? {
          AppCall(data, true, false, false, false);
        }
      case Poll =>
        if outstanding.NoSegment? {
          AppCall([], false, true, false, false);
        }
      case Rexmit =>
        if outstanding.Unacked? {
          AppCall([], false, false, true, false);
        }
      case Closed(data) =>
        AppCall(data, false, false, false, true);
      case RoomChanged(r) =>
        ChangeRoom(r);
    }

    lemma WireSized()
      requires Valid()
      ensures |offsets| == |wire|
    {}

    /** A socket that is gone has given back all pool memory. */
    lemma GoneHoldsNothing()
      requires Valid() && gone
      ensures room == pool
    {
      JoinedNone(blocks);
    }

    lemma PoolSplit()
      requires Valid()
      ensures room <= pool
    {
      assert View().Held() >= 0;
    }

    /** Another socket or the network takes pool memory, or gives it back. */
    method ChangeRoom(r: nat)
      requires Valid()
      modifies this`room, this`pool
      ensures Valid() && room == r && pool == old(pool) - old(room) + r
    {
      hide View, StreamsOk, StatesOk, WireOk, Packed, Distinct, Joined;
      hide Queues.Ok, Queues.Received, Queues.ToSend, Queues.Held;
      PoolSplit();
      pool := pool - room + r;
      room := r;
    }

    /** UIPEthernetClass::tick(), as far as this connection sees it: any number of events. */
    method Tick(events: seq<Event>)
      requires Valid()
      modifies this`blocks, this`room, this`pool, this`nextHandle, this`stopped, this`restart, this`outstanding, this`wire
      modifies this`offsets, this`gone
      modifies this`nIn, this`nOut, this`accepted, this`acked, this`remoteClosed, this`cutOff, packetsIn, packetsOut
      ensures Valid() && Extends(old(acked), acked) && Extends(old(accepted), accepted)
      ensures (closing ==> accepted == old(accepted)) && (old(gone) ==> gone && accepted == old(accepted))
      ensures Open() ==> old(Open())
      ensures events == [] ==> room == old(room) && nOut == old(nOut) && acked == old(acked)
                               && gone == old(gone) && remoteClosed == old(remoteClosed) && cutOff == old(cutOff)
                               && Spare() == old(Spare())
      ensures SentSince(old(wire), wire, offsets, |old(acked)|) && Extends(old(offsets), offsets)
      ensures acked == old(acked) ==> forall j, k :: |old(wire)| <= j < k < |wire| ==> wire[j] == wire[k]
      ensures (forall e :: e in events ==> !e.RoomChanged?) ==> pool == old(pool)
      ensures Ends(events) ==> !Open()
      ensures (forall k :: 0 <= k < |events| ==> events[k] == Acked([])) ==>
        (|events| >= old(nOut) && old(outstanding.Unacked? && !gone && !remoteClosed) ==> acked == written)
    {
      hide *;
      ghost var drains := (forall k :: 0 <= k < |events| ==> events[k] == Acked([]))
                          && outstanding.Unacked? && !gone && !remoteClosed;
      QueueLeft();
      Prefixes(acked, [], []);
      Prefixes(accepted, [], []);
      Prefixes(offsets, [], []);
      WireSized();
      SentNothing(wire, offsets, |acked|);
      EndsAtFirst(events);
      for i := 0 to |events|
        invariant Valid() && Extends(old(acked), acked) && Extends(old(accepted), accepted)
        invariant SentSince(old(wire), wire, offsets, |old(acked)|) && Extends(old(offsets), offsets)
        invariant events == [] ==> Spare() == old(Spare())
        invariant (forall e :: e in events ==> !e.RoomChanged?) ==> pool == old(pool)
        invariant Ends(events[..i]) ==> !Open()
        invariant drains ==> !cutOff
        invariant drains && acked != written ==>
          outstanding.Unacked? && !gone && !remoteClosed && nOut <= old(nOut) - i
        invariant events == [] ==> room == old(room) && nOut == old(nOut) && acked == old(acked)
                                   && gone == old(gone) && remoteClosed == old(remoteClosed) && cutOff == old(cutOff)
        invariant (closing ==> accepted == old(accepted)) && (old(gone) ==> gone && accepted == old(accepted))
        invariant Open() ==> old(Open())
      {
        ghost var acked0, accepted0, wire0, offsets0 := acked, accepted, wire, offsets;
        QueueLeft();
        EndsSoFar(events, i);
        Deliver(events[i]);
        QueueLeft();
        Prefixes(old(acked), acked0, acked);
        Prefixes(old(accepted), accepted0, accepted);
        Prefixes(old(offsets), offsets0, offsets);
        SentMore(old(wire), wire0, offsets0, wire, offsets, |old(acked)|, |acked0|);
      }
      QueueLeft();
      SentTheSame(old(wire), old(acked));
    }

    lemma QueueLeft()
      requires Valid()
      ensures outstanding.Unacked? ==> nOut > 0 && !cutOff
      ensures !cutOff ==> (acked == written <==> QueuedOut() == [])
      ensures acked == written && !cutOff ==> outstanding.NoSegment?
      ensures gone && !cutOff ==> acked == written
    {
      if outstanding.Unacked? {
        ArraysSized();
        BlockIsStored(0);
        SegmentQueued(outstanding.bytes);
      }
    }

    lemma SentTheSame(before: seq<seq<UInt8>>, acked0: seq<UInt8>)
      requires Valid() && SentSince(before, wire, offsets, |acked0|)
      ensures acked == acked0 ==> forall j, k :: |before| <= j < k < |wire| ==> wire[j] == wire[k]
    {
      if acked == acked0 {
        SameUntilAcked(before, wire, offsets, acked, written, outstanding, cutOff);
      }
    }

    // ----- read

    /** The first min(size, queued) bytes that are queued, which then are no longer queued; -1 when the UIPClient has
        lost its socket. A socket that outlived its connection goes with its last byte. */
    method Read(size: UInt16) returns (data: seq<UInt8>, result: int)
      requires Valid()
      modifies this`blocks, this`room, this`restart, this`nIn, this`returned, this`remoteClosed, this`gone, this`attached
      modifies packetsIn
      ensures Valid() && accepted == old(accepted) && returned == old(returned) + data
      ensures result == -1 <==> !(old(attached) && (old(remoteClosed) ==> old(nIn) > 0))
      ensures result == -1 ==> data == [] && QueuedIn() == old(QueuedIn())
      ensures result != -1 ==> result == |data| == if size < |old(QueuedIn())| then size else |old(QueuedIn())|
      ensures old(QueuedIn()) == data + QueuedIn()
      ensures result != -1 && old(remoteClosed) ==> (gone <==> nIn == 0) && (attached <==> nIn > 0)
      ensures !old(remoteClosed) ==> gone == old(gone) && attached == old(attached) && !remoteClosed
      ensures nIn <= old(nIn) && (result == -1 ==> nIn == old(nIn))
      ensures result != -1 && old(nIn) > 0 ==> (nIn < old(nIn) <==> old(BlockSize(packetsIn[0])) <= size)
      ensures restart <==> old(restart) || (old(stopped) && !old(remoteClosed) && nIn < old(nIn))
    {
      hide View, SlotsOk, StreamsOk, StatesOk, WireOk, QueuedIn, BytesBefore, NeedsBlock, Packed, BlockSize;
      hide InStep, Joined, Distinct, Queues.Ok, Queues.ToSend, Queues.Received, Queues.HeadIs, Queues.Full;
      data := [];
      ArraysSized();
      SlotTaken(0);
      AttachedIsOpen();
      if !attached || (remoteClosed && packetsIn[0] == NOBLOCK) {
        return data, -1;
      }
      if packetsIn[0] == NOBLOCK {
        NothingQueued();
        return data, 0;
      }
      var empty;
      data, empty := ReadQueued(size);
      result := |data|;
      if empty {
        NothingQueued();
        if remoteClosed {
          LoseSocket();
        }
      }
    }

    /** The loop of read, over the blocks that are queued. */
    method ReadQueued(size: UInt16) returns (data: seq<UInt8>, empty: bool)
      requires Valid() && attached && nIn > 0
      modifies this`blocks, this`room, this`restart, this`nIn, this`returned, packetsIn
      ensures Valid() && returned == old(returned) + data && old(QueuedIn()) == data + QueuedIn()
      ensures |data| <= size && (empty <==> nIn == 0) && (!empty ==> |data| == size)
      ensures nIn <= old(nIn) && (nIn < old(nIn) <==> old(BlockSize(packetsIn[0])) <= size)
      ensures restart <==> old(restart) || (stopped && !remoteClosed && nIn < old(nIn))
    {
      hide View, SlotsOk, StreamsOk, StatesOk, WireOk, QueuedIn, BytesBefore, NeedsBlock, Packed, BlockSize;
      hide InStep, Joined, Distinct, Queues.Ok, Queues.ToSend, Queues.Received, Queues.HeadIs, Queues.Full;
      AttachedIsOpen();
      ArraysSized();
      data, empty := [], false;
      var remain := size;
      ghost var queued, full, first := QueuedIn(), nIn, BlockSize(packetsIn[0]);
      while true
        invariant Valid() && 0 < nIn <= full && 0 <= remain && |data| == size - remain
        invariant returned == old(returned) + data && queued == data + QueuedIn()
        invariant nIn == full ==> remain == size && packetsIn.Length > 0 && BlockSize(packetsIn[0]) == first
        invariant nIn < full ==> first <= size
        invariant restart <==> old(restart) || (stopped && !remoteClosed && nIn < full)
        decreases nIn
      {
        var part, whole := ReadBlock(remain);
        Regroup(old(returned), data, part);
        Regroup(data, part, QueuedIn());
        data := data + part;
        remain := remain - |part|;
        if whole {
          SlotTaken(0);
          ArraysSized();
          if packetsIn[0] == NOBLOCK {
            return data, true;
          }
        } else {
          break;
        }
        if remain == 0 {
          break;
        }
      }
    }

    /** One pass of the loop: what remains to be read of the first block, or as much as is asked for. */
    method ReadBlock(remain: nat) returns (part: seq<UInt8>, whole: bool)
      requires Valid() && nIn > 0 && attached
      modifies this`blocks, this`room, this`restart, this`nIn, this`returned, packetsIn
      ensures Valid() && returned == old(returned) + part && old(QueuedIn()) == part + QueuedIn()
      ensures |part| <= remain && (!whole ==> |part| == remain)
      ensures nIn == old(nIn) - if whole then 1 else 0
      ensures whole <==> old(BlockSize(packetsIn[0])) <= remain
      ensures restart <==> old(restart) || (whole && stopped && !closing && !remoteClosed)
    {
      hide SlotsOk, StreamsOk, StatesOk, WireOk, QueuedIn, BytesBefore, NeedsBlock, Packed;
      ArraysSized();
      SlotTaken(0);
      BlockIsStored(0);
      var block := blocks[packetsIn[0]];
      var read := if remain < |block| then remain else |block|;
      part, whole := block[..read], read == BlockSize(packetsIn[0]);
      if whole {
        EatFirstIn(part);
        if stopped && !closing && !remoteClosed {
          SetRestart();
        }
      } else {
        DropFirstIn(read);
      }
    }

    lemma Regroup(a: seq<UInt8>, b: seq<UInt8>, c: seq<UInt8>)
      ensures (a + b) + c == a + (b + c)
    {}

    lemma AttachedIsOpen()
      requires Valid()
      ensures attached ==> !closing && !thrownAway
      ensures gone ==> nIn == 0
    {}

    /** All input of a socket that outlived its connection has been read. */
    method LoseSocket()
      requires Valid() && remoteClosed && nIn == 0
      modifies this`remoteClosed, this`gone, this`attached
      ensures Valid() && gone && !attached && QueuedIn() == old(QueuedIn())
    {
      hide Joined, Distinct, Queues.Received, Queues.ToSend, Queues.HeadIs;
      gone, remoteClosed, attached := true, false, false;
    }

    lemma NothingQueued()
      requires Valid() && nIn == 0
      ensures QueuedIn() == []
    {
      JoinedNone(blocks);
    }

    method SetRestart()
      requires Valid()
      modifies this`restart
      ensures Valid() && restart && QueuedIn() == old(QueuedIn())
    {
      hide View, SlotsOk, StreamsOk, StatesOk, WireOk, Queues.Received, Queues.ToSend;
      restart := true;
    }

    /** The first input block has been read to its end. */
    method EatFirstIn(ghost bytes: seq<UInt8>)
      requires Valid() && nIn > 0 && packetsIn.Length > 0 && packetsIn[0] in blocks && bytes == blocks[packetsIn[0]] && attached
      modifies this`blocks, this`room, this`nIn, this`returned, packetsIn
      ensures Valid() && nIn == old(nIn) - 1 && returned == old(returned) + bytes
      ensures old(QueuedIn()) == bytes + QueuedIn()
    {
      hide SlotsOk, Joined, Distinct, Queues.ToSend, Queues.Received, Queues.Ok, Queues.HeadIs;
      ArraysSized();
      ghost var q := View();
      SlotTaken(0);
      PopInEffect(q);
      EatInput();
      ArraysSized();
      Regroup(returned, bytes, View().Received());
      returned := returned + bytes;
    }

    /** Eating the first input block, as far as the slots are concerned. */
    method EatInput()
      requires SlotsOk() && nIn > 0
      modifies this`blocks, this`room, this`nIn, packetsIn
      ensures SlotsOk() && nIn == old(nIn) - 1 && View() == old(View()).PopIn()
    {
      hide Joined, Distinct, Queues.ToSend, Queues.Received, Queues.Ok, Queues.HeadIs, Packed;
      ArraysSized();
      ghost var q := View();
      SlotTaken(0);
      BlockIsStored(0);
      PopInEffect(q);
      PackedLess(packetsIn[..], nIn);
      EatBlock(packetsIn);
      nIn := nIn - 1;
      assert View() == q.PopIn();
    }

    lemma FlushableSlots()
      requires SlotsOk()
      ensures Packed(packetsIn[..], nIn) && Distinct(packetsIn[..nIn]) && Stored(packetsIn[..nIn], blocks)
      ensures Packed(packetsOut[..], nOut) && Distinct(packetsOut[..nOut]) && Stored(packetsOut[..nOut], blocks)
      ensures NOBLOCK !in blocks
    {
      var q := View();
      DistinctPrefix(q.ins, q.outs);
      DistinctSuffix(q.ins, q.outs);
      assert q.ins + [] == q.ins && [] + q.outs == q.outs;
    }

    /** Flushing the input, as far as the slots are concerned. */
    method ClearInput()
      requires SlotsOk()
      modifies this`blocks, this`room, this`nIn, packetsIn
      ensures SlotsOk() && nIn == 0 && View() == Queues([], old(View()).outs, blocks, outPos)
      ensures View().ToSend() == old(View().ToSend())
      ensures outstanding.Unacked? && old(View().HeadIs(outstanding.bytes)) ==> View().HeadIs(outstanding.bytes)
    {
      hide Joined, Distinct, Queues.ToSend, Queues.Received, Queues.Ok, Queues.HeadIs, Packed;
      ArraysSized();
      ghost var q := View();
      ghost var freed := set h | h in packetsIn[..];
      PackedMembers(packetsIn[..], nIn);
      FlushInEffect(q, freed);
      FlushableSlots();
      FlushBlocks(packetsIn, nIn);
      PackedNone(packetsIn[..]);
      nIn := 0;
      assert View() == Queues([], q.outs, q.blocks - freed, q.outPos);
    }

    /** Flushing the output, as far as the slots are concerned. */
    method ClearOutput()
      requires SlotsOk()
      modifies this`blocks, this`room, this`nOut, packetsOut
      ensures SlotsOk() && nOut == 0 && View() == Queues(old(View()).ins, [], blocks, outPos)
      ensures View().Received() == old(View().Received())
    {
      hide Joined, Distinct, Queues.ToSend, Queues.Received, Queues.Ok, Queues.HeadIs, Packed;
      ArraysSized();
      ghost var q := View();
      ghost var freed := set h | h in packetsOut[..];
      PackedMembers(packetsOut[..], nOut);
      FlushOutEffect(q, freed);
      FlushableSlots();
      FlushBlocks(packetsOut, nOut);
      PackedNone(packetsOut[..]);
      nOut := 0;
      assert View() == Queues(q.ins, [], q.blocks - freed, q.outPos);
    }

    /** Part of the first input block has been read: resizeBlock drops that part. */
    method DropFirstIn(read: nat)
      requires Valid() && nIn > 0 && packetsIn.Length > 0 && packetsIn[0] in blocks && read < |blocks[packetsIn[0]]| && attached
      modifies this`blocks, this`room, this`returned
      ensures Valid() && returned == old(returned) + old(blocks[packetsIn[0]][..read])
      ensures old(QueuedIn()) == old(blocks[packetsIn[0]][..read]) + QueuedIn()
    {
      hide SlotsOk, Joined, Distinct, Queues.ToSend, Queues.Received, Queues.HeadIs;
      ArraysSized();
      ghost var q := View();
      SlotTaken(0);
      DropInEffect(q, read);
      returned := returned + blocks[packetsIn[0]][..read];
      DropInput(read);
      ArraysSized();
      Regroup(old(returned), old(blocks[packetsIn[0]][..read]), View().Received());
    }

    /** Dropping the front of the first input block, as far as the slots are concerned. */
    method DropInput(read: nat)
      requires SlotsOk() && nIn > 0 && packetsIn.Length > 0 && packetsIn[0] in blocks && read < |blocks[packetsIn[0]]|
      modifies this`blocks, this`room
      ensures SlotsOk() && View() == old(View()).DropIn(read)
    {
      hide Joined, Distinct, Queues.ToSend, Queues.Received, Queues.HeadIs, Packed;
      ArraysSized();
      ghost var q := View();
      SlotTaken(0);
      DropInEffect(q, read);
      room := room + read;
      blocks := blocks[packetsIn[0] := blocks[packetsIn[0]][read..]];
      assert View() == q.DropIn(read);
    }

    // ----- _write

    /** All slots in use end with a full block: the next byte needs a new one. */
    ghost predicate NeedsBlock()
      reads this, packetsIn, packetsOut
      requires Valid()
    {
      nOut > 0 ==> View().Full()
    }

    /** How many bytes one pass of _write takes: what is free in the last block, and as many new blocks as there are
        free slots and the pool can serve. */
    ghost function Spare(): nat
      reads this, packetsIn, packetsOut
      requires Valid()
    {
      BlocksNotNegative(dataLen, NUMPACKETS - nOut, room);
      (if nOut == 0 then 0 else |blocks[View().Last()]| - outPos) + dataLen * Min(NUMPACKETS - nOut, room / dataLen)
    }

    lemma NothingSpare()
      requires Valid() && NeedsBlock() && (nOut == NUMPACKETS || room < dataLen)
      ensures Spare() == 0
    {
      NoBlockMore(dataLen, NUMPACKETS - nOut, room);
    }

    /** What _write looks for before it writes. */
    predicate Open()
      reads this
    {
      !closing && !remoteClosed && !gone
    }

    /** _write, looping while there is no room. Each turn lets any events happen first. The bytes taken are
        appended to the stream to send, in order; took says how many. That is what _write returns, or 0 when it finds
        the connection closed or ended. */
    method Write(buf: seq<UInt8>, turns: seq<Turn>) returns (result: WriteResult, ghost took: nat)
      requires Valid() && |buf| <= 0xFFFF
      modifies this`blocks, this`room, this`pool, this`nextHandle, this`stopped, this`restart, this`outstanding, this`wire
      modifies this`offsets, this`gone
      modifies this`nIn, this`nOut, this`outPos, this`accepted, this`acked, this`written, this`remoteClosed, this`cutOff
      modifies packetsIn, packetsOut
      ensures Valid() && took <= |buf| && Appended(old(written), written, buf, took)
      ensures result.Done? ==> result.count == if Open() then took else 0
      ensures result.Done? && Open() && !TimeUp(turns) ==> took == |buf| && nOut > 0
      ensures !old(Open()) ==> took == 0
      ensures TimeUp(turns) ==> result.Done?
      ensures |turns| > 0 && Ends(turns[0].events) ==> result == Done(0) && took == 0
      ensures Extends(old(acked), acked) && Extends(old(accepted), accepted)
      ensures |turns| > 0 && turns[0].events == [] && old(Open()) ==> took >= Min(|buf|, old(Spare()))
      ensures |turns| == 1 && turns[0].events == [] && old(Open()) ==> took == Min(|buf|, old(Spare())) && Open()
      ensures |turns| > 0 && turns[0].events == [] && old(Open()) ==>
        (|buf| <= old(Spare()) && (old(nOut) > 0 || dataLen <= old(room)) ==> result == Done(|buf|) && Open())
    {
      hide *;
      var remain := |buf|;
      took := 0;
      AppendedNone(written, buf);
      Prefixes(acked, [], []);
      Prefixes(accepted, [], []);
      MinIs(|buf|, Spare());
      NoTurns(turns);
      ghost var quiet := |turns| > 0 && turns[0].events == [] && Open();
      for t := 0 to |turns|
        invariant took == |buf| - remain && took <= |buf| && (!old(Open()) ==> took == 0 && !Open())
        invariant Valid() && Appended(old(written), written, buf, took)
        invariant Extends(old(acked), acked) && Extends(old(accepted), accepted)
        invariant t == 0 ==> took == 0 && Open() == old(Open()) && Spare() == old(Spare())
        invariant t == 0 ==> nOut == old(nOut) && room == old(room)
        invariant !TimeUp(turns[..t])
        invariant t > 0 ==> !Ends(turns[0].events)
        invariant quiet && t > 0 ==> took >= Min(|buf|, old(Spare()))
        invariant quiet && t == 1 ==> took == Min(|buf|, old(Spare())) && Open()
        invariant quiet && t > 0 ==> |buf| > old(Spare()) || (old(nOut) == 0 && dataLen > old(room))
      {
        ghost var acked0, accepted0, written0 := acked, accepted, written;
        ghost var spare := Spare();
        var n, ready := WriteTurn(buf[|buf| - remain..], turns[t]);
        MinIs(|buf| - took, spare);
        Prefixes(old(acked), acked0, acked);
        Prefixes(old(accepted), accepted0, accepted);
        AppendedMore(old(written), written0, written, buf, took, n);
        OnTime(turns, t);
        if !Open() {
          return Done(0), took;
        }
        remain := remain - n;
        took := took + n;
        if ready {
          return Done(|buf| - remain), took;
        }
      }
      result := Waiting;
    }

    lemma Prefixes<T>(a: seq<T>, b: seq<T>, c: seq<T>)
      ensures Extends(a, b) && Extends(b, c) ==> Extends(a, c)
      ensures Extends(a, a) && Extends(a, a + b)
      ensures Extends(a, b) ==> |a| <= |b|
    {}

    /** One turn: what tick() delivers, and then as much as there is room for. */
    method WriteTurn(bytes: seq<UInt8>, turn: Turn) returns (n: nat, ready: bool)
      requires Valid()
      modifies this`blocks, this`room, this`pool, this`nextHandle, this`stopped, this`restart, this`outstanding, this`wire
      modifies this`offsets, this`gone
      modifies this`nIn, this`nOut, this`outPos, this`accepted, this`acked, this`written, this`remoteClosed, this`cutOff
      modifies packetsIn, packetsOut
      ensures Valid() && Appended(old(written), written, bytes, n) && n <= |bytes|
      ensures if Open() then old(Open()) else n == 0
      ensures Open() && ready && !turn.timeUp ==> n == |bytes| && nOut > 0
      ensures Open() && turn.timeUp ==> ready
      ensures Ends(turn.events) ==> !Open()
      ensures turn.events == [] && old(Open()) ==> Open() && n == Min(|bytes|, old(Spare()))
      ensures turn.events == [] && old(Open()) ==>
        (ready <==> turn.timeUp || (n == |bytes| && (old(nOut) > 0 || dataLen <= old(room))))
      ensures Extends(old(acked), acked) && Extends(old(accepted), accepted)
    {
      hide View, SlotsOk, StreamsOk, StatesOk, WireOk, NeedsBlock, QueuedIn, QueuedOut, BytesBefore, Packed;
      hide Extends, Appended, Spare, SentSince;
      Tick(turn.events);
      n, ready := 0, false;
      if !Open() {
        AppendedNone(written, bytes);
        return;
      }
      ArraysSized();
      SlotsPacked();
      var p := CurrentBlock(packetsOut, nOut);
      SlotTaken(p);
      EmptyNeedsBlock();
      n, ready := WriteSome(bytes, p, packetsOut[p] == NOBLOCK, turn.timeUp);
    }

    /** One pass from the current block on, until everything is written, the slots or the pool are used up,
        or the time is; ready tells whether _write then returns or goes round again. */
    method WriteSome(bytes: seq<UInt8>, p0: nat, needNew0: bool, timeUp: bool) returns (n: nat, ready: bool)
      requires Valid() && !closing && !remoteClosed && !gone && p0 < NUMPACKETS
      requires p0 == (if needNew0 then nOut else nOut - 1) && (needNew0 ==> NeedsBlock())
      modifies this`blocks, this`room, this`nextHandle, this`nOut, this`outPos, this`written, packetsOut
      ensures Valid() && n <= |bytes| && Appended(old(written), written, bytes, n)
      ensures n == Min(|bytes|, old(Spare()))
      ensures n < |bytes| ==> (nOut == NUMPACKETS && View().Full()) || room < dataLen
      ensures ready <==> timeUp || (n == |bytes| && (needNew0 ==> dataLen <= old(room)))
      ensures ready && !timeUp ==> nOut > 0
    {
      hide *;
      MinIs(|bytes|, Spare());
      var p, needNew := p0, needNew0;
      n := 0;
      AppendedNone(written, bytes);
      while true
        invariant Valid() && n <= |bytes| && Appended(old(written), written, bytes, n)
        invariant p < NUMPACKETS && p == (if needNew then nOut else nOut - 1) && (needNew ==> NeedsBlock())
        invariant n + Spare() == old(Spare())
        invariant p0 <= p && (p == p0 ==> needNew == needNew0 && n == 0 && room == old(room))
        invariant p > p0 ==> n < |bytes| && needNew && (needNew0 ==> dataLen <= old(room))
        decreases NUMPACKETS - p
      {
        if needNew {
          var ok := NewOutBlock(p);
          if !ok {
            NothingSpare();
            return n, timeUp;
          }
        }
        ghost var written0 := written;
        var k := WritePacket(p, bytes[n..]);
        AppendedMore(old(written), written0, written, bytes, n, k);
        n := n + k;
        if n == |bytes| {
          return n, true;
        }
        if p == NUMPACKETS - 1 {
          NothingSpare();
          LastIsFull();
          return n, timeUp;
        }
        p := p + 1;
        needNew := true;
      }
    }

    lemma SlotsPacked()
      requires SlotsOk()
      ensures Packed(packetsOut[..], nOut) && Packed(packetsIn[..], nIn)
    {}

    lemma LastIsFull()
      requires Valid() && NeedsBlock() && nOut > 0
      ensures View().outs != [] && View().Full()
    {}

    lemma EmptyNeedsBlock()
      requires Valid()
      ensures nOut == 0 ==> NeedsBlock()
    {}

    /** newpacket: a new block in slot p, if the pool has room. */
    method NewOutBlock(p: nat) returns (ok: bool)
      requires Valid() && p == nOut < NUMPACKETS && NeedsBlock() && !gone && !remoteClosed
      modifies this`blocks, this`room, this`nextHandle, this`nOut, this`outPos, packetsOut
      ensures Valid() && ok == (dataLen <= old(room)) && nOut == old(nOut) + if ok then 1 else 0
      ensures Spare() == old(Spare()) && (!ok ==> NeedsBlock() && room == old(room))
    {
      hide StreamsOk, StatesOk, WireOk, Packed, Distinct, Joined, Queues.ToSend, Queues.Received, Queues.HeadIs;
      SlotTaken(p);
      ArraysSized();
      var h := AllocBlock(dataLen);
      ok := h != NOBLOCK;
      if ok {
        OneBlockLess(dataLen, NUMPACKETS - nOut, old(room));
        FillOutSlot(p, h, old(blocks));
      }
    }

    /** Put the handle of a block just allocated in the first free output slot. */
    method FillOutSlot(p: nat, h: Handle, ghost before: Pool)
      requires h in blocks && blocks == before[h := blocks[h]] && h !in before && nextHandle == h + 1 && h != NOBLOCK
      requires packetsIn.Length == NUMPACKETS == packetsOut.Length && nIn <= NUMPACKETS && nOut <= NUMPACKETS
      requires packetsIn != packetsOut && dataLen > 0 && blocks[h] != [] && p == nOut < NUMPACKETS && !gone && !remoteClosed
      requires Packed(packetsIn[..], nIn) && Packed(packetsOut[..], nOut)
      requires forall g :: g in before ==> 0 < g < h
      requires var q := Queues(packetsIn[..nIn], packetsOut[..nOut], before, outPos);
               q.Ok() && StreamsOk(q) && StatesOk(q) && WireOk() && (q.outs != [] ==> q.Full())
               && room + q.Held() + |blocks[h]| == pool
      modifies this`nOut, this`outPos, packetsOut
      ensures Valid() && nOut == old(nOut) + 1 && outPos == 0 && View().Last() == h
    {
      hide Joined, Distinct, Queues.ToSend, Queues.Received, Queues.Ok, Queues.HeadIs, Packed;
      ghost var q := Queues(packetsIn[..nIn], packetsOut[..nOut], before, outPos);
      PushOutEffect(q, h, blocks[h]);
      PackedMore(packetsOut[..], nOut, h);
      packetsOut[p] := h;
      outPos := 0;
      nOut := nOut + 1;
      assert packetsOut[..] == old(packetsOut[..])[p := h];
      assert View() == q.PushOut(h, blocks[h]);
    }

    /** writePacket at out_pos of the block in slot p: as many bytes as fit. */
    method WritePacket(p: nat, bytes: seq<UInt8>) returns (n: nat)
      requires Valid() && nOut > 0 && p == nOut - 1
      modifies this`blocks, this`outPos, this`written
      ensures Valid() && n <= |bytes| && Appended(old(written), written, bytes, n)
      ensures n < |bytes| ==> NeedsBlock()
      ensures Spare() == old(Spare()) - n
    {
      hide Packed, Distinct, Joined, Queues.ToSend, Queues.Received, Queues.HeadIs;
      ArraysSized();
      SlotTaken(p);
      BlockIsStored(p);
      var h := packetsOut[p];
      n := if |bytes| > |blocks[h]| - outPos then |blocks[h]| - outPos else |bytes|;
      WriteBytes(p, bytes[..n]);
    }

    method WriteBytes(p: nat, bytes: seq<UInt8>)
      requires Valid() && nOut > 0 && p == nOut - 1 && p < packetsOut.Length && packetsOut[p] in blocks
      requires outPos + |bytes| <= |blocks[packetsOut[p]]|
      modifies this`blocks, this`outPos, this`written
      ensures Valid() && written == old(written) + bytes
      ensures NeedsBlock() <==> old(outPos) + |bytes| == |old(blocks[packetsOut[p]])|
      ensures outPos == old(outPos) + |bytes| && View().Last() == packetsOut[p]
      ensures packetsOut[p] in blocks && |blocks[packetsOut[p]]| == old(|blocks[packetsOut[p]]|)
    {
      hide SlotsOk, InStep, Packed, Distinct, Joined, Queues.ToSend, Queues.Received, Queues.HeadIs, Queues.Ok;
      ArraysSized();
      SlotTaken(p);
      ghost var q := View();
      WrittenInStep(wire, offsets, acked, written, outstanding, cutOff, bytes);
      LastIs(q, packetsOut[p]);
      AppendEffect(q, bytes);
      AppendOutput(p, bytes);
      ArraysSized();
      Regroup(acked, q.ToSend(), bytes);
      written := written + bytes;
    }

    /** Filling the last output block, as far as the slots are concerned. */
    method AppendOutput(p: nat, bytes: seq<UInt8>)
      requires SlotsOk() && nOut > 0 && p == nOut - 1 && p < packetsOut.Length && packetsOut[p] in blocks
      requires outPos + |bytes| <= |blocks[packetsOut[p]]| && packetsOut[p] == View().Last()
      modifies this`blocks, this`outPos
      ensures SlotsOk() && View() == old(View()).Append(bytes)
    {
      hide Packed, Distinct, Joined, Queues.ToSend, Queues.Received, Queues.HeadIs, Queues.Ok;
      ArraysSized();
      ghost var q := View();
      AppendEffect(q, bytes);
      var h := packetsOut[p];
      var b := blocks[h];
      blocks := blocks[h := b[..outPos] + bytes + b[outPos + |bytes|..]];
      outPos := outPos + |bytes|;
      assert View() == q.Append(bytes);
    }

    /** What availableForWrite() computes after its tick(): it reckons with blocks of full size and a pool that serves
        every free slot, and promises what _write takes only as far as that holds. */
    method AvailableForWrite() returns (n: int)
      requires Valid()
      ensures n == Spare() + (if nOut == 0 then 0 else dataLen - |blocks[View().Last()]|)
                   + dataLen * (NUMPACKETS - nOut - Min(NUMPACKETS - nOut, room / dataLen))
    {
      hide SlotsOk, StreamsOk, StatesOk, WireOk, View, Min, Packed;
      ArraysSized();
      SlotsAre();
      SlotTaken(0);
      ghost var slots := NUMPACKETS - nOut;
      Distribute(dataLen, slots, Min(slots, room / dataLen));
      if packetsOut[0] == NOBLOCK {
        return dataLen * NUMPACKETS;
      }
      var p := CurrentBlock(packetsOut, nOut);
      Distribute(dataLen, NUMPACKETS, p);
      Distribute(dataLen, slots, 1);
      var used := dataLen * p + outPos;
      return dataLen * NUMPACKETS - used;
    }

    /** A single output block that has been handed to uIP was cut and has no free byte left, so that availableForWrite()
        promises too much unless the block was full. */
    lemma CutBlockIsFull()
      requires Valid() && outstanding.Unacked? && nOut == 1
      ensures |blocks[View().Last()]| == outPos && Spare() == dataLen * Min(NUMPACKETS - 1, room / dataLen)
      ensures outPos < dataLen ==>
        dataLen - |blocks[View().Last()]| + dataLen * (NUMPACKETS - 1 - Min(NUMPACKETS - 1, room / dataLen)) > 0
    {
      hide Joined, Distinct, Queues.ToSend, Queues.Received;
      ArraysSized();
      BlocksNotNegative(dataLen, NUMPACKETS - 1, room);
      MulMono(0, NUMPACKETS - 1 - Min(NUMPACKETS - 1, room / dataLen), dataLen);
    }

    /** stop(): unread input is thrown away, and the connection closes once everything written has been acknowledged;
        then the events of a last tick happen. */
    method Stop(events: seq<Event>)
      requires Valid()
      modifies this`blocks, this`room, this`pool, this`nextHandle, this`stopped, this`restart, this`outstanding, this`wire
      modifies this`offsets, this`gone
      modifies this`nIn, this`nOut, this`accepted, this`acked, this`remoteClosed, this`cutOff, packetsIn, packetsOut
      modifies this`closing, this`attached, this`thrownAway
      ensures Valid() && !attached && nIn == 0 && (closing || gone) && !remoteClosed
      ensures accepted == old(accepted) && Extends(old(acked), acked)
      ensures events == [] && old(attached && !gone && !remoteClosed) ==>
        closing && !gone && nOut == old(nOut) && acked == old(acked) && cutOff == old(cutOff)
      ensures (forall k :: 0 <= k < |events| ==> events[k] == Acked([])) ==>
        (|events| >= old(nOut) && old(outstanding.Unacked? && attached && !gone && !remoteClosed) ==> acked == written)
    {
      hide *;
      Detach();
      DetachedIsEmpty();
      Tick(events);
      DetachedIsEmpty();
    }

    /** With every written byte acknowledged nothing is queued or outstanding, though there may be an empty block. */
    lemma AllAcked()
      requires Valid() && !cutOff && acked == written
      ensures QueuedOut() == [] && outstanding.NoSegment?
    {
      if outstanding.Unacked? {
        ArraysSized();
        BlockIsStored(0);
        SegmentQueued(outstanding.bytes);
      }
    }

    lemma NotCutOff()
      requires Valid() && !remoteClosed && !gone
      ensures !cutOff && acked <= written
    {}

    lemma DetachedIsEmpty()
      requires Valid() && !attached
      ensures nIn == 0 && (closing || gone) && !remoteClosed
    {}

    /** What stop() does to the socket. */
    method Detach()
      requires Valid()
      modifies this`blocks, this`room, this`closing, this`remoteClosed, this`gone, this`attached, this`thrownAway, this`nIn
      modifies packetsIn
      ensures Valid() && !attached && QueuedOut() == old(QueuedOut())
      ensures old(attached && !gone) ==> thrownAway && (if old(remoteClosed) then gone else closing && !gone)
      ensures !old(attached && !gone) ==> closing == old(closing) && gone == old(gone)
    {
      hide View, SlotsOk, StreamsOk, WireOk, BytesBefore, NeedsBlock, Joined, Distinct, Queues.ToSend, Queues.Received;
      hide Queues.HeadIs, Queues.Ok, Packed;
      ArraysSized();
      if attached && !gone {
        ThrowAwayInput();
        ArraysSized();
        if remoteClosed {
          gone, remoteClosed := true, false;
        } else {
          closing := true;
        }
      }
      attached := false;
    }

    /** Flushing the input for good, as far as the slots and streams are concerned. */
    method ThrowAwayInput()
      requires Valid()
      modifies this`blocks, this`room, this`thrownAway, this`nIn, packetsIn
      ensures SlotsOk() && StreamsOk(View()) && thrownAway && WireOk()
      ensures View().ins == [] && View().outs == old(View().outs) && View().ToSend() == old(View().ToSend())
    {
      hide View, SlotsOk, WireOk, Joined, Distinct, Queues.ToSend, Queues.Received, Queues.HeadIs, Queues.Ok, Packed;
      ClearInput();
      ArraysSized();
      thrownAway := true;
    }
  }

  /** A closing connection with everything acknowledged is gone after a callback that asks to send if and only if it
      has no output block (Connection.SendOrClose). A write of no bytes leaves such a block: after stop() this
      connection stays, however often it is polled. */
  method EmptyWriteKeepsOpen(polls: nat) returns (c: Connection)
    ensures fresh(c) && c.Valid() && c.closing && !c.gone && c.acked == c.written == []
  {
    hide *;
    c := new Connection(512, 54, 4096);
    OpenAtFirst(c);
    OneQuietTurn();
    var result, took := c.Write([], [Turn([], false)]);
    EmptyAppended(c.written, took);
    OpenAtFirst(c);
    c.NotCutOff();
    c.Stop([]);
    for i := 0 to polls
      modifies c, c.packetsIn, c.packetsOut
      invariant c.Valid() && c.closing && !c.gone && !c.remoteClosed && c.nOut > 0 && c.acked == c.written == []
      invariant fresh(c.packetsIn) && fresh(c.packetsOut)
    {
      c.NotCutOff();
      c.AllAcked();
      c.AppCall([], false, true, false, false);
    }
  }

  /** Once read has eaten a block of a stopped peer's input, the next callback, whatever it reports, leaves the peer
      running. */
  method ReadResumes(c: Connection, size: UInt16, data: seq<UInt8>, isAcked: bool, isPoll: bool, isRexmit: bool,
                     isClosed: bool)
    requires c.Valid() && c.attached && !c.gone && !c.remoteClosed && c.stopped
    requires c.nIn > 0 && c.packetsIn.Length > 0 && c.BlockSize(c.packetsIn[0]) <= size
    requires isAcked || isRexmit ==> c.outstanding.Unacked?
    requires isPoll ==> c.outstanding.NoSegment? && !isRexmit && !isAcked
    requires isRexmit ==> !isAcked
    modifies c, c.packetsIn, c.packetsOut
    ensures c.Valid() && !c.stopped && !c.restart
  {
    hide *;
    c.AttachedIsOpen();
    var part, result := c.Read(size);
    c.AppCall(data, isAcked, isPoll, isRexmit, isClosed);
  }

  /** The peer of an open connection is stopped, nothing is queued, and nothing asks for the restart. */
  ghost predicate Starved(c: Connection)
    reads c, c.packetsIn, c.packetsOut
  {
    && c.Valid() && !c.gone && !c.remoteClosed && !c.closing && c.attached && c.outstanding.NoSegment?
    && c.nIn == 0 && c.nOut == 0 && c.accepted == [] && c.stopped && !c.restart
  }

  /** A packet that is refused for want of pool memory while nothing is queued stops the peer for good: read never has
      a block to eat, so nothing asks for the restart, whatever memory becomes free. */
  method RefusedPeerStaysStopped(data: seq<UInt8>, rounds: seq<(nat, UInt16)>) returns (c: Connection)
    requires data != []
    ensures fresh(c) && c.Valid() && c.Open() && c.attached && c.accepted == [] && c.stopped && !c.restart
  {
    hide *;
    c := new Connection(512, 54, 0);
    c.AppCall(data, false, false, false, false);
    c.NothingToSend();
    StarvedIs(c);
    for t := 0 to |rounds|
      modifies c, c.packetsIn, c.packetsOut
      invariant Starved(c) && fresh(c.packetsIn) && fresh(c.packetsOut)
    {
      StarvedRound(c, rounds[t].0, rounds[t].1);
    }
    StarvedIs(c);
    OpenAtFirst(c);
  }

  /** Memory becomes free, the user reads, uIP polls. */
  method StarvedRound(c: Connection, room: nat, size: UInt16)
    requires Starved(c)
    modifies c, c.packetsIn, c.packetsOut
    ensures Starved(c)
  {
    hide *;
    StarvedIs(c);
    c.ChangeRoom(room);
    var part, result := c.Read(size);
    c.AppCall([], false, true, false, false);
    c.NothingToSend();
    StarvedIs(c);
  }

  lemma StarvedIs(c: Connection)
    ensures Starved(c)
       <==> c.Valid() && !c.gone && !c.remoteClosed && !c.closing && c.attached && c.outstanding.NoSegment?
            && c.nIn == 0 && c.nOut == 0 && c.accepted == [] && c.stopped && !c.restart
  {}

  /** Writing as many bytes as availableForWrite() has just promised succeeds at once if and only if the last block
      and the pool are as it reckons; after a single partly filled block has been sent they are not. */
  method WriteWhatIsAvailable(c: Connection, buf: seq<UInt8>) returns (promised: int, result: WriteResult)
    requires c.Valid() && c.Open() && 0 < |buf| <= 0xFFFF
    modifies c, c.packetsIn, c.packetsOut
    ensures promised == |buf| ==> (result.Done? <==> promised <= old(c.Spare()))
    ensures promised == |buf| && old(c.outstanding.Unacked? && c.nOut == 1 && c.outPos < c.dataLen) ==> result == Waiting
  {
    hide *;
    OneQuietTurn();
    promised := c.AvailableForWrite();
    if c.outstanding.Unacked? && c.nOut == 1 {
      c.CutBlockIsFull();
    }
    if c.nOut == 0 && c.room < c.dataLen {
      c.EmptyNeedsBlock();
      c.NothingSpare();
    }
    MinIs(|buf|, c.Spare());
    ghost var took;
    result, took := c.Write(buf, [Turn([], false)]);
  }

  lemma OpenAtFirst(c: Connection)
    ensures c.Open() <==> !c.closing && !c.remoteClosed && !c.gone
  {}

  lemma EmptyAppended(now: seq<UInt8>, n: nat)
    ensures Appended([], now, [], n) ==> now == []
  {}

  lemma OnlyBlock(q: Queues)
    requires q.Ok() && |q.outs| == 1
    ensures q.ToSend() == q.blocks[q.outs[0]][..q.outPos]
  {
    JoinedNone(q.blocks);
    assert q.outs[..0] == [];
  }

  /** The memory of the first i of the blocks. */
  ghost function Freed(hs: seq<Handle>, blocks: Pool, i: nat): nat {
    var first := if i < |hs| then hs[..i] else hs;
    if Stored(first, blocks) then |Joined(first, blocks)| else 0
  }

  lemma FreedNone(hs: seq<Handle>, blocks: Pool)
    ensures Freed(hs, blocks, 0) == 0
  {
    assert hs != [] ==> hs[..0] == [];
  }

  lemma FreedAll(hs: seq<Handle>, blocks: Pool)
    requires Stored(hs, blocks) && |hs| <= NUMPACKETS
    ensures Freed(hs, blocks, NUMPACKETS) == |Joined(hs, blocks)|
  {}

  lemma PackedSize(slots: seq<Handle>, n: nat)
    requires Packed(slots, n)
    ensures n <= NUMPACKETS == |slots|
  {}

  /** Freeing slot i when the slots before it have been freed. */
  lemma FreedMore(slots: seq<Handle>, n: nat, blocks: Pool, i: nat)
    requires Packed(slots, n) && i < NUMPACKETS
    requires Distinct(slots[..n]) && Stored(slots[..n], blocks) && NOBLOCK !in blocks
    ensures var h, left := slots[i], blocks - set g | g in slots[..i];
            Freed(slots[..n], blocks, i + 1)
            == Freed(slots[..n], blocks, i) + if h != NOBLOCK && h in left then |left[h]| else 0
  {
    hide Joined;
    var hs := slots[..n];
    if i < n {
      assert slots[..i] == hs[..i] && hs[i] == slots[i] && hs[i] in hs;
      assert hs[..i + 1] == hs[..i] + [hs[i]];
      assert forall g :: g in hs[..i + 1] ==> g in hs;
      JoinedMore(hs[..i], hs[i], blocks);
      assert i + 1 == n ==> hs[..i + 1] == hs;
      assert hs[i] !in hs[..i];
    }
  }

  lemma PackedMembers(slots: seq<Handle>, n: nat)
    requires Packed(slots, n)
    ensures forall h :: h in slots ==> h in slots[..n] || h == NOBLOCK
  {
    forall h | h in slots ensures h in slots[..n] || h == NOBLOCK {
      var i :| 0 <= i < |slots| && slots[i] == h;
      assert i < n ==> slots[..n][i] == h;
    }
  }

  lemma LastIs(q: Queues, h: Handle)
    requires q.Ok() && q.outs != [] && h == q.outs[|q.outs| - 1]
    ensures h in q.blocks && h == q.Last()
  {
    assert h in q.outs;
  }

  /** Freeing all output blocks leaves the input queue alone. */
  lemma FlushOutEffect(q: Queues, freed: set<Handle>)
    requires q.Ok() && NOBLOCK !in q.blocks && forall h :: h in freed ==> h in q.outs || h == NOBLOCK
    ensures var r := Queues(q.ins, [], q.blocks - freed, q.outPos);
            r.Ok() && r.Received() == q.Received() && q.Held() == r.Held() + |Joined(q.outs, q.blocks)|
  {
    hide Distinct, Joined;
    var r := Queues(q.ins, [], q.blocks - freed, q.outPos);
    OutsNotAmongIns(q);
    DistinctPrefix(q.ins, q.outs);
    JoinedFrame(q.ins, q.blocks, r.blocks);
    JoinedNone(r.blocks);
  }

  lemma DistinctPrefix(ins: seq<Handle>, outs: seq<Handle>)
    requires Distinct(ins + outs)
    ensures Distinct(ins + [])
  {
    forall i, j | 0 <= i < j < |ins| ensures ins[i] != ins[j] {
      DistinctMember(ins, outs, i, j);
    }
    assert ins + [] == ins;
  }

  /** Freeing all input blocks leaves the output queue alone. */
  lemma FlushInEffect(q: Queues, freed: set<Handle>)
    requires q.Ok() && NOBLOCK !in q.blocks && forall h :: h in freed ==> h in q.ins || h == NOBLOCK
    ensures var r := Queues([], q.outs, q.blocks - freed, q.outPos);
            r.Ok() && r.ToSend() == q.ToSend() && q.Held() == r.Held() + |Joined(q.ins, q.blocks)|
    ensures forall bytes :: q.HeadIs(bytes) ==> Queues([], q.outs, q.blocks - freed, q.outPos).HeadIs(bytes)
  {
    hide Distinct, Joined;
    var r := Queues([], q.outs, q.blocks - freed, q.outPos);
    OutsNotAmongIns(q);
    DistinctSuffix(q.ins, q.outs);
    JoinedFrame(q.outs, q.blocks, r.blocks);
    ToSendFrame(q, r.blocks);
    JoinedNone(r.blocks);
  }

  lemma OutsNotAmongIns(q: Queues)
    requires q.Ok()
    ensures forall h :: h in q.outs ==> h !in q.ins
  {
    forall h | h in q.outs ensures h !in q.ins {
      var j :| 0 <= j < |q.outs| && q.outs[j] == h;
      forall i | 0 <= i < |q.ins| ensures q.ins[i] != h {
        DistinctMember(q.ins, q.outs, i, j);
      }
    }
  }

  lemma DistinctSuffix(ins: seq<Handle>, outs: seq<Handle>)
    requires Distinct(ins + outs)
    ensures Distinct([] + outs)
  {
    forall i, j | 0 <= i < j < |outs| ensures outs[i] != outs[j] {
      DistinctMember(ins, outs, i, j);
    }
    assert [] + outs == outs;
  }
}
