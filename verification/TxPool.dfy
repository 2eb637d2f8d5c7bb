/** The transmit pool of components/tailscale/tailscale_netif.cpp: lwIP fills buffers, the main loop empties them. */
module TxPool {
  import opened Bytes
  import opened Pool

  const TX_POOL_SIZE: nat := 4
  const MAX_PACKET_SIZE: nat := 1536

  // Interleavings: output is called from any thread; get_pending_tx from the main loop.

  datatype Tx = Tx(pool: Pool.State, offered: nat, packets: nat, drops: nat)

  datatype TxAction =
    | Caller                                  // a thread that will call output
    | Offer(t: nat, len: nat)                 // output is called: take a buffer, or drop
    | Fill(t: nat, packet: Packet)
    | Enqueue(t: nat)
    | Take | CopyOut | Release

  function TxStep(x: Tx, a: TxAction): Tx {
    match a
    case Caller => x.(pool := Step(x.pool, StartTask))
    case Offer(t, len) =>
      if !In(x.pool, t) || x.pool.tasks[t] != Ready then x
      else if len > MAX_PACKET_SIZE || x.pool.free == [] then x.(offered := x.offered + 1, drops := x.drops + 1)
      else x.(offered := x.offered + 1, pool := Step(x.pool, TakeFree(t)))
    case Fill(t, packet) => x.(pool := Step(x.pool, ReceivePacket(t, packet)))
    case Enqueue(t) =>
      var pool := Step(x.pool, Publish(t));
      x.(pool := pool, drops := if pool.failures > x.pool.failures then x.drops + 1 else x.drops)
    case Take => x.(pool := Step(x.pool, MainTake))
    case CopyOut => x.(pool := Step(x.pool, MainHandle))
    case Release => x.(pool := Step(x.pool, MainReturn), packets := if x.pool.main.Filled? then x.packets + 1 else x.packets)
  }

  function TxRun(x: Tx, actions: seq<TxAction>): Tx
    decreases |actions|
  {
    if actions == [] then x else TxRun(TxStep(x, actions[0]), actions[1..])
  }

  /** Buffers between the queues: being filled by a caller, or emptied by the main loop. */
  function InFlight(s: Pool.State): nat { HeldAny(s.tasks) + HasAny(s.main) }

  predicate Balanced(x: Tx) { x.offered == x.packets + x.drops + |x.pool.ready| + InFlight(x.pool) }

  lemma TxStepKeeps(x: Tx, pool: set<nat>, a: TxAction)
    requires Inv(x.pool, pool) && Balanced(x)
    ensures Inv(TxStep(x, a).pool, pool) && Balanced(TxStep(x, a))
  {
    hide Kept, Owned, Has, Held, HeldAny;
    var s := x.pool;
    match a
    case Caller =>
      StepKeeps(s, pool, StartTask);
      HeldAfterStart(s.tasks, 0);
    case Offer(t, len) =>
      StepKeeps(s, pool, TakeFree(t));
      if In(s, t) && s.tasks[t] == Ready && s.free != [] {
        HeldAfter(s.tasks, t, Holding(s.free[0]), 0);
      }
    case Fill(t, packet) =>
      StepKeeps(s, pool, ReceivePacket(t, packet));
      if In(s, t) && s.tasks[t].Holding? {
        HeldAfter(s.tasks, t, Filled(s.tasks[t].buf), 0);
      }
    case Enqueue(t) =>
      StepKeeps(s, pool, Publish(t));
      if In(s, t) && s.tasks[t].Filled? {
        HeldAfter(s.tasks, t, Ready, 0);
      }
    case Take => StepKeeps(s, pool, MainTake);
    case CopyOut => StepKeeps(s, pool, MainHandle);
    case Release => StepKeeps(s, pool, MainReturn);
  }

  lemma {:induction false} TxRunKeeps(x: Tx, pool: set<nat>, actions: seq<TxAction>)
    requires Inv(x.pool, pool) && Balanced(x)
    ensures Inv(TxRun(x, actions).pool, pool) && Balanced(TxRun(x, actions))
    decreases |actions|
  {
    if actions != [] {
      TxStepKeeps(x, pool, actions[0]);
      TxRunKeeps(TxStep(x, actions[0]), pool, actions[1..]);
    }
  }

  /** Whatever the interleaving: every packet offered has been sent, dropped, is queued or is in flight; what is delivered
      is what was queued, in the same order with the same bytes and destination; and no send fails. */
  lemma TxConserved(buffers: seq<nat>, actions: seq<TxAction>)
    requires Distinct(buffers) && |buffers| <= TX_POOL_SIZE
    ensures var x := TxRun(Tx(Initial(TX_POOL_SIZE, buffers), 0, 0, 0), actions);
            && x.offered == x.packets + x.drops + |x.pool.ready| + InFlight(x.pool)
            && x.pool.handled <= x.pool.published && x.pool.failures == 0
            && Owned(x.pool.free, x.pool.ready, x.pool.tasks, x.pool.main, SetOf(buffers), x.pool.size)
  {
    InitialInv(TX_POOL_SIZE, buffers);
    TxRunKeeps(Tx(Initial(TX_POOL_SIZE, buffers), 0, 0, 0), SetOf(buffers), actions);
  }

  /** A packet is dropped if and only if it is too large or every buffer is queued or in flight. */
  lemma OfferDropsIff(x: Tx, pool: set<nat>, t: nat, len: nat)
    requires Inv(x.pool, pool) && In(x.pool, t) && x.pool.tasks[t] == Ready
    ensures TxStep(x, Offer(t, len)).drops == x.drops + 1
            <==> len > MAX_PACKET_SIZE || |x.pool.ready| + InFlight(x.pool) == |pool|
    ensures TxStep(x, Offer(t, len)).drops in {x.drops, x.drops + 1} && TxStep(x, Offer(t, len)).offered == x.offered + 1
  {
    ExhaustedIff(x.pool, pool);
  }

  /** The steps of one packet, from the call to the main loop's release. */
  function OnePacket(t: nat, packet: Packet): seq<TxAction> { [Offer(t, |packet.data|), Fill(t, packet), Enqueue(t), Take, CopyOut, Release] }

  /** From an idle pool with a free buffer a packet that fits is sent: delivered as it was offered, and counted. */
  lemma PacketSent(x: Tx, pool: set<nat>, t: nat, packet: Packet)
    requires Inv(x.pool, pool) && In(x.pool, t) && x.pool.tasks[t] == Ready && x.pool.main == Ready
    requires x.pool.free != [] && x.pool.ready == [] && |packet.data| <= MAX_PACKET_SIZE
    ensures var y := TxRun(x, OnePacket(t, packet));
            && y.offered == x.offered + 1 && y.packets == x.packets + 1 && y.drops == x.drops
            && y.pool.handled == x.pool.handled + [Tagged(t, packet)] && y.pool.ready == [] && |y.pool.free| == |x.pool.free|
  {
    hide Inv, Step;
    var s := x.pool;
    var filled := Run(s, [TakeFree(t), ReceivePacket(t, packet), Publish(t)]);
    PacketPublished(s, pool, t, packet);
    RunKeeps(s, pool, [TakeFree(t), ReceivePacket(t, packet), Publish(t)]);
    TurnHandles(filled, pool);
    SixSteps(x, t, packet);
    ThreeSteps(s, TakeFree(t), ReceivePacket(t, packet), Publish(t));
    NoFailures(s, pool, t, packet);
    MainHolds(filled, pool);
  }

  lemma NoFailures(s: Pool.State, pool: set<nat>, t: nat, packet: Packet)
    requires Inv(s, pool)
    ensures var s2 := Step(Step(s, TakeFree(t)), ReceivePacket(t, packet)); Step(s2, Publish(t)).failures == s2.failures
  {
    hide Step;
    StepKeeps(s, pool, TakeFree(t));
    StepKeeps(Step(s, TakeFree(t)), pool, ReceivePacket(t, packet));
    StepKeeps(Step(Step(s, TakeFree(t)), ReceivePacket(t, packet)), pool, Publish(t));
  }

  lemma MainHolds(s: Pool.State, pool: set<nat>)
    requires Inv(s, pool) && s.main == Ready && s.ready != []
    ensures Step(Step(s, MainTake), MainHandle).main.Filled?
  {
  }

  lemma SixSteps(x: Tx, t: nat, packet: Packet)
    requires In(x.pool, t) && x.pool.tasks[t] == Ready && x.pool.free != [] && |packet.data| <= MAX_PACKET_SIZE
    ensures var s3 := Step(Step(Step(x.pool, TakeFree(t)), ReceivePacket(t, packet)), Publish(t));
            var s2 := Step(Step(x.pool, TakeFree(t)), ReceivePacket(t, packet));
            var s5 := Step(Step(s3, MainTake), MainHandle);
            TxRun(x, OnePacket(t, packet))
            == Tx(Step(s5, MainReturn), x.offered + 1, if s5.main.Filled? then x.packets + 1 else x.packets,
                  if s3.failures > s2.failures then x.drops + 1 else x.drops)
  {
    hide Step;
    var steps := OnePacket(t, packet);
    TxRunOne(x, steps);
    var x1 := TxStep(x, steps[0]);
    TxRunOne(x1, steps[1..]);
    var x2 := TxStep(x1, steps[1]);
    TxRunOne(x2, steps[1..][1..]);
    var x3 := TxStep(x2, steps[2]);
    TxRunOne(x3, steps[1..][1..][1..]);
    var x4 := TxStep(x3, steps[3]);
    TxRunOne(x4, steps[1..][1..][1..][1..]);
    var x5 := TxStep(x4, steps[4]);
    TxRunOne(x5, steps[1..][1..][1..][1..][1..]);
  }

  lemma TxRunOne(x: Tx, actions: seq<TxAction>)
    requires actions != []
    ensures TxRun(x, actions) == TxRun(TxStep(x, actions[0]), actions[1..]) && (|actions| == 1 ==> TxRun(x, actions) == TxStep(x, actions[0]))
  {
    hide TxStep;
    assert |actions| == 1 ==> actions[1..] == [];
    assert TxRun(TxStep(x, actions[0]), []) == TxStep(x, actions[0]);
  }

  // The object, one call at a time.

  datatype TxResult = TxOk | TxNotRunning | TxTooLarge | TxNoBuffer

  class TxBuffer {
    const data: array<byte>
    var len: nat
    var dstIp: nat

    constructor ()
      ensures data.Length == MAX_PACKET_SIZE && len == 0 && dstIp == 0 && fresh(data)
    {
      data := new byte[MAX_PACKET_SIZE];
      len, dstIp := 0, 0;
    }
  }

  /** Different objects over different memory, each with a packet's worth of room. */
  ghost predicate Separate(bs: seq<TxBuffer>)
    reads set b | b in bs
  {
    && (forall i :: 0 <= i < |bs| ==> bs[i].data.Length == MAX_PACKET_SIZE && bs[i].len <= MAX_PACKET_SIZE)
    && (forall i, j :: 0 <= i < j < |bs| ==> bs[i] != bs[j] && bs[i].data != bs[j].data)
  }

  /** Moving a buffer from the front of one queue to the back of the other. */
  lemma MoveKeepsSeparate(front: seq<TxBuffer>, back: seq<TxBuffer>)
    requires front != [] && Separate(front + back)
    ensures Separate(front[1..] + (back + [front[0]])) && Separate((back + [front[0]]) + front[1..])
  {
    var all, one, two := front + back, front[1..] + (back + [front[0]]), (back + [front[0]]) + front[1..];
    var n, m := |front|, |back|;
    assert forall i :: 0 <= i < n - 1 ==> one[i] == all[i + 1];
    assert forall i :: n - 1 <= i < n - 1 + m ==> one[i] == all[i + 1];
    assert one[n - 1 + m] == all[0];
    assert forall i :: 0 <= i < m ==> two[i] == all[n + i];
    assert two[m] == all[0];
    assert forall i :: m < i < n + m ==> two[i] == all[i - m];
  }

  lemma SwapKeepsSeparate(a: seq<TxBuffer>, b: seq<TxBuffer>)
    requires Separate(a + b)
    ensures Separate(b + a)
  {
    assert forall i :: 0 <= i < |b| ==> (b + a)[i] == (a + b)[|a| + i];
    assert forall i :: |b| <= i < |a| + |b| ==> (b + a)[i] == (a + b)[i - |b|];
  }

  class TailscaleNetif {
    var running: bool
    var txFree: seq<TxBuffer>
    var txPending: seq<TxBuffer>
    var txPackets: nat
    var txDrops: nat
    ghost const pool: set<object>              // the buffers and their memory
    ghost var offered: nat                     // calls of output while running
    ghost var queued: seq<(bytes, nat)>        // every packet ever put in the pending queue, with its destination

    ghost predicate Valid()
      reads this, pool
    {
      && this !in pool
      && (forall i :: 0 <= i < |txFree| ==> txFree[i] in pool && txFree[i].data in pool)
      && (forall i :: 0 <= i < |txPending| ==> txPending[i] in pool && txPending[i].data in pool)
      && |txFree| + |txPending| == TX_POOL_SIZE && Separate(txFree + txPending)
      && txPackets + |txPending| == |queued| && offered == txDrops + |queued|
      && (forall k :: 0 <= k < |txPending| ==> Holds(txPending[k], queued[txPackets + k]))
    }

    constructor ()
      ensures Valid() && fresh(pool) && !running && |txFree| == TX_POOL_SIZE && queued == [] && txDrops == 0 && txPackets == 0
    {
      var a := new TxBuffer();
      var b := new TxBuffer();
      var c := new TxBuffer();
      var d := new TxBuffer();
      running, txFree, txPending, txPackets, txDrops := false, [a, b, c, d], [], 0, 0;
      pool, offered, queued := {a, b, c, d, a.data, b.data, c.data, d.data}, 0, [];
    }

    static ghost predicate Holds(b: TxBuffer, packet: (bytes, nat))
      reads b, b.data
    {
      b.len <= b.data.Length && b.data[..b.len] == packet.0 && b.dstIp == packet.1
    }

    /** Puts a packet into the first free buffer; those that wait are elsewhere. */
    method FillFirst(chain: seq<bytes>, dstIp: nat)
      requires Valid() && txFree != [] && |Concat(chain)| <= MAX_PACKET_SIZE
      modifies txFree[0], txFree[0].data
      ensures Valid() && Holds(txFree[0], (Concat(chain), dstIp))
    {
      var buf := txFree[0];
      assert buf == (txFree + txPending)[0];
      assert forall k :: 0 <= k < |txPending| ==> txPending[k] == (txFree + txPending)[|txFree| + k];
      hide Concat;
      Gather(buf.data, chain);
      buf.len := |Concat(chain)|;
      buf.dstIp := dstIp;
    }

    method Queue(chain: seq<bytes>, dstIp: nat)
      requires Valid() && txFree != [] && |Concat(chain)| <= MAX_PACKET_SIZE && running
      modifies this, pool
      ensures Valid() && running && queued == old(queued) + [(Concat(chain), dstIp)]
      ensures txDrops == old(txDrops) && txPackets == old(txPackets) && offered == old(offered) + 1
    {
      hide Concat, Holds, Separate;
      FillFirst(chain, dstIp);
      MoveKeepsSeparate(txFree, txPending);
      txPending := txPending + [txFree[0]];
      txFree := txFree[1..];
      queued := queued + [(Concat(chain), dstIp)];
      offered := offered + 1;
    }

    /** Copies the pieces one behind the other. */
    static method Gather(data: array<byte>, chain: seq<bytes>)
      requires |Concat(chain)| <= data.Length
      modifies data
      ensures data[..|Concat(chain)|] == Concat(chain)
    {
      var i, offset := 0, 0;
      assert chain[..0] == [];
      while i < |chain|
        invariant i <= |chain| && offset == |Concat(chain[..i])| && offset <= data.Length
        invariant data[..offset] == Concat(chain[..i])
      {
        ghost var done := Concat(chain[..i]);
        ConcatTakes(chain, i);
        Blit(data, offset, chain[i]);
        offset := offset + |chain[i]|;
        assert data[..offset] == done + chain[i];
        i := i + 1;
      }
      assert chain[..i] == chain;
    }

    method TotalLength(chain: seq<bytes>) returns (total: nat)
      ensures total == |Concat(chain)|
    {
      total := 0;
      var i := 0;
      assert chain[..0] == [];
      while i < |chain|
        invariant i <= |chain| && total == |Concat(chain[..i])|
      {
        ConcatTakes(chain, i);
        total := total + |chain[i]|;
        i := i + 1;
      }
      assert chain[..i] == chain;
    }

    /** lwIP's output: the packet comes in pieces and its destination beside it. */
    method LwipOutput(chain: seq<bytes>, ipaddr: Option<nat>) returns (r: TxResult)
      requires Valid()
      modifies this, pool
      ensures Valid() && txPackets == old(txPackets) && running == old(running)
      ensures r == if !running then TxNotRunning
                   else if |Concat(chain)| > MAX_PACKET_SIZE then TxTooLarge
                   else if old(txFree) == [] then TxNoBuffer else TxOk
      ensures offered == old(offered) + if running then 1 else 0
      ensures txDrops == old(txDrops) + if r in {TxTooLarge, TxNoBuffer} then 1 else 0
      ensures queued == old(queued)
                        + if r == TxOk then [(Concat(chain), if ipaddr.Some? then ipaddr.value else 0)] else []
    {
      if !running {
        return TxNotRunning;
      }
      var total := TotalLength(chain);
      if total > MAX_PACKET_SIZE {
        offered, txDrops := offered + 1, txDrops + 1;
        return TxTooLarge;
      }
      if txFree == [] {
        offered, txDrops := offered + 1, txDrops + 1;
        return TxNoBuffer;
      }
      Queue(chain, if ipaddr.Some? then ipaddr.value else 0);
      return TxOk;
    }

    /** The driver's transmit: one piece, with the destination read from the IP header in the wire's byte order. */
    method DriverTransmit(buffer: bytes) returns (r: TxResult)
      requires Valid()
      modifies this, pool
      ensures Valid() && txPackets == old(txPackets) && running == old(running)
      ensures r == if !running then TxNotRunning
                   else if |buffer| > MAX_PACKET_SIZE then TxTooLarge
                   else if old(txFree) == [] then TxNoBuffer else TxOk
      ensures offered == old(offered) + if running then 1 else 0
      ensures txDrops == old(txDrops) + if r in {TxTooLarge, TxNoBuffer} then 1 else 0
      ensures queued == old(queued) + if r == TxOk then [(buffer, if |buffer| >= 20 then FromLe32(buffer[16..]) else 0)] else []
    {
      assert Concat([buffer]) == buffer;
      r := LwipOutput([buffer], Some(if |buffer| >= 20 then FromLe32(buffer[16..]) else 0));
    }

    /** The oldest packet that waits, byte for byte, with its destination; its buffer is free again. */
    method GetPendingTx() returns (ok: bool, data: bytes, dstIp: nat)
      requires Valid()
      modifies this
      ensures Valid() && offered == old(offered) && txDrops == old(txDrops) && queued == old(queued)
      ensures ok <==> old(txPackets) < |queued|
      ensures txPackets == old(txPackets) + if ok then 1 else 0
      ensures ok ==> (data, dstIp) == queued[old(txPackets)]
    {
      data, dstIp := [], 0;
      if txPending == [] {
        return false, data, dstIp;
      }
      var buf := txPending[0];
      assert Holds(buf, queued[txPackets + 0]);
      data, dstIp := buf.data[..buf.len], buf.dstIp;
      SwapKeepsSeparate(txFree, txPending);
      MoveKeepsSeparate(txPending, txFree);
      ghost var was := txPending;
      txPending := txPending[1..];
      txFree := txFree + [buf];
      txPackets := txPackets + 1;
      assert forall k :: 0 <= k < |txPending| ==> txPending[k] == was[k + 1];
      return true, data, dstIp;
    }
  }
}
