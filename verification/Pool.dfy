/** The zero-copy packet pool of components/tailscale/tailscale.cpp: buffers go from the free queue to an IO task, to the
    ready queue, to the main loop and back.  Any number of IO tasks and the main loop take their steps in any order. */
module Pool {
  import opened Bytes

  datatype Packet = Packet(data: bytes, address: int)     // where it came from, or where it goes
  datatype Tagged = Tagged(task: nat, packet: Packet)     // which task received it

  /** Between two queue operations a task holds at most one buffer. */
  datatype Phase = Stopped | Ready | Holding(buf: nat) | Filled(buf: nat)

  /** The length of both queues, the queues, the tasks ever started, the main loop, what the buffers hold, and three
      histories: packets read from a socket into a buffer, packets put in the ready queue, packets handled. */
  datatype State = State(size: nat, free: seq<nat>, ready: seq<nat>, tasks: seq<Phase>, main: Phase, memory: map<nat, Tagged>,
                         arrived: seq<Tagged>, published: seq<Tagged>, handled: seq<Tagged>, failures: nat)

  datatype Action =
    | StartTask | ExitTask(t: nat)
    | TakeFree(t: nat)                        // a buffer for the next packet, if there is one
    | ReceiveNothing(t: nat)                  // recvfrom had nothing: the buffer goes back
    | ReceivePacket(t: nat, packet: Packet)
    | Publish(t: nat)
    | MainTake | MainHandle | MainReturn

  /** xQueueSend without waiting. */
  function Send(size: nat, queue: seq<nat>, buf: nat): (seq<nat>, bool) {
    if |queue| < size then (queue + [buf], true) else (queue, false)
  }

  function Returned(s: State, buf: nat): State {
    var (free, ok) := Send(s.size, s.free, buf);
    s.(free := free, failures := if ok then s.failures else s.failures + 1)
  }

  predicate In(s: State, t: nat) { t < |s.tasks| }

  function Step(s: State, a: Action): State {
    match a
    case StartTask => s.(tasks := s.tasks + [Ready])
    case ExitTask(t) => if In(s, t) && s.tasks[t] == Ready then s.(tasks := s.tasks[t := Stopped]) else s
    case TakeFree(t) =>
      if In(s, t) && s.tasks[t] == Ready && s.free != []
      then s.(free := s.free[1..], tasks := s.tasks[t := Holding(s.free[0])]) else s
    case ReceiveNothing(t) =>
      if In(s, t) && s.tasks[t].Holding? then Returned(s.(tasks := s.tasks[t := Ready]), s.tasks[t].buf) else s
    case ReceivePacket(t, packet) =>
      if In(s, t) && s.tasks[t].Holding?
      then s.(tasks := s.tasks[t := Filled(s.tasks[t].buf)], memory := s.memory[s.tasks[t].buf := Tagged(t, packet)],
              arrived := s.arrived + [Tagged(t, packet)])
      else s
    case Publish(t) =>
      if In(s, t) && s.tasks[t].Filled? && s.tasks[t].buf in s.memory then
        var buf := s.tasks[t].buf;
        var (ready, ok) := Send(s.size, s.ready, buf);
        var s' := s.(tasks := s.tasks[t := Ready]);
        if ok then s'.(ready := ready, published := s.published + [s.memory[buf]])
        else Returned(s'.(failures := s.failures + 1), buf)
      else s
    case MainTake =>
      if s.main == Ready && s.ready != [] then s.(ready := s.ready[1..], main := Holding(s.ready[0])) else s
    case MainHandle =>
      if s.main.Holding? && s.main.buf in s.memory
      then s.(main := Filled(s.main.buf), handled := s.handled + [s.memory[s.main.buf]]) else s
    case MainReturn => if s.main.Filled? then Returned(s.(main := Ready), s.main.buf) else s
  }

  function Run(s: State, actions: seq<Action>): State
    decreases |actions|
  {
    if actions == [] then s else Run(Step(s, actions[0]), actions[1..])
  }

  /** The pool right after its buffers have been queued. */
  function Initial(size: nat, buffers: seq<nat>): State { State(size, buffers, [], [], Ready, map[], [], [], [], 0) }

  // Ownership.

  function Count(queue: seq<nat>, buf: nat): nat {
    if queue == [] then 0 else Count(queue[..|queue| - 1], buf) + if queue[|queue| - 1] == buf then 1 else 0
  }

  predicate Holds(p: Phase) { p.Holding? || p.Filled? }
  function Has(p: Phase, buf: nat): nat { if Holds(p) && p.buf == buf then 1 else 0 }
  function HasAny(p: Phase): nat { if Holds(p) then 1 else 0 }

  function Held(ps: seq<Phase>, buf: nat): nat {
    if ps == [] then 0 else Held(ps[..|ps| - 1], buf) + Has(ps[|ps| - 1], buf)
  }

  function HeldAny(ps: seq<Phase>): nat { if ps == [] then 0 else HeldAny(ps[..|ps| - 1]) + HasAny(ps[|ps| - 1]) }

  /** In how many places a buffer is. */
  function Places(free: seq<nat>, ready: seq<nat>, tasks: seq<Phase>, main: Phase, buf: nat): nat {
    Count(free, buf) + Count(ready, buf) + Held(tasks, buf) + Has(main, buf)
  }

  /** Each allocated buffer is in one place, once, and nothing else is anywhere. */
  ghost predicate Owned(free: seq<nat>, ready: seq<nat>, tasks: seq<Phase>, main: Phase, pool: set<nat>, size: nat) {
    && (forall buf: nat :: Places(free, ready, tasks, main, buf) == if buf in pool then 1 else 0)
    && |free| + |ready| + HeldAny(tasks) + HasAny(main) == |pool| <= size
  }

  lemma CountLast(queue: seq<nat>, last: nat, buf: nat)
    ensures Count(queue + [last], buf) == Count(queue, buf) + if last == buf then 1 else 0
  {
    assert (queue + [last])[..|queue|] == queue;
  }

  lemma {:induction false} CountHead(queue: seq<nat>, buf: nat)
    requires queue != []
    ensures Count(queue, buf) == Count(queue[1..], buf) + if queue[0] == buf then 1 else 0
    decreases |queue|
  {
    var n := |queue| - 1;
    if n > 0 {
      CountHead(queue[..n], buf);
      assert queue[..n][1..] == queue[1..][..n - 1];
    } else {
      assert queue[..0] == [] && queue[1..] == [];
    }
  }

  lemma {:induction false} CountIn(queue: seq<nat>, buf: nat)
    ensures buf in queue ==> Count(queue, buf) > 0
    decreases |queue|
  {
    if queue != [] {
      CountIn(queue[..|queue| - 1], buf);
      assert queue == queue[..|queue| - 1] + [queue[|queue| - 1]];
    }
  }

  lemma {:induction false} HeldAfter(ps: seq<Phase>, t: nat, p: Phase, buf: nat)
    requires t < |ps|
    ensures Held(ps[t := p], buf) + Has(ps[t], buf) == Held(ps, buf) + Has(p, buf)
    ensures HeldAny(ps[t := p]) + HasAny(ps[t]) == HeldAny(ps) + HasAny(p)
    decreases |ps|
  {
    var n := |ps| - 1;
    if t < n {
      HeldAfter(ps[..n], t, p, buf);
      assert ps[t := p][..n] == ps[..n][t := p] && ps[t := p][n] == ps[n];
    } else {
      assert ps[t := p][..n] == ps[..n];
    }
  }

  lemma HeldAfterStart(ps: seq<Phase>, buf: nat)
    ensures Held(ps + [Ready], buf) == Held(ps, buf) && HeldAny(ps + [Ready]) == HeldAny(ps)
  {
    assert (ps + [Ready])[..|ps|] == ps;
  }

  lemma {:induction false} HeldOne(ps: seq<Phase>, t: nat, buf: nat)
    requires t < |ps|
    ensures Has(ps[t], buf) <= Held(ps, buf) && HasAny(ps[t]) <= HeldAny(ps)
    decreases |ps|
  {
    if t < |ps| - 1 {
      HeldOne(ps[..|ps| - 1], t, buf);
    }
  }

  lemma {:induction false} HeldTwo(ps: seq<Phase>, t: nat, u: nat, buf: nat)
    requires t < u < |ps|
    ensures Has(ps[t], buf) + Has(ps[u], buf) <= Held(ps, buf)
    decreases |ps|
  {
    var n := |ps| - 1;
    if u < n {
      HeldTwo(ps[..n], t, u, buf);
    } else {
      HeldOne(ps[..n], t, buf);
    }
  }

  /** Nobody else has what a task holds. */
  lemma Apart(s: State, pool: set<nat>, t: nat, buf: nat)
    requires Owned(s.free, s.ready, s.tasks, s.main, pool, s.size) && In(s, t) && Has(s.tasks[t], buf) == 1
    ensures buf !in s.ready && Has(s.main, buf) == 0
    ensures forall u :: 0 <= u < |s.tasks| && u != t ==> Has(s.tasks[u], buf) == 0
  {
    HeldOne(s.tasks, t, buf);
    assert Places(s.free, s.ready, s.tasks, s.main, buf) <= 1;
    CountIn(s.ready, buf);
    forall u: nat | u < |s.tasks| && u != t ensures Has(s.tasks[u], buf) == 0 {
      if u < t {
        HeldTwo(s.tasks, u, t, buf);
      } else {
        HeldTwo(s.tasks, t, u, buf);
      }
    }
  }

  // The moves a buffer makes.

  lemma FreeToTask(free: seq<nat>, ready: seq<nat>, tasks: seq<Phase>, main: Phase, pool: set<nat>, size: nat, t: nat)
    requires Owned(free, ready, tasks, main, pool, size) && t < |tasks| && !Holds(tasks[t]) && free != []
    ensures Owned(free[1..], ready, tasks[t := Holding(free[0])], main, pool, size)
  {
    forall buf: nat ensures Places(free[1..], ready, tasks[t := Holding(free[0])], main, buf) == Places(free, ready, tasks, main, buf) {
      CountHead(free, buf);
      HeldAfter(tasks, t, Holding(free[0]), buf);
    }
    HeldAfter(tasks, t, Holding(free[0]), 0);
  }

  lemma TaskToFree(free: seq<nat>, ready: seq<nat>, tasks: seq<Phase>, main: Phase, pool: set<nat>, size: nat, t: nat)
    requires Owned(free, ready, tasks, main, pool, size) && t < |tasks| && Holds(tasks[t])
    ensures |free| < size && Owned(free + [tasks[t].buf], ready, tasks[t := Ready], main, pool, size)
  {
    forall buf: nat ensures Places(free + [tasks[t].buf], ready, tasks[t := Ready], main, buf) == Places(free, ready, tasks, main, buf) {
      CountLast(free, tasks[t].buf, buf);
      HeldAfter(tasks, t, Ready, buf);
    }
    HeldAfter(tasks, t, Ready, 0);
  }

  lemma TaskToReady(free: seq<nat>, ready: seq<nat>, tasks: seq<Phase>, main: Phase, pool: set<nat>, size: nat, t: nat)
    requires Owned(free, ready, tasks, main, pool, size) && t < |tasks| && Holds(tasks[t])
    ensures |ready| < size && Owned(free, ready + [tasks[t].buf], tasks[t := Ready], main, pool, size)
  {
    forall buf: nat ensures Places(free, ready + [tasks[t].buf], tasks[t := Ready], main, buf) == Places(free, ready, tasks, main, buf) {
      CountLast(ready, tasks[t].buf, buf);
      HeldAfter(tasks, t, Ready, buf);
    }
    HeldAfter(tasks, t, Ready, 0);
  }

  lemma ReadyToMain(free: seq<nat>, ready: seq<nat>, tasks: seq<Phase>, main: Phase, pool: set<nat>, size: nat)
    requires Owned(free, ready, tasks, main, pool, size) && !Holds(main) && ready != []
    ensures Owned(free, ready[1..], tasks, Holding(ready[0]), pool, size)
  {
    forall buf: nat ensures Places(free, ready[1..], tasks, Holding(ready[0]), buf) == Places(free, ready, tasks, main, buf) {
      CountHead(ready, buf);
    }
  }

  lemma MainToFree(free: seq<nat>, ready: seq<nat>, tasks: seq<Phase>, main: Phase, pool: set<nat>, size: nat)
    requires Owned(free, ready, tasks, main, pool, size) && Holds(main)
    ensures |free| < size && Owned(free + [main.buf], ready, tasks, Ready, pool, size)
  {
    forall buf: nat ensures Places(free + [main.buf], ready, tasks, Ready, buf) == Places(free, ready, tasks, main, buf) {
      CountLast(free, main.buf, buf);
    }
  }

  /** Nothing moves: the task has afterwards what it had before. */
  lemma TaskStays(free: seq<nat>, ready: seq<nat>, tasks: seq<Phase>, main: Phase, pool: set<nat>, size: nat, t: nat, p: Phase)
    requires Owned(free, ready, tasks, main, pool, size) && t < |tasks|
    requires Holds(p) == Holds(tasks[t]) && (Holds(p) ==> p.buf == tasks[t].buf)
    ensures Owned(free, ready, tasks[t := p], main, pool, size)
  {
    forall buf: nat ensures Places(free, ready, tasks[t := p], main, buf) == Places(free, ready, tasks, main, buf) {
      HeldAfter(tasks, t, p, buf);
    }
    HeldAfter(tasks, t, p, 0);
  }

  lemma TaskStarts(free: seq<nat>, ready: seq<nat>, tasks: seq<Phase>, main: Phase, pool: set<nat>, size: nat)
    requires Owned(free, ready, tasks, main, pool, size)
    ensures Owned(free, ready, tasks + [Ready], main, pool, size)
  {
    forall buf: nat ensures Places(free, ready, tasks + [Ready], main, buf) == Places(free, ready, tasks, main, buf) {
      HeldAfterStart(tasks, buf);
    }
    HeldAfterStart(tasks, 0);
  }

  /** No step loses, doubles or makes up a buffer, or finds a queue full. */
  lemma StepOwned(s: State, pool: set<nat>, a: Action)
    requires Owned(s.free, s.ready, s.tasks, s.main, pool, s.size)
    ensures var s' := Step(s, a); Owned(s'.free, s'.ready, s'.tasks, s'.main, pool, s.size) && s'.size == s.size && s'.failures == s.failures
  {
    hide Owned;
    match a
    case StartTask => TaskStarts(s.free, s.ready, s.tasks, s.main, pool, s.size);
    case ExitTask(t) =>
      if In(s, t) && s.tasks[t] == Ready {
        TaskStays(s.free, s.ready, s.tasks, s.main, pool, s.size, t, Stopped);
      }
    case TakeFree(t) =>
      if In(s, t) && s.tasks[t] == Ready && s.free != [] {
        FreeToTask(s.free, s.ready, s.tasks, s.main, pool, s.size, t);
      }
    case ReceiveNothing(t) =>
      if In(s, t) && s.tasks[t].Holding? {
        TaskToFree(s.free, s.ready, s.tasks, s.main, pool, s.size, t);
      }
    case ReceivePacket(t, packet) =>
      if In(s, t) && s.tasks[t].Holding? {
        TaskStays(s.free, s.ready, s.tasks, s.main, pool, s.size, t, Filled(s.tasks[t].buf));
      }
    case Publish(t) =>
      if In(s, t) && s.tasks[t].Filled? {
        TaskToReady(s.free, s.ready, s.tasks, s.main, pool, s.size, t);
      }
    case MainTake =>
      if s.main == Ready && s.ready != [] {
        ReadyToMain(s.free, s.ready, s.tasks, s.main, pool, s.size);
      }
    case MainHandle =>
      if s.main.Holding? {
        MainStays(s.free, s.ready, s.tasks, s.main.buf, pool, s.size);
      }
    case MainReturn =>
      if s.main.Filled? {
        MainToFree(s.free, s.ready, s.tasks, s.main, pool, s.size);
      }
  }

  lemma MainStays(free: seq<nat>, ready: seq<nat>, tasks: seq<Phase>, buf: nat, pool: set<nat>, size: nat)
    requires Owned(free, ready, tasks, Holding(buf), pool, size)
    ensures Owned(free, ready, tasks, Filled(buf), pool, size)
  {
    forall b: nat ensures Places(free, ready, tasks, Filled(buf), b) == Places(free, ready, tasks, Holding(buf), b) {
    }
  }

  // What every step keeps.

  function Of(t: nat, log: seq<Tagged>): seq<Packet> {
    if log == [] then []
    else Of(t, log[..|log| - 1]) + if log[|log| - 1].task == t then [log[|log| - 1].packet] else []
  }

  lemma OfLast(t: nat, log: seq<Tagged>, x: Tagged)
    ensures Of(t, log + [x]) == Of(t, log) + if x.task == t then [x.packet] else []
  {
    assert (log + [x])[..|log|] == log;
  }

  function Contents(memory: map<nat, Tagged>, queue: seq<nat>): seq<Tagged>
    requires forall i :: 0 <= i < |queue| ==> queue[i] in memory
  {
    seq(|queue|, i requires 0 <= i < |queue| => memory[queue[i]])
  }

  predicate Loaded(s: State) {
    && (forall i :: 0 <= i < |s.ready| ==> s.ready[i] in s.memory)
    && (s.main.Holding? ==> s.main.buf in s.memory)
    && (forall t :: 0 <= t < |s.tasks| && s.tasks[t].Filled? ==>
          s.tasks[t].buf in s.memory && s.memory[s.tasks[t].buf].task == t)
  }

  /** Published packets are the handled ones, the one being handled and those waiting, in that order. */
  predicate Queued(s: State)
    requires Loaded(s)
  {
    s.published == s.handled + (if s.main.Holding? then [s.memory[s.main.buf]] else []) + Contents(s.memory, s.ready)
  }

  /** What a task has received it has published, in order, save for the packet it has in hand. */
  predicate TaskInOrder(s: State, t: nat)
    requires Loaded(s)
  {
    Of(t, s.arrived) == Of(t, s.published)
                        + if In(s, t) && s.tasks[t].Filled? then [s.memory[s.tasks[t].buf].packet] else []
  }

  ghost predicate InOrder(s: State)
    requires Loaded(s)
  {
    forall t: nat :: TaskInOrder(s, t)
  }

  /** Each task's packets are in order, and so are those that wait. */
  ghost predicate Kept(s: State) { Loaded(s) && Queued(s) && InOrder(s) }

  ghost predicate Inv(s: State, pool: set<nat>) {
    Owned(s.free, s.ready, s.tasks, s.main, pool, s.size) && s.failures == 0 && Kept(s)
  }

  /** Steps that only change what one task is doing, without filling or emptying a buffer. */
  lemma TaskTurns(s: State, t: nat, p: Phase, free: seq<nat>, failures: nat)
    requires Kept(s) && In(s, t) && !s.tasks[t].Filled? && !p.Filled?
    ensures Kept(s.(tasks := s.tasks[t := p], free := free, failures := failures))
  {
    var s' := s.(tasks := s.tasks[t := p], free := free, failures := failures);
    forall u: nat ensures TaskInOrder(s', u) {
      assert TaskInOrder(s, u);
    }
  }

  lemma StartKeeps(s: State)
    requires Kept(s)
    ensures Kept(Step(s, StartTask))
  {
    forall u: nat ensures TaskInOrder(Step(s, StartTask), u) {
      assert TaskInOrder(s, u);
    }
  }

  /** Writing the buffer it holds, a task overwrites nothing that waits or is being handled. */
  lemma ReceiveKeeps(s: State, pool: set<nat>, t: nat, packet: Packet)
    requires Inv(s, pool) && In(s, t) && s.tasks[t].Holding?
    ensures Kept(Step(s, ReceivePacket(t, packet)))
  {
    var buf, x := s.tasks[t].buf, Tagged(t, packet);
    var s' := Step(s, ReceivePacket(t, packet));
    Apart(s, pool, t, buf);
    hide Owned;
    assert Loaded(s');
    assert Contents(s'.memory, s'.ready) == Contents(s.memory, s.ready);
    forall u: nat ensures TaskInOrder(s', u) {
      assert TaskInOrder(s, u);
      OfLast(u, s.arrived, x);
      assert Of(u, s.published) + [] == Of(u, s.published);
    }
  }

  lemma PublishKeeps(s: State, t: nat)
    requires Kept(s) && In(s, t) && s.tasks[t].Filled? && |s.ready| < s.size
    ensures Kept(Step(s, Publish(t)))
  {
    var buf := s.tasks[t].buf;
    var s' := Step(s, Publish(t));
    assert s'.ready == s.ready + [buf] && s'.published == s.published + [s.memory[buf]];
    assert Contents(s.memory, s'.ready) == Contents(s.memory, s.ready) + [s.memory[buf]];
    forall u: nat ensures TaskInOrder(s', u) {
      assert TaskInOrder(s, u);
      OfLast(u, s.published, s.memory[buf]);
    }
  }

  lemma MainTakeKeeps(s: State)
    requires Kept(s)
    ensures Kept(Step(s, MainTake))
  {
    if s.main == Ready && s.ready != [] {
      assert Contents(s.memory, s.ready) == [s.memory[s.ready[0]]] + Contents(s.memory, s.ready[1..]);
      SameTasks(s, Step(s, MainTake));
    }
  }

  lemma SameTasks(s: State, s': State)
    requires Kept(s) && Loaded(s') && s'.tasks == s.tasks && s'.memory == s.memory
    requires s'.arrived == s.arrived && s'.published == s.published
    ensures InOrder(s')
  {
    forall u: nat ensures TaskInOrder(s', u) {
      assert TaskInOrder(s, u);
    }
  }

  lemma MainHandleKeeps(s: State)
    requires Kept(s)
    ensures Kept(Step(s, MainHandle))
  {
    if s.main.Holding? {
      var x := s.memory[s.main.buf];
      assert s.handled + [x] + Contents(s.memory, s.ready) == (s.handled + [x]) + [] + Contents(s.memory, s.ready);
      SameTasks(s, Step(s, MainHandle));
    }
  }

  lemma MainReturnKeeps(s: State)
    requires Kept(s)
    ensures Kept(Step(s, MainReturn))
  {
    if s.main.Filled? {
      SameTasks(s, Step(s, MainReturn));
    }
  }

  lemma StepKeeps(s: State, pool: set<nat>, a: Action)
    requires Inv(s, pool)
    ensures Inv(Step(s, a), pool)
  {
    hide Owned, Kept;
    StepOwned(s, pool, a);
    match a
    case StartTask => StartKeeps(s);
    case ExitTask(t) =>
      if In(s, t) && s.tasks[t] == Ready {
        TaskTurns(s, t, Stopped, s.free, 0);
      }
    case TakeFree(t) =>
      if In(s, t) && s.tasks[t] == Ready && s.free != [] {
        TaskTurns(s, t, Holding(s.free[0]), s.free[1..], 0);
      }
    case ReceiveNothing(t) =>
      if In(s, t) && s.tasks[t].Holding? {
        TaskTurns(s, t, Ready, Step(s, a).free, 0);
      }
    case ReceivePacket(t, packet) =>
      if In(s, t) && s.tasks[t].Holding? {
        ReceiveKeeps(s, pool, t, packet);
      }
    case Publish(t) =>
      if In(s, t) && s.tasks[t].Filled? {
        TaskToReady(s.free, s.ready, s.tasks, s.main, pool, s.size, t);
        PublishKeeps(s, t);
      }
    case MainTake => MainTakeKeeps(s);
    case MainHandle => MainHandleKeeps(s);
    case MainReturn => MainReturnKeeps(s);
  }

  lemma {:induction false} RunKeeps(s: State, pool: set<nat>, actions: seq<Action>)
    requires Inv(s, pool)
    ensures Inv(Run(s, actions), pool)
    decreases |actions|
  {
    if actions != [] {
      StepKeeps(s, pool, actions[0]);
      RunKeeps(Step(s, actions[0]), pool, actions[1..]);
    }
  }

  /** The set and the queue of the buffers that could be allocated. */
  predicate Distinct(buffers: seq<nat>) { forall i, j :: 0 <= i < j < |buffers| ==> buffers[i] != buffers[j] }

  function SetOf(buffers: seq<nat>): set<nat> { set b | b in buffers }

  lemma {:induction false} DistinctCounts(buffers: seq<nat>, buf: nat)
    requires Distinct(buffers)
    ensures Count(buffers, buf) == (if buf in SetOf(buffers) then 1 else 0) && |SetOf(buffers)| == |buffers|
    decreases |buffers|
  {
    if buffers != [] {
      var rest, b := buffers[..|buffers| - 1], buffers[|buffers| - 1];
      DistinctCounts(rest, buf);
      assert buffers == rest + [b];
      assert SetOf(buffers) == SetOf(rest) + {b};
    }
  }

  lemma InitialInv(size: nat, buffers: seq<nat>)
    requires Distinct(buffers) && |buffers| <= size
    ensures Inv(Initial(size, buffers), SetOf(buffers))
  {
    forall buf: nat ensures Places(buffers, [], [], Ready, buf) == if buf in SetOf(buffers) then 1 else 0 {
      DistinctCounts(buffers, buf);
    }
    DistinctCounts(buffers, 0);
    assert forall u: nat :: TaskInOrder(Initial(size, buffers), u);
  }

  /** From a pool of no more buffers than the queues are long, under any interleaving of any number of IO tasks coming
      and going with the main loop: every buffer is always in exactly one place, no send ever fails, and the packets of
      each task are handled in the order they arrived, each with the contents it arrived with; only those still on the
      way are missing. */
  lemma PoolIsSafe(size: nat, buffers: seq<nat>, actions: seq<Action>, t: nat)
    requires Distinct(buffers) && |buffers| <= size
    ensures var s := Run(Initial(size, buffers), actions);
            && Owned(s.free, s.ready, s.tasks, s.main, SetOf(buffers), size) && s.failures == 0
            && Of(t, s.handled) <= Of(t, s.arrived)
            && (s.ready == [] && !s.main.Holding? && (In(s, t) ==> !s.tasks[t].Filled?) ==> Of(t, s.handled) == Of(t, s.arrived))
  {
    InitialInv(size, buffers);
    RunKeeps(Initial(size, buffers), SetOf(buffers), actions);
    HandledInOrder(Run(Initial(size, buffers), actions), t);
  }

  lemma HandledInOrder(s: State, t: nat)
    requires Kept(s)
    ensures Of(t, s.handled) <= Of(t, s.arrived)
    ensures s.ready == [] && !s.main.Holding? && (In(s, t) ==> !s.tasks[t].Filled?) ==> Of(t, s.handled) == Of(t, s.arrived)
  {
    assert TaskInOrder(s, t);
    var rest := (if s.main.Holding? then [s.memory[s.main.buf]] else []) + Contents(s.memory, s.ready);
    assert s.published == s.handled + rest;
    OfSplits(t, s.handled, rest);
  }

  lemma {:induction false} OfSplits(t: nat, a: seq<Tagged>, b: seq<Tagged>)
    ensures Of(t, a + b) == Of(t, a) + Of(t, b)
    decreases |b|
  {
    if b == [] {
      assert a + b == a;
    } else {
      var n := |b| - 1;
      OfSplits(t, a, b[..n]);
      assert a + b == (a + b[..n]) + [b[n]];
      OfLast(t, a + b[..n], b[n]);
    }
  }

  // Nothing stays behind.

  lemma RunTwice(s: State, a: Action, rest: seq<Action>)
    ensures Run(s, [a] + rest) == Run(Step(s, a), rest)
  {
    assert ([a] + rest)[1..] == rest;
  }

  lemma ThreeSteps(s: State, a: Action, b: Action, c: Action)
    ensures Run(s, [a, b, c]) == Step(Step(Step(s, a), b), c)
  {
    hide Step;
    RunTwice(s, a, [b, c]);
    RunTwice(Step(s, a), b, [c]);
    RunTwice(Step(Step(s, a), b), c, []);
    assert [a] + [b, c] == [a, b, c] && [b] + [c] == [b, c] && [c] + [] == [c];
  }

  /** What the main loop does with one packet. */
  function MainTurn(): seq<Action> { [MainTake, MainHandle, MainReturn] }

  function MainTurns(n: nat): seq<Action> { if n == 0 then [] else MainTurn() + MainTurns(n - 1) }

  /** One turn handles the packet that has waited longest, and its buffer is free again behind the others. */
  lemma TurnHandles(s: State, pool: set<nat>)
    requires Inv(s, pool) && s.main == Ready && s.ready != []
    ensures s.ready[0] in s.memory && |s.free| < s.size
    ensures Step(Step(Step(s, MainTake), MainHandle), MainReturn)
            == s.(ready := s.ready[1..], free := s.free + [s.ready[0]], handled := s.handled + [s.memory[s.ready[0]]])
  {
    hide Owned;
    var s1 := Step(s, MainTake);
    StepOwned(s, pool, MainTake);
    var s2 := Step(s1, MainHandle);
    StepOwned(s1, pool, MainHandle);
    MainToFree(s2.free, s2.ready, s2.tasks, s2.main, pool, s2.size);
  }

  /** As many turns as there are packets handle all of them, in the order they were published, and free all their buffers. */
  lemma {:induction false} Drains(s: State, pool: set<nat>)
    requires Inv(s, pool) && s.main == Ready
    ensures Run(s, MainTurns(|s.ready|)) == s.(ready := [], free := s.free + s.ready, handled := s.published)
    decreases |s.ready|
  {
    hide Step, Inv;
    if s.ready == [] {
      NothingWaits(s, pool);
      assert s.free + [] == s.free;
    } else {
      var rest := MainTurns(|s.ready| - 1);
      TurnHandles(s, pool);
      assert MainTurn() + rest == [MainTake] + ([MainHandle] + ([MainReturn] + rest));
      RunTwice(s, MainTake, [MainHandle] + ([MainReturn] + rest));
      RunTwice(Step(s, MainTake), MainHandle, [MainReturn] + rest);
      RunTwice(Step(Step(s, MainTake), MainHandle), MainReturn, rest);
      StepKeeps(s, pool, MainTake);
      StepKeeps(Step(s, MainTake), pool, MainHandle);
      StepKeeps(Step(Step(s, MainTake), MainHandle), pool, MainReturn);
      var s3 := s.(ready := s.ready[1..], free := s.free + [s.ready[0]], handled := s.handled + [s.memory[s.ready[0]]]);
      Drains(s3, pool);
      assert s.free + [s.ready[0]] + s.ready[1..] == s.free + s.ready;
    }
  }

  lemma NothingWaits(s: State, pool: set<nat>)
    requires Inv(s, pool) && s.main == Ready && s.ready == []
    ensures s.handled == s.published && Run(s, []) == s
  {
  }

  /** A packet that arrives at a task with a buffer to be had is published behind all others, as it arrived. */
  lemma PacketPublished(s: State, pool: set<nat>, t: nat, packet: Packet)
    requires Inv(s, pool) && In(s, t) && s.tasks[t] == Ready && s.free != []
    ensures |s.ready| < s.size
    ensures Run(s, [TakeFree(t), ReceivePacket(t, packet), Publish(t)])
            == s.(free := s.free[1..], ready := s.ready + [s.free[0]], memory := s.memory[s.free[0] := Tagged(t, packet)],
                  arrived := s.arrived + [Tagged(t, packet)], published := s.published + [Tagged(t, packet)])
  {
    hide Owned;
    var s1 := Step(s, TakeFree(t));
    StepOwned(s, pool, TakeFree(t));
    var s2 := Step(s1, ReceivePacket(t, packet));
    StepOwned(s1, pool, ReceivePacket(t, packet));
    TaskToReady(s2.free, s2.ready, s2.tasks, s2.main, pool, s2.size, t);
    ThreeSteps(s, TakeFree(t), ReceivePacket(t, packet), Publish(t));
    assert s2.tasks == s.tasks[t := Filled(s.free[0])] && s2.tasks[t := Ready] == s.tasks;
  }

  /** A task that finds nothing to receive puts its buffer back behind the others. */
  lemma NothingReceived(s: State, pool: set<nat>, t: nat)
    requires Inv(s, pool) && In(s, t) && s.tasks[t] == Ready && s.free != []
    ensures Step(Step(s, TakeFree(t)), ReceiveNothing(t)) == s.(free := s.free[1..] + [s.free[0]])
  {
    hide Owned;
    var s1 := Step(s, TakeFree(t));
    StepOwned(s, pool, TakeFree(t));
    TaskToFree(s1.free, s1.ready, s1.tasks, s1.main, pool, s1.size, t);
    assert s1.tasks[t := Ready] == s.tasks;
  }

  /** There is no buffer to be had if and only if all of them wait, are being filled or are being handled. */
  lemma ExhaustedIff(s: State, pool: set<nat>)
    requires Inv(s, pool)
    ensures s.free == [] <==> |s.ready| + HeldAny(s.tasks) + HasAny(s.main) == |pool|
  {
  }
}
