/** Callbacks from foreign threads. A foreign thread that calls a callback queues an invocation,
    wakes the event loop and blocks; the event loop drains the queue. Every action between two
    points where another thread may interfere is one step, and a run is any sequence of steps.

    Mutexes: one guards the queue, and every invocation has its own, which its thread holds from
    the constructor to the wait. So a thread takes its own mutex and then that of the queue, the
    event loop that of the queue and then that of an invocation. */
module Callbacks {

  type Address = nat

  datatype Request = Request(callback: int, parameters: seq<int>)

  /** One call of a callback; serial numbers are given in the order of the calls. */
  datatype Ticket = Ticket(serial: nat, thread: nat, request: Request)

  datatype Served = Served(ticket: Ticket, result: int)

  datatype Owner = Nobody | Loop | Foreign(thread: nat)

  /** A ThreadedCallbackInvokation. m_retval is the result slot of the thread that owns it. */
  datatype Invocation = Invocation(ticket: Ticket, mutex: Owner)

  /** What a foreign thread does next; at is its invocation. */
  datatype Phase =
    | Outside
    | Made(at: Address)          // lock the queue
    | Queueing(at: Address)      // push
    | Pushed(at: Address)        // unlock the queue
    | Sending(at: Address)       // uv_async_send
    | ToWait(at: Address)        // release the mutex and wait
    | Waiting(at: Address)       // until signalled
    | Woken(at: Address)         // lock the mutex again
    | Resumed(at: Address)       // unlock it: the destructor
    | Destroying(at: Address)    // destroy it, free the memory and return

  /** What the event loop does next. */
  datatype MainPhase =
    | AtLoop                     // WatcherCallback, once a wake-up is pending
    | Entering                   // lock the queue
    | Draining                   // pop, or unlock the queue
    | Taken(inv: Address)        // DispatchToV8
    | ToSignal(inv: Address)     // lock the mutex of the invocation
    | Locked(inv: Address)       // signal
    | Unlocking(inv: Address)    // unlock it

  datatype State = State(
    threads: seq<Phase>, main: MainPhase,
    queue: seq<Address>, queueMutex: Owner, pending: bool,
    heap: map<Address, Invocation>,
    slots: seq<int>,             // where each thread gets its result
    // history: the calls so far, and those pushed, dispatched and returned from
    made: nat, pushed: seq<Ticket>, dispatched: seq<Served>, returned: seq<Served>)

  function Initial(n: nat): State {
    State(seq(n, _ => Outside), AtLoop, [], Nobody, false, map[], seq(n, _ => 0), 0, [], [], [])
  }

  /** A call of a callback by a thread, where the allocator chooses an unused address; a step of a
      thread; a step of the event loop, where the callback, if it is this step, gives the result. */
  datatype Event = Call(thread: nat, at: Address, request: Request) | Thread(thread: nat) | Main(result: int)

  /** A fault is the use of a freed invocation, the release of a mutex of somebody else, or the
      destruction of a mutex that is held. */
  datatype Outcome = Running(s: State) | Blocked | Fault

  predicate Free(s: State, a: Address) {
    a in s.heap ==> s.heap[a].mutex == Nobody
  }

  predicate Enabled(s: State, e: Event) {
    match e
    case Call(t, a, _) => t < |s.threads| && s.threads[t] == Outside && a !in s.heap
    case Thread(t) => t < |s.threads| && (
      match s.threads[t]
      case Outside => false
      case Made(_) => s.queueMutex == Nobody
      case Waiting(_) => false
      case Woken(a) => Free(s, a)
      case _ => true)
    case Main(_) =>
      match s.main
      case AtLoop => s.pending
      case Entering => s.queueMutex == Nobody
      case ToSignal(a) => Free(s, a)
      case _ => true
  }

  function Move(s: State, t: nat, p: Phase): State
    requires t < |s.threads|
  {
    s.(threads := s.threads[t := p])
  }

  function SetMutex(s: State, a: Address, o: Owner): State
    requires a in s.heap
  {
    s.(heap := s.heap[a := s.heap[a].(mutex := o)])
  }

  function CallStep(s: State, t: nat, a: Address, request: Request): State
    requires t < |s.threads|
  {
    var inv := Invocation(Ticket(s.made, t, request), Foreign(t));
    Move(s, t, Made(a)).(heap := s.heap[a := inv], made := s.made + 1)
  }

  function ThreadStep(s: State, t: nat): Outcome
    requires Enabled(s, Thread(t)) && t < |s.slots|
  {
    var a := s.threads[t].at;
    if a !in s.heap then Fault
    else match s.threads[t]
      case Made(_) => Running(Move(s, t, Queueing(a)).(queueMutex := Foreign(t)))
      case Queueing(_) => Running(Move(s, t, Pushed(a)).(queue := s.queue + [a], pushed := s.pushed + [s.heap[a].ticket]))
      case Pushed(_) => if s.queueMutex != Foreign(t) then Fault else Running(Move(s, t, Sending(a)).(queueMutex := Nobody))
      case Sending(_) => Running(Move(s, t, ToWait(a)).(pending := true))
      case ToWait(_) => if s.heap[a].mutex != Foreign(t) then Fault else Running(SetMutex(Move(s, t, Waiting(a)), a, Nobody))
      case Woken(_) => Running(SetMutex(Move(s, t, Resumed(a)), a, Foreign(t)))
      case Resumed(_) => if s.heap[a].mutex != Foreign(t) then Fault else Running(SetMutex(Move(s, t, Destroying(a)), a, Nobody))
      case Destroying(_) =>
        if s.heap[a].mutex != Nobody then Fault
        else Running(Move(s, t, Outside).(heap := s.heap - {a}, returned := s.returned + [Served(s.heap[a].ticket, s.slots[t])]))
  }

  /** uv_cond_signal: wakes one of those who wait, if there are any. */
  function Signal(threads: seq<Phase>, a: Address): (r: seq<Phase>)
    ensures |r| == |threads|
  {
    if |threads| == 0 then []
    else if threads[0] == Waiting(a) then [Woken(a)] + threads[1..]
    else [threads[0]] + Signal(threads[1..], a)
  }

  function MainStep(s: State, result: int): Outcome
    requires Enabled(s, Main(result))
  {
    match s.main
    case AtLoop => Running(s.(pending := false, main := Entering))
    case Entering => Running(s.(queueMutex := Loop, main := Draining))
    case Draining =>
      if |s.queue| > 0 then Running(s.(queue := s.queue[1..], main := Taken(s.queue[0])))
      else if s.queueMutex != Loop then Fault
      else Running(s.(queueMutex := Nobody, main := AtLoop))
    case Taken(a) =>
      if a !in s.heap || s.heap[a].ticket.thread >= |s.slots| then Fault
      else
        var ticket := s.heap[a].ticket;
        Running(s.(main := ToSignal(a), slots := s.slots[ticket.thread := result], dispatched := s.dispatched + [Served(ticket, result)]))
    case ToSignal(a) => if a !in s.heap then Fault else Running(SetMutex(s, a, Loop).(main := Locked(a)))
    case Locked(a) => if a !in s.heap then Fault else Running(s.(main := Unlocking(a), threads := Signal(s.threads, a)))
    case Unlocking(a) =>
      if a !in s.heap || s.heap[a].mutex != Loop then Fault else Running(SetMutex(s, a, Nobody).(main := Draining))
  }

  function Step(s: State, e: Event): Outcome
    requires |s.slots| == |s.threads|
  {
    if !Enabled(s, e) then Blocked
    else match e
      case Call(t, a, request) => Running(CallStep(s, t, a, request))
      case Thread(t) => ThreadStep(s, t)
      case Main(result) => MainStep(s, result)
  }

  lemma StepSizes(s: State, e: Event)
    requires |s.slots| == |s.threads|
    ensures var o := Step(s, e); o.Running? ==> |o.s.slots| == |o.s.threads| == |s.threads|
  {
  }

  /** What happens from a state on. */
  function Continue(s: State, events: seq<Event>): (o: Outcome)
    requires |s.slots| == |s.threads|
    ensures o.Running? ==> |o.s.slots| == |o.s.threads| == |s.threads|
    decreases |events|
  {
    if |events| == 0 then Running(s)
    else
      var o := Step(s, events[0]);
      StepSizes(s, events[0]);
      if o.Running? then Continue(o.s, events[1..]) else o
  }

  /** A run of n threads, from the start. */
  function Run(n: nat, events: seq<Event>): (o: Outcome)
    ensures o.Running? ==> |o.s.slots| == |o.s.threads| == n
  {
    Continue(Initial(n), events)
  }

  // ---------- the invariant ----------

  predicate HoldsQueue(p: Phase) {
    p.Queueing? || p.Pushed?
  }

  predicate HoldsOwn(p: Phase) {
    p.Made? || p.Queueing? || p.Pushed? || p.Sending? || p.ToWait? || p.Resumed?
  }

  predicate NotYetPushed(p: Phase) {
    p.Made? || p.Queueing?
  }

  predicate Unsignalled(p: Phase) {
    p.Pushed? || p.Sending? || p.ToWait? || p.Waiting?
  }

  predicate MainHoldsQueue(m: MainPhase) {
    m.Draining? || m.Taken? || m.ToSignal? || m.Locked? || m.Unlocking?
  }

  /** The event loop has popped a and not yet signalled it. */
  predicate InHand(m: MainPhase, a: Address) {
    m == Taken(a) || m == ToSignal(a) || m == Locked(a)
  }

  ghost predicate ThreadOk(s: State, t: nat)
    requires t < |s.threads| == |s.slots|
  {
    var p := s.threads[t];
    && (HoldsQueue(p) <==> s.queueMutex == Foreign(t))
    && (!p.Outside? ==>
          && p.at in s.heap && s.heap[p.at].ticket.thread == t
          && (HoldsOwn(p) <==> s.heap[p.at].mutex == Foreign(t))
          && (NotYetPushed(p) ==> Unpushed(s, s.heap[p.at].ticket.serial))
          && (Unsignalled(p) <==> p.at in s.queue || InHand(s.main, p.at))
          && (p.Woken? || p.Resumed? || p.Destroying? ==> Served(s.heap[p.at].ticket, s.slots[t]) in s.dispatched))
  }

  ghost predicate Unpushed(s: State, serial: nat) {
    forall i {:trigger s.pushed[i]} :: 0 <= i < |s.pushed| ==> s.pushed[i].serial != serial
  }

  ghost predicate HeapOk(s: State, a: Address)
    requires a in s.heap
  {
    var inv := s.heap[a];
    && inv.ticket.serial < s.made && inv.ticket.thread < |s.threads|
    && !s.threads[inv.ticket.thread].Outside? && s.threads[inv.ticket.thread].at == a
    && (inv.mutex == Loop <==> s.main == Locked(a) || s.main == Unlocking(a))
    && (inv.mutex.Foreign? ==> inv.mutex.thread == inv.ticket.thread)
    && (forall r {:trigger s.returned[r]} :: 0 <= r < |s.returned| ==> s.returned[r].ticket.serial != inv.ticket.serial)
  }

  /** The end of what has been pushed is still in the queue. */
  ghost predicate QueueOk(queue: seq<Address>, pushed: seq<Ticket>, heap: map<Address, Invocation>) {
    && |queue| <= |pushed|
    && forall i {:trigger queue[i]} :: 0 <= i < |queue| ==> queue[i] in heap && pushed[|pushed| - |queue| + i] == heap[queue[i]].ticket
  }

  ghost predicate HistoryOk(pushed: seq<Ticket>, dispatched: seq<Served>, made: nat) {
    && (forall i {:trigger pushed[i]} :: 0 <= i < |pushed| ==> pushed[i].serial < made)
    && (forall i, j {:trigger pushed[i], pushed[j]} :: 0 <= i < j < |pushed| ==> pushed[i].serial != pushed[j].serial)
    && |dispatched| <= |pushed|
    && (forall i {:trigger dispatched[i]} :: 0 <= i < |dispatched| ==> dispatched[i].ticket == pushed[i])
  }

  ghost predicate ReturnsOk(returned: seq<Served>, dispatched: seq<Served>, outstanding: nat, made: nat) {
    && (forall r {:trigger returned[r]} :: 0 <= r < |returned| ==> returned[r] in dispatched)
    && (forall i, j {:trigger returned[i], returned[j]} :: 0 <= i < j < |returned| ==> returned[i].ticket.serial != returned[j].ticket.serial)
    && |returned| + outstanding == made
  }

  ghost predicate MainOk(s: State) {
    && (MainHoldsQueue(s.main) <==> s.queueMutex == Loop)
    && (s.queueMutex.Foreign? ==> s.queueMutex.thread < |s.threads|)
    && match s.main
       case Taken(a) => a in s.heap && |s.dispatched| < |s.pushed| && s.pushed[|s.dispatched|] == s.heap[a].ticket
       case ToSignal(a) => DispatchedFor(s, a)
       case Locked(a) => DispatchedFor(s, a) && s.heap[a].mutex == Loop
       case Unlocking(a) => a in s.heap && s.heap[a].mutex == Loop && s.heap[a].ticket.thread < |s.threads| && s.threads[s.heap[a].ticket.thread] == Woken(a)
       case _ => true
  }

  ghost predicate DispatchedFor(s: State, a: Address) {
    && a in s.heap
    && s.heap[a].ticket.thread < |s.slots|
    && Served(s.heap[a].ticket, s.slots[s.heap[a].ticket.thread]) in s.dispatched
  }

  predicate AboutToSend(p: Phase) {
    p.Pushed? || p.Sending?
  }

  /** Somebody will see to it that the queue is drained. */
  ghost predicate WakeOk(s: State) {
    |s.queue| > 0 ==> s.pending || !s.main.AtLoop? || exists t :: 0 <= t < |s.threads| && AboutToSend(s.threads[t])
  }

  /** Two invocations are never for the same call. */
  ghost predicate SerialsOk(heap: map<Address, Invocation>) {
    forall a, b {:trigger heap[a], heap[b]} :: a in heap && b in heap && a != b ==> heap[a].ticket.serial != heap[b].ticket.serial
  }

  ghost predicate Valid(s: State) {
    && |s.slots| == |s.threads|
    && (forall t: nat {:trigger ThreadOk(s, t)} :: t < |s.threads| ==> ThreadOk(s, t))
    && (forall a {:trigger HeapOk(s, a)} :: a in s.heap ==> HeapOk(s, a))
    && QueueOk(s.queue, s.pushed, s.heap) && HistoryOk(s.pushed, s.dispatched, s.made)
    && |s.pushed| == |s.dispatched| + (if s.main.Taken? then 1 else 0) + |s.queue|
    && ReturnsOk(s.returned, s.dispatched, |s.heap|, s.made) && SerialsOk(s.heap)
    && MainOk(s) && WakeOk(s)
  }

  // ---------- every step keeps it ----------

  /** Only thread t has moved, and it was not about to send. */
  lemma WakeKept(s: State, s': State, t: nat)
    requires WakeOk(s) && s'.queue == s.queue && s'.pending == s.pending && s'.main == s.main
    requires t < |s.threads| == |s'.threads| && !AboutToSend(s.threads[t])
    requires forall u :: 0 <= u < |s.threads| && u != t ==> s'.threads[u] == s.threads[u]
    ensures WakeOk(s')
  {
  }

  /** Locking a mutex does not touch what an invocation is for. */
  lemma MutexKept(s: State, a: Address, o: Owner)
    requires a in s.heap && QueueOk(s.queue, s.pushed, s.heap) && SerialsOk(s.heap)
    ensures var h := SetMutex(s, a, o).heap; |h| == |s.heap| && QueueOk(s.queue, s.pushed, h) && SerialsOk(h)
  {
    var h := SetMutex(s, a, o).heap;
    assert h.Keys == s.heap.Keys;
    assert |h| == |h.Keys| && |s.heap| == |s.heap.Keys|;
  }

  /** Signalling, when just one thread waits. */
  lemma {:induction false} SignalOne(threads: seq<Phase>, a: Address, t: nat)
    requires t < |threads| && threads[t] == Waiting(a) && forall u :: 0 <= u < |threads| && u != t ==> threads[u] != Waiting(a)
    ensures Signal(threads, a) == threads[t := Woken(a)]
  {
    if t > 0 {
      assert threads[1..][t - 1] == Waiting(a);
      SignalOne(threads[1..], a, t - 1);
      assert threads[t := Woken(a)] == [threads[0]] + threads[1..][t - 1 := Woken(a)];
    }
  }

  lemma InitialValid(n: nat)
    ensures Valid(Initial(n))
  {
  }

  lemma CallKeeps(s: State, t: nat, a: Address, request: Request)
    requires Valid(s) && Enabled(s, Call(t, a, request))
    ensures Valid(CallStep(s, t, a, request))
  {
    hide WakeOk, SerialsOk;
    var s' := CallStep(s, t, a, request);
    assert ThreadOk(s, t);
    WakeKept(s, s', t);
    forall u: nat | u < |s'.threads|
      ensures ThreadOk(s', u)
    {
      assert ThreadOk(s, u);
    }
    forall b | b in s'.heap
      ensures HeapOk(s', b)
    {
      if b != a { assert HeapOk(s, b); }
    }
    NewSerial(s, t, a, request);
  }

  lemma NewSerial(s: State, t: nat, a: Address, request: Request)
    requires Valid(s) && Enabled(s, Call(t, a, request))
    ensures var h := CallStep(s, t, a, request).heap; SerialsOk(h) && |h| == |s.heap| + 1
  {
    hide ThreadOk, QueueOk, MainOk, WakeOk, HistoryOk, ReturnsOk;
    forall b | b in s.heap
      ensures s.heap[b].ticket.serial < s.made
    {
      assert HeapOk(s, b);
    }
  }

  lemma LockKeeps(s: State, t: nat)
    requires Valid(s) && Enabled(s, Thread(t)) && s.threads[t].Made?
    ensures ThreadStep(s, t).Running? && Valid(ThreadStep(s, t).s)
  {
    hide WakeOk, HistoryOk, ReturnsOk, SerialsOk, QueueOk;
    var a := s.threads[t].at;
    assert ThreadOk(s, t) && HeapOk(s, a);
    var s' := ThreadStep(s, t).s;
    WakeKept(s, s', t);
    forall u: nat | u < |s'.threads|
      ensures ThreadOk(s', u)
    {
      assert ThreadOk(s, u);
    }
    forall b | b in s'.heap
      ensures HeapOk(s', b)
    {
      assert HeapOk(s, b);
    }
  }

  lemma SerialsDiffer(heap: map<Address, Invocation>, a: Address, b: Address)
    requires SerialsOk(heap) && a in heap && b in heap && a != b
    ensures heap[a].ticket.serial != heap[b].ticket.serial
  {
  }

  lemma PushedKept(s: State, a: Address)
    requires a in s.heap && QueueOk(s.queue, s.pushed, s.heap) && HistoryOk(s.pushed, s.dispatched, s.made)
    requires Unpushed(s, s.heap[a].ticket.serial) && s.heap[a].ticket.serial < s.made
    ensures QueueOk(s.queue + [a], s.pushed + [s.heap[a].ticket], s.heap)
    ensures HistoryOk(s.pushed + [s.heap[a].ticket], s.dispatched, s.made)
  {
  }

  lemma PushKeeps(s: State, t: nat)
    requires Valid(s) && Enabled(s, Thread(t)) && s.threads[t].Queueing?
    ensures ThreadStep(s, t).Running? && Valid(ThreadStep(s, t).s)
  {
    hide ReturnsOk, SerialsOk, HistoryOk, QueueOk;
    var a := s.threads[t].at;
    assert ThreadOk(s, t) && HeapOk(s, a);
    var s' := ThreadStep(s, t).s;
    PushedKept(s, a);
    forall u: nat | u < |s'.threads|
      ensures ThreadOk(s', u)
    {
      assert ThreadOk(s, u);
      if u != t && !s.threads[u].Outside? { SerialsDiffer(s.heap, a, s.threads[u].at); }
    }
    forall b | b in s'.heap
      ensures HeapOk(s', b)
    {
      assert HeapOk(s, b);
    }
  }

  lemma UnlockKeeps(s: State, t: nat)
    requires Valid(s) && Enabled(s, Thread(t)) && s.threads[t].Pushed?
    ensures ThreadStep(s, t).Running? && Valid(ThreadStep(s, t).s)
  {
    hide HistoryOk, ReturnsOk, SerialsOk, QueueOk;
    var a := s.threads[t].at;
    assert ThreadOk(s, t) && HeapOk(s, a);
    var s' := ThreadStep(s, t).s;
    forall u: nat | u < |s'.threads|
      ensures ThreadOk(s', u)
    {
      assert ThreadOk(s, u);
    }
    forall b | b in s'.heap
      ensures HeapOk(s', b)
    {
      assert HeapOk(s, b);
    }
  }

  lemma SendKeeps(s: State, t: nat)
    requires Valid(s) && Enabled(s, Thread(t)) && s.threads[t].Sending?
    ensures ThreadStep(s, t).Running? && Valid(ThreadStep(s, t).s)
  {
    hide HistoryOk, ReturnsOk, SerialsOk, QueueOk;
    var a := s.threads[t].at;
    assert ThreadOk(s, t) && HeapOk(s, a);
    var s' := ThreadStep(s, t).s;
    forall u: nat | u < |s'.threads|
      ensures ThreadOk(s', u)
    {
      assert ThreadOk(s, u);
    }
    forall b | b in s'.heap
      ensures HeapOk(s', b)
    {
      assert HeapOk(s, b);
    }
  }

  lemma WaitKeeps(s: State, t: nat)
    requires Valid(s) && Enabled(s, Thread(t)) && s.threads[t].ToWait?
    ensures ThreadStep(s, t).Running? && Valid(ThreadStep(s, t).s)
  {
    hide WakeOk, HistoryOk, ReturnsOk, SerialsOk, QueueOk;
    var a := s.threads[t].at;
    assert ThreadOk(s, t) && HeapOk(s, a);
    var s' := ThreadStep(s, t).s;
    WakeKept(s, s', t);
    MutexKept(s, a, Nobody);
    forall u: nat | u < |s'.threads|
      ensures ThreadOk(s', u)
    {
      assert ThreadOk(s, u);
    }
    forall b | b in s'.heap
      ensures HeapOk(s', b)
    {
      assert HeapOk(s, b);
    }
  }

  lemma RelockKeeps(s: State, t: nat)
    requires Valid(s) && Enabled(s, Thread(t)) && s.threads[t].Woken?
    ensures ThreadStep(s, t).Running? && Valid(ThreadStep(s, t).s)
  {
    hide WakeOk, HistoryOk, ReturnsOk, SerialsOk, QueueOk;
    var a := s.threads[t].at;
    assert ThreadOk(s, t) && HeapOk(s, a);
    var s' := ThreadStep(s, t).s;
    WakeKept(s, s', t);
    MutexKept(s, a, Foreign(t));
    forall u: nat | u < |s'.threads|
      ensures ThreadOk(s', u)
    {
      assert ThreadOk(s, u);
    }
    forall b | b in s'.heap
      ensures HeapOk(s', b)
    {
      assert HeapOk(s, b);
    }
  }

  lemma ReleaseKeeps(s: State, t: nat)
    requires Valid(s) && Enabled(s, Thread(t)) && s.threads[t].Resumed?
    ensures ThreadStep(s, t).Running? && Valid(ThreadStep(s, t).s)
  {
    hide WakeOk, HistoryOk, ReturnsOk, SerialsOk, QueueOk;
    var a := s.threads[t].at;
    assert ThreadOk(s, t) && HeapOk(s, a);
    var s' := ThreadStep(s, t).s;
    WakeKept(s, s', t);
    MutexKept(s, a, Nobody);
    forall u: nat | u < |s'.threads|
      ensures ThreadOk(s', u)
    {
      assert ThreadOk(s, u);
    }
    forall b | b in s'.heap
      ensures HeapOk(s', b)
    {
      assert HeapOk(s, b);
    }
  }

  /** Returning from a call accounts for it. */
  lemma ReturnedKept(s: State, t: nat)
    requires Valid(s) && t < |s.threads| && s.threads[t].Destroying?
    ensures var a := s.threads[t].at;
            && a in s.heap
            && var h, r := s.heap - {a}, s.returned + [Served(s.heap[a].ticket, s.slots[t])];
               ReturnsOk(r, s.dispatched, |h|, s.made) && SerialsOk(h) && QueueOk(s.queue, s.pushed, h)
  {
    hide WakeOk, HistoryOk, MainOk;
    var a := s.threads[t].at;
    assert ThreadOk(s, t) && HeapOk(s, a);
    var h := s.heap - {a};
    assert h.Keys == s.heap.Keys - {a} && |h| == |h.Keys| && |s.heap| == |s.heap.Keys|;
    forall i | 0 <= i < |s.queue|
      ensures s.queue[i] != a
    {
      assert s.queue[i] in s.queue;
    }
  }

  lemma ReturnKeeps(s: State, t: nat)
    requires Valid(s) && Enabled(s, Thread(t)) && s.threads[t].Destroying?
    ensures ThreadStep(s, t).Running? && Valid(ThreadStep(s, t).s)
  {
    hide WakeOk, QueueOk, SerialsOk, ReturnsOk, HistoryOk;
    var a := s.threads[t].at;
    assert ThreadOk(s, t) && HeapOk(s, a);
    var s' := ThreadStep(s, t).s;
    WakeKept(s, s', t);
    ReturnedKept(s, t);
    forall u: nat | u < |s'.threads|
      ensures ThreadOk(s', u)
    {
      assert ThreadOk(s, u);
    }
    forall b | b in s'.heap
      ensures HeapOk(s', b)
    {
      assert HeapOk(s, b);
      SerialsDiffer(s.heap, a, b);
    }
  }

  lemma WakeKeeps(s: State, result: int)
    requires Valid(s) && Enabled(s, Main(result)) && s.main.AtLoop?
    ensures MainStep(s, result).Running? && Valid(MainStep(s, result).s)
  {
    hide HistoryOk, ReturnsOk, SerialsOk, QueueOk;
    var s' := MainStep(s, result).s;
    forall u: nat | u < |s'.threads|
      ensures ThreadOk(s', u)
    {
      assert ThreadOk(s, u);
    }
    forall b | b in s'.heap
      ensures HeapOk(s', b)
    {
      assert HeapOk(s, b);
    }
  }

  lemma EnterKeeps(s: State, result: int)
    requires Valid(s) && Enabled(s, Main(result)) && s.main.Entering?
    ensures MainStep(s, result).Running? && Valid(MainStep(s, result).s)
  {
    hide HistoryOk, ReturnsOk, SerialsOk, QueueOk;
    var s' := MainStep(s, result).s;
    forall u: nat | u < |s'.threads|
      ensures ThreadOk(s', u)
    {
      assert ThreadOk(s, u);
    }
    forall b | b in s'.heap
      ensures HeapOk(s', b)
    {
      assert HeapOk(s, b);
    }
  }

  lemma DrainKeeps(s: State, result: int)
    requires Valid(s) && Enabled(s, Main(result)) && s.main.Draining?
    ensures MainStep(s, result).Running? && Valid(MainStep(s, result).s)
  {
    hide HistoryOk, ReturnsOk, SerialsOk;
    var s' := MainStep(s, result).s;
    forall u: nat | u < |s'.threads|
      ensures ThreadOk(s', u)
    {
      assert ThreadOk(s, u);
    }
    forall b | b in s'.heap
      ensures HeapOk(s', b)
    {
      assert HeapOk(s, b);
    }
  }

  lemma DispatchKeeps(s: State, result: int)
    requires Valid(s) && Enabled(s, Main(result)) && s.main.Taken?
    ensures MainStep(s, result).Running? && Valid(MainStep(s, result).s)
  {
    hide SerialsOk, QueueOk;
    assert HeapOk(s, s.main.inv);
    var s' := MainStep(s, result).s;
    forall u: nat | u < |s'.threads|
      ensures ThreadOk(s', u)
    {
      assert ThreadOk(s, u);
    }
    forall b | b in s'.heap
      ensures HeapOk(s', b)
    {
      assert HeapOk(s, b);
    }
  }

  lemma LockOneKeeps(s: State, result: int)
    requires Valid(s) && Enabled(s, Main(result)) && s.main.ToSignal?
    ensures MainStep(s, result).Running? && Valid(MainStep(s, result).s)
  {
    hide HistoryOk, ReturnsOk, SerialsOk, QueueOk;
    assert HeapOk(s, s.main.inv);
    MutexKept(s, s.main.inv, Loop);
    var s' := MainStep(s, result).s;
    forall u: nat | u < |s'.threads|
      ensures ThreadOk(s', u)
    {
      assert ThreadOk(s, u);
    }
    forall b | b in s'.heap
      ensures HeapOk(s', b)
    {
      assert HeapOk(s, b);
    }
  }

  /** The event loop signals an invocation only when its thread waits, and no other thread does. */
  lemma WaiterWaits(s: State)
    requires Valid(s) && s.main.Locked?
    ensures var a := s.main.inv;
            && a in s.heap
            && var t := s.heap[a].ticket.thread;
               t < |s.threads| && s.threads[t] == Waiting(a) && Signal(s.threads, a) == s.threads[t := Woken(a)]
  {
    hide WakeOk, HistoryOk, ReturnsOk, SerialsOk, QueueOk;
    var a := s.main.inv;
    assert HeapOk(s, a);
    var t := s.heap[a].ticket.thread;
    assert ThreadOk(s, t);
    forall u: nat | u < |s.threads| && u != t
      ensures s.threads[u] != Waiting(a)
    {
      assert ThreadOk(s, u);
    }
    SignalOne(s.threads, a, t);
  }

  /** An invocation that has been dispatched is not in the queue any more. */
  lemma HandNotQueued(s: State)
    requires Valid(s) && (s.main.ToSignal? || s.main.Locked?)
    ensures s.main.inv !in s.queue
  {
    hide WakeOk, ThreadOk, ReturnsOk, SerialsOk;
    var a := s.main.inv;
    var d :| 0 <= d < |s.dispatched| && s.dispatched[d].ticket == s.heap[a].ticket;
    assert s.pushed[d] == s.heap[a].ticket;
  }

  lemma SignalKeeps(s: State, result: int)
    requires Valid(s) && Enabled(s, Main(result)) && s.main.Locked?
    ensures MainStep(s, result).Running? && Valid(MainStep(s, result).s)
  {
    hide HistoryOk, ReturnsOk, SerialsOk, QueueOk;
    WaiterWaits(s);
    HandNotQueued(s);
    assert HeapOk(s, s.main.inv);
    var s' := MainStep(s, result).s;
    forall u: nat | u < |s'.threads|
      ensures ThreadOk(s', u)
    {
      assert ThreadOk(s, u);
    }
    forall b | b in s'.heap
      ensures HeapOk(s', b)
    {
      assert HeapOk(s, b);
    }
  }

  lemma UnlockOneKeeps(s: State, result: int)
    requires Valid(s) && Enabled(s, Main(result)) && s.main.Unlocking?
    ensures MainStep(s, result).Running? && Valid(MainStep(s, result).s)
  {
    hide HistoryOk, ReturnsOk, SerialsOk, QueueOk;
    assert HeapOk(s, s.main.inv);
    MutexKept(s, s.main.inv, Nobody);
    var s' := MainStep(s, result).s;
    forall u: nat | u < |s'.threads|
      ensures ThreadOk(s', u)
    {
      assert ThreadOk(s, u);
    }
    forall b | b in s'.heap
      ensures HeapOk(s', b)
    {
      assert HeapOk(s, b);
    }
  }

  // ---------- runs ----------

  lemma StepKeeps(s: State, e: Event)
    requires Valid(s) && Enabled(s, e)
    ensures Step(s, e).Running? && Valid(Step(s, e).s)
  {
    hide Valid, ThreadStep, MainStep, CallStep;
    SizesOf(s);
    match e
    case Call(t, a, request) => CallKeeps(s, t, a, request);
    case Main(result) =>
      match s.main {
        case AtLoop => WakeKeeps(s, result);
        case Entering => EnterKeeps(s, result);
        case Draining => DrainKeeps(s, result);
        case Taken(_) => DispatchKeeps(s, result);
        case ToSignal(_) => LockOneKeeps(s, result);
        case Locked(_) => SignalKeeps(s, result);
        case Unlocking(_) => UnlockOneKeeps(s, result);
      }
    case Thread(t) =>
      match s.threads[t] {
        case Made(_) => LockKeeps(s, t);
        case Queueing(_) => PushKeeps(s, t);
        case Pushed(_) => UnlockKeeps(s, t);
        case Sending(_) => SendKeeps(s, t);
        case ToWait(_) => WaitKeeps(s, t);
        case Woken(_) => RelockKeeps(s, t);
        case Resumed(_) => ReleaseKeeps(s, t);
        case Destroying(_) => ReturnKeeps(s, t);
      }
  }

  lemma SizesOf(s: State)
    requires Valid(s)
    ensures |s.slots| == |s.threads|
  {
  }

  lemma {:induction false} ContinueSafely(s: State, events: seq<Event>)
    requires Valid(s)
    ensures |s.slots| == |s.threads| && Continue(s, events) != Fault
    ensures Continue(s, events).Running? ==> Valid(Continue(s, events).s)
    decreases |events|
  {
    hide Valid, Step;
    SizesOf(s);
    if |events| > 0 {
      StepIsBlocked(s, events[0]);
      if Enabled(s, events[0]) {
        StepKeeps(s, events[0]);
        ContinueSafely(Step(s, events[0]).s, events[1..]);
      }
    }
  }

  /** No run uses a freed invocation, releases a mutex that it does not hold, or destroys one that
      is held; and the invariant holds throughout. */
  lemma RunsAreSafe(n: nat, events: seq<Event>)
    ensures Run(n, events) != Fault
    ensures Run(n, events).Running? ==> Valid(Run(n, events).s)
  {
    InitialValid(n);
    ContinueSafely(Initial(n), events);
  }

  lemma StepIsBlocked(s: State, e: Event)
    requires |s.slots| == |s.threads|
    ensures !Enabled(s, e) ==> Step(s, e) == Blocked
  {
  }

  /** Calls are dispatched in the order in which they were pushed, each at most once, and what is
      pushed and not yet dispatched is in the queue or in the hands of the event loop. */
  lemma FirstInFirstOut(n: nat, events: seq<Event>)
    requires Run(n, events).Running?
    ensures var s := Run(n, events).s;
            && (forall i, j :: 0 <= i < j < |s.pushed| ==> s.pushed[i].serial != s.pushed[j].serial)
            && |s.pushed| == |s.dispatched| + (if s.main.Taken? then 1 else 0) + |s.queue|
            && (forall i :: 0 <= i < |s.dispatched| ==> s.dispatched[i].ticket == s.pushed[i])
            && (s.main.Taken? ==> s.main.inv in s.heap && s.heap[s.main.inv].ticket == s.pushed[|s.dispatched|])
            && (forall i {:trigger s.queue[i]} :: 0 <= i < |s.queue| ==>
                  s.queue[i] in s.heap && s.heap[s.queue[i]].ticket == s.pushed[|s.pushed| - |s.queue| + i])
  {
    RunsAreSafe(n, events);
    hide WakeOk, ThreadOk, ReturnsOk, SerialsOk;
  }

  /** A thread resumes only when its own call has been dispatched, and with the result of it; the
      event loop has by then finished with its invocation. */
  lemma ResumesAfterDispatch(n: nat, events: seq<Event>, t: nat)
    requires Run(n, events).Running? && t < n
    ensures var s := Run(n, events).s;
            var p := s.threads[t];
            && (p.Woken? || p.Resumed? || p.Destroying? ==>
                  && p.at in s.heap && s.heap[p.at].ticket.thread == t && p.at !in s.queue && !InHand(s.main, p.at)
                  && Served(s.heap[p.at].ticket, s.slots[t]) in s.dispatched)
            && (p.Resumed? || p.Destroying? ==> s.main != Unlocking(p.at))
  {
    RunsAreSafe(n, events);
    assert ThreadOk(Run(n, events).s, t);
  }

  /** The signal is never lost: it is given while the thread waits, and reaches just that thread. */
  lemma SignalsArrive(n: nat, events: seq<Event>, result: int)
    requires Run(n, events).Running? && Run(n, events).s.main.Locked?
    ensures var s := Run(n, events).s;
            var a := s.main.inv;
            && a in s.heap && s.heap[a].ticket.thread < n && s.threads[s.heap[a].ticket.thread] == Waiting(a)
            && Step(s, Main(result)) == Running(s.(main := Unlocking(a), threads := s.threads[s.heap[a].ticket.thread := Woken(a)]))
  {
    RunsAreSafe(n, events);
    WaiterWaits(Run(n, events).s);
  }

  /** Something in the queue is never forgotten. */
  lemma QueueIsNoticed(n: nat, events: seq<Event>)
    requires Run(n, events).Running? && |Run(n, events).s.queue| > 0
    ensures var s := Run(n, events).s;
            s.pending || !s.main.AtLoop? || exists t :: 0 <= t < n && AboutToSend(s.threads[t])
  {
    RunsAreSafe(n, events);
  }

  // ---------- no deadlock ----------

  /** Nobody can take a step, other than by another call. */
  ghost predicate Stuck(s: State) {
    !Enabled(s, Main(0)) && forall t: nat {:trigger Enabled(s, Thread(t))} :: !Enabled(s, Thread(t))
  }

  predicate Quiet(s: State) {
    && s.main == AtLoop && s.queue == [] && !s.pending && s.queueMutex == Nobody && s.heap == map[]
    && forall t :: 0 <= t < |s.threads| ==> s.threads[t] == Outside
  }

  /** The locks are taken in opposite orders, but never in a circle: while the event loop waits for
      the mutex of an invocation, whoever holds that has already left the queue alone or will do so
      without waiting for anybody. */
  lemma NoLockCycle(s: State)
    requires Valid(s) && s.main.ToSignal?
    ensures var a := s.main.inv;
            && a in s.heap && s.heap[a].mutex != Loop
            && (s.heap[a].mutex.Foreign? ==>
                  var t := s.heap[a].mutex.thread;
                  t < |s.threads| && !s.threads[t].Outside? && s.threads[t].at == a && !s.threads[t].Made? && Enabled(s, Thread(t)))
  {
    var a := s.main.inv;
    assert HeapOk(s, a);
    assert ThreadOk(s, s.heap[a].ticket.thread);
  }

  /** Whoever holds the mutex of the queue can go on. */
  lemma QueueHolderGoesOn(s: State)
    requires Valid(s) && s.queueMutex.Foreign?
    ensures Enabled(s, Thread(s.queueMutex.thread))
  {
    assert ThreadOk(s, s.queueMutex.thread);
  }

  lemma WokenGoesOn(s: State, t: nat)
    requires Valid(s) && t < |s.threads| && s.threads[t].Woken? && s.main == AtLoop
    ensures Enabled(s, Thread(t))
  {
    assert ThreadOk(s, t) && HeapOk(s, s.threads[t].at);
  }

  lemma WaitingIsQueued(s: State, t: nat)
    requires Valid(s) && t < |s.threads| && s.threads[t].Waiting? && s.main == AtLoop
    ensures |s.queue| > 0
  {
    assert ThreadOk(s, t);
  }

  lemma SomebodySends(s: State)
    requires Valid(s) && |s.queue| > 0 && s.main == AtLoop && !s.pending
    ensures exists t: nat :: Enabled(s, Thread(t))
  {
    var t :| 0 <= t < |s.threads| && AboutToSend(s.threads[t]);
    assert Enabled(s, Thread(t));
  }

  lemma SomebodyOwns(s: State, a: Address)
    requires Valid(s) && a in s.heap
    ensures exists t :: 0 <= t < |s.threads| && s.threads[t] != Outside
  {
    assert HeapOk(s, a);
  }

  lemma QueuedInHeap(s: State)
    requires Valid(s) && |s.queue| > 0
    ensures s.heap != map[]
  {
    assert s.queue[0] in s.heap;
  }

  lemma AllOutsideIsQuiet(s: State)
    requires Valid(s) && s.main == AtLoop && !s.pending && s.queueMutex == Nobody && forall t :: 0 <= t < |s.threads| ==> s.threads[t] == Outside
    ensures Quiet(s)
  {
    if s.heap != map[] {
      var a :| a in s.heap;
      SomebodyOwns(s, a);
    } else if |s.queue| > 0 {
      QueuedInHeap(s);
    }
  }

  /** No deadlock: a state in which nobody can go on is one where every call has returned. */
  lemma StuckOnlyWhenQuiet(s: State)
    requires Valid(s)
    ensures Stuck(s) <==> Quiet(s)
  {
    if Stuck(s) {
      if s.main.ToSignal? { NoLockCycle(s); }
      if s.queueMutex.Foreign? { QueueHolderGoesOn(s); }
      assert s.main == AtLoop by { hide ThreadOk, HeapOk, WakeOk; }
      if |s.queue| > 0 { SomebodySends(s); }
      forall t: nat | t < |s.threads|
        ensures s.threads[t] == Outside
      {
        hide Valid;
        assert !Enabled(s, Thread(t));
        if s.threads[t].Woken? { WokenGoesOn(s, t); }
        if s.threads[t].Waiting? { WaitingIsQueued(s, t); }
      }
      AllOutsideIsQuiet(s);
    }
  }

  // ---------- every call returns ----------

  function Total(threads: seq<Phase>, weight: Phase -> nat): nat {
    if |threads| == 0 then 0 else weight(threads[0]) + Total(threads[1..], weight)
  }

  lemma {:induction false} TotalUpdate(threads: seq<Phase>, t: nat, p: Phase, weight: Phase -> nat)
    requires t < |threads|
    ensures Total(threads[t := p], weight) == Total(threads, weight) - weight(threads[t]) + weight(p)
  {
    if t == 0 {
      assert threads[t := p][1..] == threads[1..];
    } else {
      TotalUpdate(threads[1..], t - 1, p, weight);
      assert threads[t := p][1..] == threads[1..][t - 1 := p];
    }
  }

  lemma {:induction false} TotalZero(threads: seq<Phase>, weight: Phase -> nat)
    requires forall t :: 0 <= t < |threads| ==> weight(threads[t]) == 0
    ensures Total(threads, weight) == 0
  {
    if |threads| > 0 { TotalZero(threads[1..], weight); }
  }

  /** How many steps a thread still causes, its own and those of the event loop. */
  function Rank(p: Phase): nat {
    match p
    case Outside => 0
    case Made(_) => 19
    case Queueing(_) => 18
    case Pushed(_) => 11
    case Sending(_) => 10
    case ToWait(_) => 5
    case Waiting(_) => 4
    case Woken(_) => 3
    case Resumed(_) => 2
    case Destroying(_) => 1
  }

  function MainRank(m: MainPhase): nat {
    match m
    case AtLoop => 0
    case Entering => 3
    case Draining => 2
    case Taken(_) => 7
    case ToSignal(_) => 6
    case Locked(_) => 5
    case Unlocking(_) => 4
  }

  function Work(s: State): nat {
    Total(s.threads, Rank) + 6 * |s.queue| + (if s.pending then 4 else 0) + MainRank(s.main)
  }

  function Fresh(p: Phase): nat {
    if NotYetPushed(p) then 1 else 0
  }

  /** The step changes the phase of at most one thread. */
  ghost predicate Moves(s: State, s': State, t: nat, p: Phase) {
    t < |s.threads| && s'.threads == s.threads[t := p]
  }

  lemma MoveWork(s: State, s': State, t: nat, p: Phase)
    requires Moves(s, s', t, p)
    ensures Total(s'.threads, Rank) == Total(s.threads, Rank) - Rank(s.threads[t]) + Rank(p)
    ensures Total(s'.threads, Fresh) == Total(s.threads, Fresh) - Fresh(s.threads[t]) + Fresh(p)
  {
    TotalUpdate(s.threads, t, p, Rank);
    TotalUpdate(s.threads, t, p, Fresh);
  }

  /** What a step does to the work that is left, and to the calls that are not yet pushed. */
  ghost predicate Worked(s: State, s': State, more: int) {
    && Work(s') <= Work(s) + more
    && |s'.pushed| + Total(s'.threads, Fresh) - s'.made == |s.pushed| + Total(s.threads, Fresh) - s.made
  }

  lemma ThreadWork(s: State, t: nat)
    requires Enabled(s, Thread(t)) && t < |s.slots| && ThreadStep(s, t).Running?
    ensures Worked(s, ThreadStep(s, t).s, -1) && ThreadStep(s, t).s.made == s.made
  {
    hide Total;
    var s' := ThreadStep(s, t).s;
    MoveWork(s, s', t, s'.threads[t]);
  }

  lemma MainWork(s: State, result: int)
    requires Valid(s) && Enabled(s, Main(result)) && MainStep(s, result).Running?
    ensures Worked(s, MainStep(s, result).s, -1) && MainStep(s, result).s.made == s.made
  {
    hide Valid, Total, Signal;
    if s.main.Locked? {
      WaiterWaits(s);
      MoveWork(s, MainStep(s, result).s, s.heap[s.main.inv].ticket.thread, Woken(s.main.inv));
    }
  }

  /** Every step but a call leaves less to do, and a call adds a bounded amount. */
  lemma StepWork(s: State, e: Event)
    requires Valid(s) && Enabled(s, e)
    ensures |s.slots| == |s.threads| && Step(s, e).Running?
    ensures Worked(s, Step(s, e).s, if e.Call? then 19 else -1)
    ensures Step(s, e).s.made == s.made + (if e.Call? then 1 else 0)
  {
    hide Valid, Total, ThreadStep, MainStep;
    SizesOf(s);
    StepKeeps(s, e);
    match e
    case Call(t, a, request) => MoveWork(s, CallStep(s, t, a, request), t, Made(a));
    case Thread(t) => ThreadWork(s, t);
    case Main(result) => MainWork(s, result);
  }

  function Calls(events: seq<Event>): nat {
    if |events| == 0 then 0 else (if events[0].Call? then 1 else 0) + Calls(events[1..])
  }

  lemma {:induction false} ContinueBounded(s: State, events: seq<Event>)
    requires Valid(s) && |s.slots| == |s.threads| && Continue(s, events).Running?
    ensures var s' := Continue(s, events).s;
            && |events| + Work(s') <= Work(s) + 20 * Calls(events)
            && s'.made == s.made + Calls(events)
            && |s'.pushed| + Total(s'.threads, Fresh) - s'.made == |s.pushed| + Total(s.threads, Fresh) - s.made
    decreases |events|
  {
    hide Valid, Step, Work;
    if |events| > 0 {
      StepIsBlocked(s, events[0]);
      StepWork(s, events[0]);
      StepKeeps(s, events[0]);
      SizesOf(Step(s, events[0]).s);
      ContinueBounded(Step(s, events[0]).s, events[1..]);
    }
  }

  /** Twenty steps for a call, whatever the schedule: runs end unless there are new calls. */
  lemma RunsAreBounded(n: nat, events: seq<Event>)
    requires Run(n, events).Running?
    ensures |events| + Work(Run(n, events).s) <= 20 * Calls(events)
    ensures var s := Run(n, events).s; s.made == Calls(events) && |s.pushed| + Total(s.threads, Fresh) == s.made
  {
    hide Continue, Valid, Total;
    var s := Initial(n);
    InitialValid(n);
    TotalZero(s.threads, Rank);
    TotalZero(s.threads, Fresh);
    ContinueBounded(s, events);
  }

  /** A run that cannot go on without new calls has served all of them: every call has been pushed,
      dispatched exactly once, and has returned to its thread with the result of its own dispatch. */
  lemma EveryCallReturns(n: nat, events: seq<Event>)
    requires Run(n, events).Running? && Stuck(Run(n, events).s)
    ensures var s := Run(n, events).s;
            && Quiet(s)
            && |s.pushed| == |s.dispatched| == |s.returned| == Calls(events)
            && (forall i :: 0 <= i < |s.dispatched| ==> s.dispatched[i].ticket == s.pushed[i])
            && (forall r :: 0 <= r < |s.returned| ==> s.returned[r] in s.dispatched)
            && (forall i, j :: 0 <= i < j < |s.returned| ==> s.returned[i].ticket.serial != s.returned[j].ticket.serial)
  {
    var s := Run(n, events).s;
    RunsAreSafe(n, events);
    RunsAreBounded(n, events);
    StuckOnlyWhenQuiet(s);
    TotalZero(s.threads, Fresh);
    hide ThreadOk, HeapOk, WakeOk, SerialsOk;
  }

  // ---------- when WaitForExecution wakes by itself ----------

  /** uv_cond_wait returns without a signal. */
  function EarlyWake(s: State, t: nat): State
    requires t < |s.threads| && s.threads[t].Waiting?
  {
    Move(s, t, Woken(s.threads[t].at))
  }

  lemma ContinueOne(s: State, e: Event, rest: seq<Event>)
    requires |s.slots| == |s.threads|
    ensures var o := Step(s, e);
            && (o.Running? ==> |o.s.slots| == |o.s.threads| && Continue(s, [e] + rest) == Continue(o.s, rest))
            && (!o.Running? ==> Continue(s, [e] + rest) == o)
  {
    hide Step;
    StepSizes(s, e);
    assert ([e] + rest)[1..] == rest;
  }

  lemma {:induction false} ContinueThen(s: State, events: seq<Event>, s': State, more: seq<Event>)
    requires |s.slots| == |s.threads| && |s'.slots| == |s'.threads| && Continue(s, events) == Running(s')
    ensures Continue(s, events + more) == Continue(s', more)
    decreases |events|
  {
    hide Step;
    if |events| == 0 {
      assert events + more == more;
    } else {
      StepSizes(s, events[0]);
      ContinueThen(Step(s, events[0]).s, events[1..], s', more);
      assert events + more == [events[0]] + (events[1..] + more);
      ContinueOne(s, events[0], events[1..] + more);
    }
  }

  /** A wait is for a signal that is still to come: the invocation is queued, or in hand. */
  lemma WaitsForSignal(s: State, t: nat)
    requires Valid(s) && t < |s.threads| && s.threads[t].Waiting?
    ensures var a := s.threads[t].at;
            && a in s.heap && (a in s.queue || InHand(s.main, a))
            && (s.main == Locked(a) <==> s.heap[a].mutex != Nobody)
  {
    assert ThreadOk(s, t);
    var a := s.threads[t].at;
    assert HeapOk(s, a);
  }

  /** Another waiter gets the signal, whether or not t still waits. */
  lemma {:induction false} SignalPast(threads: seq<Phase>, t: nat, a: Address, b: Address)
    requires t < |threads| && threads[t] == Waiting(a) && a != b
    ensures Signal(threads, b)[t] == threads[t]
    ensures Signal(threads[t := Woken(a)], b) == Signal(threads, b)[t := Woken(a)]
  {
    if t == 0 {
      assert threads[0 := Woken(a)] == [Woken(a)] + threads[1..];
    } else {
      assert threads[t := Woken(a)] == [threads[0]] + threads[1..][t - 1 := Woken(a)];
      SignalPast(threads[1..], t - 1, a, b);
    }
  }

  /** What others do is the same, and leaves t where it is, whether or not t is awake. */
  ghost predicate Same(s: State, t: nat, o: Outcome, o': Outcome)
    requires t < |s.threads| && s.threads[t].Waiting?
  {
    o.Running? && t < |o.s.threads| && o.s.threads[t] == s.threads[t] && o' == Running(EarlyWake(o.s, t))
  }

  lemma UnnoticedThread(s: State, t: nat, u: nat)
    requires |s.slots| == |s.threads| && t < |s.threads| && s.threads[t].Waiting? && u != t && Enabled(s, Thread(u)) && ThreadStep(s, u).Running?
    ensures Enabled(EarlyWake(s, t), Thread(u)) && Same(s, t, ThreadStep(s, u), ThreadStep(EarlyWake(s, t), u))
  {
    Reorder(s.threads, t, u, Woken(s.threads[t].at));
    var s' := ThreadStep(s, u).s;
    assert s'.threads == s.threads[u := s'.threads[u]];
  }

  lemma UnnoticedMain(s: State, t: nat, result: int)
    requires |s.slots| == |s.threads| && t < |s.threads| && s.threads[t].Waiting? && Enabled(s, Main(result)) && MainStep(s, result).Running?
    requires s.main != Locked(s.threads[t].at)
    ensures Same(s, t, MainStep(s, result), MainStep(EarlyWake(s, t), result))
  {
    hide Signal;
    if s.main.Locked? { SignalPast(s.threads, t, s.threads[t].at, s.main.inv); }
  }

  lemma UnnoticedCall(s: State, t: nat, u: nat, a: Address, request: Request)
    requires t < |s.threads| && s.threads[t].Waiting? && Enabled(s, Call(u, a, request))
    ensures Same(s, t, Running(CallStep(s, u, a, request)), Running(CallStep(EarlyWake(s, t), u, a, request)))
  {
    Reorder(s.threads, t, u, Woken(s.threads[t].at));
  }

  lemma EnabledAlike(s: State, t: nat, e: Event)
    requires t < |s.threads| && s.threads[t].Waiting? && e != Thread(t)
    ensures Enabled(EarlyWake(s, t), e) <==> Enabled(s, e)
  {
  }

  /** As long as t does not go on, and is not the one to be signalled, nobody notices that it is awake. */
  lemma Unnoticed(s: State, t: nat, e: Event)
    requires Valid(s) && |s.slots| == |s.threads| && t < |s.threads| && s.threads[t].Waiting?
    requires e != Thread(t) && !(e.Main? && s.main == Locked(s.threads[t].at))
    ensures Enabled(EarlyWake(s, t), e) <==> Enabled(s, e)
    ensures Enabled(s, e) ==> Same(s, t, Step(s, e), Step(EarlyWake(s, t), e))
  {
    hide Valid, Enabled, ThreadStep, MainStep, CallStep, Same;
    EnabledAlike(s, t, e);
    if Enabled(s, e) {
      StepKeeps(s, e);
      match e
      case Call(u, a, request) => UnnoticedCall(s, t, u, a, request);
      case Thread(u) => UnnoticedThread(s, t, u);
      case Main(result) => UnnoticedMain(s, t, result);
    }
  }

  lemma Reorder(threads: seq<Phase>, t: nat, u: nat, p: Phase)
    requires t < |threads| && u < |threads| && t != u
    ensures forall q {:trigger threads[u := q]} :: threads[t := p][u := q] == threads[u := q][t := p] && threads[u := q][t] == threads[t]
  {
  }

  /** Some step that is not a call, and does not signal, can be taken while an invocation is queued. */
  lemma SomeStep(s: State, a: Address) returns (e: Event)
    requires Valid(s) && a in s.queue
    ensures !e.Call? && Enabled(s, e)
  {
    StuckOnlyWhenQuiet(s);
    if Enabled(s, Main(0)) {
      e := Main(0);
    } else {
      var t: nat :| Enabled(s, Thread(t));
      e := Thread(t);
    }
  }

  /** A queued invocation stays queued until it is popped. */
  lemma QueuedOrTaken(s: State, e: Event, a: Address)
    requires Valid(s) && |s.slots| == |s.threads| && a in s.queue && Enabled(s, e) && Step(s, e).Running?
    ensures a in Step(s, e).s.queue || Step(s, e).s.main == Taken(a)
  {
    hide Valid, Signal;
    if e.Main? && s.main.Draining? && |s.queue| > 0 {
      assert s.queue == [s.queue[0]] + s.queue[1..];
    }
  }

  /** Without t going on, the event loop gets to every queued invocation. */
  lemma {:induction false} ReachTaken(s: State, t: nat) returns (events: seq<Event>)
    requires Valid(s) && |s.slots| == |s.threads| && t < |s.threads| && s.threads[t].Waiting? && s.threads[t].at in s.queue
    ensures |EarlyWake(s, t).slots| == |EarlyWake(s, t).threads|
    ensures exists s' {:trigger Valid(s')} ::
              && Valid(s') && t < |s'.threads| && s'.threads[t] == s.threads[t] && s'.main == Taken(s.threads[t].at)
              && Continue(EarlyWake(s, t), events) == Running(EarlyWake(s', t))
    decreases Work(s)
  {
    hide Valid, Work, Enabled, Step, Continue;
    var a := s.threads[t].at;
    var e := SomeStep(s, a);
    WaitingStays(s, t);
    NotInHand(s, a);
    Unnoticed(s, t, e);
    StepKeeps(s, e);
    StepWork(s, e);
    QueuedOrTaken(s, e, a);
    var s1 := Step(s, e).s;
    SizesOf(s1);
    if s1.main == Taken(a) {
      events := [e];
      Nothing(EarlyWake(s1, t));
      ContinueOne(EarlyWake(s, t), e, []);
      assert [e] + [] == [e];
    } else {
      assert Work(s1) < Work(s) by { WorkLess(s, s1); }
      var rest := ReachTaken(s1, t);
      events := [e] + rest;
      ContinueOne(EarlyWake(s, t), e, rest);
    }
  }

  lemma WorkLess(s: State, s': State)
    requires Worked(s, s', -1)
    ensures Work(s') < Work(s)
  {
  }

  lemma WaitingStays(s: State, t: nat)
    requires t < |s.threads| && s.threads[t].Waiting?
    ensures !Enabled(s, Thread(t))
  {
  }

  lemma NotInHand(s: State, a: Address)
    requires Valid(s) && a in s.queue
    ensures s.main != Locked(a)
  {
    if s.main.ToSignal? || s.main.Locked? { HandNotQueued(s); }
  }

  lemma Nothing(s: State)
    requires |s.slots| == |s.threads|
    ensures Continue(s, []) == Running(s)
  {
  }

  /** Once the event loop has taken the invocation, its thread deletes it, and the next step of the
      event loop uses it. */
  lemma DeletedInHand(s: State, t: nat)
    requires Valid(s) && |s.slots| == |s.threads| && t < |s.threads| && s.threads[t].Waiting?
    requires s.main == Taken(s.threads[t].at) || s.main == ToSignal(s.threads[t].at)
    ensures Continue(EarlyWake(s, t), [Thread(t), Thread(t), Thread(t), Main(0)]) == Fault
  {
    hide Continue, Valid;
    WaitsForSignal(s, t);
    var a, e := s.threads[t].at, Thread(t);
    var s0 := EarlyWake(s, t);
    var s1 := ThreadStep(s0, t).s;
    var s2 := ThreadStep(s1, t).s;
    var s3 := ThreadStep(s2, t).s;
    assert a !in s3.heap && Step(s3, Main(0)) == Fault;
    ContinueOne(s0, e, [e, e, Main(0)]);
    ContinueOne(s1, e, [e, Main(0)]);
    ContinueOne(s2, e, [Main(0)]);
    ContinueOne(s3, Main(0), []);
    assert [e] + [e, e, Main(0)] == [e, e, e, Main(0)] && [e] + [e, Main(0)] == [e, e, Main(0)];
    assert [e] + [Main(0)] == [e, Main(0)] && [Main(0)] + [] == [Main(0)];
  }

  /** While the event loop is about to signal, an early wake does no harm: the thread has to wait for
      the mutex until the signal has been given, and then all is as if it had been woken by it. */
  lemma {:induction false} HarmlessWhenLocked(s: State, t: nat, events: seq<Event>)
    requires Valid(s) && |s.slots| == |s.threads| && t < |s.threads| && s.threads[t].Waiting? && s.main == Locked(s.threads[t].at)
    ensures Continue(EarlyWake(s, t), events) != Fault
    decreases |events|
  {
    hide Valid, Continue, Step, Enabled;
    var s0 := EarlyWake(s, t);
    if |events| == 0 {
      Nothing(s0);
    } else {
      var e, rest := events[0], events[1..];
      assert events == [e] + rest;
      ContinueOne(s0, e, rest);
      StepIsBlocked(s0, e);
      if e == Thread(t) {
        BlockedByMutex(s, t);
      } else if e.Main? {
        AsIfSignalled(s, t, e.result);
        ContinueSafely(Step(s, e).s, rest);
      } else {
        Unnoticed(s, t, e);
        if Enabled(s, e) {
          StepKeeps(s, e);
          MainUnmoved(s, e);
          SizesOf(Step(s, e).s);
          HarmlessWhenLocked(Step(s, e).s, t, rest);
        }
      }
    }
  }

  lemma MainUnmoved(s: State, e: Event)
    requires |s.slots| == |s.threads| && !e.Main? && Step(s, e).Running?
    ensures Step(s, e).s.main == s.main
  {
  }

  lemma BlockedByMutex(s: State, t: nat)
    requires Valid(s) && t < |s.threads| && s.threads[t].Waiting? && s.main == Locked(s.threads[t].at)
    ensures !Enabled(EarlyWake(s, t), Thread(t))
  {
    WaitsForSignal(s, t);
  }

  lemma AsIfSignalled(s: State, t: nat, result: int)
    requires Valid(s) && |s.slots| == |s.threads| && t < |s.threads| && s.threads[t].Waiting? && s.main == Locked(s.threads[t].at)
    ensures Step(EarlyWake(s, t), Main(result)) == Step(s, Main(result)) && Step(s, Main(result)).Running? && Valid(Step(s, Main(result)).s)
  {
    hide Valid;
    var a := s.threads[t].at;
    WaiterWaits(s);
    OwnerOf(s, t);
    NoWaiter(s, t);
    StepKeeps(s, Main(result));
  }

  lemma OwnerOf(s: State, t: nat)
    requires Valid(s) && t < |s.threads| && !s.threads[t].Outside?
    ensures s.threads[t].at in s.heap && s.heap[s.threads[t].at].ticket.thread == t
  {
    assert ThreadOk(s, t);
  }

  /** With t awake nobody is left to take the signal. */
  lemma NoWaiter(s: State, t: nat)
    requires Valid(s) && t < |s.threads| && s.threads[t].Waiting?
    ensures var a := s.threads[t].at; Signal(s.threads[t := Woken(a)], a) == s.threads[t := Woken(a)]
  {
    var a := s.threads[t].at;
    OwnerOf(s, t);
    forall u: nat | u < |s.threads| && u != t
      ensures s.threads[u] != Waiting(a)
    {
      if s.threads[u] == Waiting(a) { OwnerOf(s, u); }
    }
    SignalNobody(s.threads[t := Woken(a)], a);
  }

  lemma {:induction false} SignalNobody(threads: seq<Phase>, a: Address)
    requires forall u :: 0 <= u < |threads| ==> threads[u] != Waiting(a)
    ensures Signal(threads, a) == threads
  {
    if |threads| > 0 { SignalNobody(threads[1..], a); }
  }

  /** WaitForExecution does not check why it wakes. In any sound state, whatever the other threads and
      the event loop are doing, a wake without a signal can lead to the use of a deleted invocation,
      if and only if the event loop has not already locked the mutex to give that signal. */
  lemma EarlyWakeFaults(s: State, t: nat)
    requires Valid(s) && |s.slots| == |s.threads| && t < |s.threads| && s.threads[t].Waiting?
    ensures (exists events :: Continue(EarlyWake(s, t), events) == Fault) <==> s.main != Locked(s.threads[t].at)
  {
    hide Valid, Continue, Step, Enabled;
    var a := s.threads[t].at;
    WaitsForSignal(s, t);
    if s.main == Locked(a) {
      forall events
        ensures Continue(EarlyWake(s, t), events) != Fault
      {
        HarmlessWhenLocked(s, t, events);
      }
    } else if a in s.queue {
      var first := ReachTaken(s, t);
      var s' :| Valid(s') && t < |s'.threads| && s'.threads[t] == s.threads[t] && s'.main == Taken(a)
                && Continue(EarlyWake(s, t), first) == Running(EarlyWake(s', t));
      SizesOf(s');
      DeletedInHand(s', t);
      ContinueThen(EarlyWake(s, t), first, EarlyWake(s', t), [Thread(t), Thread(t), Thread(t), Main(0)]);
    } else {
      DeletedInHand(s, t);
    }
  }

  /** Such a state is reached by the first call of all: its thread waits, and the event loop has not
      even begun. */
  lemma SpuriousWakeupFaults()
    ensures var o := Run(1, [Call(0, 1, Request(0, [])), Thread(0), Thread(0), Thread(0), Thread(0), Thread(0)]);
            && o.Running? && o.s.threads[0] == Waiting(1) && o.s.main == AtLoop
            && exists events :: Continue(EarlyWake(o.s, 0), events) == Fault
  {
    hide Continue;
    var s := Initial(1);
    var s1 := CallStep(s, 0, 1, Request(0, []));
    var s2 := ThreadStep(s1, 0).s;
    var s3 := ThreadStep(s2, 0).s;
    var s4 := ThreadStep(s3, 0).s;
    var s5 := ThreadStep(s4, 0).s;
    var s6 := ThreadStep(s5, 0).s;
    var c, e := Call(0, 1, Request(0, [])), Thread(0);
    ContinueOne(s, c, [e, e, e, e, e]);
    ContinueOne(s1, e, [e, e, e, e]);
    ContinueOne(s2, e, [e, e, e]);
    ContinueOne(s3, e, [e, e]);
    ContinueOne(s4, e, [e]);
    ContinueOne(s5, e, []);
    Nothing(s6);
    assert [c] + [e, e, e, e, e] == [c, e, e, e, e, e] && [e] + [e, e, e, e] == [e, e, e, e, e] && [e] + [e, e, e] == [e, e, e, e];
    assert [e] + [e, e] == [e, e, e] && [e] + [e] == [e, e] && [e] + [] == [e];
    RunsAreSafe(1, [c, e, e, e, e, e]);
    EarlyWakeFaults(s6, 0);
  }
}
