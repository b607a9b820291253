/** The procedures of the two sides, on shared state that they update in place. Before every access to
    that state the others may do anything that they can do; where a procedure has to wait, they go on
    until it need not. */
module Bridge {
  import opened Callbacks

  /** e is something that I do; Loop stands for the event loop. */
  predicate Mine(me: Owner, e: Event) {
    match me
    case Nobody => false
    case Loop => e.Main?
    case Foreign(t) => !e.Main? && e.thread == t
  }

  predicate OfOthers(me: Owner, events: seq<Event>) {
    forall e :: e in events ==> !Mine(me, e)
  }

  /** What the others do, one time after the other. */
  predicate AllOthers(me: Owner, env: seq<seq<Event>>) {
    forall es :: es in env ==> OfOthers(me, es)
  }

  /** What I do in a run. */
  function Own(me: Owner, events: seq<Event>): seq<Event> {
    if |events| == 0 then []
    else Own(me, events[..|events| - 1]) + (if Mine(me, events[|events| - 1]) then [events[|events| - 1]] else [])
  }

  /** What I do next. */
  function Next(me: Owner): Event {
    if me.Foreign? then Thread(me.thread) else Main(0)
  }

  /** What the others leave alone: where I am, the ticket of my invocation, and the queue while I hold
      its mutex. I may be woken. */
  ghost predicate Kept(me: Owner, s: State, s': State) {
    && |s'.threads| == |s.threads|
    && match me
       case Nobody => true
       case Loop =>
         && s'.main == s.main && s'.dispatched == s.dispatched
         && (s.queueMutex == Loop ==> s'.queueMutex == Loop && s'.queue == s.queue && s'.pushed == s.pushed)
       case Foreign(t) =>
         t < |s.threads| ==>
           var p, p' := s.threads[t], s'.threads[t];
           && (p' == p || (p.Waiting? && p' == Woken(p.at)))
           && (!p.Outside? ==> p.at in s.heap && p.at in s'.heap && s'.heap[p.at].ticket == s.heap[p.at].ticket)
  }

  lemma KeptRefl(me: Owner, s: State)
    requires Valid(s)
    ensures Kept(me, s, s)
  {
    if me.Foreign? && me.thread < |s.threads| && !s.threads[me.thread].Outside? { OwnerOf(s, me.thread); }
  }

  lemma KeptTrans(me: Owner, s: State, s1: State, s2: State)
    requires Kept(me, s, s1) && Kept(me, s1, s2)
    ensures Kept(me, s, s2)
  {
  }

  lemma {:induction false} SignalEach(threads: seq<Phase>, a: Address, t: nat)
    requires t < |threads|
    ensures Signal(threads, a)[t] == threads[t] || (threads[t] == Waiting(a) && Signal(threads, a)[t] == Woken(a))
  {
    if threads[0] != Waiting(a) && t > 0 { SignalEach(threads[1..], a, t - 1); }
  }

  /** Nobody but the event loop moves it, or dispatches; nobody takes the queue from it. */
  lemma LoopKept(s: State, e: Event)
    requires Valid(s) && |s.slots| == |s.threads| && Enabled(s, e) && !e.Main? && Step(s, e).Running?
    ensures Kept(Loop, s, Step(s, e).s)
  {
    hide WakeOk, HistoryOk, ReturnsOk, SerialsOk, QueueOk, HeapOk, MainOk;
    if e.Thread? { assert ThreadOk(s, e.thread); }
  }

  /** Nobody but t moves it, other than by waking it, or touches what its invocation is for. */
  lemma ThreadKept(s: State, e: Event, t: nat)
    requires Valid(s) && |s.slots| == |s.threads| && Enabled(s, e) && !Mine(Foreign(t), e) && Step(s, e).Running?
    ensures Kept(Foreign(t), s, Step(s, e).s)
  {
    hide Valid, Signal;
    if t < |s.threads| {
      if !s.threads[t].Outside? { OwnerOf(s, t); }
      if e.Thread? && !s.threads[e.thread].Outside? { OwnerOf(s, e.thread); }
      if e.Main? && s.main.Locked? { SignalEach(s.threads, s.main.inv, t); }
    }
  }

  lemma {:induction false} OthersKeep(me: Owner, s: State, events: seq<Event>)
    requires Valid(s) && |s.slots| == |s.threads| && OfOthers(me, events) && Continue(s, events).Running?
    ensures Valid(Continue(s, events).s) && Kept(me, s, Continue(s, events).s)
    decreases |events|
  {
    hide Valid, Step, Kept, Enabled;
    if |events| == 0 {
      KeptRefl(me, s);
    } else {
      var e := events[0];
      assert e in events;
      StepIsBlocked(s, e);
      StepKeeps(s, e);
      if me == Loop { LoopKept(s, e); } else if me.Foreign? { ThreadKept(s, e, me.thread); } else { KeptNobody(s, e); }
      var s' := Step(s, e).s;
      SizesOf(s');
      OthersKeep(me, s', events[1..]);
      KeptTrans(me, s, s', Continue(s, events).s);
    }
  }

  lemma KeptNobody(s: State, e: Event)
    requires |s.slots| == |s.threads| && Step(s, e).Running?
    ensures Kept(Nobody, s, Step(s, e).s)
  {
    StepSizes(s, e);
  }

  lemma OwnNone(me: Owner, events: seq<Event>)
    requires OfOthers(me, events)
    ensures Own(me, events) == []
  {
  }

  lemma {:induction false} OwnAppend(me: Owner, a: seq<Event>, b: seq<Event>)
    ensures Own(me, a + b) == Own(me, a) + Own(me, b)
  {
    if |b| == 0 {
      assert a + b == a;
    } else {
      OwnAppend(me, a, b[..|b| - 1]);
      assert (a + b)[..|a + b| - 1] == a + b[..|b| - 1];
    }
  }

  /** trace leads from s to s', and my part in it is own. */
  ghost predicate Leads(me: Owner, s: State, trace: seq<Event>, own: seq<Event>, s': State) {
    && |s.slots| == |s.threads| && |s'.slots| == |s'.threads|
    && Continue(s, trace) == Running(s') && Own(me, trace) == own
  }

  lemma LeadsOn(me: Owner, s: State, a: seq<Event>, ownA: seq<Event>, s1: State, b: seq<Event>, ownB: seq<Event>, s2: State)
    requires Leads(me, s, a, ownA, s1) && Leads(me, s1, b, ownB, s2)
    ensures Leads(me, s, a + b, ownA + ownB, s2)
  {
    hide Continue;
    ContinueThen(s, a, s1, b);
    OwnAppend(me, a, b);
  }

  /** One action of mine. */
  lemma LeadsOne(me: Owner, s: State, e: Event, s': State)
    requires Valid(s) && |s.slots| == |s.threads| && Mine(me, e) && Enabled(s, e) && Step(s, e) == Running(s')
    ensures Valid(s') && Leads(me, s, [e], [e], s')
  {
    hide Continue, Valid, Step;
    StepKeeps(s, e);
    SizesOf(s');
    ContinueOne(s, e, []);
    Nothing(s');
    assert [e] + [] == [e];
    assert Own(me, []) == [] && [e][..0] == [];
  }

  /** The others have gone on. */
  lemma Going(me: Owner, s0: State, trace: seq<Event>, own: seq<Event>, s: State, d: seq<Event>, s1: State)
    requires Leads(me, s0, trace, own, s) && Leads(me, s, d, [], s1)
    ensures Leads(me, s0, trace + d, own, s1)
  {
    LeadsOn(me, s0, trace, own, s, d, [], s1);
    assert own + [] == own;
  }

  /** I have taken one action. */
  lemma Acted(me: Owner, s0: State, trace: seq<Event>, own: seq<Event>, s: State, e: Event, s1: State)
    requires Leads(me, s0, trace, own, s) && Valid(s) && Mine(me, e) && Enabled(s, e) && Step(s, e) == Running(s1)
    ensures Valid(s1) && Leads(me, s0, trace + [e], own + [e], s1)
  {
    hide Leads, Valid, Enabled, Step;
    SizesOf(s);
    LeadsOne(me, s, e, s1);
    LeadsOn(me, s0, trace, own, s, [e], [e], s1);
  }

  /** My invocation is there, and I know its mutex. */
  lemma MyInvocation(s: State, t: nat)
    requires Valid(s) && t < |s.threads| && !s.threads[t].Outside?
    ensures s.threads[t].at in s.heap && |s.slots| == |s.threads|
    ensures s.threads[t].ToWait? || s.threads[t].Resumed? ==> s.heap[s.threads[t].at].mutex == Foreign(t)
    ensures s.threads[t].Pushed? ==> s.queueMutex == Foreign(t)
    ensures s.threads[t].Destroying? ==> s.heap[s.threads[t].at].mutex == Nobody
  {
    assert ThreadOk(s, t);
    assert HeapOk(s, s.threads[t].at);
  }

  // What the next action of a thread does.

  lemma Locks(s: State, t: nat)
    requires Valid(s) && t < |s.threads| == |s.slots| && s.threads[t].Made? && Enabled(s, Thread(t))
    ensures var a := s.threads[t].at; a in s.heap && ThreadStep(s, t) == Running(Move(s, t, Queueing(a)).(queueMutex := Foreign(t)))
  {
    hide Valid;
    MyInvocation(s, t);
  }

  lemma Pushes(s: State, t: nat)
    requires Valid(s) && t < |s.threads| == |s.slots| && s.threads[t].Queueing? && Enabled(s, Thread(t))
    ensures var a := s.threads[t].at; a in s.heap && ThreadStep(s, t) == Running(Move(s, t, Pushed(a)).(queue := s.queue + [a], pushed := s.pushed + [s.heap[a].ticket]))
  {
    hide Valid;
    MyInvocation(s, t);
  }

  lemma Unlocks(s: State, t: nat)
    requires Valid(s) && t < |s.threads| == |s.slots| && s.threads[t].Pushed? && Enabled(s, Thread(t))
    ensures var a := s.threads[t].at; a in s.heap && ThreadStep(s, t) == Running(Move(s, t, Sending(a)).(queueMutex := Nobody))
  {
    hide Valid;
    MyInvocation(s, t);
  }

  lemma Sends(s: State, t: nat)
    requires Valid(s) && t < |s.threads| == |s.slots| && s.threads[t].Sending? && Enabled(s, Thread(t))
    ensures var a := s.threads[t].at; a in s.heap && ThreadStep(s, t) == Running(Move(s, t, ToWait(a)).(pending := true))
  {
    hide Valid;
    MyInvocation(s, t);
  }

  lemma Parks(s: State, t: nat)
    requires Valid(s) && t < |s.threads| == |s.slots| && s.threads[t].ToWait? && Enabled(s, Thread(t))
    ensures var a := s.threads[t].at; a in s.heap && ThreadStep(s, t) == Running(SetMutex(Move(s, t, Waiting(a)), a, Nobody))
  {
    hide Valid;
    MyInvocation(s, t);
  }

  lemma Wakes(s: State, t: nat)
    requires Valid(s) && t < |s.threads| == |s.slots| && s.threads[t].Woken? && Enabled(s, Thread(t))
    ensures var a := s.threads[t].at; a in s.heap && ThreadStep(s, t) == Running(SetMutex(Move(s, t, Resumed(a)), a, Foreign(t)))
  {
    hide Valid;
    MyInvocation(s, t);
  }

  lemma Releases(s: State, t: nat)
    requires Valid(s) && t < |s.threads| == |s.slots| && s.threads[t].Resumed? && Enabled(s, Thread(t))
    ensures var a := s.threads[t].at; a in s.heap && ThreadStep(s, t) == Running(SetMutex(Move(s, t, Destroying(a)), a, Nobody))
  {
    hide Valid;
    MyInvocation(s, t);
  }

  // What the next action of the event loop does.

  lemma LoopEnters(s: State)
    requires s.main.Entering? && Enabled(s, Main(0))
    ensures MainStep(s, 0) == Running(s.(queueMutex := Loop, main := Draining))
  {
  }

  lemma LoopPops(s: State)
    requires s.main.Draining? && Enabled(s, Main(0)) && |s.queue| > 0
    ensures MainStep(s, 0) == Running(s.(queue := s.queue[1..], main := Taken(s.queue[0])))
  {
  }

  lemma LoopLeaves(s: State)
    requires Valid(s) && s.main.Draining? && Enabled(s, Main(0)) && |s.queue| == 0
    ensures MainStep(s, 0) == Running(s.(queueMutex := Nobody, main := AtLoop)) && |s.dispatched| == |s.pushed|
  {
    hide ThreadOk, HeapOk, WakeOk, HistoryOk, ReturnsOk, SerialsOk, QueueOk;
  }

  lemma LoopDispatches(s: State, result: int)
    requires Valid(s) && s.main.Taken? && Enabled(s, Main(result))
    ensures s.main.inv in s.heap && s.heap[s.main.inv].ticket.thread < |s.slots|
    ensures var ticket := s.heap[s.main.inv].ticket;
            MainStep(s, result) == Running(s.(main := ToSignal(s.main.inv), slots := s.slots[ticket.thread := result], dispatched := s.dispatched + [Served(ticket, result)]))
  {
    hide ThreadOk, WakeOk, HistoryOk, ReturnsOk, SerialsOk, QueueOk;
    assert HeapOk(s, s.main.inv);
  }

  lemma LoopLocksOne(s: State)
    requires Valid(s) && s.main.ToSignal? && Enabled(s, Main(0))
    ensures s.main.inv in s.heap && MainStep(s, 0) == Running(SetMutex(s, s.main.inv, Loop).(main := Locked(s.main.inv)))
  {
    hide ThreadOk, HeapOk, WakeOk, HistoryOk, ReturnsOk, SerialsOk, QueueOk;
  }

  lemma LoopSignals(s: State)
    requires Valid(s) && s.main.Locked? && Enabled(s, Main(0))
    ensures MainStep(s, 0) == Running(s.(main := Unlocking(s.main.inv), threads := Signal(s.threads, s.main.inv)))
  {
    hide ThreadOk, HeapOk, WakeOk, HistoryOk, ReturnsOk, SerialsOk, QueueOk;
  }

  lemma LoopUnlocksOne(s: State)
    requires Valid(s) && s.main.Unlocking? && Enabled(s, Main(0))
    ensures s.main.inv in s.heap && MainStep(s, 0) == Running(SetMutex(s, s.main.inv, Nobody).(main := Draining))
  {
    hide ThreadOk, HeapOk, WakeOk, HistoryOk, ReturnsOk, SerialsOk, QueueOk;
  }

  lemma LoopHolds(s: State)
    requires Valid(s)
    ensures MainHoldsQueue(s.main) ==> s.queueMutex == Loop
  {
  }

  class CallbackQueue {
    var threads: seq<Phase>      // where every foreign thread is
    var main: MainPhase          // where the event loop is
    var queue: seq<Address>
    var queueMutex: Owner
    var pending: bool
    var heap: map<Address, Invocation>
    var slots: seq<int>
    // What has happened so far; no procedure looks at it.
    var made: nat
    var pushed: seq<Ticket>
    var dispatched: seq<Served>
    var returned: seq<Served>

    function View(): State
      reads this
    {
      State(threads, main, queue, queueMutex, pending, heap, slots, made, pushed, dispatched, returned)
    }

    constructor (n: nat)
      ensures View() == Initial(n) && Callbacks.Valid(View())
    {
      threads, main := seq(n, _ => Outside), AtLoop;
      queue, queueMutex, pending := [], Nobody, false;
      heap, slots, made := map[], seq(n, _ => 0), 0;
      pushed, dispatched, returned := [], [], [];
      new;
      InitialValid(n);
    }

    /** The others go on, if they can do just this. */
    method Others(me: Owner, events: seq<Event>) returns (ghost done: seq<Event>)
      requires Callbacks.Valid(View()) && OfOthers(me, events)
      modifies this
      ensures Callbacks.Valid(View()) && Leads(me, old(View()), done, [], View()) && Kept(me, old(View()), View())
    {
      hide Callbacks.Valid, Kept, Continue;
      ghost var s := View();
      SizesOf(s);
      var o := Continue(View(), events);
      if o.Running? {
        OthersKeep(me, s, events);
        OwnNone(me, events);
        done := events;
        threads, main, queue, queueMutex, pending := o.s.threads, o.s.main, o.s.queue, o.s.queueMutex, o.s.pending;
        heap, slots, made, pushed, dispatched, returned := o.s.heap, o.s.slots, o.s.made, o.s.pushed, o.s.dispatched, o.s.returned;
        assert View() == o.s;
      } else {
        Nothing(s);
        KeptRefl(me, s);
        done := [];
      }
    }

    /** The others go on, at least until I can; if they stop before, I am stuck. */
    method Await(me: Owner, env: seq<seq<Event>>) returns (ready: bool, rest: seq<seq<Event>>, ghost done: seq<Event>)
      requires Callbacks.Valid(View()) && AllOthers(me, env)
      modifies this
      ensures Callbacks.Valid(View()) && Leads(me, old(View()), done, [], View()) && Kept(me, old(View()), View())
      ensures (ready <==> Enabled(View(), Next(me))) && AllOthers(me, rest)
    {
      hide Callbacks.Valid, Kept, Continue, Leads, OfOthers, Enabled;
      ghost var s0 := View();
      rest := env;
      SizesOf(s0);
      StandStill(me, s0);
      KeptRefl(me, s0);
      done := [];
      ready := Enabled(View(), Next(me)) && |rest| == 0;
      while !ready && |rest| > 0
        invariant Callbacks.Valid(View()) && Leads(me, s0, done, [], View()) && Kept(me, s0, View())
        invariant AllOthers(me, rest)
        invariant ready ==> Enabled(View(), Next(me))
        invariant |rest| == 0 && !ready ==> !Enabled(View(), Next(me))
        decreases |rest|
      {
        ghost var s := View();
        assert rest[0] in rest;
        ghost var d := Others(me, rest[0]);
        Going(me, s0, done, [], s, d, View());
        KeptTrans(me, s0, s, View());
        done := done + d;
        rest := rest[1..];
        ready := Enabled(View(), Next(me));
      }
    }

    /** It is the turn of t again, in the middle of Invoke. */
    method Turn(t: nat, env: seq<seq<Event>>, ghost s0: State, ghost trace: seq<Event>, ghost own: seq<Event>)
      returns (ready: bool, rest: seq<seq<Event>>, ghost trace': seq<Event>)
      requires Callbacks.Valid(View()) && t < |threads| && !threads[t].Outside? && AllOthers(Foreign(t), env)
      requires Leads(Foreign(t), s0, trace, own, View())
      modifies this
      ensures Callbacks.Valid(View()) && Leads(Foreign(t), s0, trace', own, View()) && AllOthers(Foreign(t), rest)
      ensures (ready <==> Enabled(View(), Thread(t))) && t < |threads| == |slots|
      ensures ready ==> threads[t] == if old(threads[t].Waiting?) then Woken(old(threads[t].at)) else old(threads[t])
      ensures ready ==> Step(View(), Thread(t)) == ThreadStep(View(), t)
      ensures !threads[t].Outside? && threads[t].at == old(threads[t].at)
      ensures threads[t].at in heap && old(threads[t].at in heap) && heap[threads[t].at].ticket == old(heap[threads[t].at].ticket)
    {
      hide Callbacks.Valid, Leads, Continue, AllOthers;
      ghost var s := View();
      ghost var d;
      ready, rest, d := Await(Foreign(t), env);
      Going(Foreign(t), s0, trace, own, s, d, View());
      trace' := trace + d;
      SizesOf(View());
    }

    /** uv_mutex_lock(&g_queue_mutex) */
    method LockQueue(t: nat, at: Address, env: seq<seq<Event>>)
      returns (done: bool, rest: seq<seq<Event>>, ghost trace: seq<Event>, ghost own: seq<Event>)
      requires Callbacks.Valid(View()) && t < |threads| && threads[t] == Made(at) && at in heap && AllOthers(Foreign(t), env)
      modifies this
      ensures Callbacks.Valid(View()) && Leads(Foreign(t), old(View()), trace, own, View()) && AllOthers(Foreign(t), rest)
      ensures done ==> t < |threads| && threads[t] == Queueing(at) && at in heap && heap[at].ticket == old(heap[at].ticket) && own == [Thread(t)]
      ensures !done ==> !Enabled(View(), Thread(t)) && t < |threads| && !threads[t].Outside?
    {
      hide Callbacks.Valid, Leads, Continue, AllOthers, Kept, Step, Enabled, ThreadStep;
      var me, ready := Foreign(t), true;
      ghost var s0, s := View(), View();
      SizesOf(s);
      StandStill(me, s);
      trace, own, rest := [], [], env;
      ready, rest, trace := Turn(t, rest, s0, trace, own);
      s := View();
      if !ready { return false, rest, trace, own; }
      Locks(s, t);
      queueMutex, threads := Foreign(t), threads[t := Queueing(at)];
      Acted(me, s0, trace, own, s, Thread(t), View());
      s, trace, own := View(), trace + [Thread(t)], own + [Thread(t)];
      done := true;
    }

    /** g_queue.push(inv) */
    method Push(t: nat, at: Address, env: seq<seq<Event>>)
      returns (done: bool, rest: seq<seq<Event>>, ghost trace: seq<Event>, ghost own: seq<Event>)
      requires Callbacks.Valid(View()) && t < |threads| && threads[t] == Queueing(at) && at in heap && AllOthers(Foreign(t), env)
      modifies this
      ensures Callbacks.Valid(View()) && Leads(Foreign(t), old(View()), trace, own, View()) && AllOthers(Foreign(t), rest)
      ensures done ==> t < |threads| && threads[t] == Pushed(at) && at in heap && heap[at].ticket == old(heap[at].ticket) && own == [Thread(t)]
      ensures !done ==> !Enabled(View(), Thread(t)) && t < |threads| && !threads[t].Outside?
    {
      hide Callbacks.Valid, Leads, Continue, AllOthers, Kept, Step, Enabled, ThreadStep;
      var me, ready := Foreign(t), true;
      ghost var s0, s := View(), View();
      SizesOf(s);
      StandStill(me, s);
      trace, own, rest := [], [], env;
      ready, rest, trace := Turn(t, rest, s0, trace, own);
      s := View();
      if !ready { return false, rest, trace, own; }
      Pushes(s, t);
      queue, pushed, threads := queue + [at], pushed + [heap[at].ticket], threads[t := Pushed(at)];
      Acted(me, s0, trace, own, s, Thread(t), View());
      s, trace, own := View(), trace + [Thread(t)], own + [Thread(t)];
      done := true;
    }

    /** uv_mutex_unlock(&g_queue_mutex) and uv_async_send(&g_async). */
    method LeaveQueue(t: nat, at: Address, env: seq<seq<Event>>)
      returns (done: bool, rest: seq<seq<Event>>, ghost trace: seq<Event>, ghost own: seq<Event>)
      requires Callbacks.Valid(View()) && t < |threads| && threads[t] == Pushed(at) && at in heap && AllOthers(Foreign(t), env)
      modifies this
      ensures Callbacks.Valid(View()) && Leads(Foreign(t), old(View()), trace, own, View()) && AllOthers(Foreign(t), rest)
      ensures done ==> t < |threads| && threads[t] == ToWait(at) && at in heap && heap[at].ticket == old(heap[at].ticket) && own == [Thread(t), Thread(t)]
      ensures !done ==> !Enabled(View(), Thread(t)) && t < |threads| && !threads[t].Outside?
    {
      hide Callbacks.Valid, Leads, Continue, AllOthers, Kept, Step, Enabled, ThreadStep;
      var me, ready := Foreign(t), true;
      ghost var s0, s := View(), View();
      SizesOf(s);
      StandStill(me, s);
      trace, own, rest := [], [], env;
      // uv_mutex_unlock(&g_queue_mutex)
      ready, rest, trace := Turn(t, rest, s0, trace, own);
      s := View();
      if !ready { return false, rest, trace, own; }
      Unlocks(s, t);
      queueMutex, threads := Nobody, threads[t := Sending(at)];
      Acted(me, s0, trace, own, s, Thread(t), View());
      s, trace, own := View(), trace + [Thread(t)], own + [Thread(t)];
      // uv_async_send(&g_async)
      ready, rest, trace := Turn(t, rest, s0, trace, own);
      s := View();
      if !ready { return false, rest, trace, own; }
      Sends(s, t);
      pending, threads := true, threads[t := ToWait(at)];
      Acted(me, s0, trace, own, s, Thread(t), View());
      s, trace, own := View(), trace + [Thread(t)], own + [Thread(t)];
      done := true;
    }

    /** WaitForExecution: uv_cond_wait releases the mutex and waits, and takes it again when woken. */
    method WaitForExecution(t: nat, at: Address, env: seq<seq<Event>>)
      returns (done: bool, rest: seq<seq<Event>>, ghost trace: seq<Event>, ghost own: seq<Event>)
      requires Callbacks.Valid(View()) && t < |threads| && threads[t] == ToWait(at) && at in heap && AllOthers(Foreign(t), env)
      modifies this
      ensures Callbacks.Valid(View()) && Leads(Foreign(t), old(View()), trace, own, View()) && AllOthers(Foreign(t), rest)
      ensures done ==> t < |threads| && threads[t] == Resumed(at) && at in heap && heap[at].ticket == old(heap[at].ticket) && own == [Thread(t), Thread(t)]
      ensures !done ==> !Enabled(View(), Thread(t)) && t < |threads| && !threads[t].Outside?
    {
      hide Callbacks.Valid, Leads, Continue, AllOthers, Kept, Step, Enabled, ThreadStep;
      var me, ready := Foreign(t), true;
      ghost var s0, s := View(), View();
      SizesOf(s);
      StandStill(me, s);
      trace, own, rest := [], [], env;
      // release the mutex, and wait
      ready, rest, trace := Turn(t, rest, s0, trace, own);
      s := View();
      if !ready { return false, rest, trace, own; }
      Parks(s, t);
      heap, threads := heap[at := heap[at].(mutex := Nobody)], threads[t := Waiting(at)];
      Acted(me, s0, trace, own, s, Thread(t), View());
      s, trace, own := View(), trace + [Thread(t)], own + [Thread(t)];
      // woken, and the mutex is free
      ready, rest, trace := Turn(t, rest, s0, trace, own);
      s := View();
      if !ready { return false, rest, trace, own; }
      Wakes(s, t);
      heap, threads := heap[at := heap[at].(mutex := Foreign(t))], threads[t := Resumed(at)];
      Acted(me, s0, trace, own, s, Thread(t), View());
      s, trace, own := View(), trace + [Thread(t)], own + [Thread(t)];
      done := true;
    }

    /** uv_mutex_unlock(&m_mutex), at the start of the destructor. */
    method ReleaseMutex(t: nat, at: Address, env: seq<seq<Event>>)
      returns (done: bool, rest: seq<seq<Event>>, ghost trace: seq<Event>, ghost own: seq<Event>)
      requires Callbacks.Valid(View()) && t < |threads| && threads[t] == Resumed(at) && at in heap && AllOthers(Foreign(t), env)
      modifies this
      ensures Callbacks.Valid(View()) && Leads(Foreign(t), old(View()), trace, own, View()) && AllOthers(Foreign(t), rest)
      ensures done ==> t < |threads| && threads[t] == Destroying(at) && at in heap && heap[at].ticket == old(heap[at].ticket) && own == [Thread(t)]
      ensures !done ==> !Enabled(View(), Thread(t)) && t < |threads| && !threads[t].Outside?
    {
      hide Callbacks.Valid, Leads, Continue, AllOthers, Kept, Step, Enabled, ThreadStep;
      var me, ready := Foreign(t), true;
      ghost var s0, s := View(), View();
      SizesOf(s);
      StandStill(me, s);
      trace, own, rest := [], [], env;
      // uv_mutex_unlock(&m_mutex)
      ready, rest, trace := Turn(t, rest, s0, trace, own);
      s := View();
      if !ready { return false, rest, trace, own; }
      Releases(s, t);
      heap, threads := heap[at := heap[at].(mutex := Nobody)], threads[t := Destroying(at)];
      Acted(me, s0, trace, own, s, Thread(t), View());
      s, trace, own := View(), trace + [Thread(t)], own + [Thread(t)];
      done := true;
    }

    /** The rest of the destructor, and the return from Invoke. */
    method Destroy(t: nat, at: Address, env: seq<seq<Event>>) returns (done: bool, result: int, ghost trace: seq<Event>, ghost own: seq<Event>)
      requires Callbacks.Valid(View()) && t < |threads| && threads[t] == Destroying(at) && at in heap && AllOthers(Foreign(t), env)
      modifies this
      ensures Callbacks.Valid(View()) && Leads(Foreign(t), old(View()), trace, own, View())
      ensures done ==> Served(old(heap[at].ticket), result) in dispatched && Served(old(heap[at].ticket), result) in returned
      ensures done ==> t < |threads| && threads[t] == Outside && own == [Thread(t)]
      ensures !done ==> !Enabled(View(), Thread(t)) && t < |threads| && !threads[t].Outside?
    {
      hide Callbacks.Valid, Leads, Continue, AllOthers, Kept, Step, Enabled;
      var me, ready, rest := Foreign(t), true, env;
      ghost var s0, s := View(), View();
      SizesOf(s);
      StandStill(me, s);
      trace, own, result := [], [], 0;
      ready, rest, trace := Turn(t, rest, s0, trace, own);
      s := View();
      if !ready { return false, 0, trace, own; }
      MyInvocation(s, t);
      OwnResult(s, t);
      returned := returned + [Served(heap[at].ticket, slots[t])];
      result := slots[t];
      heap, threads := heap - {at}, threads[t := Outside];
      Acted(me, s0, trace, own, s, Thread(t), View());
      s, trace, own := View(), trace + [Thread(t)], own + [Thread(t)];
      done := true;
    }

    /** new ThreadedCallbackInvokation, at an address that the allocator gives. */
    method Construct(t: nat, at: Address, request: Request) returns (ghost trace: seq<Event>)
      requires Callbacks.Valid(View()) && Enabled(View(), Call(t, at, request))
      modifies this
      ensures Callbacks.Valid(View()) && trace == [Call(t, at, request)] && Leads(Foreign(t), old(View()), trace, trace, View())
      ensures t < |threads| && threads[t] == Made(at) && at in heap && heap[at].ticket == Ticket(old(made), t, request)
    {
      hide Callbacks.Valid, Leads, Continue;
      ghost var s0 := View();
      SizesOf(s0);
      heap := heap[at := Invocation(Ticket(made, t, request), Foreign(t))];
      made, threads := made + 1, threads[t := Made(at)];
      trace := [Call(t, at, request)];
      LeadsOne(Foreign(t), s0, Call(t, at, request), View());
    }

    /** Invoke, on a foreign thread, from the call of the callback until it returns with a result, or
        has to wait for ever. */
    method Invoke(t: nat, at: Address, request: Request, env: seq<seq<Event>>)
      returns (done: bool, result: int, ghost trace: seq<Event>, ghost own: seq<Event>)
      requires Callbacks.Valid(View()) && Enabled(View(), Call(t, at, request)) && AllOthers(Foreign(t), env)
      modifies this
      ensures Callbacks.Valid(View()) && Leads(Foreign(t), old(View()), trace, own, View())
      // It returns the result that its own call was dispatched with.
      ensures done ==> Served(Ticket(old(made), t, request), result) in dispatched && Served(Ticket(old(made), t, request), result) in returned
      ensures done ==> t < |threads| && threads[t] == Outside
      ensures done ==> own == [Call(t, at, request)] + seq(8, _ => Thread(t))
      ensures |own| > 0 && own[0] == Call(t, at, request)
      ensures !done ==> !Enabled(View(), Thread(t)) && t < |threads| && !threads[t].Outside?
    {
      hide Callbacks.Valid, Leads, Continue, AllOthers, Enabled;
      var me, rest := Foreign(t), env;
      ghost var s0, d, o := View(), [], [];
      result := 0;
      trace := Construct(t, at, request);
      own := trace;
      ghost var s := View();
      done, rest, d, o := LockQueue(t, at, rest);
      LeadsOn(me, s0, trace, own, s, d, o, View());
      s, trace, own := View(), trace + d, own + o;
      if !done { return; }
      done, rest, d, o := Push(t, at, rest);
      LeadsOn(me, s0, trace, own, s, d, o, View());
      s, trace, own := View(), trace + d, own + o;
      if !done { return; }
      done, rest, d, o := LeaveQueue(t, at, rest);
      LeadsOn(me, s0, trace, own, s, d, o, View());
      s, trace, own := View(), trace + d, own + o;
      if !done { return; }
      done, rest, d, o := WaitForExecution(t, at, rest);
      LeadsOn(me, s0, trace, own, s, d, o, View());
      s, trace, own := View(), trace + d, own + o;
      if !done { return; }
      done, result, d, o := Delete(t, at, rest);
      LeadsOn(me, s0, trace, own, s, d, o, View());
      trace, own := trace + d, own + o;
    }

    /** delete inv, and the return from Invoke. */
    method Delete(t: nat, at: Address, env: seq<seq<Event>>) returns (done: bool, result: int, ghost trace: seq<Event>, ghost own: seq<Event>)
      requires Callbacks.Valid(View()) && t < |threads| && threads[t] == Resumed(at) && at in heap && AllOthers(Foreign(t), env)
      modifies this
      ensures Callbacks.Valid(View()) && Leads(Foreign(t), old(View()), trace, own, View())
      ensures done ==> Served(old(heap[at].ticket), result) in dispatched && Served(old(heap[at].ticket), result) in returned
      ensures done ==> t < |threads| && threads[t] == Outside && own == [Thread(t), Thread(t)]
      ensures !done ==> !Enabled(View(), Thread(t)) && t < |threads| && !threads[t].Outside?
    {
      hide Callbacks.Valid, Leads, Continue, AllOthers, Enabled;
      ghost var s0, d, o := View(), [], [];
      var rest;
      result := 0;
      done, rest, trace, own := ReleaseMutex(t, at, env);
      if !done { return; }
      ghost var s := View();
      done, result, d, o := Destroy(t, at, rest);
      LeadsOn(Foreign(t), s0, trace, own, s, d, o, View());
      trace, own := trace + d, own + o;
    }

    /** It is the turn of the event loop again, in the middle of WatcherCallback. */
    method LoopTurn(env: seq<seq<Event>>, ghost s0: State, ghost trace: seq<Event>, ghost own: seq<Event>)
      returns (ready: bool, rest: seq<seq<Event>>, ghost trace': seq<Event>)
      requires Callbacks.Valid(View()) && AllOthers(Loop, env) && Leads(Loop, s0, trace, own, View())
      modifies this
      ensures Callbacks.Valid(View()) && Leads(Loop, s0, trace', own, View()) && AllOthers(Loop, rest)
      ensures (ready <==> Enabled(View(), Main(0))) && |slots| == |threads|
      ensures ready ==> forall r :: Enabled(View(), Main(r)) && Step(View(), Main(r)) == MainStep(View(), r)
      ensures main == old(main) && dispatched == old(dispatched)
      ensures MainHoldsQueue(main) ==> queue == old(queue) && pushed == old(pushed)
    {
      hide Callbacks.Valid, Leads, Continue, AllOthers;
      ghost var s := View();
      ghost var d;
      LoopHolds(s);
      ready, rest, d := Await(Loop, env);
      Going(Loop, s0, trace, own, s, d, View());
      trace' := trace + d;
      SizesOf(View());
    }

    /** The start of WatcherCallback, which libuv calls when a wake-up is pending. */
    method EnterLoop(env: seq<seq<Event>>)
      returns (done: bool, rest: seq<seq<Event>>, ghost trace: seq<Event>, ghost own: seq<Event>)
      requires Callbacks.Valid(View()) && AllOthers(Loop, env)
      requires main == AtLoop && pending
      modifies this
      ensures Callbacks.Valid(View()) && Leads(Loop, old(View()), trace, own, View()) && AllOthers(Loop, rest)
      ensures !done ==> !Enabled(View(), Main(0))
      ensures dispatched == old(dispatched) && (done ==> main == Draining)
    {
      hide Callbacks.Valid, Leads, Continue, AllOthers, Kept, Step, Enabled, MainStep, Signal;
      var me, ready := Loop, true;
      ghost var s0, s := View(), View();
      SizesOf(s);
      StandStill(me, s);
      trace, own, rest := [], [], env;
      AtLoopEnabled(s);
      pending, main := false, Entering;
      Acted(me, s0, trace, own, s, Main(0), View());
      s, trace, own := View(), trace + [Main(0)], own + [Main(0)];
      ready, rest, trace := LoopTurn(rest, s0, trace, own);
      s := View();
      if !ready { return false, rest, trace, own; }
      LoopEnters(s);
      // uv_mutex_lock(&g_queue_mutex)
      queueMutex, main := Loop, Draining;
      Acted(me, s0, trace, own, s, Main(0), View());
      s, trace, own := View(), trace + [Main(0)], own + [Main(0)];
      done := true;
    }

    /** SignalDoneExecuting, on the invocation in hand. */
    method SignalDoneExecuting(env: seq<seq<Event>>, inv: Address)
      returns (done: bool, rest: seq<seq<Event>>, ghost trace: seq<Event>, ghost own: seq<Event>)
      requires Callbacks.Valid(View()) && AllOthers(Loop, env)
      requires main == ToSignal(inv)
      modifies this
      ensures Callbacks.Valid(View()) && Leads(Loop, old(View()), trace, own, View()) && AllOthers(Loop, rest)
      ensures !done ==> !Enabled(View(), Main(0))
      ensures dispatched == old(dispatched) && (done ==> main == Draining && queue == old(queue) && pushed == old(pushed))
    {
      hide Callbacks.Valid, Leads, Continue, AllOthers, Kept, Step, Enabled, MainStep, Signal;
      var me, ready := Loop, true;
      ghost var s0, s := View(), View();
      SizesOf(s);
      StandStill(me, s);
      trace, own, rest := [], [], env;
      // uv_mutex_lock(&m_mutex)
      ready, rest, trace := LoopTurn(rest, s0, trace, own);
      s := View();
      if !ready { return false, rest, trace, own; }
      LoopLocksOne(s);
      heap, main := heap[inv := heap[inv].(mutex := Loop)], Locked(inv);
      Acted(me, s0, trace, own, s, Main(0), View());
      s, trace, own := View(), trace + [Main(0)], own + [Main(0)];
      // uv_cond_signal(&m_cond)
      ready, rest, trace := LoopTurn(rest, s0, trace, own);
      s := View();
      if !ready { return false, rest, trace, own; }
      LoopSignals(s);
      threads, main := Signal(threads, inv), Unlocking(inv);
      Acted(me, s0, trace, own, s, Main(0), View());
      s, trace, own := View(), trace + [Main(0)], own + [Main(0)];
      // uv_mutex_unlock(&m_mutex)
      ready, rest, trace := LoopTurn(rest, s0, trace, own);
      s := View();
      if !ready { return false, rest, trace, own; }
      LoopUnlocksOne(s);
      heap, main := heap[inv := heap[inv].(mutex := Nobody)], Draining;
      Acted(me, s0, trace, own, s, Main(0), View());
      s, trace, own := View(), trace + [Main(0)], own + [Main(0)];
      done := true;
    }

    /** Popping an invocation, and DispatchToV8; the callback gives js(ticket). */
    method PopAndDispatch(env: seq<seq<Event>>, js: Ticket -> int)
      returns (done: bool, rest: seq<seq<Event>>, ghost trace: seq<Event>, ghost own: seq<Event>)
      requires Callbacks.Valid(View()) && AllOthers(Loop, env)
      requires main == Draining && |queue| > 0
      modifies this
      ensures Callbacks.Valid(View()) && Leads(Loop, old(View()), trace, own, View()) && AllOthers(Loop, rest)
      ensures !done ==> !Enabled(View(), Main(0))
      ensures done ==> main == ToSignal(old(queue[0])) && queue == old(queue)[1..] && pushed == old(pushed)
      ensures dispatched == old(dispatched) || exists ticket :: dispatched == old(dispatched) + [Served(ticket, js(ticket))]
    {
      hide Callbacks.Valid, Leads, Continue, AllOthers, Kept, Step, Enabled, MainStep, Signal;
      var me, ready := Loop, true;
      ghost var s0, s := View(), View();
      SizesOf(s);
      StandStill(me, s);
      trace, own, rest := [], [], env;
      ready, rest, trace := LoopTurn(rest, s0, trace, own);
      s := View();
      if !ready { return false, rest, trace, own; }
      LoopPops(s);
      var inv := queue[0];
      queue, main := queue[1..], Taken(inv);
      Acted(me, s0, trace, own, s, Main(0), View());
      s, trace, own := View(), trace + [Main(0)], own + [Main(0)];
      ready, rest, trace := LoopTurn(rest, s0, trace, own);
      s := View();
      if !ready { return false, rest, trace, own; }
      var ticket := if inv in heap then heap[inv].ticket else Ticket(0, 0, Request(0, []));
      LoopDispatches(s, js(ticket));
      slots, dispatched, main := slots[ticket.thread := js(ticket)], dispatched + [Served(ticket, js(ticket))], ToSignal(inv);
      Acted(me, s0, trace, own, s, Main(js(ticket)), View());
      s, trace, own := View(), trace + [Main(js(ticket))], own + [Main(js(ticket))];
      done := true;
    }

    /** WatcherCallback: it drains the queue, whatever the others do meanwhile, or has to wait for ever. */
    method WatcherCallback(env: seq<seq<Event>>, js: Ticket -> int)
      returns (done: bool, rest: seq<seq<Event>>, ghost trace: seq<Event>, ghost own: seq<Event>)
      requires Callbacks.Valid(View()) && AllOthers(Loop, env)
      requires main == AtLoop && pending
      modifies this
      ensures Callbacks.Valid(View()) && Leads(Loop, old(View()), trace, own, View()) && AllOthers(Loop, rest)
      ensures !done ==> !Enabled(View(), Main(0))
      // Every call that has been pushed by now has been dispatched, each with its own result.
      ensures done ==> main == AtLoop && queue == [] && |dispatched| == |pushed|
      ensures ByCallback(old(dispatched), dispatched, js)
    {
      hide Callbacks.Valid, Leads, Continue, AllOthers, Kept, Step, Enabled, MainStep, ByCallback;
      var me := Loop;
      ghost var s0, d, o := View(), [], [];
      NothingBy(dispatched, js);
      done, rest, trace, own := EnterLoop(env);
      if !done { return; }
      ghost var s := View();
      while |queue| > 0
        invariant Callbacks.Valid(View()) && AllOthers(Loop, rest) && s == View() && Leads(Loop, s0, trace, own, s)
        invariant main == Draining && ByCallback(old(dispatched), dispatched, js)
        decreases |queue|
      {
        ghost var was := dispatched;
        done, rest, d, o := PopAndDispatch(rest, js);
        LeadsOn(me, s0, trace, own, s, d, o, View());
        s, trace, own := View(), trace + d, own + o;
        OneMoreBy(old(dispatched), was, dispatched, js);
        if !done { return; }
        done, rest, d, o := SignalDoneExecuting(rest, main.inv);
        LeadsOn(me, s0, trace, own, s, d, o, View());
        s, trace, own := View(), trace + d, own + o;
        if !done { return; }
      }
      done, rest, d, o := LeaveLoop(rest);
      LeadsOn(me, s0, trace, own, s, d, o, View());
      trace, own := trace + d, own + o;
    }

    /** The end of WatcherCallback: uv_mutex_unlock(&g_queue_mutex), with the queue empty. */
    method LeaveLoop(env: seq<seq<Event>>)
      returns (done: bool, rest: seq<seq<Event>>, ghost trace: seq<Event>, ghost own: seq<Event>)
      requires Callbacks.Valid(View()) && AllOthers(Loop, env)
      requires main == Draining && queue == []
      modifies this
      ensures Callbacks.Valid(View()) && Leads(Loop, old(View()), trace, own, View()) && AllOthers(Loop, rest)
      ensures !done ==> !Enabled(View(), Main(0))
      ensures dispatched == old(dispatched) && (done ==> main == AtLoop && queue == [] && |dispatched| == |pushed|)
    {
      hide Callbacks.Valid, Leads, Continue, AllOthers, Kept, Step, Enabled, MainStep, Signal;
      var me, ready := Loop, true;
      ghost var s0, s := View(), View();
      SizesOf(s);
      StandStill(me, s);
      trace, own, rest := [], [], env;
      ready, rest, trace := LoopTurn(rest, s0, trace, own);
      s := View();
      if !ready { return false, rest, trace, own; }
      LoopLeaves(s);
      queueMutex, main := Nobody, AtLoop;
      Acted(me, s0, trace, own, s, Main(0), View());
      s, trace, own := View(), trace + [Main(0)], own + [Main(0)];
      done := true;
    }
  }

  /** Calls have been dispatched, each with the result that the callback gives for it. */
  ghost predicate ByCallback(before: seq<Served>, after: seq<Served>, js: Ticket -> int) {
    before <= after && forall i {:trigger after[i]} :: |before| <= i < |after| ==> after[i].result == js(after[i].ticket)
  }

  lemma NothingBy(d: seq<Served>, js: Ticket -> int)
    ensures ByCallback(d, d, js)
  {
  }

  lemma OneMoreBy(d0: seq<Served>, d: seq<Served>, d': seq<Served>, js: Ticket -> int)
    requires ByCallback(d0, d, js) && (d' == d || exists ticket :: d' == d + [Served(ticket, js(ticket))])
    ensures ByCallback(d0, d', js)
  {
  }

  lemma AtLoopEnabled(s: State)
    requires s.main == AtLoop && s.pending && |s.slots| == |s.threads|
    ensures Enabled(s, Main(0)) && Step(s, Main(0)) == Running(s.(pending := false, main := Entering))
  {
  }

  /** A thread that is about to return has its own result in its slot. */
  lemma OwnResult(s: State, t: nat)
    requires Valid(s) && t < |s.threads| && s.threads[t].Destroying?
    ensures s.threads[t].at in s.heap && t < |s.slots| && Served(s.heap[s.threads[t].at].ticket, s.slots[t]) in s.dispatched
  {
    assert ThreadOk(s, t);
  }

  lemma StandStill(me: Owner, s: State)
    requires |s.slots| == |s.threads|
    ensures Leads(me, s, [], [], s)
  {
  }
}
