/** The work pool of 11.threads/06_condition_variables.c with any number of producers,
    consumers and messages.  One step is one test or assignment of the source or one call
    of malloc, free or a mutex or condition function; any thread that can take its next
    step may do so, and a sleeping consumer may wake up for no reason. */
module WorkPool {
  import opened Sequences

  /** The address of a message; malloc may hand it out again once it is freed. */
  type Msg = nat

  datatype Option<T> = None | Some(value: T)

  /** Where a consumer is in process_message and thread_function. */
  datatype Consumer =
    | Starting                   // before pthread_mutex_lock
    | Testing                    // at the loop condition
    | Sleeping                   // in pthread_cond_wait
    | Woken                      // in pthread_cond_wait, taking the mutex again
    | Reading                    // behind the loop
    | Taking(cur: Option<Msg>)   // `current` read, before current->next
    | Unlocking(m: Msg)          // before pthread_mutex_unlock
    | Processing(m: Msg)         // working on its message, before free
  {
    predicate Inside() {
      Testing? || Reading? || Taking? || Unlocking?
    }

    predicate Holds(msg: Msg) {
      (Unlocking? || Processing?) && m == msg
    }

    function Rank(): nat {
      match this
      case Starting => 3
      case Testing => 2
      case Sleeping => 0
      case Woken => 3
      case Reading => 1
      case Taking(_) => 0
      case Unlocking(_) => 5
      case Processing(_) => 4
    }
  }

  /** Where a producer is in main's loop and enqueue_message; `left` counts the messages
      it has still to allocate. */
  datatype Producer =
    | Idle(left: nat)                // before malloc
    | Entering(left: nat, m: Msg)    // before pthread_mutex_lock
    | Linking(left: nat, m: Msg)     // before message->next = tasks
    | Pushing(left: nat, m: Msg)     // before tasks = message
    | Leaving(left: nat)             // before pthread_mutex_unlock
    | Broadcasting(left: nat)        // before pthread_cond_broadcast
  {
    predicate Inside() {
      Linking? || Pushing? || Leaving?
    }

    predicate Owns(msg: Msg) {
      (Entering? || Linking? || Pushing?) && m == msg
    }

    function Work(): nat {
      6 * left + match this
                 case Idle(_) => 0
                 case Entering(_, _) => 5
                 case Linking(_, _) => 4
                 case Pushing(_, _) => 3
                 case Leaving(_) => 2
                 case Broadcasting(_) => 1
    }

    /** The messages that it has not yet pushed. */
    function Unpushed(): nat {
      if Entering? || Linking? || Pushing? then left + 1 else left
    }
  }

  datatype Thread = C(c: nat) | P(p: nat)

  /** What has happened to messages, oldest first. */
  datatype Event = Pushed(m: Msg) | Taken(m: Msg) | Freed(m: Msg)

  /** `next` holds the next field of every allocated message.  `crashed` records a load or
      a store through NULL or through a message that is not allocated, and a free of one. */
  datatype State = State(consumers: seq<Consumer>, producers: seq<Producer>, mutex: Option<Thread>,
                         tasks: Option<Msg>, next: map<Msg, Option<Msg>>, log: seq<Event>, crashed: bool)

  /** Steps of a thread; `addr` is what malloc returns if the step calls it.  Or a
      spurious wakeup. */
  datatype Action = Run(t: Thread, addr: Msg) | Spurious(c: nat)

  predicate Enabled(s: State, a: Action) {
    match a
    case Spurious(c) => c < |s.consumers| && s.consumers[c].Sleeping?
    case Run(C(c), _) =>
      && c < |s.consumers| && !s.consumers[c].Sleeping?
      && (s.consumers[c].Starting? || s.consumers[c].Woken? ==> s.mutex.None?)
    case Run(P(p), addr) =>
      && p < |s.producers|
      && (s.producers[p].Idle? ==> s.producers[p].left > 0 && addr !in s.next)
      && (s.producers[p].Entering? ==> s.mutex.None?)
  }

  function ConsumerStep(s: State, c: nat): State
    requires Enabled(s, Run(C(c), 0))
  {
    match s.consumers[c]
    case Starting => s.(consumers := s.consumers[c := Testing], mutex := Some(C(c)))
    case Woken => s.(consumers := s.consumers[c := Testing], mutex := Some(C(c)))
    case Testing =>
      if s.tasks.None? then s.(consumers := s.consumers[c := Sleeping], mutex := None)
      else s.(consumers := s.consumers[c := Reading])
    case Reading => s.(consumers := s.consumers[c := Taking(s.tasks)])
    case Taking(cur) =>
      if cur.None? || cur.value !in s.next then s.(crashed := true)
      else s.(consumers := s.consumers[c := Unlocking(cur.value)], tasks := s.next[cur.value],
              log := s.log + [Taken(cur.value)])
    case Unlocking(m) => s.(consumers := s.consumers[c := Processing(m)], mutex := None)
    case Processing(m) =>
      if m !in s.next then s.(crashed := true)
      else s.(consumers := s.consumers[c := Starting], next := s.next - {m}, log := s.log + [Freed(m)])
    case Sleeping => s
  }

  function Wake(consumers: seq<Consumer>): (r: seq<Consumer>)
    ensures |r| == |consumers|
  {
    seq(|consumers|, i requires 0 <= i < |consumers| => if consumers[i].Sleeping? then Woken else consumers[i])
  }

  function ProducerStep(s: State, p: nat, addr: Msg): State
    requires Enabled(s, Run(P(p), addr))
  {
    match s.producers[p]
    case Idle(left) =>
      s.(producers := s.producers[p := Entering(left - 1, addr)], next := s.next[addr := None])
    case Entering(left, m) => s.(producers := s.producers[p := Linking(left, m)], mutex := Some(P(p)))
    case Linking(left, m) =>
      if m !in s.next then s.(crashed := true)
      else s.(producers := s.producers[p := Pushing(left, m)], next := s.next[m := s.tasks])
    case Pushing(left, m) =>
      s.(producers := s.producers[p := Leaving(left)], tasks := Some(m), log := s.log + [Pushed(m)])
    case Leaving(left) => s.(producers := s.producers[p := Broadcasting(left)], mutex := None)
    case Broadcasting(left) => s.(producers := s.producers[p := Idle(left)], consumers := Wake(s.consumers))
  }

  function Step(s: State, a: Action): State
    requires Enabled(s, a)
  {
    match a
    case Spurious(c) => s.(consumers := s.consumers[c := Woken])
    case Run(C(c), addr) => ConsumerStep(s, c)
    case Run(P(p), addr) => ProducerStep(s, p, addr)
  }

  function Init(consumers: nat, counts: seq<nat>): State {
    State(seq(consumers, _ => Starting), seq(|counts|, p requires 0 <= p < |counts| => Idle(counts[p])),
          None, None, map[], [], false)
  }

  // ----- what the log says -----

  function PendingAfter(pending: seq<Msg>, e: Event): seq<Msg> {
    if e.Pushed? then [e.m] + pending
    else if e.Taken? && pending != [] then pending[1..]
    else pending
  }

  /** The messages pushed and not yet taken, the most recently pushed first. */
  function Pending(log: seq<Event>): seq<Msg> {
    if log == [] then [] else PendingAfter(Pending(log[..|log| - 1]), log[|log| - 1])
  }

  /** Every take took the most recently pushed message that was pending. */
  predicate LastInFirstOut(log: seq<Event>) {
    forall i :: 0 <= i < |log| && log[i].Taken? ==> Pending(log[..i]) != [] && Pending(log[..i])[0] == log[i].m
  }

  function Count(log: seq<Event>, e: Event): nat {
    if log == [] then 0 else Count(log[..|log| - 1], e) + (if log[|log| - 1] == e then 1 else 0)
  }

  function Pushes(log: seq<Event>): nat {
    if log == [] then 0 else Pushes(log[..|log| - 1]) + (if log[|log| - 1].Pushed? then 1 else 0)
  }

  lemma LogGrows(log: seq<Event>, e: Event)
    ensures Pending(log + [e]) == PendingAfter(Pending(log), e)
    ensures forall x :: Count(log + [e], x) == Count(log, x) + (if x == e then 1 else 0)
    ensures Pushes(log + [e]) == Pushes(log) + (if e.Pushed? then 1 else 0)
    ensures LastInFirstOut(log) && (e.Taken? ==> Pending(log) != [] && Pending(log)[0] == e.m) ==>
              LastInFirstOut(log + [e])
  {
    var longer := log + [e];
    assert longer[..|longer| - 1] == log;
    if LastInFirstOut(log) && (e.Taken? ==> Pending(log) != [] && Pending(log)[0] == e.m) {
      forall i | 0 <= i < |longer| && longer[i].Taken?
        ensures Pending(longer[..i]) != [] && Pending(longer[..i])[0] == longer[i].m
      {
        assert longer[..i] == log[..i];
      }
    }
  }

  // ----- what every step keeps -----

  /** Exactly the thread that has the mutex is inside its critical section. */
  ghost predicate MutexInv(s: State) {
    && (forall c :: 0 <= c < |s.consumers| ==> (s.consumers[c].Inside() <==> s.mutex == Some(C(c))))
    && (forall p :: 0 <= p < |s.producers| ==> (s.producers[p].Inside() <==> s.mutex == Some(P(p))))
    && (s.mutex.Some? ==> if s.mutex.value.C? then s.mutex.value.c < |s.consumers| else s.mutex.value.p < |s.producers|)
  }

  function Head(stack: seq<Msg>, k: nat): Option<Msg> {
    if k < |stack| then Some(stack[k]) else None
  }

  /** The links from `tasks` lead through the pending messages and no others. */
  ghost predicate Linked(tasks: Option<Msg>, next: map<Msg, Option<Msg>>, stack: seq<Msg>) {
    && tasks == Head(stack, 0)
    && (forall k :: 0 <= k < |stack| ==> stack[k] in next && next[stack[k]] == Head(stack, k + 1))
    && (forall i, j :: 0 <= i < j < |stack| ==> stack[i] != stack[j])
  }

  ghost predicate ListInv(s: State) {
    && Linked(s.tasks, s.next, Pending(s.log))
    && (forall c :: 0 <= c < |s.consumers| && s.consumers[c].Reading? ==> s.tasks.Some?)
    && (forall c :: 0 <= c < |s.consumers| && s.consumers[c].Taking? ==> s.tasks.Some? && s.consumers[c].cur == s.tasks)
    && (forall p :: 0 <= p < |s.producers| && s.producers[p].Pushing? ==>
          s.producers[p].m in s.next && s.next[s.producers[p].m] == s.tasks)
    && !s.crashed
  }

  /** A consumer that took the message, or a producer that has not pushed it yet. */
  predicate Owns(s: State, t: Thread, m: Msg) {
    match t
    case C(c) => c < |s.consumers| && s.consumers[c].Holds(m)
    case P(p) => p < |s.producers| && s.producers[p].Owns(m)
  }

  ghost predicate OwnerInv(s: State) {
    && (forall t, m :: Owns(s, t, m) ==> m in s.next && m !in Pending(s.log))
    && (forall t, u, m :: Owns(s, t, m) && Owns(s, u, m) ==> t == u)
  }

  predicate Held(consumers: seq<Consumer>, m: Msg) {
    exists c :: 0 <= c < |consumers| && consumers[c].Holds(m)
  }

  /** Each push of a message was followed by its take, but for the last push of a message
      that is pending; and each take by its free, but for the last of one that is held. */
  ghost predicate Conserved(s: State) {
    && (forall m :: Count(s.log, Pushed(m)) == Count(s.log, Taken(m)) + (if m in Pending(s.log) then 1 else 0))
    && (forall m :: Count(s.log, Taken(m)) == Count(s.log, Freed(m)) + (if Held(s.consumers, m) then 1 else 0))
  }

  ghost predicate BagInv(s: State) {
    Conserved(s) && LastInFirstOut(s.log)
  }

  /** Allocated memory is exactly what is pending or owned by a thread. */
  ghost predicate MemoryInv(s: State) {
    forall m :: m in s.next <==> m in Pending(s.log) || exists t :: Owns(s, t, m)
  }

  predicate Signals(s: State, p: nat) {
    p < |s.producers| && (s.producers[p].Leaving? || s.producers[p].Broadcasting?)
  }

  predicate Sleeps(s: State, c: nat) {
    c < |s.consumers| && s.consumers[c].Sleeping?
  }

  /** No lost wakeup: when there is a task and someone sleeps, some producer is between
      its push and its broadcast. */
  ghost predicate WakeInv(s: State) {
    s.tasks.Some? && (exists c: nat :: Sleeps(s, c)) ==> exists p: nat :: Signals(s, p)
  }

  function Unpushed(producers: seq<Producer>): (r: seq<nat>)
    ensures |r| == |producers|
  {
    seq(|producers|, p requires 0 <= p < |producers| => producers[p].Unpushed())
  }

  ghost predicate Inv(s: State) {
    MutexInv(s) && ListInv(s) && OwnerInv(s) && BagInv(s) && WakeInv(s)
  }

  lemma ConsumerKeepsMutex(s: State, c: nat)
    requires MutexInv(s) && Enabled(s, Run(C(c), 0))
    ensures MutexInv(ConsumerStep(s, c))
  {
  }

  lemma MutexKept(s: State, a: Action)
    requires MutexInv(s) && Enabled(s, a)
    ensures MutexInv(Step(s, a))
  {
    hide ConsumerStep;
    if a.Run? && a.t.C? {
      ConsumerKeepsMutex(s, a.t.c);
    }
  }

  /** Nobody else is inside while thread `t` is. */
  lemma InsideAlone(s: State, t: Thread)
    requires MutexInv(s) && s.mutex == Some(t)
    ensures forall c :: 0 <= c < |s.consumers| && C(c) != t ==> !s.consumers[c].Inside()
    ensures forall p :: 0 <= p < |s.producers| && P(p) != t ==> !s.producers[p].Inside()
  {
  }

  // A consumer's take: the message leaves the list and is the consumer's.

  lemma TakeKeepsList(s: State, c: nat)
    requires MutexInv(s) && ListInv(s) && Enabled(s, Run(C(c), 0)) && s.consumers[c].Taking?
    ensures ListInv(ConsumerStep(s, c))
    ensures var m := s.consumers[c].cur.value;
            m in s.next && Pending(s.log) != [] && m == Pending(s.log)[0] && m !in Pending(s.log)[1..]
            && Pending(ConsumerStep(s, c).log) == Pending(s.log)[1..]
  {
    hide Pending, Count, Pushes;
    var m, before := s.consumers[c].cur.value, Pending(s.log);
    InsideAlone(s, C(c));
    LogGrows(s.log, Taken(m));
    LinkedTail(s.tasks, s.next, before);
    hide MutexInv, Linked;
  }

  lemma LinkedTail(tasks: Option<Msg>, next: map<Msg, Option<Msg>>, stack: seq<Msg>)
    requires Linked(tasks, next, stack) && tasks.Some?
    ensures stack != [] && tasks.value == stack[0] && stack[0] in next && stack[0] !in stack[1..]
    ensures Linked(next[stack[0]], next, stack[1..])
  {
  }

  lemma TakeKeepsOwner(s: State, c: nat)
    requires MutexInv(s) && ListInv(s) && OwnerInv(s) && BagInv(s) && Enabled(s, Run(C(c), 0)) && s.consumers[c].Taking?
    ensures OwnerInv(ConsumerStep(s, c)) && BagInv(ConsumerStep(s, c))
  {
    hide Pending, Linked, Count, Pushes, LastInFirstOut;
    var s', m := ConsumerStep(s, c), s.consumers[c].cur.value;
    TakeKeepsList(s, c);
    LogGrows(s.log, Taken(m));
    hide MutexInv, ListInv;
    assert forall x :: x in Pending(s.log) <==> x == m || x in Pending(s'.log);
    assert forall t, x :: Owns(s', t, x) <==> Owns(s, t, x) || (t == C(c) && x == m);
    HeldIsOwned(s, m);
    HeldAfterTake(s.consumers, c, m);
  }

  lemma HeldIsOwned(s: State, m: Msg)
    ensures Held(s.consumers, m) ==> exists c: nat :: Owns(s, C(c), m)
  {
    if c :| 0 <= c < |s.consumers| && s.consumers[c].Holds(m) {
      assert Owns(s, C(c), m);
    }
  }

  lemma HeldAfterTake(consumers: seq<Consumer>, c: nat, m: Msg)
    requires c < |consumers| && consumers[c].Taking?
    ensures forall x :: Held(consumers[c := Unlocking(m)], x) <==> Held(consumers, x) || x == m
  {
    var after := consumers[c := Unlocking(m)];
    forall x
      ensures Held(after, x) <==> Held(consumers, x) || x == m
    {
      assert forall i :: 0 <= i < |consumers| && i != c ==> (after[i].Holds(x) <==> consumers[i].Holds(x));
      assert after[c].Holds(x) <==> x == m;
    }
  }

  // A consumer's free: the message is nobody's.

  lemma FreeKept(s: State, c: nat)
    requires ListInv(s) && OwnerInv(s) && BagInv(s) && Enabled(s, Run(C(c), 0)) && s.consumers[c].Processing?
    ensures ListInv(ConsumerStep(s, c)) && OwnerInv(ConsumerStep(s, c)) && BagInv(ConsumerStep(s, c))
  {
    hide Pending, Linked, Count, Pushes, LastInFirstOut;
    var s', m, pending := ConsumerStep(s, c), s.consumers[c].m, Pending(s.log);
    HeldIsOwned(s', m);
    assert Owns(s, C(c), m);
    LogGrows(s.log, Freed(m));
    LinkedElsewhere(s.tasks, s.next, pending, m, None);
    assert forall p :: 0 <= p < |s.producers| && s.producers[p].Pushing? ==> Owns(s, P(p), s.producers[p].m);
    assert forall t, x :: Owns(s', t, x) ==> Owns(s, t, x) && t != C(c);
    HeldAfterFree(s.consumers, c, m);
  }

  lemma HeldAfterFree(consumers: seq<Consumer>, c: nat, m: Msg)
    requires c < |consumers| && consumers[c] == Processing(m)
    ensures forall x :: Held(consumers, x) <==> Held(consumers[c := Starting], x) || x == m
  {
    var after := consumers[c := Starting];
    forall x
      ensures Held(consumers, x) <==> Held(after, x) || x == m
    {
      assert forall i :: 0 <= i < |consumers| && i != c ==> (after[i].Holds(x) <==> consumers[i].Holds(x));
      assert consumers[c].Holds(x) <==> x == m;
    }
  }

  lemma LinkedElsewhere(tasks: Option<Msg>, next: map<Msg, Option<Msg>>, stack: seq<Msg>, m: Msg, x: Option<Msg>)
    requires Linked(tasks, next, stack) && m !in stack
    ensures Linked(tasks, next - {m}, stack) && Linked(tasks, next[m := x], stack)
  {
  }

  // A producer's push: the message becomes the first of the list.

  lemma PushKeepsOwner(s: State, p: nat)
    requires ListInv(s) && OwnerInv(s) && Enabled(s, Run(P(p), 0)) && s.producers[p].Pushing?
    ensures var s' := ProducerStep(s, p, 0);
            OwnerInv(s') && forall t :: !Owns(s', t, s.producers[p].m)
  {
    hide Pending, Linked, Count, Pushes;
    var s', m := ProducerStep(s, p, 0), s.producers[p].m;
    assert Owns(s, P(p), m);
    LogGrows(s.log, Pushed(m));
    assert forall t, x :: Owns(s', t, x) ==> Owns(s, t, x) && t != P(p);
  }

  lemma PushLinks(tasks: Option<Msg>, next: map<Msg, Option<Msg>>, stack: seq<Msg>, m: Msg)
    requires Linked(tasks, next, stack) && m in next && next[m] == tasks && m !in stack
    ensures Linked(Some(m), next, [m] + stack)
  {
    assert forall k :: 0 <= k <= |stack| ==> Head([m] + stack, k + 1) == Head(stack, k);
  }

  lemma PushKeepsList(s: State, p: nat)
    requires MutexInv(s) && ListInv(s) && OwnerInv(s)
    requires Enabled(s, Run(P(p), 0)) && s.producers[p].Pushing?
    ensures ListInv(ProducerStep(s, p, 0))
    ensures Pending(ProducerStep(s, p, 0).log) == [s.producers[p].m] + Pending(s.log)
  {
    hide Pending, Count, Pushes, LastInFirstOut;
    var s', m, before := ProducerStep(s, p, 0), s.producers[p].m, Pending(s.log);
    InsideAlone(s, P(p));
    assert Owns(s, P(p), m);
    LogGrows(s.log, Pushed(m));
    PushLinks(s.tasks, s.next, before, m);
    hide Linked, MutexInv;
  }

  /** The message is the first of the list, and no thread's any more. */
  lemma PushKept(s: State, p: nat)
    requires MutexInv(s) && ListInv(s) && OwnerInv(s) && BagInv(s)
    requires Enabled(s, Run(P(p), 0)) && s.producers[p].Pushing?
    ensures var s', m := ProducerStep(s, p, 0), s.producers[p].m;
            && ListInv(s') && BagInv(s') && OwnerInv(s')
            && Pending(s'.log) == [m] + Pending(s.log)
            && forall t :: !Owns(s', t, m)
  {
    hide Pending, Count, Pushes, LastInFirstOut, ListInv, MutexInv;
    var m := s.producers[p].m;
    PushKeepsList(s, p);
    PushKeepsOwner(s, p);
    assert Owns(s, P(p), m);
    LogGrows(s.log, Pushed(m));
    assert forall x :: x in [m] + Pending(s.log) <==> x == m || x in Pending(s.log);
  }

  // A producer's malloc and its store to the next field.

  lemma MallocKept(s: State, p: nat, addr: Msg)
    requires ListInv(s) && OwnerInv(s) && Enabled(s, Run(P(p), addr)) && s.producers[p].Idle?
    ensures ListInv(ProducerStep(s, p, addr)) && OwnerInv(ProducerStep(s, p, addr))
  {
    hide Pending;
    var s' := ProducerStep(s, p, addr);
    assert addr !in Pending(s.log);
    LinkedElsewhere(s.tasks, s.next, Pending(s.log), addr, None);
    hide Linked;
    assert forall t, x :: Owns(s', t, x) ==> Owns(s, t, x) || (t == P(p) && x == addr);
  }

  lemma LinkKept(s: State, p: nat)
    requires MutexInv(s) && ListInv(s) && OwnerInv(s) && Enabled(s, Run(P(p), 0)) && s.producers[p].Linking?
    ensures ListInv(ProducerStep(s, p, 0)) && OwnerInv(ProducerStep(s, p, 0))
  {
    hide Pending, Linked;
    var s', m := ProducerStep(s, p, 0), s.producers[p].m;
    InsideAlone(s, P(p));
    assert Owns(s, P(p), m);
    LinkedElsewhere(s.tasks, s.next, Pending(s.log), m, s.tasks);
    assert forall t, x :: Owns(s', t, x) <==> Owns(s, t, x);
  }

  /** The steps that touch neither the list nor any message. */
  predicate Aside(s: State, a: Action)
    requires Enabled(s, a)
  {
    match a
    case Spurious(_) => true
    case Run(C(c), _) => !s.consumers[c].Taking? && !s.consumers[c].Processing?
    case Run(P(p), _) => s.producers[p].Entering? || s.producers[p].Leaving? || s.producers[p].Broadcasting?
  }

  lemma AsideHolds(s: State, a: Action)
    requires Enabled(s, a) && Aside(s, a)
    ensures var s' := Step(s, a);
            && |s'.consumers| == |s.consumers| && |s'.producers| == |s.producers|
            && s'.log == s.log && s'.next == s.next && s'.tasks == s.tasks && s'.crashed == s.crashed
            && (forall i, m :: 0 <= i < |s.consumers| ==> (s'.consumers[i].Holds(m) <==> s.consumers[i].Holds(m)))
            && (forall i, m :: 0 <= i < |s.producers| ==> (s'.producers[i].Owns(m) <==> s.producers[i].Owns(m)))
  {
  }

  lemma AsideKeepsOwner(s: State, a: Action)
    requires OwnerInv(s) && BagInv(s) && Enabled(s, a) && Aside(s, a)
    ensures OwnerInv(Step(s, a)) && BagInv(Step(s, a))
  {
    hide Pending, Count, LastInFirstOut, Aside, Enabled, Step;
    AsideHolds(s, a);
    assert forall t, x :: Owns(Step(s, a), t, x) <==> Owns(s, t, x);
    assert forall x :: Held(Step(s, a).consumers, x) <==> Held(s.consumers, x);
  }

  lemma AsideKeepsList(s: State, a: Action)
    requires MutexInv(s) && ListInv(s) && Enabled(s, a) && Aside(s, a)
    ensures ListInv(Step(s, a))
  {
    hide Pending, Linked;
  }

  lemma WakeKept(s: State, a: Action)
    requires MutexInv(s) && ListInv(s) && WakeInv(s) && Enabled(s, a)
    ensures WakeInv(Step(s, a))
  {
    hide Pending, Linked, Count, Pushes, LastInFirstOut;
    var s' := Step(s, a);
    if s'.tasks.Some? && exists c: nat :: Sleeps(s', c) {
      var c: nat :| Sleeps(s', c);
      if s.tasks.None? {
        assert a.Run? && a.t.P? && Signals(s', a.t.p);
      } else {
        assert Sleeps(s, c);
        var p: nat :| Signals(s, p);
        assert Signals(s', p);
      }
    }
  }

  lemma StepKeepsInv(s: State, a: Action)
    requires Inv(s) && Enabled(s, a)
    ensures Inv(Step(s, a))
  {
    hide MutexInv, ListInv, OwnerInv, BagInv, WakeInv;
    MutexKept(s, a);
    WakeKept(s, a);
    if Aside(s, a) {
      AsideKeepsOwner(s, a);
      AsideKeepsList(s, a);
    } else if a.t.C? {
      if s.consumers[a.t.c].Taking? {
        TakeKeepsList(s, a.t.c);
        TakeKeepsOwner(s, a.t.c);
      } else {
        FreeKept(s, a.t.c);
      }
    } else if s.producers[a.t.p].Idle? {
      MallocKept(s, a.t.p, a.addr);
      IdleKeepsBag(s, a.t.p, a.addr);
    } else if s.producers[a.t.p].Linking? {
      LinkKept(s, a.t.p);
      IdleKeepsBag(s, a.t.p, a.addr);
    } else {
      PushKept(s, a.t.p);
    }
  }

  lemma IdleKeepsBag(s: State, p: nat, addr: Msg)
    requires BagInv(s) && Enabled(s, Run(P(p), addr)) && (s.producers[p].Idle? || s.producers[p].Linking?)
    ensures BagInv(ProducerStep(s, p, addr))
  {
  }

  // ----- memory -----

  lemma TakeKeepsMemory(s: State, c: nat)
    requires MutexInv(s) && ListInv(s) && MemoryInv(s) && Enabled(s, Run(C(c), 0)) && s.consumers[c].Taking?
    ensures MemoryInv(ConsumerStep(s, c))
  {
    hide Pending, Count, Pushes, LastInFirstOut, Linked;
    TakeKeepsList(s, c);
    var s', m := ConsumerStep(s, c), s.consumers[c].cur.value;
    hide MutexInv, ListInv;
    assert forall x :: x in Pending(s.log) <==> x == m || x in Pending(s'.log);
    assert Owns(s', C(c), m);
    assert forall t, x :: Owns(s', t, x) <==> Owns(s, t, x) || (t == C(c) && x == m);
  }

  lemma FreeKeepsMemory(s: State, c: nat)
    requires OwnerInv(s) && MemoryInv(s) && Enabled(s, Run(C(c), 0)) && s.consumers[c].Processing?
    ensures MemoryInv(ConsumerStep(s, c))
  {
    hide Pending, Count, Pushes, LastInFirstOut;
    var s', m := ConsumerStep(s, c), s.consumers[c].m;
    LogGrows(s.log, Freed(m));
    assert Owns(s, C(c), m);
    assert forall t, x :: Owns(s, t, x) <==> Owns(s', t, x) || (t == C(c) && x == m);
  }

  lemma ProducerKeepsMemory(s: State, p: nat, addr: Msg)
    requires Inv(s) && MemoryInv(s) && Enabled(s, Run(P(p), addr))
    requires s.producers[p].Idle? || s.producers[p].Linking? || s.producers[p].Pushing?
    ensures MemoryInv(ProducerStep(s, p, addr))
  {
    hide MutexInv, BagInv, WakeInv, ListInv, Pending, Count, Pushes, LastInFirstOut;
    var s' := ProducerStep(s, p, addr);
    match s.producers[p]
    case Idle(_) =>
      assert Owns(s', P(p), addr);
      assert forall t, x :: Owns(s', t, x) <==> Owns(s, t, x) || (t == P(p) && x == addr);
    case Linking(_, m) =>
      assert Owns(s, P(p), m);
      assert forall t, x :: Owns(s', t, x) <==> Owns(s, t, x);
    case Pushing(_, m) =>
      assert Owns(s, P(p), m);
      LogGrows(s.log, Pushed(m));
      assert forall t, x :: Owns(s, t, x) <==> Owns(s', t, x) || (t == P(p) && x == m);
  }

  lemma StepKeepsMemory(s: State, a: Action)
    requires Inv(s) && MemoryInv(s) && Enabled(s, a)
    ensures MemoryInv(Step(s, a))
  {
    hide MutexInv, ListInv, OwnerInv, BagInv, WakeInv, Pending;
    if Aside(s, a) {
      AsideHolds(s, a);
      hide Aside, Enabled, Step;
      assert forall t, x :: Owns(Step(s, a), t, x) <==> Owns(s, t, x);
    } else if a.t.C? {
      if s.consumers[a.t.c].Taking? {
        TakeKeepsMemory(s, a.t.c);
      } else {
        FreeKeepsMemory(s, a.t.c);
      }
    } else {
      ProducerKeepsMemory(s, a.t.p, a.addr);
    }
  }

  // ----- runs -----

  predicate Runs(s: State, run: seq<Action>)
    decreases |run|
  {
    run == [] || (Enabled(s, run[0]) && Runs(Step(s, run[0]), run[1..]))
  }

  function After(s: State, run: seq<Action>): State
    requires Runs(s, run)
    decreases |run|
  {
    if run == [] then s else After(Step(s, run[0]), run[1..])
  }

  lemma InitInv(consumers: nat, counts: seq<nat>)
    ensures Inv(Init(consumers, counts)) && MemoryInv(Init(consumers, counts))
  {
    var s := Init(consumers, counts);
    assert forall t, m :: !Owns(s, t, m);
    assert forall m :: !Held(s.consumers, m);
  }

  lemma ConsumerCounts(s: State, c: nat)
    requires Enabled(s, Run(C(c), 0))
    ensures var s' := ConsumerStep(s, c);
            && |s'.consumers| == |s.consumers| && s'.producers == s.producers
            && Pushes(s'.log) == Pushes(s.log)
  {
    hide Pushes, Count, Pending, LastInFirstOut;
    match s.consumers[c]
    case Taking(cur) =>
      if cur.Some? {
        LogGrows(s.log, Taken(cur.value));
      }
    case Processing(m) => LogGrows(s.log, Freed(m));
    case _ =>
  }

  lemma ProducerCounts(s: State, p: nat, addr: Msg)
    requires Enabled(s, Run(P(p), addr))
    ensures var s' := ProducerStep(s, p, addr);
            && |s'.consumers| == |s.consumers| && |s'.producers| == |s.producers|
            && Pushes(s'.log) + Sum(Unpushed(s'.producers)) == Pushes(s.log) + Sum(Unpushed(s.producers))
  {
    hide Pushes, Count, Pending, LastInFirstOut;
    var s' := ProducerStep(s, p, addr);
    if s.producers[p].Pushing? {
      LogGrows(s.log, Pushed(s.producers[p].m));
    }
    assert Unpushed(s'.producers) == Unpushed(s.producers)[p := s'.producers[p].Unpushed()];
    SumUpdate(Unpushed(s.producers), p, s'.producers[p].Unpushed());
  }

  /** The messages still to be pushed and those pushed add up. */
  lemma StepCounts(s: State, a: Action)
    requires Enabled(s, a)
    ensures var s' := Step(s, a);
            && |s'.consumers| == |s.consumers| && |s'.producers| == |s.producers|
            && Pushes(s'.log) + Sum(Unpushed(s'.producers)) == Pushes(s.log) + Sum(Unpushed(s.producers))
  {
    hide Pushes, ConsumerStep, ProducerStep, Unpushed;
    match a
    case Spurious(_) =>
    case Run(C(c), _) => ConsumerCounts(s, c);
    case Run(P(p), addr) => ProducerCounts(s, p, addr);
  }

  lemma {:induction false} RunKeepsInv(s: State, run: seq<Action>)
    requires Inv(s) && MemoryInv(s) && Runs(s, run)
    ensures var s' := After(s, run);
            && Inv(s') && MemoryInv(s')
            && |s'.consumers| == |s.consumers| && |s'.producers| == |s.producers|
            && Pushes(s'.log) + Sum(Unpushed(s'.producers)) == Pushes(s.log) + Sum(Unpushed(s.producers))
    decreases |run|
  {
    hide Inv, MemoryInv, Enabled, Step, Pushes, Unpushed;
    if run == [] {
    } else {
      StepKeepsInv(s, run[0]);
      StepKeepsMemory(s, run[0]);
      StepCounts(s, run[0]);
      RunKeepsInv(Step(s, run[0]), run[1..]);
    }
  }

  lemma Reachable(consumers: nat, counts: seq<nat>, run: seq<Action>)
    requires Runs(Init(consumers, counts), run)
    ensures var s := After(Init(consumers, counts), run);
            && Inv(s) && MemoryInv(s) && |s.consumers| == consumers && |s.producers| == |counts|
            && Pushes(s.log) + Sum(Unpushed(s.producers)) == Sum(counts)
  {
    InitInv(consumers, counts);
    RunKeepsInv(Init(consumers, counts), run);
    assert Unpushed(Init(consumers, counts).producers) == counts;
  }

  /** At most one thread is between a lock and the unlock. */
  ghost predicate Exclusive(s: State) {
    && (forall c, d :: 0 <= c < |s.consumers| && 0 <= d < |s.consumers| ==>
          (s.consumers[c].Inside() && s.consumers[d].Inside() ==> c == d))
    && (forall p, q :: 0 <= p < |s.producers| && 0 <= q < |s.producers| ==>
          (s.producers[p].Inside() && s.producers[q].Inside() ==> p == q))
    && (forall c, p :: 0 <= c < |s.consumers| && 0 <= p < |s.producers| ==>
          !(s.consumers[c].Inside() && s.producers[p].Inside()))
  }

  /** In every reachable state: nothing invalid is loaded from, stored to or freed; at
      most one thread is between a lock and the unlock; every take so far took the most
      recently pushed pending message; a push without its take belongs to a message that
      is pending, and a take without its free to one that is held; the allocated messages
      are those that are pending or owned; and none is both, or owned by two threads. */
  lemma SafeInEveryRun(consumers: nat, counts: seq<nat>, run: seq<Action>)
    requires Runs(Init(consumers, counts), run)
    ensures var s := After(Init(consumers, counts), run);
            && !s.crashed
            && Exclusive(s)
            && LastInFirstOut(s.log)
            && Conserved(s)
            && (forall m :: m in s.next <==> m in Pending(s.log) || exists t :: Owns(s, t, m))
            && (forall t, u, m :: Owns(s, t, m) && Owns(s, u, m) ==> t == u)
            && (forall t, m :: Owns(s, t, m) ==> m !in Pending(s.log))
  {
    Reachable(consumers, counts, run);
  }

  /** Nothing can happen but spurious wakeups. */
  ghost predicate Quiescent(s: State) {
    forall a :: Enabled(s, a) ==> a.Spurious?
  }

  lemma QuiescentThreads(s: State)
    requires Inv(s) && Quiescent(s)
    ensures forall c :: 0 <= c < |s.consumers| ==> s.consumers[c].Sleeping?
    ensures forall p :: 0 <= p < |s.producers| ==> s.producers[p] == Idle(0)
  {
    assert s.mutex.None? by {
      if s.mutex.Some? {
        assert Enabled(s, Run(s.mutex.value, 0));
      }
    }
    forall c | 0 <= c < |s.consumers|
      ensures s.consumers[c].Sleeping?
    {
      assert !Enabled(s, Run(C(c), 0));
    }
    var addr := Unused(s.next.Keys);
    forall p | 0 <= p < |s.producers|
      ensures s.producers[p] == Idle(0)
    {
      assert !Enabled(s, Run(P(p), addr));
    }
  }

  /** malloc can always find an address. */
  lemma {:induction false} Unused(used: set<Msg>) returns (addr: Msg)
    ensures addr !in used
  {
    addr := 0;
    while addr in used
      invariant forall m :: 0 <= m < addr ==> m in used
      decreases |used| - addr
    {
      Initial(used, addr);
      addr := addr + 1;
    }
  }

  lemma {:induction false} Initial(used: set<Msg>, n: nat)
    requires forall m :: 0 <= m < n ==> m in used
    requires n in used
    ensures n < |used|
  {
    var rest := used - {n};
    if n == 0 {
    } else {
      Initial(rest, n - 1);
    }
  }

  /** No wakeup is lost: if there is a consumer, then once nothing but spurious wakeups
      can happen every message of every producer has been pushed, taken and freed. */
  lemma QuiescentMeansDone(consumers: nat, counts: seq<nat>, run: seq<Action>)
    requires Runs(Init(consumers, counts), run) && consumers > 0
    requires Quiescent(After(Init(consumers, counts), run))
    ensures var s := After(Init(consumers, counts), run);
            && Pushes(s.log) == Sum(counts)
            && (forall m :: Count(s.log, Pushed(m)) == Count(s.log, Taken(m)) == Count(s.log, Freed(m)))
            && Pending(s.log) == [] && s.tasks == None && s.next == map[]
  {
    Reachable(consumers, counts, run);
    var s := After(Init(consumers, counts), run);
    hide Runs, After, Pushes, Count, Pending, Enabled, Step;
    QuiescentThreads(s);
    assert Sleeps(s, 0);
    assert forall p: nat :: !Signals(s, p);
    assert s.tasks == None && Pending(s.log) == [];
    SumZero(Unpushed(s.producers));
    assert forall m :: !Held(s.consumers, m);
    assert forall t, m :: !Owns(s, t, m);
  }

  lemma SpuriousWakes(s: State, d: nat, c: nat)
    requires Enabled(s, Spurious(d)) && c < |s.consumers|
    ensures var s' := Step(s, Spurious(d));
            |s'.consumers| == |s.consumers| && (Sleeps(s', c) <==> Sleeps(s, c) && c != d)
  {
  }

  lemma ConsumerSleeps(s: State, d: nat, addr: Msg, c: nat)
    requires Inv(s) && Enabled(s, Run(C(d), addr)) && c < |s.consumers|
    ensures var s' := Step(s, Run(C(d), addr));
            && |s'.consumers| == |s.consumers|
            && (Sleeps(s', c) <==> Sleeps(s, c) || (c == d && s.consumers[c].Testing? && Pending(s.log) == []))
  {
    hide Pending, MutexInv, OwnerInv, BagInv, WakeInv;
    assert s.tasks.None? <==> Pending(s.log) == [];
    hide ListInv;
  }

  lemma ProducerWakes(s: State, p: nat, addr: Msg, c: nat)
    requires Enabled(s, Run(P(p), addr)) && c < |s.consumers|
    ensures var s' := Step(s, Run(P(p), addr));
            && |s'.consumers| == |s.consumers| && p < |s.producers|
            && (Sleeps(s', c) <==> Sleeps(s, c) && !s.producers[p].Broadcasting?)
  {
  }

  /** A sleeping consumer wakes up exactly by a broadcast, whatever there is to do, or for
      no reason; and a consumer falls asleep exactly when it tests the condition and no
      message is pending. */
  lemma SleepsAndWakesExactly(consumers: nat, counts: seq<nat>, run: seq<Action>, a: Action, c: nat)
    requires Runs(Init(consumers, counts), run) && Enabled(After(Init(consumers, counts), run), a) && c < consumers
    ensures var s := After(Init(consumers, counts), run);
            var s' := Step(s, a);
            && |s.consumers| == |s'.consumers| == consumers
            && (Sleeps(s, c) ==>
                  (!Sleeps(s', c) <==>
                     a == Spurious(c)
                     || (a.Run? && a.t.P? && a.t.p < |s.producers| && s.producers[a.t.p].Broadcasting?)))
            && (!Sleeps(s, c) ==>
                  (Sleeps(s', c) <==>
                     a.Run? && a.t == C(c) && s.consumers[c].Testing? && Pending(s.log) == []))
  {
    Reachable(consumers, counts, run);
    var s := After(Init(consumers, counts), run);
    hide *;
    match a
    case Spurious(_) => SpuriousWakes(s, a.c, c);
    case Run(C(d), _) => ConsumerSleeps(s, d, a.addr, c);
    case Run(P(p), addr) => ProducerWakes(s, p, addr, c);
  }

  /** What can happen in any state that a run reaches: a sleeping consumer may wake up for
      no reason; any other thread can take its next step, whatever address malloc finds,
      unless it needs the mutex while a thread is inside, or is a producer that is done. */
  lemma OnlyTheMutexBlocks(consumers: nat, counts: seq<nat>, run: seq<Action>, addr: Msg)
    requires Runs(Init(consumers, counts), run)
    ensures var s := After(Init(consumers, counts), run);
            var free := (forall c :: 0 <= c < |s.consumers| ==> !s.consumers[c].Inside())
                        && forall p :: 0 <= p < |s.producers| ==> !s.producers[p].Inside();
            && (forall c :: 0 <= c < |s.consumers| && s.consumers[c].Sleeping? ==> Enabled(s, Spurious(c)))
            && (forall c :: 0 <= c < |s.consumers| && !s.consumers[c].Sleeping? ==>
                  (Enabled(s, Run(C(c), addr)) <==> free || (!s.consumers[c].Starting? && !s.consumers[c].Woken?)))
            && (forall p :: 0 <= p < |s.producers| && !s.producers[p].Idle? ==>
                  (Enabled(s, Run(P(p), addr)) <==> free || !s.producers[p].Entering?))
            && (forall p :: 0 <= p < |s.producers| && s.producers[p].Idle? && addr !in s.next ==>
                  (Enabled(s, Run(P(p), addr)) <==> s.producers[p].left > 0))
  {
    Reachable(consumers, counts, run);
    var s := After(Init(consumers, counts), run);
    hide Runs, After, ListInv, OwnerInv, BagInv, WakeInv, MemoryInv;
    if s.mutex.Some? {
      match s.mutex.value
      case C(c) => assert s.consumers[c].Inside();
      case P(p) => assert s.producers[p].Inside();
    }
  }

  // ----- how long a run can be -----

  function Works(producers: seq<Producer>): (r: seq<nat>)
    ensures |r| == |producers|
  {
    seq(|producers|, p requires 0 <= p < |producers| => producers[p].Work())
  }

  function Ranks(consumers: seq<Consumer>): (r: seq<nat>)
    ensures |r| == |consumers|
  {
    seq(|consumers|, c requires 0 <= c < |consumers| => consumers[c].Rank())
  }

  function Weight(s: State): nat {
    3 * |s.consumers| + 7
  }

  function Product(a: nat, b: nat): nat {
    a * b
  }

  lemma ProductStep(a: nat, b: nat)
    ensures Product(a, b + 1) == Product(a, b) + a
  {
  }

  /** Each step but a spurious wakeup lowers this. */
  function Measure(s: State): nat {
    Product(Weight(s), Sum(Works(s.producers))) + 6 * |Pending(s.log)| + Sum(Ranks(s.consumers))
  }

  lemma {:induction false} SumRises(a: seq<nat>, b: seq<nat>, d: nat)
    requires |a| == |b| && forall i :: 0 <= i < |a| ==> b[i] <= a[i] + d
    ensures Sum(b) <= Sum(a) + d * |a|
  {
    if a == [] {
    } else {
      SumRises(a[1..], b[1..], d);
      assert d * |a| == d * |a[1..]| + d;
    }
  }

  lemma ConsumerLowers(s: State, c: nat)
    requires ListInv(s) && OwnerInv(s) && Enabled(s, Run(C(c), 0))
    ensures Measure(ConsumerStep(s, c)) < Measure(s)
  {
    hide Pending, Count, Pushes, Linked, Product, LastInFirstOut;
    var s' := ConsumerStep(s, c);
    assert Ranks(s'.consumers) == Ranks(s.consumers)[c := s'.consumers[c].Rank()];
    SumUpdate(Ranks(s.consumers), c, s'.consumers[c].Rank());
    if s.consumers[c].Taking? {
      LinkedTail(s.tasks, s.next, Pending(s.log));
      LogGrows(s.log, Taken(s.consumers[c].cur.value));
    } else if s.consumers[c].Processing? {
      assert Owns(s, C(c), s.consumers[c].m);
      LogGrows(s.log, Freed(s.consumers[c].m));
    }
  }

  lemma ProducerLowers(s: State, p: nat, addr: Msg)
    requires OwnerInv(s) && Enabled(s, Run(P(p), addr))
    ensures Measure(ProducerStep(s, p, addr)) < Measure(s)
  {
    hide Pending, Count, Pushes, Product, LastInFirstOut;
    var s' := ProducerStep(s, p, addr);
    assert Works(s'.producers) == Works(s.producers)[p := s'.producers[p].Work()];
    SumUpdate(Works(s.producers), p, s'.producers[p].Work());
    ProductStep(Weight(s), Sum(Works(s'.producers)));
    if s.producers[p].Broadcasting? {
      SumRises(Ranks(s.consumers), Ranks(s'.consumers), 3);
    } else if s.producers[p].Linking? {
      assert Owns(s, P(p), s.producers[p].m);
    } else if s.producers[p].Pushing? {
      LogGrows(s.log, Pushed(s.producers[p].m));
    }
  }

  lemma SpuriousRaises(s: State, c: nat)
    requires Enabled(s, Spurious(c))
    ensures Measure(Step(s, Spurious(c))) == Measure(s) + 3
  {
    hide Pending, Count, Pushes;
    var s' := Step(s, Spurious(c));
    assert Ranks(s'.consumers) == Ranks(s.consumers)[c := 3];
    SumUpdate(Ranks(s.consumers), c, 3);
  }

  function SpuriousIn(run: seq<Action>): nat {
    if run == [] then 0 else (if run[0].Spurious? then 1 else 0) + SpuriousIn(run[1..])
  }

  /** Between spurious wakeups there are only so many steps: a run with `k` of them has
      at most Measure(start) + 4 * k steps, and goes on until it is quiescent. */
  lemma {:induction false} RunsAreBounded(s: State, run: seq<Action>)
    requires Inv(s) && Runs(s, run)
    ensures |run| + Measure(After(s, run)) <= Measure(s) + 4 * SpuriousIn(run)
    decreases |run|
  {
    hide Inv, Measure, Step, Enabled;
    if run == [] {
    } else {
      StepKeepsInv(s, run[0]);
      StepLowers(s, run[0]);
      RunsAreBounded(Step(s, run[0]), run[1..]);
    }
  }

  lemma StepLowers(s: State, a: Action)
    requires Inv(s) && Enabled(s, a)
    ensures if a.Spurious? then Measure(Step(s, a)) == Measure(s) + 3 else Measure(Step(s, a)) < Measure(s)
  {
    hide Measure, MutexInv, ListInv, OwnerInv, BagInv, WakeInv;
    match a
    case Spurious(c) => SpuriousRaises(s, c);
    case Run(C(c), _) => ConsumerLowers(s, c);
    case Run(P(p), addr) => ProducerLowers(s, p, addr);
  }

  lemma ProductIs(a: nat, b: nat)
    ensures Product(a, b) == a * b
  {
  }

  lemma InitMeasure(consumers: nat, counts: seq<nat>)
    ensures Measure(Init(consumers, counts)) == (3 * consumers + 7) * (6 * Sum(counts)) + 3 * consumers
  {
    hide Pending, Sum, Product;
    var s := Init(consumers, counts);
    SumScales(counts, Works(s.producers), 6);
    SumOfThrees(Ranks(s.consumers));
    NothingPending();
    ProductIs(3 * consumers + 7, 6 * Sum(counts));
  }

  lemma NothingPending()
    ensures Pending([]) == []
  {
  }

  /** From the start a run has at most (3 * consumers + 7) * 6 steps for each message,
      3 for each consumer and 4 for each spurious wakeup. */
  lemma RunsAreBoundedFromTheStart(consumers: nat, counts: seq<nat>, run: seq<Action>)
    requires Runs(Init(consumers, counts), run)
    ensures |run| <= (3 * consumers + 7) * (6 * Sum(counts)) + 3 * consumers + 4 * SpuriousIn(run)
  {
    hide Measure, Init, Inv, Runs, Sum;
    InitInv(consumers, counts);
    InitMeasure(consumers, counts);
    RunsAreBounded(Init(consumers, counts), run);
  }

  lemma {:induction false} SumScales(a: seq<nat>, b: seq<nat>, k: nat)
    requires |a| == |b| && forall i :: 0 <= i < |a| ==> b[i] == k * a[i]
    ensures Sum(b) == k * Sum(a)
  {
    if a == [] {
    } else {
      SumScales(a[1..], b[1..], k);
    }
  }

  lemma {:induction false} SumOfThrees(a: seq<nat>)
    requires forall i :: 0 <= i < |a| ==> a[i] == 3
    ensures Sum(a) == 3 * |a|
  {
    if a == [] {
    } else {
      SumOfThrees(a[1..]);
    }
  }

  lemma {:induction false} RunGoesOn(s: State, run: seq<Action>, a: Action)
    requires Runs(s, run) && Enabled(After(s, run), a)
    ensures Runs(s, run + [a]) && After(s, run + [a]) == Step(After(s, run), a)
    ensures SpuriousIn(run + [a]) == SpuriousIn(run) + (if a.Spurious? then 1 else 0)
    decreases |run|
  {
    hide Enabled, Step;
    if run == [] {
      assert [] + [a] == [a] && [a][1..] == [];
    } else {
      assert (run + [a])[1..] == run[1..] + [a];
      RunGoesOn(Step(s, run[0]), run[1..], a);
    }
  }

  /** However a run begins, it can go on without spurious wakeups until nothing but those
      can happen, when every message has been processed. */
  lemma {:induction false} EveryRunCanBeFinished(consumers: nat, counts: seq<nat>, run: seq<Action>)
    returns (more: seq<Action>)
    requires Runs(Init(consumers, counts), run)
    ensures Runs(Init(consumers, counts), run + more)
    ensures SpuriousIn(run + more) == SpuriousIn(run)
    ensures Quiescent(After(Init(consumers, counts), run + more))
    decreases (3 * consumers + 7) * (6 * Sum(counts)) + 3 * consumers + 4 * SpuriousIn(run) - |run|
  {
    hide Enabled, Init, Sum, SpuriousIn;
    if a :| Enabled(After(Init(consumers, counts), run), a) && !a.Spurious? {
      RunGoesOn(Init(consumers, counts), run, a);
      RunsAreBoundedFromTheStart(consumers, counts, run + [a]);
      more := EveryRunCanBeFinished(consumers, counts, run + [a]);
      assert run + [a] + more == run + ([a] + more);
      more := [a] + more;
    } else {
      more := [];
      assert run + [] == run;
    }
  }
}
