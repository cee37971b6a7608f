/** Threads that use the hash table of 11.threads/05_mutex.c.  Everything between a
    lock and its unlock is one step; what a thread does before and after it is a step
    of its own, so that other threads may run in between.  Objects are addresses, which
    malloc may hand out again once they are freed. */
module FooProtocol {
  import opened FooRegistry
  import opened Sequences

  type Obj = nat
  type Thread = nat

  /** What a thread is in the middle of: foo_alloc before the lock; foo_alloc after the
      unlock, about to use f_lock; foo_release after the unlock, about to free. */
  datatype Doing = Nothing | Linking(o: Obj, id: CInt) | Initialising(o: Obj) | Freeing(o: Obj)

  /** `held` counts for each object how often each thread holds it. */
  datatype State = State(live: Registry<Obj>, heap: set<Obj>, held: map<Obj, multiset<Thread>>, doing: seq<Doing>)

  datatype Action =
    | Malloc(t: Thread, o: Obj, id: CInt)
    | Link(t: Thread)
    | Initialise(t: Thread)
    | FindAndHold(t: Thread, id: CInt)
    | HandOver(t: Thread, u: Thread, o: Obj)
    | Drop(t: Thread, o: Obj)
    | Free(t: Thread)

  function Init(threads: nat): State {
    State([], {}, map[], seq(threads, _ => Nothing))
  }

  function Holders(s: State, o: Obj): multiset<Thread> {
    if o in s.held then s.held[o] else multiset{}
  }

  /** A thread releases or hands over only what it holds. */
  predicate Enabled(s: State, a: Action) {
    a.t < |s.doing| &&
    match a
    case Malloc(t, o, id) => s.doing[t].Nothing? && o !in s.heap
    case Link(t) => s.doing[t].Linking?
    case Initialise(t) => s.doing[t].Initialising?
    case FindAndHold(t, id) => s.doing[t].Nothing?
    case HandOver(t, u, o) => s.doing[t].Nothing? && t in Holders(s, o) && u < |s.doing|
    case Drop(t, o) => s.doing[t].Nothing? && t in Holders(s, o)
    case Free(t) => s.doing[t].Freeing?
  }

  function Step(s: State, a: Action): State
    requires Enabled(s, a)
  {
    match a
    case Malloc(t, o, id) =>
      s.(heap := s.heap + {o}, doing := s.doing[t := Linking(o, id)])
    case Link(t) =>
      var o := s.doing[t].o;
      s.(live := Alloc(s.live, o, s.doing[t].id), held := s.held[o := multiset{t}],
         doing := s.doing[t := Initialising(o)])
    case Initialise(t) =>
      s.(doing := s.doing[t := Nothing])
    case FindAndHold(t, id) =>
      var i := Newest(s.live, id);
      if i == |s.live| then s
      else
        var o := s.live[i].obj;
        s.(live := Find(s.live, id), held := s.held[o := Holders(s, o) + multiset{t}])
    case HandOver(t, u, o) =>
      s.(held := s.held[o := Holders(s, o) - multiset{t} + multiset{u}])
    case Drop(t, o) =>
      var i := Where(s.live, o);
      var last := i < |s.live| && s.live[i].refs == 1;
      s.(live := Release(s.live, o), held := s.held[o := Holders(s, o) - multiset{t}],
         doing := if last then s.doing[t := Freeing(o)] else s.doing)
    case Free(t) =>
      s.(heap := s.heap - {s.doing[t].o}, doing := s.doing[t := Nothing])
  }

  /** The addresses that a step reads or writes. */
  function Touched(s: State, a: Action): set<Obj>
    requires Enabled(s, a)
  {
    match a
    case Malloc(t, o, id) => {}
    case Link(t) => {s.doing[t].o}
    case Initialise(t) => {s.doing[t].o}
    case FindAndHold(t, id) => set i | 0 <= i < |s.live| :: s.live[i].obj
    case HandOver(t, u, o) => {}
    case Drop(t, o) => {o} + set i | 0 <= i < |s.live| :: s.live[i].obj
    case Free(t) => {s.doing[t].o}
  }

  lemma HasWhere(live: Registry<Obj>, o: Obj)
    ensures Has(live, o) <==> Where(live, o) < |live|
  {
  }

  lemma HasAlloc(live: Registry<Obj>, o: Obj, id: CInt)
    ensures forall p :: Has(Alloc(live, o, id), p) <==> p == o || Has(live, p)
  {
    var after := Alloc(live, o, id);
    forall p
      ensures Has(after, p) <==> p == o || Has(live, p)
    {
      assert after[0].obj == o;
      if i :| 0 <= i < |live| && live[i].obj == p {
        assert after[i + 1].obj == p;
      }
    }
  }

  /** What a step may see: all of a state but the counts and ids of other objects. */
  ghost predicate AgreeOn(s: State, z: State, objects: set<Obj>) {
    && s.heap == z.heap && s.held == z.held && s.doing == z.doing && |s.live| == |z.live|
    && forall i :: 0 <= i < |s.live| ==>
         s.live[i].obj == z.live[i].obj && (s.live[i].obj in objects ==> s.live[i] == z.live[i])
  }

  /** A step neither depends on an object outside those it touches nor changes one:
      states that agree on them still do afterwards, and every other object is linked and
      allocated as before, with the same count, unless the step is its malloc. */
  lemma OnlyTouchedMatters(s: State, z: State, a: Action, p: Obj)
    requires Enabled(s, a) && AgreeOn(s, z, Touched(s, a))
    requires p !in Touched(s, a)
    ensures Enabled(z, a) && AgreeOn(Step(s, a), Step(z, a), Touched(s, a))
    ensures Has(Step(s, a).live, p) <==> Has(s.live, p)
    ensures Has(s.live, p) ==>
              Step(s, a).live[Where(Step(s, a).live, p)] == s.live[Where(s.live, p)]
    ensures !(a.Malloc? && a.o == p) ==> (p in Step(s, a).heap <==> p in s.heap)
  {
    match a
    case Link(t) => LinkTouches(s, z, t, p);
    case FindAndHold(t, id) => AllTouched(s, z, a, p);
    case Drop(t, o) => AllTouched(s, z, a, p);
    case _ =>
  }

  lemma LinkTouches(s: State, z: State, t: Thread, p: Obj)
    requires Enabled(s, Link(t)) && AgreeOn(s, z, Touched(s, Link(t))) && p !in Touched(s, Link(t))
    ensures AgreeOn(Step(s, Link(t)), Step(z, Link(t)), Touched(s, Link(t)))
    ensures var s' := Step(s, Link(t));
            && (Has(s'.live, p) <==> Has(s.live, p))
            && (Has(s.live, p) ==> s'.live[Where(s'.live, p)] == s.live[Where(s.live, p)])
  {
    var o := s.doing[t].o;
    HasAlloc(s.live, o, s.doing[t].id);
    HasWhere(s.live, p);
    assert Alloc(s.live, o, s.doing[t].id)[1..] == s.live;
  }

  lemma AllTouched(s: State, z: State, a: Action, p: Obj)
    requires Enabled(s, a) && (a.FindAndHold? || a.Drop?)
    requires AgreeOn(s, z, Touched(s, a)) && p !in Touched(s, a)
    ensures AgreeOn(Step(s, a), Step(z, a), Touched(s, a))
    ensures !Has(s.live, p) && !Has(Step(s, a).live, p)
  {
    assert forall i :: 0 <= i < |s.live| ==> s.live[i].obj in Touched(s, a);
    assert s.live == z.live && s == z;
    var s' := Step(s, a);
    hide AgreeOn, Touched, Enabled;
    forall i | 0 <= i < |s'.live|
      ensures s'.live[i].obj != p
    {
      if |s'.live| < |s.live| {
        var w := Where(s.live, a.o);
        assert s'.live[i] == s.live[if i < w then i else i + 1];
      } else {
        assert s'.live[i].obj == s.live[i].obj;
      }
    }
  }

  // ----- what every step keeps -----

  /** The thread alone knows the object: it is not yet linked, or no longer. */
  predicate Private(s: State, t: Thread, o: Obj) {
    t < |s.doing| && (s.doing[t].Linking? || s.doing[t].Freeing?) && s.doing[t].o == o
  }

  /** The counts match, and every live object is held. */
  ghost predicate CountsInv(s: State) {
    && Distinct(s.live)
    && (forall i :: 0 <= i < |s.live| ==>
          s.live[i].obj in s.heap && s.live[i].refs == |Holders(s, s.live[i].obj)| >= 1)
    && (forall o :: Holders(s, o) != multiset{} ==> Has(s.live, o))
  }

  ghost predicate PrivateInv(s: State) {
    && (forall t, o :: Private(s, t, o) ==> o in s.heap && !Has(s.live, o))
    && (forall t, u, o :: Private(s, t, o) && Private(s, u, o) ==> t == u)
    && (forall t :: 0 <= t < |s.doing| && s.doing[t].Initialising? ==> t in Holders(s, s.doing[t].o))
  }

  /** Allocated memory is exactly what is linked or known to one thread alone. */
  ghost predicate HeapInv(s: State) {
    forall o :: o in s.heap <==> Has(s.live, o) || exists t :: Private(s, t, o)
  }

  ghost predicate HolderInv(s: State) {
    forall o, t :: t in Holders(s, o) ==> t < |s.doing|
  }

  ghost predicate Inv(s: State) {
    CountsInv(s) && PrivateInv(s)
  }

  lemma HasRecount(live: Registry<Obj>, i: nat, refs: int)
    requires i < |live|
    ensures forall p :: Has(live[i := live[i].(refs := refs)], p) <==> Has(live, p)
  {
    var after := live[i := live[i].(refs := refs)];
    assert forall j :: 0 <= j < |live| ==> after[j].obj == live[j].obj;
  }

  lemma HasWithout(live: Registry<Obj>, i: nat)
    requires i < |live| && Distinct(live)
    ensures Distinct(Without(live, i))
    ensures forall p :: Has(Without(live, i), p) <==> p != live[i].obj && Has(live, p)
  {
    var after := Without(live, i);
    forall p
      ensures Has(after, p) <==> p != live[i].obj && Has(live, p)
    {
      if j :| 0 <= j < |live| && live[j].obj == p && j != i {
        assert after[if j < i then j else j - 1].obj == p;
      }
    }
  }

  lemma LinkKeepsCounts(s: State, t: Thread)
    requires Inv(s) && Enabled(s, Link(t))
    ensures CountsInv(Step(s, Link(t)))
  {
    var s', o := Step(s, Link(t)), s.doing[t].o;
    assert Private(s, t, o);
    HasAlloc(s.live, o, s.doing[t].id);
    hide PrivateInv, Holders, Private;
    HoldersAfterLink(s, t);
    forall i | 0 <= i < |s'.live|
      ensures s'.live[i].obj in s'.heap && s'.live[i].refs == |Holders(s', s'.live[i].obj)| >= 1
      ensures i > 0 ==> s'.live[i].obj != o
    {
      if i > 0 {
        assert s'.live[i] == s.live[i - 1] && Has(s.live, s.live[i - 1].obj);
      }
    }
  }

  lemma HoldersAfterLink(s: State, t: Thread)
    requires Enabled(s, Link(t))
    ensures var s', o := Step(s, Link(t)), s.doing[t].o;
            Holders(s', o) == multiset{t} && forall p :: p != o ==> Holders(s', p) == Holders(s, p)
  {
  }

  lemma LinkKeepsPrivate(s: State, t: Thread)
    requires Inv(s) && Enabled(s, Link(t))
    ensures PrivateInv(Step(s, Link(t)))
  {
    hide Has, Distinct;
    var s', o := Step(s, Link(t)), s.doing[t].o;
    assert Private(s, t, o);
    HasAlloc(s.live, o, s.doing[t].id);
    assert forall p :: p != o ==> Holders(s', p) == Holders(s, p);
    assert forall u, p :: Private(s', u, p) ==> Private(s, u, p) && u != t;
  }

  lemma LinkKeepsInv(s: State, t: Thread)
    requires Inv(s) && Enabled(s, Link(t))
    ensures Inv(Step(s, Link(t)))
  {
    hide Step, Enabled, CountsInv, PrivateInv;
    LinkKeepsCounts(s, t);
    LinkKeepsPrivate(s, t);
  }

  /** The holders of one live object change, and its count with them. */
  lemma Recounted(s: State, s': State, i: nat)
    requires CountsInv(s) && PrivateInv(s) && i < |s.live|
    requires s' == s.(live := s'.live, held := s'.held)
    requires var o := s.live[i].obj;
             && s'.live == s.live[i := s.live[i].(refs := |Holders(s', o)|)] && |Holders(s', o)| >= 1
             && (forall p :: p != o ==> Holders(s', p) == Holders(s, p))
             && (forall u :: 0 <= u < |s.doing| && s.doing[u] == Initialising(o) ==> u in Holders(s', o))
    ensures Inv(s')
  {
    HasRecount(s.live, i, |Holders(s', s.live[i].obj)|);
    assert forall j :: 0 <= j < |s.live| ==> s'.live[j].obj == s.live[j].obj;
    assert Has(s.live, s.live[i].obj);
    assert forall u, p :: Private(s', u, p) <==> Private(s, u, p);
  }

  lemma FindKeepsInv(s: State, t: Thread, id: CInt)
    requires Inv(s) && Enabled(s, FindAndHold(t, id))
    ensures Inv(Step(s, FindAndHold(t, id)))
  {
    var s', i := Step(s, FindAndHold(t, id)), Newest(s.live, id);
    if i < |s.live| {
      hide PrivateInv, Distinct, Has;
      Recounted(s, s', i);
    }
  }

  lemma HandOverKeepsInv(s: State, t: Thread, u: Thread, o: Obj)
    requires Inv(s) && Enabled(s, HandOver(t, u, o))
    ensures Inv(Step(s, HandOver(t, u, o)))
  {
    var s' := Step(s, HandOver(t, u, o));
    assert |Holders(s', o)| == |Holders(s, o)|;
    HasWhere(s.live, o);
    Recounted(s, s', Where(s.live, o));
  }

  lemma UnlinkedCounts(s: State, s': State, i: nat)
    requires CountsInv(s) && i < |s.live|
    requires s'.live == Without(s.live, i) && s'.heap == s.heap
    requires Holders(s', s.live[i].obj) == multiset{}
    requires forall p :: p != s.live[i].obj ==> Holders(s', p) == Holders(s, p)
    ensures CountsInv(s')
  {
    HasWithout(s.live, i);
    forall j | 0 <= j < |s'.live|
      ensures s'.live[j].obj in s'.heap && s'.live[j].refs == |Holders(s', s'.live[j].obj)| >= 1
    {
      var k := if j < i then j else j + 1;
      assert s'.live[j] == s.live[k] && s.live[k].obj != s.live[i].obj;
    }
  }

  lemma UnlinkedPrivate(s: State, s': State, t: Thread, o: Obj)
    requires PrivateInv(s) && Has(s.live, o) && o in s.heap
    requires t < |s.doing| && s.doing[t] == Nothing && s'.doing == s.doing[t := Freeing(o)] && s'.heap == s.heap
    requires forall p :: Has(s'.live, p) <==> p != o && Has(s.live, p)
    requires forall p :: p != o ==> Holders(s', p) == Holders(s, p)
    requires forall u :: u in Holders(s, o) ==> u == t
    ensures PrivateInv(s')
  {
    hide Has, Holders;
    assert forall u, p :: Private(s', u, p) ==> Private(s, u, p) || (u == t && p == o);
  }

  lemma LastDropKeepsInv(s: State, t: Thread, o: Obj)
    requires Inv(s) && Enabled(s, Drop(t, o)) && Has(s.live, o) && s.live[Where(s.live, o)].refs == 1
    ensures Inv(Step(s, Drop(t, o)))
  {
    hide Where, PrivateInv, Distinct;
    HasWhere(s.live, o);
    var s', i, h := Step(s, Drop(t, o)), Where(s.live, o), Holders(s, o);
    OnlyHolder(h, t);
    HasWithout(s.live, i);
    UnlinkedCounts(s, s', i);
    UnlinkedPrivate(s, s', t, o);
  }

  lemma OnlyHolder(h: multiset<Thread>, t: Thread)
    requires |h| == 1 && t in h
    ensures (forall u :: u in h ==> u == t) && h - multiset{t} == multiset{}
  {
    assert h == multiset{t} + (h - multiset{t});
  }

  lemma DropKeepsInv(s: State, t: Thread, o: Obj)
    requires Inv(s) && Enabled(s, Drop(t, o))
    ensures Inv(Step(s, Drop(t, o)))
  {
    hide PrivateInv, Distinct;
    HasWhere(s.live, o);
    var s', i, h := Step(s, Drop(t, o)), Where(s.live, o), Holders(s, o);
    if s.live[i].refs == 1 {
      LastDropKeepsInv(s, t, o);
    } else {
      assert |h - multiset{t}| == |h| - 1;
      assert forall u :: u in h && u != t ==> u in h - multiset{t};
      StillInitialising(s, o);
      Recounted(s, s', i);
    }
  }

  lemma StillInitialising(s: State, o: Obj)
    requires PrivateInv(s)
    ensures forall u :: 0 <= u < |s.doing| && s.doing[u] == Initialising(o) ==> u in Holders(s, o)
  {
  }

  lemma MallocKeepsInv(s: State, t: Thread, o: Obj, id: CInt)
    requires Inv(s) && Enabled(s, Malloc(t, o, id))
    ensures Inv(Step(s, Malloc(t, o, id)))
  {
    var s' := Step(s, Malloc(t, o, id));
    assert !Has(s.live, o);
    hide Has;
    assert forall p :: Holders(s', p) == Holders(s, p);
    assert forall u, p :: Private(s', u, p) ==> Private(s, u, p) || (u == t && p == o);
  }

  lemma OwnStepKeepsInv(s: State, a: Action)
    requires Inv(s) && Enabled(s, a) && (a.Initialise? || a.Free?)
    ensures Inv(Step(s, a))
  {
    var s' := Step(s, a);
    if a.Free? {
      assert Private(s, a.t, s.doing[a.t].o);
      assert forall i :: 0 <= i < |s.live| ==> Has(s.live, s.live[i].obj);
    }
    hide Has, Distinct;
    assert forall p :: Holders(s', p) == Holders(s, p);
    assert forall u, p :: Private(s', u, p) ==> Private(s, u, p) && u != a.t;
  }

  lemma StepKeepsInv(s: State, a: Action)
    requires Inv(s) && Enabled(s, a)
    ensures Inv(Step(s, a))
  {
    hide Inv, Step;
    match a
    case Malloc(t, o, id) => MallocKeepsInv(s, t, o, id);
    case Link(t) => LinkKeepsInv(s, t);
    case FindAndHold(t, id) => FindKeepsInv(s, t, id);
    case HandOver(t, u, o) => HandOverKeepsInv(s, t, u, o);
    case Drop(t, o) => DropKeepsInv(s, t, o);
    case _ => OwnStepKeepsInv(s, a);
  }

  // ----- who holds what -----

  /** How many references to the object the step gives to thread `u`: its own allocation,
      what it finds, and what is handed to it. */
  function Gained(s: State, a: Action, u: Thread, o: Obj): nat
    requires Enabled(s, a)
  {
    match a
    case Link(t) => if t == u && s.doing[t].o == o then 1 else 0
    case FindAndHold(t, id) =>
      var i := Newest(s.live, id);
      if t == u && i < |s.live| && s.live[i].obj == o then 1 else 0
    case HandOver(_, v, p) => if v == u && p == o then 1 else 0
    case _ => 0
  }

  /** How many it takes away: what thread `u` hands on or releases. */
  function Lost(a: Action, u: Thread, o: Obj): nat {
    if (a.HandOver? || a.Drop?) && a.t == u && a.o == o then 1 else 0
  }

  lemma Moved(h: multiset<Thread>, t: Thread, v: Thread, u: Thread)
    requires t in h
    ensures (h - multiset{t})[u] == h[u] - (if t == u then 1 else 0)
    ensures (h - multiset{t} + multiset{v})[u] == h[u] - (if t == u then 1 else 0) + (if v == u then 1 else 0)
  {
  }

  lemma NotHeldBeforeLink(s: State, t: Thread)
    requires Inv(s) && Enabled(s, Link(t))
    ensures Holders(s, s.doing[t].o) == multiset{}
  {
    assert Private(s, t, s.doing[t].o);
  }

  lemma FindBalances(s: State, t: Thread, id: CInt, u: Thread, o: Obj)
    requires Enabled(s, FindAndHold(t, id))
    ensures var a := FindAndHold(t, id);
            Holders(Step(s, a), o)[u] + Lost(a, u, o) == Holders(s, o)[u] + Gained(s, a, u, o)
  {
    hide Newest, Find, Release, Where;
  }

  lemma HandOverBalances(s: State, t: Thread, v: Thread, p: Obj, u: Thread, o: Obj)
    requires Enabled(s, HandOver(t, v, p))
    ensures var a := HandOver(t, v, p);
            Holders(Step(s, a), o)[u] + Lost(a, u, o) == Holders(s, o)[u] + Gained(s, a, u, o)
  {
    hide Newest, Find, Release, Where;
    Moved(Holders(s, p), t, v, u);
  }

  lemma DropBalances(s: State, t: Thread, p: Obj, u: Thread, o: Obj)
    requires Enabled(s, Drop(t, p))
    ensures var a := Drop(t, p);
            Holders(Step(s, a), o)[u] + Lost(a, u, o) == Holders(s, o)[u] + Gained(s, a, u, o)
  {
    hide Newest, Find, Release, Where;
    Moved(Holders(s, p), t, t, u);
  }

  lemma StepBalances(s: State, a: Action, u: Thread, o: Obj)
    requires Inv(s) && Enabled(s, a)
    ensures Holders(Step(s, a), o)[u] + Lost(a, u, o) == Holders(s, o)[u] + Gained(s, a, u, o)
  {
    hide Inv, Newest, Find, Release, Alloc, Where;
    if a.FindAndHold? {
      FindBalances(s, a.t, a.id, u, o);
    } else if a.HandOver? {
      HandOverBalances(s, a.t, a.u, a.o, u, o);
    } else if a.Drop? {
      DropBalances(s, a.t, a.o, u, o);
    } else if a.Link? {
      NotHeldBeforeLink(s, a.t);
    } else {
      assert Step(s, a).held == s.held;
    }
  }

  // ----- memory -----

  lemma MallocKeepsHeap(s: State, t: Thread, o: Obj, id: CInt)
    requires HeapInv(s) && Enabled(s, Malloc(t, o, id))
    ensures HeapInv(Step(s, Malloc(t, o, id)))
  {
    hide Has;
    var s' := Step(s, Malloc(t, o, id));
    assert Private(s', t, o);
    assert forall u, p :: Private(s', u, p) <==> Private(s, u, p) || (u == t && p == o);
  }

  lemma LinkKeepsHeap(s: State, t: Thread)
    requires HeapInv(s) && Enabled(s, Link(t))
    ensures HeapInv(Step(s, Link(t)))
  {
    var s', o := Step(s, Link(t)), s.doing[t].o;
    HasAlloc(s.live, o, s.doing[t].id);
    hide Has;
    assert Private(s, t, o);
    assert forall u, p :: Private(s, u, p) <==> Private(s', u, p) || (u == t && p == o);
  }

  lemma FreeKeepsHeap(s: State, t: Thread)
    requires Inv(s) && HeapInv(s) && Enabled(s, Free(t))
    ensures HeapInv(Step(s, Free(t)))
  {
    hide Has;
    var s', o := Step(s, Free(t)), s.doing[t].o;
    assert Private(s, t, o);
    assert forall u, p :: Private(s, u, p) <==> Private(s', u, p) || (u == t && p == o);
  }

  lemma DropKeepsHeap(s: State, t: Thread, o: Obj)
    requires Inv(s) && HeapInv(s) && Enabled(s, Drop(t, o))
    ensures HeapInv(Step(s, Drop(t, o)))
  {
    hide PrivateInv, Where;
    HasWhere(s.live, o);
    var s', i := Step(s, Drop(t, o)), Where(s.live, o);
    if s.live[i].refs == 1 {
      HasWithout(s.live, i);
      assert Private(s', t, o);
      hide Has;
      assert forall u, p :: Private(s', u, p) <==> Private(s, u, p) || (u == t && p == o);
    } else {
      HasRecount(s.live, i, s.live[i].refs - 1);
      hide Has;
      assert forall u, p :: Private(s', u, p) <==> Private(s, u, p);
    }
  }

  lemma FindKeepsHeap(s: State, t: Thread, id: CInt)
    requires HeapInv(s) && Enabled(s, FindAndHold(t, id))
    ensures HeapInv(Step(s, FindAndHold(t, id)))
  {
    var s', i := Step(s, FindAndHold(t, id)), Newest(s.live, id);
    if i < |s.live| {
      HasRecount(s.live, i, s.live[i].refs + 1);
    }
    hide Has;
    assert forall u, p :: Private(s', u, p) <==> Private(s, u, p);
  }

  lemma StepKeepsHeap(s: State, a: Action)
    requires Inv(s) && HeapInv(s) && Enabled(s, a)
    ensures HeapInv(Step(s, a))
  {
    hide Inv, Has;
    match a
    case Malloc(t, o, id) => MallocKeepsHeap(s, t, o, id);
    case Link(t) => LinkKeepsHeap(s, t);
    case FindAndHold(t, id) => FindKeepsHeap(s, t, id);
    case Drop(t, o) => DropKeepsHeap(s, t, o);
    case Free(t) => FreeKeepsHeap(s, t);
    case _ => assert forall u, p :: Private(Step(s, a), u, p) <==> Private(s, u, p);
  }

  lemma StepKeepsHolders(s: State, a: Action)
    requires Inv(s) && HolderInv(s) && Enabled(s, a)
    ensures HolderInv(Step(s, a))
  {
    var s' := Step(s, a);
    SameThreads(s, a);
    hide Step, Inv, Holders;
    forall o, t | t in Holders(s', o)
      ensures t < |s'.doing|
    {
      StepBalances(s, a, t, o);
      assert t in Holders(s, o) || Gained(s, a, t, o) == 1;
    }
  }

  lemma SameThreads(s: State, a: Action)
    requires Enabled(s, a)
    ensures |Step(s, a).doing| == |s.doing|
  {
  }

  // ----- runs -----

  predicate Runs(s: State, run: seq<Action>)
    decreases |run|
  {
    run == [] || (Enabled(s, run[0]) && Runs(Step(s, run[0]), run[1..]))
  }

  function After(s: State, run: seq<Action>): State
    requires Runs(s, run)
    decreases |run|
  {
    if run == [] then s else After(Step(s, run[0]), run[1..])
  }

  lemma {:induction false} RunKeepsInv(s: State, run: seq<Action>)
    requires Inv(s) && HeapInv(s) && HolderInv(s) && Runs(s, run)
    ensures Inv(After(s, run)) && HeapInv(After(s, run)) && HolderInv(After(s, run))
    decreases |run|
  {
    hide Inv, HeapInv, HolderInv, Enabled, Step;
    if run == [] {
    } else {
      StepKeepsInv(s, run[0]);
      StepKeepsHeap(s, run[0]);
      StepKeepsHolders(s, run[0]);
      RunKeepsInv(Step(s, run[0]), run[1..]);
    }
  }

  lemma Reachable(threads: nat, run: seq<Action>)
    requires Runs(Init(threads), run)
    ensures var s := After(Init(threads), run);
            Inv(s) && HeapInv(s) && HolderInv(s)
  {
    RunKeepsInv(Init(threads), run);
  }

  /** In every reachable state each linked object's count is the number of its holders,
      and exactly the objects that are held are linked. */
  lemma CountsAreHolders(threads: nat, run: seq<Action>, o: Obj)
    requires Runs(Init(threads), run)
    ensures var s := After(Init(threads), run);
            && (Has(s.live, o) <==> Holders(s, o) != multiset{})
            && (Has(s.live, o) ==> s.live[Where(s.live, o)].refs == |Holders(s, o)|)
  {
    Reachable(threads, run);
    var s := After(Init(threads), run);
    HasWhere(s.live, o);
  }

  /** In every run the allocated objects are those that are linked and those that one
      thread is about to link or to free: nothing leaks, and nothing is freed too early. */
  lemma AllocatedExactly(threads: nat, run: seq<Action>, o: Obj)
    requires Runs(Init(threads), run)
    ensures var s := After(Init(threads), run);
            o in s.heap <==> Has(s.live, o) || exists t :: Private(s, t, o)
  {
    Reachable(threads, run);
  }

  function GainedIn(s: State, run: seq<Action>, u: Thread, o: Obj): nat
    requires Runs(s, run)
    decreases |run|
  {
    if run == [] then 0 else Gained(s, run[0], u, o) + GainedIn(Step(s, run[0]), run[1..], u, o)
  }

  function LostIn(run: seq<Action>, u: Thread, o: Obj): nat {
    if run == [] then 0 else Lost(run[0], u, o) + LostIn(run[1..], u, o)
  }

  lemma {:induction false} RunBalances(s: State, run: seq<Action>, u: Thread, o: Obj)
    requires Inv(s) && HeapInv(s) && HolderInv(s) && Runs(s, run)
    ensures Holders(After(s, run), o)[u] + LostIn(run, u, o) == Holders(s, o)[u] + GainedIn(s, run, u, o)
    decreases |run|
  {
    hide Inv, HeapInv, HolderInv, Enabled, Step, Holders, Gained, Lost;
    if run == [] {
    } else {
      StepBalances(s, run[0], u, o);
      StepKeepsInv(s, run[0]);
      StepKeepsHeap(s, run[0]);
      StepKeepsHolders(s, run[0]);
      RunBalances(Step(s, run[0]), run[1..], u, o);
    }
  }

  /** In every run a thread holds an object as often as it has allocated, found or been
      handed it, less what it has handed on or released. */
  lemma HoldingsBalance(threads: nat, run: seq<Action>, u: Thread, o: Obj)
    requires Runs(Init(threads), run)
    ensures Holders(After(Init(threads), run), o)[u] ==
            GainedIn(Init(threads), run, u, o) - LostIn(run, u, o)
  {
    Reachable(threads, []);
    RunBalances(Init(threads), run, u, o);
  }

  /** No step touches an object that has been freed. */
  lemma OnlyAllocatedIsTouched(threads: nat, run: seq<Action>, a: Action)
    requires Runs(Init(threads), run) && Enabled(After(Init(threads), run), a)
    ensures Touched(After(Init(threads), run), a) <= After(Init(threads), run).heap
  {
    Reachable(threads, run);
    var s := After(Init(threads), run);
    match a
    case Link(t) => assert Private(s, t, s.doing[t].o);
    case Free(t) => assert Private(s, t, s.doing[t].o);
    case Initialise(t) => assert Has(s.live, s.doing[t].o);
    case Drop(t, o) => assert Has(s.live, o);
    case _ =>
  }

  /** When a thread is about to free an object no other thread can come to it: it is not
      in the table, nobody holds it and nobody else is in the middle of using it. */
  lemma NobodyReachesAtFree(threads: nat, run: seq<Action>, t: Thread, o: Obj)
    requires Runs(Init(threads), run)
    requires var s := After(Init(threads), run); t < |s.doing| && s.doing[t] == Freeing(o)
    ensures var s := After(Init(threads), run);
            && !Has(s.live, o) && Holders(s, o) == multiset{}
            && forall u :: 0 <= u < |s.doing| && u != t ==> s.doing[u].Nothing? || s.doing[u].o != o
  {
    Reachable(threads, run);
    var s := After(Init(threads), run);
    assert Private(s, t, o);
    forall u | 0 <= u < |s.doing| && u != t && !s.doing[u].Nothing?
      ensures s.doing[u].o != o
    {
      if s.doing[u].Initialising? {
        assert s.doing[u].o == o ==> Has(s.live, o);
      } else {
        assert Private(s, u, s.doing[u].o);
      }
    }
  }

  /** A release unlinks its object, and nothing else, exactly when its thread was the
      only holder; the thread then frees that object next. */
  lemma UnlinkedExactlyByTheLastHolder(threads: nat, run: seq<Action>, t: Thread, o: Obj)
    requires Runs(Init(threads), run) && Enabled(After(Init(threads), run), Drop(t, o))
    ensures var s := After(Init(threads), run);
            var s' := Step(s, Drop(t, o));
            && (Holders(s, o) == multiset{t} <==> !Has(s'.live, o))
            && (!Has(s'.live, o) <==> s'.doing[t] == Freeing(o))
            && (forall p :: p != o ==> (Has(s'.live, p) <==> Has(s.live, p)))
  {
    Reachable(threads, run);
    var s := After(Init(threads), run);
    var h := Holders(s, o);
    HasWhere(s.live, o);
    var i := Where(s.live, o);
    assert h == multiset{t} + (h - multiset{t});
    if s.live[i].refs == 1 {
      HasWithout(s.live, i);
      assert |h - multiset{t}| == 0;
    } else {
      HasRecount(s.live, i, s.live[i].refs - 1);
      assert |h| != |multiset{t}|;
    }
  }

  // ----- what one thread can do -----

  ghost predicate SameForAll(s: State, z: State) {
    && z.live == s.live && z.heap == s.heap && z.doing == s.doing
    && forall o :: Holders(z, o) == Holders(s, o)
  }

  /** A thread between two calls can allocate an object at any free address, which makes
      it the newest with that id and held once, and can then release it, which puts
      everything back. */
  lemma AllocThenRelease(s: State, t: Thread, o: Obj, id: CInt)
    requires Inv(s) && HeapInv(s) && t < |s.doing| && s.doing[t].Nothing? && o !in s.heap
    ensures var alloc, release := [Malloc(t, o, id), Link(t), Initialise(t)], [Drop(t, o), Free(t)];
            && Runs(s, alloc)
            && var z := After(s, alloc);
               && z.live == Alloc(s.live, o, id) && Holders(z, o) == multiset{t}
               && Runs(z, release) && SameForAll(s, After(z, release))
  {
    var s1 := Step(s, Malloc(t, o, id));
    var s2 := Step(s1, Link(t));
    var s3 := Step(s2, Initialise(t));
    assert Holders(s, o) == multiset{} && Holders(s3, o) == multiset{t};
    assert s3.live == [Cell(o, id, 1)] + s.live && s3.live[0].obj == o && s3.doing == s.doing;
    var s4 := Step(s3, Drop(t, o));
    assert s4.live == s.live;
    var s5 := Step(s4, Free(t));
    assert SameForAll(s, s5);
    FiveSteps(s, Malloc(t, o, id), Link(t), Initialise(t), s3, Drop(t, o), Free(t));
  }

  lemma FiveSteps(s: State, a: Action, b: Action, c: Action, z: State, d: Action, e: Action)
    requires Enabled(s, a) && Enabled(Step(s, a), b) && Enabled(Step(Step(s, a), b), c)
    requires z == Step(Step(Step(s, a), b), c) && Enabled(z, d) && Enabled(Step(z, d), e)
    ensures Runs(s, [a, b, c]) && After(s, [a, b, c]) == z
    ensures Runs(z, [d, e]) && After(z, [d, e]) == Step(Step(z, d), e)
  {
    hide Enabled, Step;
    RunCons(Step(Step(s, a), b), c, []);
    RunCons(Step(s, a), b, [c]);
    RunCons(s, a, [b, c]);
    RunCons(Step(z, d), e, []);
    RunCons(z, d, [e]);
    assert [c] + [] == [c] && [b] + [c] == [b, c] && [a] + [b, c] == [a, b, c];
    assert [e] + [] == [e] && [d] + [e] == [d, e];
  }

  lemma RunCons(s: State, a: Action, rest: seq<Action>)
    requires Enabled(s, a) && Runs(Step(s, a), rest)
    ensures Runs(s, [a] + rest) && After(s, [a] + rest) == After(Step(s, a), rest)
  {
    hide Enabled, Step;
    assert ([a] + rest)[1..] == rest;
  }

  lemma DropUndoesHold(s: State, z: State, t: Thread, o: Obj)
    requires t < |s.doing| && s.doing[t].Nothing? && z == s.(live := z.live, held := z.held)
    requires |z.live| == |s.live| && Release(z.live, o) == s.live
    requires Holders(z, o) == Holders(s, o) + multiset{t} && forall p :: p != o ==> Holders(z, p) == Holders(s, p)
    ensures Enabled(z, Drop(t, o)) && SameForAll(s, Step(z, Drop(t, o)))
  {
    hide Where;
    assert Holders(s, o) + multiset{t} - multiset{t} == Holders(s, o);
  }

  /** It can look for any id.  If there is an object with it the thread then holds the
      newest one once more, and can release it, which puts everything back. */
  lemma FindThenRelease(s: State, t: Thread, id: CInt)
    requires Inv(s) && t < |s.doing| && s.doing[t].Nothing?
    ensures Enabled(s, FindAndHold(t, id))
    ensures var z, i := Step(s, FindAndHold(t, id)), Newest(s.live, id);
            if i == |s.live| then z == s
            else
              var o := s.live[i].obj;
              && Holders(z, o) == Holders(s, o) + multiset{t}
              && Enabled(z, Drop(t, o)) && SameForAll(s, Step(z, Drop(t, o)))
  {
    hide Inv, Release, SameForAll;
    var i := Newest(s.live, id);
    if i < |s.live| {
      FindHolds(s, t, id);
      DropUndoesHold(s, Step(s, FindAndHold(t, id)), t, s.live[i].obj);
    }
  }

  lemma FindHolds(s: State, t: Thread, id: CInt)
    requires Inv(s) && t < |s.doing| && s.doing[t].Nothing? && Newest(s.live, id) < |s.live|
    ensures var z, o := Step(s, FindAndHold(t, id)), s.live[Newest(s.live, id)].obj;
            && z == s.(live := z.live, held := z.held)
            && |z.live| == |s.live| && Release(z.live, o) == s.live
            && Holders(z, o) == Holders(s, o) + multiset{t}
            && forall p :: p != o ==> Holders(z, p) == Holders(s, p)
  {
    hide Release, Has, PrivateInv;
    ReleaseUndoes(s.live, s.live[Newest(s.live, id)].obj, id);
  }

  /** A holder can hand its reference to any thread, which then holds it instead and, when
      it is between two calls, can hand it back. */
  lemma HandOverAndBack(s: State, t: Thread, u: Thread, o: Obj)
    requires Enabled(s, Drop(t, o)) && u < |s.doing|
    ensures Enabled(s, HandOver(t, u, o))
    ensures var z := Step(s, HandOver(t, u, o));
            && z.live == s.live && z.heap == s.heap && z.doing == s.doing && u in Holders(z, o)
            && (s.doing[u].Nothing? ==>
                  Enabled(z, HandOver(u, t, o)) && SameForAll(s, Step(z, HandOver(u, t, o))))
  {
    var h := Holders(s, o);
    assert h - multiset{t} + multiset{u} - multiset{u} + multiset{t} == h;
  }

  // ----- every reference can be given back -----

  function Weights(doing: seq<Doing>): (r: seq<nat>)
    ensures |r| == |doing|
  {
    seq(|doing|, t requires 0 <= t < |doing| =>
      match doing[t]
      case Nothing => 0
      case Linking(_, _) => 4
      case _ => 1)
  }

  function Counts(live: Registry<Obj>): (r: seq<nat>)
    ensures |r| == |live|
  {
    seq(|live|, i requires 0 <= i < |live| => if live[i].refs >= 0 then live[i].refs else 0)
  }

  /** Each step that finishes a call or gives a reference back lowers this. */
  function Unfinished(s: State): nat {
    Sum(Weights(s.doing)) + 2 * Sum(Counts(s.live))
  }

  predicate Finishes(a: Action) {
    a.Link? || a.Initialise? || a.Drop? || a.Free?
  }

  lemma {:induction false} SumWithout(s: seq<nat>, i: nat)
    requires i < |s|
    ensures Sum(Without(s, i)) == Sum(s) - s[i]
  {
    if i == 0 {
      assert Without(s, i) == s[1..];
    } else {
      SumWithout(s[1..], i - 1);
      assert Without(s, i)[1..] == Without(s[1..], i - 1);
    }
  }

  lemma WeightChanges(doing: seq<Doing>, t: Thread, d: Doing)
    requires t < |doing|
    ensures Sum(Weights(doing[t := d])) == Sum(Weights(doing)) - Weights(doing)[t] + Weights([d])[0]
  {
    SumUpdate(Weights(doing), t, Weights([d])[0]);
    assert Weights(doing[t := d]) == Weights(doing)[t := Weights([d])[0]];
  }

  lemma LinkLowers(s: State, t: Thread)
    requires Enabled(s, Link(t))
    ensures Unfinished(Step(s, Link(t))) < Unfinished(s)
  {
    var s', o := Step(s, Link(t)), s.doing[t].o;
    WeightChanges(s.doing, t, Initialising(o));
    assert Counts(s'.live) == [1] + Counts(s.live);
    assert Counts(s'.live)[1..] == Counts(s.live);
  }

  lemma DropLowers(s: State, t: Thread, o: Obj)
    requires Inv(s) && Enabled(s, Drop(t, o))
    ensures Unfinished(Step(s, Drop(t, o))) < Unfinished(s)
  {
    hide PrivateInv, Distinct, Weights, Where, Holders;
    HasWhere(s.live, o);
    var i := Where(s.live, o);
    if s.live[i].refs == 1 {
      WeightIs(s.doing, t, Freeing(o));
      CountsWithout(s.live, i);
    } else {
      CountsLess(s.live, i);
    }
  }

  lemma CountsWithout(live: Registry<Obj>, i: nat)
    requires i < |live| && live[i].refs == 1
    ensures Sum(Counts(Without(live, i))) == Sum(Counts(live)) - 1
  {
    SumWithout(Counts(live), i);
    assert Counts(Without(live, i)) == Without(Counts(live), i);
  }

  lemma CountsLess(live: Registry<Obj>, i: nat)
    requires i < |live| && live[i].refs >= 1
    ensures Sum(Counts(live[i := live[i].(refs := live[i].refs - 1)])) == Sum(Counts(live)) - 1
  {
    SumUpdate(Counts(live), i, live[i].refs - 1);
    assert Counts(live[i := live[i].(refs := live[i].refs - 1)]) == Counts(live)[i := live[i].refs - 1];
  }

  lemma WeightIs(doing: seq<Doing>, t: Thread, d: Doing)
    requires t < |doing| && doing[t].Nothing? && d.Freeing?
    ensures Sum(Weights(doing[t := d])) == Sum(Weights(doing)) + 1
  {
    WeightChanges(doing, t, d);
  }

  lemma FinishingLowers(s: State, a: Action)
    requires Inv(s) && Enabled(s, a) && Finishes(a)
    ensures Unfinished(Step(s, a)) < Unfinished(s)
  {
    hide Inv;
    match a
    case Link(t) => LinkLowers(s, t);
    case Drop(t, o) => DropLowers(s, t, o);
    case _ => WeightChanges(s.doing, a.t, Nothing);
  }

  /** Somebody can finish a call or give a reference back, unless nothing is left. */
  lemma SomethingToFinish(s: State) returns (a: Action)
    requires Inv(s) && HeapInv(s) && HolderInv(s) && (s.live != [] || s.heap != {})
    ensures Enabled(s, a) && Finishes(a)
  {
    if t :| 0 <= t < |s.doing| && !s.doing[t].Nothing? {
      match s.doing[t]
      case Linking(_, _) => a := Link(t);
      case Initialising(_) => a := Initialise(t);
      case Freeing(_) => a := Free(t);
    } else {
      assert forall t, o :: !Private(s, t, o);
      var o := if s.live != [] then s.live[0].obj else (var p :| p in s.heap; p);
      assert Has(s.live, o);
      var t :| t in Holders(s, o);
      a := Drop(t, o);
    }
  }

  /** From any state that a run reaches, finishing the calls under way and giving back
      what is held is possible and leaves the table empty and all memory freed. */
  lemma {:induction false} EverythingCanBeFreed(s: State) returns (run: seq<Action>)
    requires Inv(s) && HeapInv(s) && HolderInv(s)
    ensures Runs(s, run) && forall a :: a in run ==> Finishes(a)
    ensures After(s, run).live == [] && After(s, run).heap == {}
    decreases Unfinished(s)
  {
    hide Inv, HeapInv, HolderInv, Unfinished, Enabled, Step, Finishes;
    if s.live == [] && s.heap == {} {
      run := [];
    } else {
      var a := SomethingToFinish(s);
      FinishingLowers(s, a);
      StepKeepsInv(s, a);
      StepKeepsHeap(s, a);
      StepKeepsHolders(s, a);
      var rest := EverythingCanBeFreed(Step(s, a));
      run := [a] + rest;
      RunCons(s, a, rest);
    }
  }

  /** The same for a run from the start. */
  lemma EveryRunCanFreeEverything(threads: nat, run: seq<Action>) returns (more: seq<Action>)
    requires Runs(Init(threads), run)
    ensures Runs(After(Init(threads), run), more) && forall a :: a in more ==> Finishes(a)
    ensures After(After(Init(threads), run), more).live == []
    ensures After(After(Init(threads), run), more).heap == {}
  {
    Reachable(threads, run);
    more := EverythingCanBeFreed(After(Init(threads), run));
  }
}
