/** The condition-variable queue as a step system. Any number of threads is inside any of its
    methods; one action is one move of one thread between two points of its method, and the
    mutex admits one thread at a time. Waking up may be spurious. */
module ThreadSafeQueue {
  import opened Entities

  // Where a thread is inside a method; a thread outside all of them is at no point
  datatype Point<T> =
    | AddStart(value: T)          // add: wants the mutex
    | AddLocked(value: T)         //   holds it, has not pushed
    | AddPushed                   //   has pushed, has not notified
    | WaitStart(erase: bool)      // wait_and_erase, or wait_and_get: wants the mutex
    | Testing(erase: bool)        //   holds it, about to test the predicate
    | Asleep(erase: bool)         //   gave it up in the wait
    | Woken(erase: bool)          //   wants it back
    | Looked(front: T)            //   has seen the front item and will return it, leaving it there
    | TryStart                    // try_erase: wants the mutex
    | Trying                      //   holds it, about to test for emptiness
    | ClearStart                  // clear: wants the mutex
    | Clearing                    //   holds it, pops one item after another
    | Popping                     // holds the mutex, about to take the front item
    | Leaving(result: Option<T>)  // holds the mutex, about to release it and return

  // What the system remembers of the past: the items added and those taken out, with who took them
  datatype State<T> = State(
    queue: seq<T>,
    owner: Option<Tid>,
    at: map<Tid, Point<T>>,
    added: seq<T>,
    taken: seq<(Tid, T)>)

  datatype Action<T> =
    | Call(t: Tid, start: Point<T>)
    | Acquire(t: Tid)
    | Push(t: Tid)
    | NotifyOne(t: Tid, woken: Option<Tid>)
    | Test(t: Tid)
    | Take(t: Tid)
    | Return(t: Tid)
    | WakeSpuriously(t: Tid)

  predicate IsStart<T>(p: Point<T>) {
    p.AddStart? || p.WaitStart? || p.TryStart? || p.ClearStart?
  }

  predicate WantsMutex<T>(p: Point<T>) {
    IsStart(p) || p.Woken?
  }

  predicate HoldsMutex<T>(p: Point<T>) {
    !WantsMutex(p) && !p.Asleep?
  }

  function Locked<T>(p: Point<T>): Point<T>
    requires WantsMutex(p)
  {
    match p
    case AddStart(v) => AddLocked(v)
    case TryStart => Trying
    case ClearStart => Clearing
    case WaitStart(e) => Testing(e)
    case Woken(e) => Testing(e)
  }

  function Sleepers<T>(at: map<Tid, Point<T>>): set<Tid> {
    set t | t in at && at[t].Asleep?
  }

  function WokenThreads<T>(at: map<Tid, Point<T>>): set<Tid> {
    set t | t in at && at[t].Woken?
  }

  // notify_one wakes some sleeper whenever there is one
  predicate Enabled<T>(s: State<T>, a: Action<T>) {
    match a
    case Call(t, start) => t !in s.at && IsStart(start)
    case Acquire(t) => s.owner == None && t in s.at && WantsMutex(s.at[t])
    case Push(t) => t in s.at && s.at[t].AddLocked?
    case NotifyOne(t, woken) =>
      && t in s.at && s.at[t].AddPushed?
      && match woken { case None => Sleepers(s.at) == {} case Some(w) => w in Sleepers(s.at) }
    case Test(t) => t in s.at && (s.at[t].Testing? || s.at[t].Trying? || s.at[t].Clearing?)
    case Take(t) => t in s.at && s.at[t].Popping? && s.queue != []
    case Return(t) => t in s.at && (s.at[t].Leaving? || s.at[t].Looked?)
    case WakeSpuriously(t) => t in Sleepers(s.at)
  }

  function Next<T>(s: State<T>, a: Action<T>): State<T>
    requires Enabled(s, a)
  {
    match a
    case Call(t, start) => s.(at := s.at[t := start])
    case Acquire(t) => s.(owner := Some(t), at := s.at[t := Locked(s.at[t])])
    case Push(t) =>
      var v := s.at[t].value;
      s.(queue := s.queue + [v], added := s.added + [v], at := s.at[t := AddPushed])
    case NotifyOne(t, None) => s.(at := s.at[t := Leaving(None)])
    case NotifyOne(t, Some(w)) => s.(at := s.at[w := Woken(s.at[w].erase)][t := Leaving(None)])
    case Test(t) =>
      if s.queue == [] then
        if s.at[t].Testing? then s.(owner := None, at := s.at[t := Asleep(s.at[t].erase)])
        else s.(at := s.at[t := Leaving(None)])
      else if s.at[t].Testing? && !s.at[t].erase then s.(at := s.at[t := Looked(s.queue[0])])
      else if s.at[t].Clearing? then s.(queue := s.queue[1..], taken := s.taken + [(t, s.queue[0])])
      else s.(at := s.at[t := Popping])
    case Take(t) =>
      s.(queue := s.queue[1..], taken := s.taken + [(t, s.queue[0])], at := s.at[t := Leaving(Some(s.queue[0]))])
    case Return(t) => s.(owner := None, at := s.at - {t})
    case WakeSpuriously(t) => s.(at := s.at[t := Woken(s.at[t].erase)])
  }

  function Start<T>(): State<T> {
    State([], None, map[], [], [])
  }

  // The states of a run, action by action
  ghost predicate IsExecution<T>(states: seq<State<T>>, actions: seq<Action<T>>) {
    && |states| == |actions| + 1 && states[0] == Start()
    && forall i :: 0 <= i < |actions| ==> Enabled(states[i], actions[i]) && states[i + 1] == Next(states[i], actions[i])
  }

  // ---------- Invariants ----------

  // Exactly the owner is at a point that holds the mutex
  ghost predicate MutexOk<T>(s: State<T>) {
    && (forall t :: t in s.at && HoldsMutex(s.at[t]) ==> s.owner == Some(t))
    && (s.owner.Some? ==> s.owner.value in s.at && HoldsMutex(s.at[s.owner.value]))
    && (forall t :: t in s.at && s.at[t].Popping? ==> s.queue != [])
  }

  // The owner will wake a sleeper, or is a consumer about to take an item
  predicate OwnerServes<T>(s: State<T>) {
    match s.owner
    case None => false
    case Some(t) => t in s.at && (s.at[t].AddPushed? || s.at[t].Testing? || s.at[t].Popping?)
  }

  // While somebody sleeps, every item in the queue has a thread on its way to take it
  ghost predicate WakeupsOk<T>(s: State<T>) {
    Sleepers(s.at) != {} ==> |s.queue| <= |WokenThreads(s.at)| + if OwnerServes(s) then 1 else 0
  }

  // A thread that only looks leaves the item to others: somebody sleeps, and fewer are woken than needed
  predicate LooksAway<T>(s: State<T>, a: Action<T>) {
    && a.Test? && a.t in s.at && s.at[a.t] == Testing(false)
    && Sleepers(s.at) != {} && |s.queue| > |WokenThreads(s.at)|
  }

  function Values<T>(taken: seq<(Tid, T)>): seq<T> {
    seq(|taken|, i requires 0 <= i < |taken| => taken[i].1)
  }

  // First in, first out: what was taken, and then what is queued, is what was added; a thread that
  // is leaving with an item is the last to have taken one
  ghost predicate FifoOk<T>(s: State<T>) {
    && Values(s.taken) + s.queue == s.added
    && forall t :: t in s.at && s.at[t].Leaving? && s.at[t].result.Some? ==>
         s.taken != [] && s.taken[|s.taken| - 1] == (t, s.at[t].result.value)
  }

  lemma MoveOne<T>(at: map<Tid, Point<T>>, t: Tid, p: Point<T>)
    ensures Sleepers(at[t := p]) == if p.Asleep? then Sleepers(at) + {t} else Sleepers(at) - {t}
    ensures WokenThreads(at[t := p]) == if p.Woken? then WokenThreads(at) + {t} else WokenThreads(at) - {t}
    ensures Sleepers(at - {t}) == Sleepers(at) - {t} && WokenThreads(at - {t}) == WokenThreads(at) - {t}
  {
  }

  lemma NextKeepsMutex<T>(s: State<T>, a: Action<T>)
    requires MutexOk(s) && Enabled(s, a)
    ensures MutexOk(Next(s, a))
  {
  }

  lemma NotifyKeepsWakeups<T>(s: State<T>, t: Tid, woken: Option<Tid>)
    requires MutexOk(s) && WakeupsOk(s) && Enabled(s, NotifyOne(t, woken))
    ensures WakeupsOk(Next(s, NotifyOne(t, woken)))
  {
    if woken.Some? {
      var w := Woken(s.at[woken.value].erase);
      MoveOne(s.at, woken.value, w);
      MoveOne(s.at[woken.value := w], t, Leaving(None));
    } else {
      MoveOne(s.at, t, Leaving(None));
    }
  }

  lemma TestKeepsWakeups<T>(s: State<T>, t: Tid)
    requires MutexOk(s) && WakeupsOk(s) && Enabled(s, Test(t))
    ensures WakeupsOk(Next(s, Test(t))) <==> !LooksAway(s, Test(t))
  {
    if s.queue == [] && s.at[t].Testing? {
      MoveOne(s.at, t, Asleep(s.at[t].erase));
    } else if s.queue != [] && s.at[t].Testing? && !s.at[t].erase {
      MoveOne(s.at, t, Looked(s.queue[0]));
    } else {
      MoveOne(s.at, t, Leaving(None));
      MoveOne(s.at, t, Popping);
    }
  }

  lemma AcquireKeepsWakeups<T>(s: State<T>, t: Tid)
    requires MutexOk(s) && WakeupsOk(s) && Enabled(s, Acquire(t))
    ensures WakeupsOk(Next(s, Acquire(t)))
  {
    MoveOne(s.at, t, Locked(s.at[t]));
  }

  lemma TakeKeepsWakeups<T>(s: State<T>, t: Tid)
    requires MutexOk(s) && WakeupsOk(s) && Enabled(s, Take(t))
    ensures WakeupsOk(Next(s, Take(t)))
  {
    MoveOne(s.at, t, Leaving(Some(s.queue[0])));
  }

  lemma CallKeepsWakeups<T>(s: State<T>, t: Tid, start: Point<T>)
    requires WakeupsOk(s) && Enabled(s, Call(t, start))
    ensures WakeupsOk(Next(s, Call(t, start)))
  {
    MoveOne(s.at, t, start);
  }

  lemma PushKeepsWakeups<T>(s: State<T>, t: Tid)
    requires MutexOk(s) && WakeupsOk(s) && Enabled(s, Push(t))
    ensures WakeupsOk(Next(s, Push(t)))
  {
    MoveOne(s.at, t, AddPushed);
  }

  lemma ReturnKeepsWakeups<T>(s: State<T>, t: Tid)
    requires MutexOk(s) && WakeupsOk(s) && Enabled(s, Return(t))
    ensures WakeupsOk(Next(s, Return(t)))
  {
    MoveOne(s.at, t, s.at[t]);
  }

  lemma WakeKeepsWakeups<T>(s: State<T>, t: Tid)
    requires MutexOk(s) && WakeupsOk(s) && Enabled(s, WakeSpuriously(t))
    ensures WakeupsOk(Next(s, WakeSpuriously(t)))
  {
    MoveOne(s.at, t, Woken(s.at[t].erase));
  }

  /** Every move keeps a thread on its way for each item, exactly unless it looks away. */
  lemma NextKeepsWakeups<T>(s: State<T>, a: Action<T>)
    requires MutexOk(s) && WakeupsOk(s) && Enabled(s, a)
    ensures WakeupsOk(Next(s, a)) <==> !LooksAway(s, a)
  {
    match a {
      case Acquire(t) => AcquireKeepsWakeups(s, t);
      case NotifyOne(t, woken) => NotifyKeepsWakeups(s, t, woken);
      case Test(t) => TestKeepsWakeups(s, t);
      case Take(t) => TakeKeepsWakeups(s, t);
      case Call(t, start) => CallKeepsWakeups(s, t, start);
      case Push(t) => PushKeepsWakeups(s, t);
      case Return(t) => ReturnKeepsWakeups(s, t);
      case WakeSpuriously(t) => WakeKeepsWakeups(s, t);
    }
  }

  lemma TakeFront<T>(s: State<T>, t: Tid)
    requires s.queue != []
    ensures Values(s.taken + [(t, s.queue[0])]) + s.queue[1..] == Values(s.taken) + s.queue
  {
  }

  lemma NextKeepsFifo<T>(s: State<T>, a: Action<T>)
    requires MutexOk(s) && FifoOk(s) && Enabled(s, a)
    ensures FifoOk(Next(s, a))
  {
    if (a.Test? || a.Take?) && s.queue != [] {
      TakeFront(s, a.t);
    } else if a.Push? {
      var v := s.at[a.t].value;
      assert Values(s.taken) + (s.queue + [v]) == Values(s.taken) + s.queue + [v];
    }
  }

  /** In every state of every execution one thread at most holds the mutex, and items leave in the
      order they came. */
  lemma {:induction false} ExecutionKeepsOrder<T>(states: seq<State<T>>, actions: seq<Action<T>>, n: nat)
    requires IsExecution(states, actions) && n < |states|
    ensures MutexOk(states[n]) && FifoOk(states[n])
  {
    if n > 0 {
      ExecutionKeepsOrder(states, actions, n - 1);
      NextKeepsMutex(states[n - 1], actions[n - 1]);
      NextKeepsFifo(states[n - 1], actions[n - 1]);
    }
  }

  ghost predicate NobodyLooksAway<T>(states: seq<State<T>>, actions: seq<Action<T>>, n: nat)
    requires n <= |states| && n <= |actions|
  {
    forall i :: 0 <= i < n ==> !LooksAway(states[i], actions[i])
  }

  lemma {:induction false} ExecutionKeepsWakeups<T>(states: seq<State<T>>, actions: seq<Action<T>>, n: nat)
    requires IsExecution(states, actions) && n < |states| && NobodyLooksAway(states, actions, n)
    ensures WakeupsOk(states[n])
  {
    if n > 0 {
      ExecutionKeepsWakeups(states, actions, n - 1);
      ExecutionKeepsOrder(states, actions, n - 1);
      NextKeepsWakeups(states[n - 1], actions[n - 1]);
    }
  }

  // ---------- What follows ----------

  /** No wakeup is lost while nobody looks away: whenever the mutex is free, a non-empty queue leaves
      nobody asleep without a thread on its way for every item. */
  lemma NoLostWakeup<T>(states: seq<State<T>>, actions: seq<Action<T>>, n: nat)
    requires IsExecution(states, actions) && n < |states| && NobodyLooksAway(states, actions, n)
    requires states[n].owner == None && Sleepers(states[n].at) != {}
    ensures |states[n].queue| <= |WokenThreads(states[n].at)|
    ensures states[n].queue != [] ==> exists t :: t in WokenThreads(states[n].at) && Enabled(states[n], Acquire(t))
  {
    ExecutionKeepsWakeups(states, actions, n);
    var woken := WokenThreads(states[n].at);
    if states[n].queue != [] {
      assert |woken| > 0;
      assert woken != {};
      var t :| t in woken;
      assert Enabled(states[n], Acquire(t));
    }
  }

  /** First in, first out over every interleaving: what left the queue followed by what is in it is
      what was added, and each consumer returns the very item it took. */
  lemma FirstInFirstOut<T>(states: seq<State<T>>, actions: seq<Action<T>>, n: nat)
    requires IsExecution(states, actions) && n < |states|
    ensures Values(states[n].taken) + states[n].queue == states[n].added
    ensures forall t :: t in states[n].at && states[n].at[t].Leaving? && states[n].at[t].result.Some? ==>
              states[n].taken != [] && states[n].taken[|states[n].taken| - 1] == (t, states[n].at[t].result.value)
  {
    ExecutionKeepsOrder(states, actions, n);
  }

  // A move a thread makes by itself, neither a new call nor a spurious wakeup
  predicate IsOwnMove<T>(a: Action<T>) {
    !a.Call? && !a.WakeSpuriously?
  }

  lemma OwnerCanMove<T>(s: State<T>) returns (a: Action<T>)
    requires MutexOk(s) && s.owner.Some?
    ensures IsOwnMove(a) && Enabled(s, a)
  {
    var t := s.owner.value;
    match s.at[t]
    case AddLocked(_) => a := Push(t);
    case AddPushed =>
      if Sleepers(s.at) == {} {
        a := NotifyOne(t, None);
      } else {
        var sleepers := Sleepers(s.at);
        var w :| w in sleepers;
        a := NotifyOne(t, Some(w));
      }
    case Testing(_) => a := Test(t);
    case Trying => a := Test(t);
    case Clearing => a := Test(t);
    case Popping => a := Take(t);
    case Leaving(_) => a := Return(t);
    case Looked(_) => a := Return(t);
  }

  /** When no thread can move by itself, all that are left are asleep and the queue is empty: nobody
      waits for an item that is there, and nobody is stuck at the mutex. */
  lemma QuiescentMeansServed<T>(states: seq<State<T>>, actions: seq<Action<T>>, n: nat)
    requires IsExecution(states, actions) && n < |states| && NobodyLooksAway(states, actions, n)
    requires forall a: Action<T> :: IsOwnMove(a) ==> !Enabled(states[n], a)
    ensures states[n].owner == None
    ensures forall t :: t in states[n].at ==> states[n].at[t].Asleep?
    ensures states[n].at != map[] ==> states[n].queue == []
  {
    var s := states[n];
    ExecutionKeepsOrder(states, actions, n);
    ExecutionKeepsWakeups(states, actions, n);
    if s.owner.Some? {
      var a := OwnerCanMove(s);
    }
    forall t | t in s.at ensures s.at[t].Asleep? {
      assert !Enabled(s, Acquire(t));
    }
    if s.at != map[] {
      assert s.at.Keys != {};
      var t :| t in s.at.Keys;
      assert t in Sleepers(s.at);
      assert WokenThreads(s.at) == {};
    }
  }

  // ---------- Threads that only erase ----------

  // Nobody has called wait_and_get
  ghost predicate OnlyErasing<T>(actions: seq<Action<T>>, n: nat)
    requires n <= |actions|
  {
    forall i :: 0 <= i < n && actions[i].Call? && actions[i].start.WaitStart? ==> actions[i].start.erase
  }

  ghost predicate ErasersOnly<T>(s: State<T>) {
    forall t :: t in s.at && (s.at[t].WaitStart? || s.at[t].Testing? || s.at[t].Asleep? || s.at[t].Woken?) ==>
      s.at[t].erase
  }

  lemma {:induction false} ErasersStay<T>(states: seq<State<T>>, actions: seq<Action<T>>, n: nat)
    requires IsExecution(states, actions) && n < |states| && OnlyErasing(actions, n)
    ensures ErasersOnly(states[n])
  {
    if n > 0 {
      ErasersStay(states, actions, n - 1);
    }
  }

  /** An execution in which nobody calls wait_and_get loses no wakeup, whatever else is called: nobody
      looks away, so every queued item has a woken thread while somebody sleeps and the mutex is free,
      and when nothing moves any more, all are asleep and the queue is empty. */
  lemma ErasingLosesNoWakeup<T>(states: seq<State<T>>, actions: seq<Action<T>>, n: nat)
    requires IsExecution(states, actions) && n < |states| && OnlyErasing(actions, n)
    ensures NobodyLooksAway(states, actions, n)
    ensures states[n].owner == None && Sleepers(states[n].at) != {} ==>
              |states[n].queue| <= |WokenThreads(states[n].at)|
    ensures (forall a: Action<T> :: IsOwnMove(a) ==> !Enabled(states[n], a)) && states[n].at != map[] ==>
              states[n].queue == [] && forall t :: t in states[n].at ==> states[n].at[t].Asleep?
  {
    forall i | 0 <= i < n ensures !LooksAway(states[i], actions[i]) {
      ErasersStay(states, actions, i);
    }
    ExecutionKeepsWakeups(states, actions, n);
    if forall a: Action<T> :: IsOwnMove(a) ==> !Enabled(states[n], a) {
      QuiescentMeansServed(states, actions, n);
    }
  }

  // ---------- Own moves come to an end ----------

  // How many moves a thread at a point can still cause, a queued item counting one
  function Weight<T>(p: Point<T>): nat {
    match p
    case AddStart(_) => 9
    case AddLocked(_) => 8
    case AddPushed => 6
    case WaitStart(_) => 4
    case Testing(_) => 3
    case Asleep(_) => 0
    case Woken(_) => 4
    case Looked(_) => 1
    case TryStart => 4
    case Trying => 3
    case ClearStart => 3
    case Clearing => 2
    case Popping => 2
    case Leaving(_) => 1
  }

  ghost function Total<T>(at: map<Tid, Point<T>>): nat {
    if at.Keys == {} then 0
    else
      var t :| t in at.Keys;
      Weight(at[t]) + Total(at - {t})
  }

  lemma {:induction false} TotalSplit<T>(at: map<Tid, Point<T>>, t: Tid)
    requires t in at
    ensures Total(at) == Weight(at[t]) + Total(at - {t})
  {
    var u :| u in at.Keys && Total(at) == Weight(at[u]) + Total(at - {u});
    if u != t {
      TotalSplit(at - {u}, t);
      TotalSplit(at - {t}, u);
      assert at - {u} - {t} == at - {t} - {u};
    }
  }

  lemma TotalMove<T>(at: map<Tid, Point<T>>, t: Tid, p: Point<T>)
    requires t in at
    ensures Total(at[t := p]) == Total(at) - Weight(at[t]) + Weight(p)
  {
    TotalSplit(at, t);
    TotalSplit(at[t := p], t);
    assert at[t := p] - {t} == at - {t};
  }

  ghost function Measure<T>(s: State<T>): nat {
    Total(s.at) + |s.queue|
  }

  lemma NotifyDecreases<T>(s: State<T>, t: Tid, woken: Option<Tid>)
    requires Enabled(s, NotifyOne(t, woken))
    ensures Measure(Next(s, NotifyOne(t, woken))) < Measure(s)
  {
    if woken.Some? {
      var w := Woken(s.at[woken.value].erase);
      TotalMove(s.at, woken.value, w);
      TotalMove(s.at[woken.value := w], t, Leaving(None));
    } else {
      TotalMove(s.at, t, Leaving(None));
    }
  }

  lemma TestDecreases<T>(s: State<T>, t: Tid)
    requires Enabled(s, Test(t))
    ensures Measure(Next(s, Test(t))) < Measure(s)
  {
    if s.queue != [] {
      TotalMove(s.at, t, Popping);
      TotalMove(s.at, t, Looked(s.queue[0]));
    } else if s.at[t].Testing? {
      TotalMove(s.at, t, Asleep(s.at[t].erase));
    } else {
      TotalMove(s.at, t, Leaving(None));
    }
  }

  /** Every own move decreases the measure: a fixed set of calls, woken spuriously finitely often,
      always comes to rest, and then, as shown above, with nobody waiting for an item that is there. */
  lemma OwnMoveDecreases<T>(s: State<T>, a: Action<T>)
    requires Enabled(s, a) && IsOwnMove(a)
    ensures Measure(Next(s, a)) < Measure(s)
  {
    match a {
      case Acquire(t) => TotalMove(s.at, t, Locked(s.at[t]));
      case Push(t) => TotalMove(s.at, t, AddPushed);
      case NotifyOne(t, woken) => NotifyDecreases(s, t, woken);
      case Test(t) => TestDecreases(s, t);
      case Take(t) => TotalMove(s.at, t, Leaving(Some(s.queue[0])));
      case Return(t) => TotalSplit(s.at, t);
    }
  }

  // ---------- Looking uses a notification up ----------

  ghost predicate Reachable<T(!new)>(s: State<T>) {
    exists states: seq<State<T>>, actions: seq<Action<T>> :: IsExecution(states, actions) && states[|actions|] == s
  }

  lemma ReachNext<T(!new)>(s: State<T>, a: Action<T>)
    requires Reachable(s) && Enabled(s, a)
    ensures Reachable(Next(s, a))
  {
    var states: seq<State<T>>, actions: seq<Action<T>> :| IsExecution(states, actions) && states[|actions|] == s;
    var states', actions' := states + [Next(s, a)], actions + [a];
    assert IsExecution(states', actions') && states'[|actions'|] == Next(s, a);
  }

  // A thread that calls a waiting method on the empty queue falls asleep
  lemma FallsAsleep<T(!new)>(s: State<T>, t: Tid, erase: bool)
    requires Reachable(s) && s.queue == [] && s.owner == None && t !in s.at
    ensures Reachable(s.(at := s.at[t := Asleep(erase)]))
  {
    ReachNext(s, Call(t, WaitStart(erase)));
    var s1 := s.(at := s.at[t := WaitStart(erase)]);
    ReachNext(s1, Acquire(t));
    var s2 := s1.(owner := Some(t), at := s1.at[t := Testing(erase)]);
    ReachNext(s2, Test(t));
    assert s2.at[t := Asleep(erase)] == s.at[t := Asleep(erase)];
  }

  // An item is added and the chosen sleeper is woken
  lemma AddWakes<T(!new)>(s: State<T>, t: Tid, v: T, w: Tid)
    requires Reachable(s) && s.owner == None && t !in s.at && w in Sleepers(s.at)
    ensures Reachable(s.(queue := s.queue + [v], added := s.added + [v], at := s.at[w := Woken(s.at[w].erase)]))
  {
    ReachNext(s, Call(t, AddStart(v)));
    var s1 := s.(at := s.at[t := AddStart(v)]);
    ReachNext(s1, Acquire(t));
    var s2 := s1.(owner := Some(t), at := s1.at[t := AddLocked(v)]);
    ReachNext(s2, Push(t));
    var s3 := s2.(queue := s.queue + [v], added := s.added + [v], at := s2.at[t := AddPushed]);
    ReachNext(s3, NotifyOne(t, Some(w)));
    var s4 := s3.(at := s3.at[w := Woken(s.at[w].erase)][t := Leaving(None)]);
    ReachNext(s4, Return(t));
    assert s4.at - {t} == s.at[w := Woken(s.at[w].erase)];
  }

  /** With a thread that only looks, another can sleep on beside a queued item and nobody to take it:
      both sleep, the item's notification goes to the one that looks, and it leaves. */
  lemma LookingLosesWakeup<T(!new)>(eraser: Tid, looker: Tid, adder: Tid, v: T)
    requires eraser != looker && eraser != adder && looker != adder
    ensures Reachable(State([v], None, map[eraser := Asleep(true)], [v], []))
  {
    var none: seq<Action<T>> := [];
    assert IsExecution([Start<T>()], none) && [Start<T>()][|none|] == Start<T>();
    FallsAsleep<T>(Start(), eraser, true);
    var s1: State<T> := State([], None, map[eraser := Asleep(true)], [], []);
    FallsAsleep(s1, looker, false);
    var s2 := s1.(at := s1.at[looker := Asleep(false)]);
    AddWakes(s2, adder, v, looker);
    var s3: State<T> := State([v], None, s1.at[looker := Woken(false)], [v], []);
    assert s2.at[looker := Woken(false)] == s3.at;
    ReachNext(s3, Acquire(looker));
    var s4 := s3.(owner := Some(looker), at := s1.at[looker := Testing(false)]);
    assert Next(s3, Acquire(looker)) == s4;
    ReachNext(s4, Test(looker));
    var s5 := s4.(at := s1.at[looker := Looked(v)]);
    assert Next(s4, Test(looker)) == s5;
    ReachNext(s5, Return(looker));
    assert s5.at - {looker} == s1.at;
  }
}
