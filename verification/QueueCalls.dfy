/** What a call of each method of the queue does and returns, from its beginning to its end, whatever
    the other threads do meanwhile. */
module QueueCalls {
  import opened Entities
  import opened ThreadSafeQueue

  // ---------- One call ----------

  // Thread t calls a method at move i and returns from it at move j
  ghost predicate IsCall<T>(actions: seq<Action<T>>, t: Tid, start: Point<T>, i: nat, j: nat) {
    && i < j < |actions| && actions[i] == Call(t, start) && actions[j] == Return(t)
    && forall m :: i < m < j ==> actions[m] != Return(t)
  }

  // The items a thread has taken, in order
  function ItemsOf<T>(taken: seq<(Tid, T)>, t: Tid): seq<T> {
    if taken == [] then []
    else
      var last := taken[|taken| - 1];
      ItemsOf(taken[..|taken| - 1], t) + if last.0 == t then [last.1] else []
  }

  lemma TakesOneMore<T>(taken: seq<(Tid, T)>, u: Tid, v: T, t: Tid)
    ensures ItemsOf(taken + [(u, v)], t) == ItemsOf(taken, t) + if u == t then [v] else []
  {
    assert (taken + [(u, v)])[..|taken|] == taken;
  }

  // Move m of thread t takes the front of the queue
  ghost predicate TakesAt<T>(states: seq<State<T>>, actions: seq<Action<T>>, t: Tid, m: int) {
    && 0 <= m < |actions| && m + 1 < |states| && actions[m] == Take(t)
    && states[m].queue != [] && states[m + 1].queue == states[m].queue[1..]
  }

  // Move m of thread t puts v at the end of the queue
  ghost predicate AddsAt<T>(states: seq<State<T>>, actions: seq<Action<T>>, t: Tid, m: int, v: T) {
    && 0 <= m < |actions| && m + 1 < |states| && actions[m] == Push(t)
    && states[m + 1].queue == states[m].queue + [v]
  }

  // Move m of thread t finds something in the queue and leaves it there
  ghost predicate SeesAt<T>(states: seq<State<T>>, actions: seq<Action<T>>, t: Tid, m: int) {
    && 0 <= m < |actions| && m + 1 < |states| && actions[m] == Test(t)
    && states[m].queue != [] && states[m + 1].queue == states[m].queue
  }

  // ---------- Moves of others ----------

  // A move of another thread takes nothing for this one
  lemma OthersTakeNothing<T>(s: State<T>, a: Action<T>, t: Tid)
    requires Enabled(s, a) && a.t != t
    ensures ItemsOf(Next(s, a).taken, t) == ItemsOf(s.taken, t)
  {
    if (a.Take? || a.Test?) && s.queue != [] {
      TakesOneMore(s.taken, a.t, s.queue[0], t);
    }
  }

  // It moves this one only by waking it
  lemma OthersWake<T>(s: State<T>, a: Action<T>, t: Tid)
    requires Enabled(s, a) && t in s.at && a.t != t
    ensures t in Next(s, a).at
    ensures Next(s, a).at[t] == s.at[t] || (s.at[t].Asleep? && Next(s, a).at[t] == Woken(s.at[t].erase))
  {
  }

  // And it leaves the queue alone while this one holds the mutex
  lemma OthersWait<T>(s: State<T>, a: Action<T>, t: Tid)
    requires MutexOk(s) && Enabled(s, a) && t in s.at && a.t != t && HoldsMutex(s.at[t])
    ensures Next(s, a).queue == s.queue
  {
    if a.Push? || a.Take? || a.Test? {
      assert HoldsMutex(s.at[a.t]);
    }
  }

  lemma OtherMoves<T>(s: State<T>, a: Action<T>, t: Tid)
    requires MutexOk(s) && Enabled(s, a) && t in s.at && a.t != t
    ensures var s' := Next(s, a);
            && t in s'.at && ItemsOf(s'.taken, t) == ItemsOf(s.taken, t)
            && (s'.at[t] == s.at[t] || (s.at[t].Asleep? && s'.at[t] == Woken(s.at[t].erase)))
            && (HoldsMutex(s.at[t]) ==> s'.queue == s.queue)
  {
    OthersTakeNothing(s, a, t);
    OthersWake(s, a, t);
    if HoldsMutex(s.at[t]) {
      OthersWait(s, a, t);
    }
  }

  // The state behind a move of an execution
  lemma OneMove<T>(states: seq<State<T>>, actions: seq<Action<T>>, n: nat)
    requires IsExecution(states, actions) && n < |actions|
    ensures MutexOk(states[n]) && Enabled(states[n], actions[n]) && states[n + 1] == Next(states[n], actions[n])
  {
    ExecutionKeepsOrder(states, actions, n);
  }

  // ---------- wait_and_erase ----------

  predicate IsErasing<T>(p: Point<T>) {
    p == WaitStart(true) || p == Testing(true) || p == Asleep(true) || p == Woken(true) || p == Popping
  }

  // Between its call at i and state n the thread has taken nothing, or one item it is leaving with
  ghost predicate Erases<T>(states: seq<State<T>>, actions: seq<Action<T>>, t: Tid, i: nat, n: nat)
    requires i < n < |states|
  {
    var (was, p) := (ItemsOf(states[i].taken, t), states[n].at);
    && t in p
    && ((IsErasing(p[t]) && ItemsOf(states[n].taken, t) == was) || HasErased(states, actions, t, i, n))
  }

  ghost predicate HasErased<T>(states: seq<State<T>>, actions: seq<Action<T>>, t: Tid, i: nat, n: nat)
    requires i < n < |states|
  {
    && t in states[n].at
    && exists m :: && i < m < n && TakesAt(states, actions, t, m)
                   && states[n].at[t] == Leaving(Some(states[m].queue[0]))
                   && ItemsOf(states[n].taken, t) == ItemsOf(states[i].taken, t) + [states[m].queue[0]]
  }

  // Once it has its item the thread can only return
  lemma ErasedStays<T>(states: seq<State<T>>, actions: seq<Action<T>>, t: Tid, i: nat, n: nat)
    requires IsExecution(states, actions) && i < n < |actions| && actions[n] != Return(t)
    requires HasErased(states, actions, t, i, n)
    ensures HasErased(states, actions, t, i, n + 1)
  {
    OneMove(states, actions, n);
    OtherMoves(states[n], actions[n], t);
  }

  lemma TakesItem<T>(states: seq<State<T>>, actions: seq<Action<T>>, t: Tid, i: nat, n: nat)
    requires IsExecution(states, actions) && i < n < |actions| && actions[n] == Take(t)
    requires t in states[n].at && ItemsOf(states[n].taken, t) == ItemsOf(states[i].taken, t)
    ensures HasErased(states, actions, t, i, n + 1)
  {
    OneMove(states, actions, n);
    TakesOneMore(states[n].taken, t, states[n].queue[0], t);
    assert TakesAt(states, actions, t, n);
  }

  lemma ErasesNext<T>(states: seq<State<T>>, actions: seq<Action<T>>, t: Tid, i: nat, n: nat)
    requires IsExecution(states, actions) && i < n < |actions| && actions[n] != Return(t)
    requires Erases(states, actions, t, i, n)
    ensures Erases(states, actions, t, i, n + 1)
  {
    OneMove(states, actions, n);
    if HasErased(states, actions, t, i, n) {
      ErasedStays(states, actions, t, i, n);
    } else if actions[n] == Take(t) {
      TakesItem(states, actions, t, i, n);
    } else if actions[n].t != t {
      OtherMoves(states[n], actions[n], t);
    }
  }

  lemma {:induction false} ErasesUntil<T>(states: seq<State<T>>, actions: seq<Action<T>>,
                                          t: Tid, i: nat, j: nat, n: nat)
    requires IsExecution(states, actions) && IsCall(actions, t, WaitStart(true), i, j) && i < n <= j
    ensures Erases(states, actions, t, i, n)
  {
    if n == i + 1 {
      OneMove(states, actions, i);
    } else {
      ErasesUntil(states, actions, t, i, j, n - 1);
      ErasesNext(states, actions, t, i, n - 1);
    }
  }

  /** A call of wait_and_erase takes exactly one item, the front of the queue at that move, and returns
      that very item. */
  lemma WaitAndEraseReturnsFront<T>(states: seq<State<T>>, actions: seq<Action<T>>, t: Tid, i: nat, j: nat)
    requires IsExecution(states, actions) && IsCall(actions, t, WaitStart(true), i, j)
    ensures HasErased(states, actions, t, i, j)
  {
    ErasesUntil(states, actions, t, i, j, j);
    OneMove(states, actions, j);
  }

  // ---------- wait_and_get ----------

  predicate IsLooking<T>(p: Point<T>) {
    p == WaitStart(false) || p == Testing(false) || p == Asleep(false) || p == Woken(false)
  }

  ghost predicate HasLooked<T>(states: seq<State<T>>, actions: seq<Action<T>>, t: Tid, i: nat, n: nat)
    requires i < n < |states|
  {
    && t in states[n].at
    && exists m :: i < m < n && SeesAt(states, actions, t, m) && states[n].at[t] == Looked(states[m].queue[0])
  }

  ghost predicate Looks<T>(states: seq<State<T>>, actions: seq<Action<T>>, t: Tid, i: nat, n: nat)
    requires i < n < |states|
  {
    && t in states[n].at && ItemsOf(states[n].taken, t) == ItemsOf(states[i].taken, t)
    && (IsLooking(states[n].at[t]) || HasLooked(states, actions, t, i, n))
  }

  // A thread that waits to look goes on waiting, or sees the front
  lemma LooksOn<T>(states: seq<State<T>>, actions: seq<Action<T>>, t: Tid, i: nat, n: nat)
    requires IsExecution(states, actions) && i < n < |actions| && actions[n] != Return(t) && actions[n].t == t
    requires t in states[n].at && IsLooking(states[n].at[t])
    ensures t in states[n + 1].at && states[n + 1].taken == states[n].taken
    ensures IsLooking(states[n + 1].at[t]) || HasLooked(states, actions, t, i, n + 1)
  {
    OneMove(states, actions, n);
    if actions[n] == Test(t) && states[n].queue != [] {
      assert SeesAt(states, actions, t, n);
    }
  }

  lemma LooksNext<T>(states: seq<State<T>>, actions: seq<Action<T>>, t: Tid, i: nat, n: nat)
    requires IsExecution(states, actions) && i < n < |actions| && actions[n] != Return(t)
    requires Looks(states, actions, t, i, n)
    ensures Looks(states, actions, t, i, n + 1)
  {
    OneMove(states, actions, n);
    if actions[n].t != t {
      OtherMoves(states[n], actions[n], t);
    } else if IsLooking(states[n].at[t]) {
      LooksOn(states, actions, t, i, n);
    }
  }

  lemma {:induction false} LooksUntil<T>(states: seq<State<T>>, actions: seq<Action<T>>,
                                         t: Tid, i: nat, j: nat, n: nat)
    requires IsExecution(states, actions) && IsCall(actions, t, WaitStart(false), i, j) && i < n <= j
    ensures Looks(states, actions, t, i, n)
  {
    if n == i + 1 {
      OneMove(states, actions, i);
    } else {
      LooksUntil(states, actions, t, i, j, n - 1);
      LooksNext(states, actions, t, i, n - 1);
    }
  }

  /** A call of wait_and_get takes nothing and returns what was at the front of the queue at its last
      look. */
  lemma WaitAndGetReturnsFront<T>(states: seq<State<T>>, actions: seq<Action<T>>, t: Tid, i: nat, j: nat)
    requires IsExecution(states, actions) && IsCall(actions, t, WaitStart(false), i, j)
    ensures ItemsOf(states[j].taken, t) == ItemsOf(states[i].taken, t)
    ensures HasLooked(states, actions, t, i, j)
  {
    LooksUntil(states, actions, t, i, j, j);
    OneMove(states, actions, j);
  }

  // ---------- add ----------

  ghost predicate HasAdded<T>(states: seq<State<T>>, actions: seq<Action<T>>, t: Tid, v: T, i: nat, n: nat)
    requires n <= |actions|
  {
    exists m :: i < m < n && AddsAt(states, actions, t, m, v) &&
                forall k :: i < k < n && actions[k] == Push(t) ==> k == m
  }

  ghost predicate Adds<T>(states: seq<State<T>>, actions: seq<Action<T>>, t: Tid, v: T, i: nat, n: nat)
    requires i < n < |states| && n <= |actions|
  {
    && t in states[n].at && ItemsOf(states[n].taken, t) == ItemsOf(states[i].taken, t)
    && (((states[n].at[t] == AddStart(v) || states[n].at[t] == AddLocked(v))
         && forall k :: i < k < n ==> actions[k] != Push(t)) ||
        ((states[n].at[t] == AddPushed || states[n].at[t] == Leaving(None)) && HasAdded(states, actions, t, v, i, n)))
  }

  lemma AddedStays<T>(states: seq<State<T>>, actions: seq<Action<T>>, t: Tid, v: T, i: nat, n: nat)
    requires n < |actions| && HasAdded(states, actions, t, v, i, n) && actions[n] != Push(t)
    ensures HasAdded(states, actions, t, v, i, n + 1)
  {
    var m :| i < m < n && AddsAt(states, actions, t, m, v) &&
             forall k :: i < k < n && actions[k] == Push(t) ==> k == m;
    assert forall k :: i < k < n + 1 && actions[k] == Push(t) ==> k == m;
  }

  lemma AddsNext<T>(states: seq<State<T>>, actions: seq<Action<T>>, t: Tid, v: T, i: nat, n: nat)
    requires IsExecution(states, actions) && i < n < |actions| && actions[n] != Return(t)
    requires Adds(states, actions, t, v, i, n)
    ensures Adds(states, actions, t, v, i, n + 1)
  {
    OneMove(states, actions, n);
    if actions[n].t != t {
      OtherMoves(states[n], actions[n], t);
    }
    if actions[n] == Push(t) {
      assert AddsAt(states, actions, t, n, v);
    } else if HasAdded(states, actions, t, v, i, n) {
      AddedStays(states, actions, t, v, i, n);
    }
  }

  lemma {:induction false} AddsUntil<T>(states: seq<State<T>>, actions: seq<Action<T>>,
                                        t: Tid, v: T, i: nat, j: nat, n: nat)
    requires IsExecution(states, actions) && IsCall(actions, t, AddStart(v), i, j) && i < n <= j
    ensures Adds(states, actions, t, v, i, n)
  {
    if n == i + 1 {
      OneMove(states, actions, i);
    } else {
      AddsUntil(states, actions, t, v, i, j, n - 1);
      AddsNext(states, actions, t, v, i, n - 1);
    }
  }

  /** A call of add puts its item at the end of the queue, exactly once, and takes nothing. */
  lemma AddAppendsOnce<T>(states: seq<State<T>>, actions: seq<Action<T>>, t: Tid, v: T, i: nat, j: nat)
    requires IsExecution(states, actions) && IsCall(actions, t, AddStart(v), i, j)
    ensures HasAdded(states, actions, t, v, i, j) && ItemsOf(states[j].taken, t) == ItemsOf(states[i].taken, t)
  {
    AddsUntil(states, actions, t, v, i, j, j);
    OneMove(states, actions, j);
  }

  // ---------- try_erase ----------

  // Finding nothing, the thread leaves with nothing while the queue is empty
  ghost predicate Tries<T>(states: seq<State<T>>, actions: seq<Action<T>>, t: Tid, i: nat, n: nat)
    requires i < n < |states|
  {
    var (was, p) := (ItemsOf(states[i].taken, t), states[n].at);
    && t in p
    && (((p[t] == TryStart || p[t] == Trying || p[t] == Popping) && ItemsOf(states[n].taken, t) == was) ||
        (p[t] == Leaving(None) && states[n].queue == [] && ItemsOf(states[n].taken, t) == was) ||
        HasErased(states, actions, t, i, n))
  }

  lemma TriesNext<T>(states: seq<State<T>>, actions: seq<Action<T>>, t: Tid, i: nat, n: nat)
    requires IsExecution(states, actions) && i < n < |actions| && actions[n] != Return(t)
    requires Tries(states, actions, t, i, n)
    ensures Tries(states, actions, t, i, n + 1)
  {
    OneMove(states, actions, n);
    if HasErased(states, actions, t, i, n) {
      ErasedStays(states, actions, t, i, n);
    } else if actions[n] == Take(t) {
      TakesItem(states, actions, t, i, n);
    } else if actions[n].t != t {
      OtherMoves(states[n], actions[n], t);
    }
  }

  lemma {:induction false} TriesUntil<T>(states: seq<State<T>>, actions: seq<Action<T>>,
                                         t: Tid, i: nat, j: nat, n: nat)
    requires IsExecution(states, actions) && IsCall(actions, t, TryStart, i, j) && i < n <= j
    ensures Tries(states, actions, t, i, n)
  {
    if n == i + 1 {
      OneMove(states, actions, i);
    } else {
      TriesUntil(states, actions, t, i, j, n - 1);
      TriesNext(states, actions, t, i, n - 1);
    }
  }

  /** A call of try_erase returns the front of the queue, which it takes, or nothing, and then the queue
      is empty. */
  lemma TryEraseReturnsFront<T>(states: seq<State<T>>, actions: seq<Action<T>>, t: Tid, i: nat, j: nat)
    requires IsExecution(states, actions) && IsCall(actions, t, TryStart, i, j)
    ensures HasErased(states, actions, t, i, j) ||
            (&& t in states[j].at && states[j].at[t] == Leaving(None)
             && states[j].queue == [] && ItemsOf(states[j].taken, t) == ItemsOf(states[i].taken, t))
  {
    TriesUntil(states, actions, t, i, j, j);
    OneMove(states, actions, j);
  }

  // ---------- clear ----------

  // What the thread has popped since it got the mutex, and what is left, is what was there
  ghost predicate HasCleared<T>(states: seq<State<T>>, actions: seq<Action<T>>, t: Tid, i: nat, n: nat)
    requires i < n < |states| && n <= |actions|
  {
    exists m :: && i < m < n && actions[m] == Acquire(t)
                && ItemsOf(states[n].taken, t) + states[n].queue == ItemsOf(states[i].taken, t) + states[m].queue
  }

  ghost predicate Clears<T>(states: seq<State<T>>, actions: seq<Action<T>>, t: Tid, i: nat, n: nat)
    requires i < n < |states| && n <= |actions|
  {
    && t in states[n].at
    && ((states[n].at[t] == ClearStart && ItemsOf(states[n].taken, t) == ItemsOf(states[i].taken, t)) ||
        (states[n].at[t] == Clearing && HasCleared(states, actions, t, i, n)) ||
        (states[n].at[t] == Leaving(None) && states[n].queue == [] && HasCleared(states, actions, t, i, n)))
  }

  lemma ClearedStays<T>(states: seq<State<T>>, actions: seq<Action<T>>, t: Tid, i: nat, n: nat)
    requires i < n < |actions| && n + 1 < |states| && HasCleared(states, actions, t, i, n)
    requires ItemsOf(states[n + 1].taken, t) + states[n + 1].queue == ItemsOf(states[n].taken, t) + states[n].queue
    ensures HasCleared(states, actions, t, i, n + 1)
  {
  }

  // The thread itself gets the mutex, pops an item, or finds the queue empty
  lemma ClearsOn<T>(states: seq<State<T>>, actions: seq<Action<T>>, t: Tid, i: nat, n: nat)
    requires IsExecution(states, actions) && i < n < |actions| && actions[n] != Return(t) && actions[n].t == t
    requires Clears(states, actions, t, i, n)
    ensures Clears(states, actions, t, i, n + 1)
  {
    var (s, s') := (states[n], states[n + 1]);
    OneMove(states, actions, n);
    if actions[n] == Acquire(t) {
      assert HasCleared(states, actions, t, i, n + 1);
    } else {
      if s.queue != [] {
        TakesOneMore(s.taken, t, s.queue[0], t);
        assert ItemsOf(s.taken, t) + [s.queue[0]] + s.queue[1..] == ItemsOf(s.taken, t) + s.queue;
      }
      ClearedStays(states, actions, t, i, n);
    }
  }

  lemma ClearsNext<T>(states: seq<State<T>>, actions: seq<Action<T>>, t: Tid, i: nat, n: nat)
    requires IsExecution(states, actions) && i < n < |actions| && actions[n] != Return(t)
    requires Clears(states, actions, t, i, n)
    ensures Clears(states, actions, t, i, n + 1)
  {
    if actions[n].t == t {
      ClearsOn(states, actions, t, i, n);
    } else {
      OneMove(states, actions, n);
      OtherMoves(states[n], actions[n], t);
      if HasCleared(states, actions, t, i, n) && states[n].at[t] != ClearStart {
        ClearedStays(states, actions, t, i, n);
      }
    }
  }

  lemma {:induction false} ClearsUntil<T>(states: seq<State<T>>, actions: seq<Action<T>>,
                                          t: Tid, i: nat, j: nat, n: nat)
    requires IsExecution(states, actions) && IsCall(actions, t, ClearStart, i, j) && i < n <= j
    ensures Clears(states, actions, t, i, n)
  {
    if n == i + 1 {
      OneMove(states, actions, i);
    } else {
      ClearsUntil(states, actions, t, i, j, n - 1);
      ClearsNext(states, actions, t, i, n - 1);
    }
  }

  /** A call of clear takes exactly what was in the queue when it got the mutex, in order, and leaves the
      queue empty. */
  lemma ClearTakesEverything<T>(states: seq<State<T>>, actions: seq<Action<T>>, t: Tid, i: nat, j: nat)
    requires IsExecution(states, actions) && IsCall(actions, t, ClearStart, i, j)
    ensures states[j].queue == []
    ensures exists m :: && i < m < j && actions[m] == Acquire(t)
                        && ItemsOf(states[j].taken, t) == ItemsOf(states[i].taken, t) + states[m].queue
  {
    ClearsUntil(states, actions, t, i, j, j);
    OneMove(states, actions, j);
    var m :| && i < m < j && actions[m] == Acquire(t)
             && ItemsOf(states[j].taken, t) + states[j].queue == ItemsOf(states[i].taken, t) + states[m].queue;
    assert ItemsOf(states[j].taken, t) + [] == ItemsOf(states[j].taken, t);
  }
}
