/** The condition-variable map as a step system, in the manner of the queue: waiting for a key,
    insertion that wakes everybody, and assignment that wakes nobody. */
module ThreadSafeMap {
  import opened Entities

  datatype MapPoint<K, V> =
    | InsertStart(key: K, value: V)     // insert: wants the mutex
    | InsertLocked(key: K, value: V)    //   holds it, has not inserted
    | Inserted(key: K)                  //   has inserted, has not notified
    | AssignStart(key: K, value: V)     // set and update: want the mutex
    | AssignLocked(key: K, value: V)    //   hold it, have not assigned
    | WaitStart(key: K, erase: bool)    // wait_and_erase and wait_and_get: want the mutex
    | Testing(key: K, erase: bool)      //   hold it, about to test the predicate
    | Asleep(key: K, erase: bool)       //   gave it up in the wait
    | Woken(key: K, erase: bool)        //   want it back
    | TryStart(key: K)                  // try_erase: wants the mutex
    | Trying(key: K)                    //   holds it, about to look the key up
    | ClearStart                        // clear: wants the mutex
    | Clearing                          //   holds it
    | Leaving(result: Option<V>)        // holds the mutex, about to release it and return

  datatype MapState<K, V> = MapState(data: map<K, V>, owner: Option<Tid>, at: map<Tid, MapPoint<K, V>>)

  datatype Move<K, V> =
    | Call(t: Tid, start: MapPoint<K, V>)
    | Acquire(t: Tid)
    | Act(t: Tid)          // what the method does under the mutex, up to the next point
    | Return(t: Tid)
    | WakeSpuriously(t: Tid)

  predicate IsStart<K, V>(p: MapPoint<K, V>) {
    p.InsertStart? || p.AssignStart? || p.WaitStart? || p.TryStart? || p.ClearStart?
  }

  predicate WantsMutex<K, V>(p: MapPoint<K, V>) {
    IsStart(p) || p.Woken?
  }

  predicate HoldsMutex<K, V>(p: MapPoint<K, V>) {
    !WantsMutex(p) && !p.Asleep?
  }

  function Locked<K, V>(p: MapPoint<K, V>): MapPoint<K, V>
    requires WantsMutex(p)
  {
    match p
    case InsertStart(k, v) => InsertLocked(k, v)
    case AssignStart(k, v) => AssignLocked(k, v)
    case WaitStart(k, e) => Testing(k, e)
    case Woken(k, e) => Testing(k, e)
    case TryStart(k) => Trying(k)
    case ClearStart => Clearing
  }

  // notify_all
  function WakeAll<K, V>(at: map<Tid, MapPoint<K, V>>): map<Tid, MapPoint<K, V>> {
    map t | t in at :: if at[t].Asleep? then Woken(at[t].key, at[t].erase) else at[t]
  }

  predicate Enabled<K, V>(s: MapState<K, V>, a: Move<K, V>) {
    match a
    case Call(t, start) => t !in s.at && IsStart(start)
    case Acquire(t) => s.owner == None && t in s.at && WantsMutex(s.at[t])
    case Act(t) => t in s.at && HoldsMutex(s.at[t]) && !s.at[t].Leaving?
    case Return(t) => t in s.at && s.at[t].Leaving?
    case WakeSpuriously(t) => t in s.at && s.at[t].Asleep?
  }

  // The moves made under the mutex; insert keeps an entry that is already there
  function ActNext<K, V>(s: MapState<K, V>, t: Tid): MapState<K, V>
    requires Enabled(s, Act(t))
  {
    match s.at[t]
    case InsertLocked(k, v) =>
      s.(data := if k in s.data then s.data else s.data[k := v], at := s.at[t := Inserted(k)])
    case Inserted(_) => s.(at := WakeAll(s.at)[t := Leaving(None)])
    case AssignLocked(k, v) => s.(data := s.data[k := v], at := s.at[t := Leaving(None)])
    case Testing(k, e) =>
      if k in s.data then
        s.(data := if e then s.data - {k} else s.data, at := s.at[t := Leaving(Some(s.data[k]))])
      else s.(owner := None, at := s.at[t := Asleep(k, e)])
    case Trying(k) =>
      if k in s.data then s.(data := s.data - {k}, at := s.at[t := Leaving(Some(s.data[k]))])
      else s.(at := s.at[t := Leaving(None)])
    case Clearing => s.(data := map[], at := s.at[t := Leaving(None)])
  }

  function Next<K, V>(s: MapState<K, V>, a: Move<K, V>): MapState<K, V>
    requires Enabled(s, a)
  {
    match a
    case Call(t, start) => s.(at := s.at[t := start])
    case Acquire(t) => s.(owner := Some(t), at := s.at[t := Locked(s.at[t])])
    case Act(t) => ActNext(s, t)
    case Return(t) => s.(owner := None, at := s.at - {t})
    case WakeSpuriously(t) => s.(at := s.at[t := Woken(s.at[t].key, s.at[t].erase)])
  }

  ghost predicate IsExecution<K, V>(states: seq<MapState<K, V>>, moves: seq<Move<K, V>>) {
    && |states| == |moves| + 1 && states[0] == MapState(map[], None, map[])
    && forall i :: 0 <= i < |moves| ==> Enabled(states[i], moves[i]) && states[i + 1] == Next(states[i], moves[i])
  }

  // ---------- Invariants ----------

  ghost predicate MutexOk<K, V>(s: MapState<K, V>) {
    && (forall t :: t in s.at && HoldsMutex(s.at[t]) ==> s.owner == Some(t))
    && (s.owner.Some? ==> s.owner.value in s.at && HoldsMutex(s.at[s.owner.value]))
  }

  predicate AboutToNotify<K, V>(s: MapState<K, V>) {
    s.owner.Some? && s.owner.value in s.at && s.at[s.owner.value].Inserted?
  }

  // Nobody sleeps on a key that is there, except until the owner has notified
  ghost predicate SleepersOk<K, V>(s: MapState<K, V>) {
    AboutToNotify(s) || forall t :: t in s.at && s.at[t].Asleep? ==> s.at[t].key !in s.data
  }

  // An assignment of a key somebody sleeps on
  ghost predicate AssignsAwaited<K, V>(s: MapState<K, V>, a: Move<K, V>) {
    && a.Act? && a.t in s.at && s.at[a.t].AssignLocked?
    && exists u :: u in s.at && s.at[u].Asleep? && s.at[u].key == s.at[a.t].key
  }

  lemma NextKeepsMutex<K, V>(s: MapState<K, V>, a: Move<K, V>)
    requires MutexOk(s) && Enabled(s, a)
    ensures MutexOk(Next(s, a))
  {
  }

  /** A move leaves nobody asleep on a key that is there, exactly unless it assigns an awaited key. */
  lemma NextKeepsSleepers<K, V>(s: MapState<K, V>, a: Move<K, V>)
    requires MutexOk(s) && SleepersOk(s) && Enabled(s, a)
    ensures SleepersOk(Next(s, a)) <==> !AssignsAwaited(s, a)
  {
    var s' := Next(s, a);
    if AssignsAwaited(s, a) {
      var u :| u in s.at && s.at[u].Asleep? && s.at[u].key == s.at[a.t].key;
      assert s'.at[u].Asleep? && s'.at[u].key in s'.data;
    }
  }

  lemma {:induction false} ExecutionKeepsInv<K, V>(states: seq<MapState<K, V>>, moves: seq<Move<K, V>>, n: nat)
    requires IsExecution(states, moves) && n < |states|
    requires forall i :: 0 <= i < n ==> !AssignsAwaited(states[i], moves[i])
    ensures MutexOk(states[n]) && SleepersOk(states[n])
  {
    if n > 0 {
      ExecutionKeepsInv(states, moves, n - 1);
      NextKeepsMutex(states[n - 1], moves[n - 1]);
      NextKeepsSleepers(states[n - 1], moves[n - 1]);
    }
  }

  /** No wakeup is lost while no awaited key is assigned: whenever the mutex is free, no sleeping
      thread's key is there. */
  lemma NoLostWakeup<K, V>(states: seq<MapState<K, V>>, moves: seq<Move<K, V>>, n: nat, t: Tid)
    requires IsExecution(states, moves) && n < |states|
    requires forall i :: 0 <= i < n ==> !AssignsAwaited(states[i], moves[i])
    requires states[n].owner == None && t in states[n].at && states[n].at[t].Asleep?
    ensures states[n].at[t].key !in states[n].data
  {
    ExecutionKeepsInv(states, moves, n);
  }

  lemma OwnerCanMove<K, V>(s: MapState<K, V>) returns (a: Move<K, V>)
    requires MutexOk(s) && s.owner.Some?
    ensures (a.Act? || a.Return?) && Enabled(s, a)
  {
    var t := s.owner.value;
    a := if s.at[t].Leaving? then Return(t) else Act(t);
  }

  /** When no thread can move by itself, all that are left sleep on keys that are not there. */
  lemma QuiescentMeansServed<K, V>(states: seq<MapState<K, V>>, moves: seq<Move<K, V>>, n: nat)
    requires IsExecution(states, moves) && n < |states|
    requires forall i :: 0 <= i < n ==> !AssignsAwaited(states[i], moves[i])
    requires forall a: Move<K, V> :: !a.Call? && !a.WakeSpuriously? ==> !Enabled(states[n], a)
    ensures forall t :: t in states[n].at ==> states[n].at[t].Asleep? && states[n].at[t].key !in states[n].data
  {
    var s := states[n];
    ExecutionKeepsInv(states, moves, n);
    if s.owner.Some? {
      var a := OwnerCanMove(s);
    }
    forall t | t in s.at ensures s.at[t].Asleep? {
      assert !Enabled(s, Acquire(t));
    }
  }

  // Nobody has called set or update
  ghost predicate OnlyInserting<K, V>(moves: seq<Move<K, V>>, n: nat)
    requires n <= |moves|
  {
    forall i :: 0 <= i < n && moves[i].Call? ==> !moves[i].start.AssignStart?
  }

  ghost predicate NobodyAssigns<K, V>(s: MapState<K, V>) {
    forall t :: t in s.at ==> !s.at[t].AssignStart? && !s.at[t].AssignLocked?
  }

  lemma {:induction false} InsertersStay<K, V>(states: seq<MapState<K, V>>, moves: seq<Move<K, V>>, n: nat)
    requires IsExecution(states, moves) && n < |states| && OnlyInserting(moves, n)
    ensures NobodyAssigns(states[n])
  {
    if n > 0 {
      InsertersStay(states, moves, n - 1);
    }
  }

  /** An execution in which nobody calls set or update loses no wakeup, whatever else is called: no
      awaited key is ever assigned, so no sleeper's key is there while the mutex is free, and when
      nothing moves any more, all sleep on keys that are not there. */
  lemma InsertingLosesNoWakeup<K, V>(states: seq<MapState<K, V>>, moves: seq<Move<K, V>>, n: nat)
    requires IsExecution(states, moves) && n < |states| && OnlyInserting(moves, n)
    ensures forall i :: 0 <= i < n ==> !AssignsAwaited(states[i], moves[i])
    ensures states[n].owner == None ==>
              forall t :: t in states[n].at && states[n].at[t].Asleep? ==> states[n].at[t].key !in states[n].data
    ensures (forall a: Move<K, V> :: !a.Call? && !a.WakeSpuriously? ==> !Enabled(states[n], a)) ==>
              forall t :: t in states[n].at ==> states[n].at[t].Asleep? && states[n].at[t].key !in states[n].data
  {
    forall i | 0 <= i < n ensures !AssignsAwaited(states[i], moves[i]) {
      InsertersStay(states, moves, i);
    }
    ExecutionKeepsInv(states, moves, n);
    if forall a: Move<K, V> :: !a.Call? && !a.WakeSpuriously? ==> !Enabled(states[n], a) {
      QuiescentMeansServed(states, moves, n);
    }
  }

  ghost predicate Reachable<K(!new), V(!new)>(s: MapState<K, V>) {
    exists states: seq<MapState<K, V>>, moves: seq<Move<K, V>> ::
      IsExecution(states, moves) && states[|moves|] == s
  }

  lemma ReachNext<K(!new), V(!new)>(s: MapState<K, V>, a: Move<K, V>)
    requires Reachable(s) && Enabled(s, a)
    ensures Reachable(Next(s, a))
  {
    var states: seq<MapState<K, V>>, moves: seq<Move<K, V>> :| IsExecution(states, moves) && states[|moves|] == s;
    var states', moves' := states + [Next(s, a)], moves + [a];
    assert IsExecution(states', moves') && states'[|moves'|] == Next(s, a);
  }

  lemma WaiterSleeps<K(!new), V(!new)>(w: Tid, k: K)
    ensures Reachable<K, V>(MapState(map[], None, map[w := Asleep(k, true)]))
  {
    var s0: MapState<K, V> := MapState(map[], None, map[]);
    var none: seq<Move<K, V>> := [];
    assert IsExecution([s0], none) && [s0][|none|] == s0;
    ReachNext(s0, Call(w, WaitStart(k, true)));
    var s1 := Next(s0, Call(w, WaitStart(k, true)));
    ReachNext(s1, Acquire(w));
    ReachNext(Next(s1, Acquire(w)), Act(w));
    assert Next(Next(s1, Acquire(w)), Act(w)) == MapState(map[], None, map[w := Asleep(k, true)]);
  }

  /** A waiter can sleep on while its key is there: it waits, the key is assigned, nobody is woken. */
  lemma AssignmentLosesWakeup<K(!new), V(!new)>(w: Tid, t: Tid, k: K, v: V)
    requires w != t
    ensures Reachable(MapState(map[k := v], None, map[w := Asleep(k, true)]))
  {
    WaiterSleeps<K, V>(w, k);
    var s0: MapState<K, V> := MapState(map[], None, map[w := Asleep(k, true)]);
    ReachNext(s0, Call(t, AssignStart(k, v)));
    var s1 := s0.(at := s0.at[t := AssignStart(k, v)]);
    ReachNext(s1, Acquire(t));
    var s2 := s1.(owner := Some(t), at := s0.at[t := AssignLocked(k, v)]);
    assert Next(s1, Acquire(t)) == s2;
    ReachNext(s2, Act(t));
    var s3 := s2.(data := map[k := v], at := s0.at[t := Leaving(None)]);
    assert Next(s2, Act(t)) == s3;
    ReachNext(s3, Return(t));
    assert s3.at - {t} == s0.at;
  }
}
