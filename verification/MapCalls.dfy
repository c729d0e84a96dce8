/** Every call of a method of the map does its whole work at one move, and returns what that move found,
    whatever the other threads do meanwhile. */
module MapCalls {
  import opened Entities
  import opened ThreadSafeMap

  // Thread t calls a method at move i and returns from it at move j
  ghost predicate IsCall<K, V>(moves: seq<Move<K, V>>, t: Tid, start: MapPoint<K, V>, i: nat, j: nat) {
    && i < j < |moves| && moves[i] == Call(t, start) && moves[j] == Return(t)
    && forall m :: i < m < j ==> moves[m] != Return(t)
  }

  // What a method is to do with the map, and to return
  ghost predicate IsWork<K, V>(start: MapPoint<K, V>, data: map<K, V>, data': map<K, V>, result: Option<V>)
    requires IsStart(start)
  {
    match start
    case InsertStart(k, v) => result == None && data' == if k in data then data else data[k := v]
    case AssignStart(k, v) => result == None && data' == data[k := v]
    case WaitStart(k, erase) => k in data && result == Some(data[k]) && data' == if erase then data - {k} else data
    case TryStart(k) =>
      if k in data then result == Some(data[k]) && data' == data - {k} else result == None && data' == data
    case ClearStart => result == None && data' == map[]
  }

  // The moves of t between two others leave the map as it is
  ghost predicate Untouched<K, V>(states: seq<MapState<K, V>>, moves: seq<Move<K, V>>, t: Tid, a: int, b: int)
    requires b <= |moves| < |states|
  {
    forall k :: 0 <= k && a < k < b && moves[k].t == t ==> states[k + 1].data == states[k].data
  }

  // Where a thread can be that has not done its work
  ghost predicate IsBefore<K, V>(start: MapPoint<K, V>, p: MapPoint<K, V>)
    requires IsStart(start)
  {
    || p == start || p == Locked(start)
    || (start.WaitStart? && (p == Asleep(start.key, start.erase) || p == Woken(start.key, start.erase)))
  }

  // And one that has
  ghost predicate IsAfter<K, V>(start: MapPoint<K, V>, p: MapPoint<K, V>, result: Option<V>)
    requires IsStart(start)
  {
    p == Leaving(result) || (start.InsertStart? && p == Inserted(start.key) && result == None)
  }

  ghost predicate HasWorked<K, V>(states: seq<MapState<K, V>>, moves: seq<Move<K, V>>, t: Tid, start: MapPoint<K, V>,
                                  result: Option<V>, i: nat, n: nat)
    requires IsStart(start) && n <= |moves| < |states|
  {
    exists m :: && i < m < n && moves[m] == Act(t)
                && IsWork(start, states[m].data, states[m + 1].data, result)
                && Untouched(states, moves, t, i, m) && Untouched(states, moves, t, m, n)
  }

  ghost predicate Works<K, V>(states: seq<MapState<K, V>>, moves: seq<Move<K, V>>, t: Tid, start: MapPoint<K, V>,
                              i: nat, n: nat)
    requires IsStart(start) && n <= |moves| < |states|
  {
    && t in states[n].at
    && var p := states[n].at[t];
    || (IsBefore(start, p) && Untouched(states, moves, t, i, n))
    || (IsAfter(start, p, ResultAt(p)) && HasWorked(states, moves, t, start, ResultAt(p), i, n))
  }

  function ResultAt<K, V>(p: MapPoint<K, V>): Option<V> {
    if p.Leaving? then p.result else None
  }

  lemma OneMove<K, V>(states: seq<MapState<K, V>>, moves: seq<Move<K, V>>, n: nat)
    requires IsExecution(states, moves) && n < |moves|
    ensures Enabled(states[n], moves[n]) && states[n + 1] == Next(states[n], moves[n])
  {
  }

  // A move of another thread moves this one only by waking it
  lemma OtherMoves<K, V>(s: MapState<K, V>, a: Move<K, V>, t: Tid)
    requires Enabled(s, a) && t in s.at && a.t != t
    ensures var s' := Next(s, a);
            && t in s'.at
            && (s'.at[t] == s.at[t] || (s.at[t].Asleep? && s'.at[t] == Woken(s.at[t].key, s.at[t].erase)))
  {
  }

  // A move of the thread itself goes on towards the work, does it, or leaves it done
  lemma OwnMove<K, V>(s: MapState<K, V>, a: Move<K, V>, t: Tid, start: MapPoint<K, V>)
    requires Enabled(s, a) && t in s.at && a.t == t && a != Return(t) && IsStart(start)
    ensures var s' := Next(s, a);
            && t in s'.at
            && (IsBefore(start, s.at[t]) ==>
                  || (IsBefore(start, s'.at[t]) && s'.data == s.data)
                  || (a == Act(t) && IsAfter(start, s'.at[t], ResultAt(s'.at[t]))
                      && IsWork(start, s.data, s'.data, ResultAt(s'.at[t]))))
            && (IsAfter(start, s.at[t], ResultAt(s.at[t])) ==>
                  && IsAfter(start, s'.at[t], ResultAt(s'.at[t])) && ResultAt(s'.at[t]) == ResultAt(s.at[t])
                  && s'.data == s.data)
  {
  }

  lemma UntouchedNext<K, V>(states: seq<MapState<K, V>>, moves: seq<Move<K, V>>, t: Tid, a: int, n: nat)
    requires n + 1 <= |moves| < |states| && Untouched(states, moves, t, a, n)
    requires moves[n].t == t ==> states[n + 1].data == states[n].data
    ensures Untouched(states, moves, t, a, n + 1)
  {
  }

  lemma WorkedStays<K, V>(states: seq<MapState<K, V>>, moves: seq<Move<K, V>>, t: Tid, start: MapPoint<K, V>,
                          result: Option<V>, i: nat, n: nat)
    requires IsStart(start) && n + 1 <= |moves| < |states|
    requires HasWorked(states, moves, t, start, result, i, n)
    requires moves[n].t == t ==> states[n + 1].data == states[n].data
    ensures HasWorked(states, moves, t, start, result, i, n + 1)
  {
    var m :| && i < m < n && moves[m] == Act(t) && IsWork(start, states[m].data, states[m + 1].data, result)
             && Untouched(states, moves, t, i, m) && Untouched(states, moves, t, m, n);
    UntouchedNext(states, moves, t, m, n);
  }

  lemma WorkIsDone<K, V>(states: seq<MapState<K, V>>, moves: seq<Move<K, V>>, t: Tid, start: MapPoint<K, V>,
                         result: Option<V>, i: nat, n: nat)
    requires IsStart(start) && i < n < |moves| < |states| && Untouched(states, moves, t, i, n)
    requires moves[n] == Act(t) && IsWork(start, states[n].data, states[n + 1].data, result)
    ensures HasWorked(states, moves, t, start, result, i, n + 1)
  {
    assert Untouched(states, moves, t, n, n + 1);
  }

  lemma WorksOn<K, V>(states: seq<MapState<K, V>>, moves: seq<Move<K, V>>, t: Tid, start: MapPoint<K, V>,
                      i: nat, n: nat)
    requires IsExecution(states, moves) && i < n < |moves| && moves[n] != Return(t) && moves[n].t == t
    requires IsStart(start) && Works(states, moves, t, start, i, n)
    ensures Works(states, moves, t, start, i, n + 1)
  {
    var (s, s') := (states[n], states[n + 1]);
    OneMove(states, moves, n);
    OwnMove(s, moves[n], t, start);
    if !(IsBefore(start, s.at[t]) && Untouched(states, moves, t, i, n)) {
      WorkedStays(states, moves, t, start, ResultAt(s.at[t]), i, n);
    } else if IsBefore(start, s'.at[t]) && s'.data == s.data {
      UntouchedNext(states, moves, t, i, n);
    } else {
      WorkIsDone(states, moves, t, start, ResultAt(s'.at[t]), i, n);
    }
  }

  lemma WorksMeanwhile<K, V>(states: seq<MapState<K, V>>, moves: seq<Move<K, V>>, t: Tid, start: MapPoint<K, V>,
                             i: nat, n: nat)
    requires IsExecution(states, moves) && i < n < |moves| && moves[n].t != t
    requires IsStart(start) && Works(states, moves, t, start, i, n)
    ensures Works(states, moves, t, start, i, n + 1)
  {
    OneMove(states, moves, n);
    OtherMoves(states[n], moves[n], t);
    if IsBefore(start, states[n].at[t]) && Untouched(states, moves, t, i, n) {
      UntouchedNext(states, moves, t, i, n);
    } else {
      WorkedStays(states, moves, t, start, ResultAt(states[n].at[t]), i, n);
    }
  }

  lemma WorksFirst<K, V>(states: seq<MapState<K, V>>, moves: seq<Move<K, V>>, t: Tid, start: MapPoint<K, V>, i: nat)
    requires IsExecution(states, moves) && IsStart(start) && i < |moves| && moves[i] == Call(t, start)
    ensures Works(states, moves, t, start, i, i + 1)
  {
    OneMove(states, moves, i);
  }

  lemma {:induction false} WorksUntil<K, V>(states: seq<MapState<K, V>>, moves: seq<Move<K, V>>, t: Tid,
                                            start: MapPoint<K, V>, i: nat, j: nat, n: nat)
    requires IsExecution(states, moves) && IsStart(start) && IsCall(moves, t, start, i, j) && i < n <= j
    ensures Works(states, moves, t, start, i, n)
  {
    if n == i + 1 {
      WorksFirst(states, moves, t, start, i);
    } else {
      WorksUntil(states, moves, t, start, i, j, n - 1);
      if moves[n - 1].t == t {
        WorksOn(states, moves, t, start, i, n - 1);
      } else {
        WorksMeanwhile(states, moves, t, start, i, n - 1);
      }
    }
  }

  /** Between its call and its return every method changes the map at one move only, as it is to, and
      returns what that move found: a waiting method the value under its key, which it has waited for and
      erases or leaves there; an insertion keeps an entry that is there; an attempt to erase returns nothing
      only when there is nothing. */
  lemma CallWorksAtOnce<K, V>(states: seq<MapState<K, V>>, moves: seq<Move<K, V>>, t: Tid, start: MapPoint<K, V>,
                              i: nat, j: nat)
    requires IsExecution(states, moves) && IsStart(start) && IsCall(moves, t, start, i, j)
    ensures t in states[j].at && states[j].at[t].Leaving?
    ensures HasWorked(states, moves, t, start, states[j].at[t].result, i, j)
  {
    WorksUntil(states, moves, t, start, i, j, j);
    OneMove(states, moves, j);
  }
}
