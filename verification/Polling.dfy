/** Polling for new messages: what one request yields, and what a client gathers that asks again and
    again, whatever the database's clock does. */
module Polling {
  import opened Entities
  import opened Tables
  import opened Server
  import opened ChatRuns
  import opened Messages

  // ---------- One request for new messages ----------

  lemma {:induction false} AnchorFound(ms: seq<Message>, m: Message)
    requires m in ms && IdsOk(ms)
    ensures AnchorTime(ms, m.id) == Some(m.time)
  {
    var n := |ms| - 1;
    if ms[n] != m {
      assert ms == ms[..n] + [ms[n]];
      assert m in ms[..n];
      AnchorFound(ms[..n], m);
      var i :| 0 <= i < n && ms[i] == m;
      assert ms[i].id != ms[n].id;
    }
  }

  // What every reachable state guarantees
  ghost predicate LogOk(t: Tables, c: Id) {
    KeysOk(t) && IdsOk(t.messages) && |Log(t.messages, c)| < TWO_TO_THE_64
  }

  // The reply to asking for what is newer than a message, which the handler turned round: any that
  // the database may order by time, with the largest limit there is
  ghost predicate IsReply(reply: seq<Message>, t: Tables, c: Id, anchor: Id) {
    IsAnswer(Reversed(reply), t, c, Some(anchor), 0, TWO_TO_THE_64 - 1)
  }

  /** The reply holds exactly the selected messages, oldest first; with strictly increasing times it
      is the very list. */
  lemma AnswerToNew(t: Tables, c: Id, id: Id, reply: seq<Message>)
    requires LogOk(t, c) && IsReply(reply, t, c, id)
    ensures multiset(reply) == multiset(Selected(t, c, Some(id))) && NeverDescending(reply)
    ensures Ascending(Log(t.messages, c)) ==> reply == Selected(t, c, Some(id))
  {
    ChosenFromLog(t, c, id);
    WholeAnswer(Selected(t, c, Some(id)), reply, TWO_TO_THE_64 - 1);
  }

  lemma WholeAnswer(chosen: seq<Message>, reply: seq<Message>, limit: nat)
    requires |chosen| <= limit
    requires exists ordered: seq<Message> :: && multiset(ordered) == multiset(chosen) && NewestFirst(ordered)
                                             && Reversed(reply) == Window(ordered, 0, limit)
    ensures multiset(reply) == multiset(chosen) && NeverDescending(reply)
    ensures Ascending(chosen) ==> reply == chosen
  {
    var rows := Reversed(reply);
    var ordered: seq<Message> :|
      multiset(ordered) == multiset(chosen) && NewestFirst(ordered) && rows == Window(ordered, 0, limit);
    SameSize(ordered, chosen);
    assert rows == ordered;
    ReversedElements(reply);
    ReversedInOrder(reply);
    if Ascending(chosen) {
      NewestFirstIsReversed(chosen, rows);
      ReversedTwice(reply);
      ReversedTwice(chosen);
    }
  }

  // What is selected is no more than the log, and in order if the log is
  lemma ChosenFromLog(t: Tables, c: Id, id: Id)
    requires LogOk(t, c)
    ensures var chosen, log := Selected(t, c, Some(id)), Log(t.messages, c);
            |chosen| <= |log| && (Ascending(log) ==> Ascending(chosen))
  {
    var log := Log(t.messages, c);
    JoinLosesNothing(t, c);
    var time := AnchorTime(t.messages, id);
    if time.Some? {
      LaterElements(log, time.value);
      if Ascending(log) {
        var m := InOrderSplits(log, time.value);
        LaterIsSuffix(log, m, time.value);
      }
    }
  }

  // The reply anchored at a message of the log
  lemma ReplyIsLater(t: Tables, c: Id, a: Message, reply: seq<Message>)
    requires LogOk(t, c) && a in Log(t.messages, c) && IsReply(reply, t, c, a.id)
    ensures multiset(reply) == multiset(Later(Log(t.messages, c), a.time)) && NeverDescending(reply)
    ensures forall m :: m in reply <==> m in Log(t.messages, c) && m.time > a.time
  {
    SelectedIsLater(t, c, a);
    AnswerToNew(t, c, a.id, reply);
    LaterElements(Log(t.messages, c), a.time);
    SameElements(reply, Later(Log(t.messages, c), a.time));
  }

  lemma SameElements(a: seq<Message>, b: seq<Message>)
    requires multiset(a) == multiset(b)
    ensures forall m :: m in a <==> m in b
  {
    forall m ensures m in a <==> m in b {
      assert m in multiset(a) <==> m in multiset(b);
    }
  }

  /** With strictly increasing times in the chat one poll yields exactly the log after its anchor. */
  lemma PollIsTheLog(t: Tables, c: Id, n: nat, anchor: Id, reply: seq<Message>)
    requires LogOk(t, c) && Ascending(Log(t.messages, c)) && IsReply(reply, t, c, anchor)
    requires 0 < n <= |Log(t.messages, c)| && Log(t.messages, c)[n - 1].id == anchor
    ensures reply == Log(t.messages, c)[n..]
  {
    SelectedBehind(t, c, n, anchor);
    AnswerToNew(t, c, anchor, reply);
  }

  lemma SelectedBehind(t: Tables, c: Id, n: nat, anchor: Id)
    requires LogOk(t, c) && Ascending(Log(t.messages, c))
    requires 0 < n <= |Log(t.messages, c)| && Log(t.messages, c)[n - 1].id == anchor
    ensures Selected(t, c, Some(anchor)) == Log(t.messages, c)[n..]
  {
    var log := Log(t.messages, c);
    SelectedIsLater(t, c, log[n - 1]);
    LaterIsSuffix(log, n, log[n - 1].time);
  }

  lemma SelectedIsLater(t: Tables, c: Id, a: Message)
    requires LogOk(t, c) && a in Log(t.messages, c)
    ensures Selected(t, c, Some(a.id)) == Later(Log(t.messages, c), a.time)
  {
    JoinLosesNothing(t, c);
    LogElements(t.messages, c);
    AnchorFound(t.messages, a);
  }

  // A message of the log occurs in it only once
  lemma OccursOnce(t: Tables, c: Id, i: nat, k: nat)
    requires IdsOk(t.messages) && i < k <= |Log(t.messages, c)|
    ensures Log(t.messages, c)[i] !in Log(t.messages, c)[k..]
  {
    var log := Log(t.messages, c);
    LogIds(t.messages, c);
    assert forall j :: k <= j < |log| ==> log[i].id != log[j].id;
  }

  lemma SuffixSplits(log: seq<Message>, k: nat, reply: seq<Message>)
    requires k < |log| && multiset(reply) == multiset(log[k + 1..])
    requires forall m :: m in reply <==> m in log && m.time > log[k].time
    requires forall i :: 0 <= i <= k ==> log[i] !in log[k + 1..]
    ensures SplitsAt(log, k + 1, log[k].time)
  {
    SameElements(reply, log[k + 1..]);
    forall i | k < i < |log| ensures log[i].time > log[k].time {
      assert log[i] == log[k + 1..][i - k - 1];
      assert log[i] in reply;
    }
    forall i | 0 <= i <= k ensures log[i].time <= log[k].time {
      assert log[i] !in reply;
    }
  }

  /** One poll anchored at message k of the log yields exactly the messages after it if and only if they
      are the newer ones: those up to it are not newer than it, and those after it are. */
  lemma PollIsSuffix(t: Tables, c: Id, k: nat, reply: seq<Message>)
    requires LogOk(t, c) && k < |Log(t.messages, c)| && IsReply(reply, t, c, Log(t.messages, c)[k].id)
    ensures var log := Log(t.messages, c);
            multiset(reply) == multiset(log[k + 1..]) <==> SplitsAt(log, k + 1, log[k].time)
  {
    var log := Log(t.messages, c);
    ReplyIsLater(t, c, log[k], reply);
    if multiset(reply) == multiset(log[k + 1..]) {
      forall i | 0 <= i <= k ensures log[i] !in log[k + 1..] {
        OccursOnce(t, c, i, k + 1);
      }
      SuffixSplits(log, k, reply);
    }
    if SplitsAt(log, k + 1, log[k].time) {
      LaterIsSuffix(log, k + 1, log[k].time);
    }
  }

  // ---------- A client that polls ----------

  // What a polling client keeps: the last message it has, and everything it was sent
  datatype Client = Client(anchor: Id, received: seq<Message>)

  function Received(client: Client, reply: seq<Message>): Client {
    Client(if reply == [] then client.anchor else reply[|reply| - 1].id, client.received + reply)
  }

  // The client before every poll and after the last, polling in these states one after another
  ghost predicate IsPolling(clients: seq<Client>, replies: seq<seq<Message>>, states: seq<Tables>, c: Id) {
    && |replies| == |states| && |clients| == |states| + 1
    && forall i :: 0 <= i < |states| ==>
         IsReply(replies[i], states[i], c, clients[i].anchor) && clients[i + 1] == Received(clients[i], replies[i])
  }

  // The chat's log only grows
  ghost predicate IsHistory(states: seq<Tables>, c: Id) {
    && (forall i :: 0 <= i < |states| ==> LogOk(states[i], c))
    && (forall i, j :: 0 <= i < j < |states| ==> Log(states[i].messages, c) <= Log(states[j].messages, c))
  }

  ghost predicate IsAnchor(client: Client, log: seq<Message>, a: Message) {
    a in log && a.id == client.anchor
  }

  // The client has the log from behind message k, and its anchor is as new as any of it
  ghost predicate CaughtUp(client: Client, log: seq<Message>, k: nat) {
    && k < |log| && multiset(client.received) == multiset(log[k + 1..])
    && exists a :: IsAnchor(client, log, a) && forall m :: m in log ==> m.time <= a.time
  }

  // The client does not have message p, and its anchor is not older
  ghost predicate Missed(client: Client, log: seq<Message>, p: nat) {
    && p < |log| && log[p] !in client.received
    && exists a :: IsAnchor(client, log, a) && a.time >= log[p].time
  }

  lemma NewestOfReply(log: seq<Message>, a: Message, reply: seq<Message>)
    requires reply != [] && NeverDescending(reply) && forall m :: m in reply <==> m in log && m.time > a.time
    ensures reply[|reply| - 1] in log && forall m :: m in log ==> m.time <= reply[|reply| - 1].time
  {
    var last := reply[|reply| - 1];
    assert last in reply;
    forall m | m in log ensures m.time <= last.time {
      if m in reply {
        var i :| 0 <= i < |reply| && reply[i] == m;
      }
    }
  }

  // A reply moves the anchor to the newest message of the log, or leaves it if there is no newer one
  lemma NewAnchor(client: Client, t: Tables, c: Id, a: Message, reply: seq<Message>) returns (a': Message)
    requires LogOk(t, c) && IsAnchor(client, Log(t.messages, c), a) && IsReply(reply, t, c, client.anchor)
    ensures IsAnchor(Received(client, reply), Log(t.messages, c), a')
    ensures forall m :: m in Log(t.messages, c) ==> m.time <= a'.time
  {
    ReplyIsLater(t, c, a, reply);
    if reply == [] {
      a' := a;
    } else {
      a' := reply[|reply| - 1];
      NewestOfReply(Log(t.messages, c), a, reply);
    }
  }

  /** Whatever is not newer than the anchor is not sent by the next poll, and stays so. */
  lemma MissedForGood(client: Client, was: seq<Message>, t: Tables, c: Id, p: nat, reply: seq<Message>)
    requires Missed(client, was, p) && was <= Log(t.messages, c) && LogOk(t, c)
    requires IsReply(reply, t, c, client.anchor)
    ensures Missed(Received(client, reply), Log(t.messages, c), p)
  {
    var log := Log(t.messages, c);
    var a :| IsAnchor(client, was, a) && a.time >= was[p].time;
    assert IsAnchor(client, log, a);
    ReplyIsLater(t, c, a, reply);
    var a' := NewAnchor(client, t, c, a, reply);
  }

  // Every message behind the first ones is newer than each of them
  ghost predicate AllNewer(log: seq<Message>, had: nat) {
    forall x, y :: 0 <= x < had <= y < |log| ==> log[x].time < log[y].time
  }

  lemma PollCatchesUp(client: Client, was: seq<Message>, t: Tables, c: Id, k: nat, reply: seq<Message>)
    requires CaughtUp(client, was, k) && was <= Log(t.messages, c) && LogOk(t, c)
    requires IsReply(reply, t, c, client.anchor) && AllNewer(Log(t.messages, c), |was|)
    ensures CaughtUp(Received(client, reply), Log(t.messages, c), k)
  {
    var log, n := Log(t.messages, c), |was|;
    var a :| IsAnchor(client, was, a) && forall m :: m in was ==> m.time <= a.time;
    assert IsAnchor(client, log, a);
    ReplyIsLater(t, c, a, reply);
    SplitsBehind(was, log, a);
    LaterIsSuffix(log, n, a.time);
    Gathers(client.received, was, log, k, reply);
    var a' := NewAnchor(client, t, c, a, reply);
  }

  lemma Gathers(received: seq<Message>, was: seq<Message>, log: seq<Message>, k: nat, reply: seq<Message>)
    requires k < |was| && was <= log
    requires multiset(received) == multiset(was[k + 1..]) && multiset(reply) == multiset(log[|was|..])
    ensures multiset(received + reply) == multiset(log[k + 1..])
  {
    assert log[k + 1..] == was[k + 1..] + log[|was|..];
  }

  lemma SplitsBehind(was: seq<Message>, log: seq<Message>, a: Message)
    requires was <= log && AllNewer(log, |was|) && a in was && forall m :: m in was ==> m.time <= a.time
    ensures SplitsAt(log, |was|, a.time)
  {
    var x :| 0 <= x < |was| && was[x] == a;
    assert forall i :: 0 <= i < |was| ==> log[i] == was[i] && was[i] in was;
    assert log[x] == a;
  }

  lemma PollMisses(client: Client, was: seq<Message>, t: Tables, c: Id, k: nat, reply: seq<Message>) returns (p: nat)
    requires CaughtUp(client, was, k) && was <= Log(t.messages, c) && LogOk(t, c)
    requires IsReply(reply, t, c, client.anchor) && !AllNewer(Log(t.messages, c), |was|)
    ensures |was| <= p && Missed(Received(client, reply), Log(t.messages, c), p)
  {
    var log, n := Log(t.messages, c), |was|;
    var a :| IsAnchor(client, was, a) && forall m :: m in was ==> m.time <= a.time;
    var x, y :| 0 <= x < n <= y < |log| && log[x].time >= log[y].time;
    p := y;
    assert log[x] == was[x] && was[x] in was;
    assert IsAnchor(client, log, a);
    ReplyIsLater(t, c, a, reply);
    NotYetReceived(t, c, was, k, y, client.received);
    var a' := NewAnchor(client, t, c, a, reply);
  }

  lemma NotYetReceived(t: Tables, c: Id, was: seq<Message>, k: nat, y: nat, received: seq<Message>)
    requires IdsOk(t.messages) && was <= Log(t.messages, c) && |was| <= y < |Log(t.messages, c)|
    requires k < |was| && multiset(received) == multiset(was[k + 1..])
    ensures Log(t.messages, c)[y] !in received
  {
    var log := Log(t.messages, c);
    LogIds(t.messages, c);
    SameElements(received, was[k + 1..]);
    assert forall q :: 0 <= q < |was| ==> was[q] == log[q] && log[q].id != log[y].id;
  }

  // How much of the log a client has before poll i, if it has missed nothing
  function Had(states: seq<Tables>, c: Id, k: nat, i: nat): nat
    requires i <= |states|
  {
    if i == 0 then k + 1 else |Log(states[i - 1].messages, c)|
  }

  // What poll i finds that was not there before is newer than all that was
  ghost predicate FindsOnlyNewer(states: seq<Tables>, c: Id, k: nat, i: nat)
    requires i < |states|
  {
    AllNewer(Log(states[i].messages, c), Had(states, c, k, i))
  }

  // The first anchor is as new as all before it
  ghost predicate AnchorIsNewest(log: seq<Message>, k: nat)
    requires k < |log|
  {
    forall x :: 0 <= x < k ==> log[x].time <= log[k].time
  }

  // The log the client saw before poll i
  function LogSeen(states: seq<Tables>, c: Id, k: nat, i: nat): seq<Message>
    requires i <= |states| && 0 < |states| && k < |Log(states[0].messages, c)|
  {
    if i == 0 then Log(states[0].messages, c)[..k + 1] else Log(states[i - 1].messages, c)
  }

  // A client that starts with message k as its anchor and polls in these states
  ghost predicate PollsFrom(clients: seq<Client>, replies: seq<seq<Message>>, states: seq<Tables>, c: Id, k: nat) {
    && IsHistory(states, c) && IsPolling(clients, replies, states, c)
    && 0 < |states| && k < |Log(states[0].messages, c)|
    && clients[0] == Client(Log(states[0].messages, c)[k].id, [])
  }

  // What poll i starts from
  lemma OnePoll(clients: seq<Client>, replies: seq<seq<Message>>, states: seq<Tables>, c: Id, k: nat, i: nat)
    requires PollsFrom(clients, replies, states, c, k) && i < |states|
    ensures LogOk(states[i], c) && IsReply(replies[i], states[i], c, clients[i].anchor)
    ensures LogSeen(states, c, k, i) <= Log(states[i].messages, c) == LogSeen(states, c, k, i + 1)
    ensures |LogSeen(states, c, k, i)| == Had(states, c, k, i)
    ensures clients[i + 1] == Received(clients[i], replies[i])
  {
  }

  lemma CaughtUpFirst(clients: seq<Client>, replies: seq<seq<Message>>, states: seq<Tables>, c: Id, k: nat)
    requires PollsFrom(clients, replies, states, c, k) && AnchorIsNewest(Log(states[0].messages, c), k)
    ensures CaughtUp(clients[0], LogSeen(states, c, k, 0), k)
  {
    var log := Log(states[0].messages, c);
    var was := log[..k + 1];
    assert IsAnchor(clients[0], was, was[k]);
    assert was[k + 1..] == [];
    forall m | m in was ensures m.time <= was[k].time {
      var x :| 0 <= x < |was| && was[x] == m;
      assert x < k ==> log[x].time <= log[k].time;
    }
  }

  // Otherwise the first poll sends what is before the anchor
  lemma ExtraFirst(clients: seq<Client>, replies: seq<seq<Message>>, states: seq<Tables>, c: Id, k: nat)
    returns (x: nat)
    requires PollsFrom(clients, replies, states, c, k) && !AnchorIsNewest(Log(states[0].messages, c), k)
    ensures x < k && Log(states[0].messages, c)[x] in clients[1].received
  {
    var log := Log(states[0].messages, c);
    x :| 0 <= x < k && log[x].time > log[k].time;
    OnePoll(clients, replies, states, c, k, 0);
    ReplyIsLater(states[0], c, log[k], replies[0]);
    assert log[x] in replies[0];
  }

  lemma {:induction false} ReceivedStays(clients: seq<Client>, replies: seq<seq<Message>>, states: seq<Tables>,
                                         c: Id, k: nat, i: nat, m: Message)
    requires PollsFrom(clients, replies, states, c, k) && i <= |states| && m in clients[i].received
    ensures m in clients[|states|].received
    decreases |states| - i
  {
    if i < |states| {
      OnePoll(clients, replies, states, c, k, i);
      ReceivedStays(clients, replies, states, c, k, i + 1, m);
    }
  }

  lemma CaughtUpNext(clients: seq<Client>, replies: seq<seq<Message>>, states: seq<Tables>, c: Id, k: nat, i: nat)
    requires PollsFrom(clients, replies, states, c, k) && i < |states|
    requires CaughtUp(clients[i], LogSeen(states, c, k, i), k) && FindsOnlyNewer(states, c, k, i)
    ensures CaughtUp(clients[i + 1], LogSeen(states, c, k, i + 1), k)
  {
    OnePoll(clients, replies, states, c, k, i);
    PollCatchesUp(clients[i], LogSeen(states, c, k, i), states[i], c, k, replies[i]);
  }

  lemma MissedFirst(clients: seq<Client>, replies: seq<seq<Message>>, states: seq<Tables>, c: Id, k: nat, i: nat)
    returns (p: nat)
    requires PollsFrom(clients, replies, states, c, k) && i < |states|
    requires CaughtUp(clients[i], LogSeen(states, c, k, i), k) && !FindsOnlyNewer(states, c, k, i)
    ensures k < p && Missed(clients[i + 1], LogSeen(states, c, k, i + 1), p)
  {
    OnePoll(clients, replies, states, c, k, i);
    p := PollMisses(clients[i], LogSeen(states, c, k, i), states[i], c, k, replies[i]);
  }

  lemma MissedNext(clients: seq<Client>, replies: seq<seq<Message>>, states: seq<Tables>, c: Id, k: nat, i: nat, p: nat)
    requires PollsFrom(clients, replies, states, c, k) && i < |states|
    requires Missed(clients[i], LogSeen(states, c, k, i), p)
    ensures Missed(clients[i + 1], LogSeen(states, c, k, i + 1), p)
  {
    OnePoll(clients, replies, states, c, k, i);
    MissedForGood(clients[i], LogSeen(states, c, k, i), states[i], c, p, replies[i]);
  }

  lemma {:induction false} CaughtUpUntil(clients: seq<Client>, replies: seq<seq<Message>>, states: seq<Tables>,
                                         c: Id, k: nat, n: nat)
    requires PollsFrom(clients, replies, states, c, k) && n <= |states|
    requires AnchorIsNewest(Log(states[0].messages, c), k)
    requires forall i :: 0 <= i < n ==> FindsOnlyNewer(states, c, k, i)
    ensures CaughtUp(clients[n], LogSeen(states, c, k, n), k)
  {
    if n == 0 {
      CaughtUpFirst(clients, replies, states, c, k);
    } else {
      CaughtUpUntil(clients, replies, states, c, k, n - 1);
      CaughtUpNext(clients, replies, states, c, k, n - 1);
    }
  }

  lemma {:induction false} MissedToTheEnd(clients: seq<Client>, replies: seq<seq<Message>>, states: seq<Tables>,
                                          c: Id, k: nat, i: nat, p: nat)
    requires PollsFrom(clients, replies, states, c, k) && i <= |states|
    requires Missed(clients[i], LogSeen(states, c, k, i), p)
    ensures Missed(clients[|states|], LogSeen(states, c, k, |states|), p)
    decreases |states| - i
  {
    if i < |states| {
      MissedNext(clients, replies, states, c, k, i, p);
      MissedToTheEnd(clients, replies, states, c, k, i + 1, p);
    }
  }

  lemma {:induction false} FirstNotNewer(states: seq<Tables>, c: Id, k: nat, n: nat) returns (j: nat)
    requires n <= |states| && exists i :: 0 <= i < n && !FindsOnlyNewer(states, c, k, i)
    ensures j < n && !FindsOnlyNewer(states, c, k, j) && forall i :: 0 <= i < j ==> FindsOnlyNewer(states, c, k, i)
  {
    if exists i :: 0 <= i < n - 1 && !FindsOnlyNewer(states, c, k, i) {
      j := FirstNotNewer(states, c, k, n - 1);
    } else {
      j := n - 1;
    }
  }

  lemma LostForGood(clients: seq<Client>, replies: seq<seq<Message>>, states: seq<Tables>, c: Id, k: nat)
    returns (p: nat)
    requires PollsFrom(clients, replies, states, c, k) && AnchorIsNewest(Log(states[0].messages, c), k)
    requires exists i :: 0 <= i < |states| && !FindsOnlyNewer(states, c, k, i)
    ensures var log := Log(states[|states| - 1].messages, c);
            k < p < |log| && log[p] !in clients[|states|].received
  {
    var j := FirstNotNewer(states, c, k, |states|);
    CaughtUpUntil(clients, replies, states, c, k, j);
    p := MissedFirst(clients, replies, states, c, k, j);
    MissedToTheEnd(clients, replies, states, c, k, j + 1, p);
  }

  lemma SentTwice(clients: seq<Client>, replies: seq<seq<Message>>, states: seq<Tables>, c: Id, k: nat)
    returns (x: nat)
    requires PollsFrom(clients, replies, states, c, k) && !AnchorIsNewest(Log(states[0].messages, c), k)
    ensures var log := Log(states[|states| - 1].messages, c);
            x < k < |log| && log[x] in clients[|states|].received
  {
    x := ExtraFirst(clients, replies, states, c, k);
    ReceivedStays(clients, replies, states, c, k, 1, Log(states[0].messages, c)[x]);
    LogsGrow(states, c);
  }

  lemma LogsGrow(states: seq<Tables>, c: Id)
    requires IsHistory(states, c) && states != []
    ensures Log(states[0].messages, c) <= Log(states[|states| - 1].messages, c)
  {
  }

  // In the end the client has exactly the messages behind its first anchor
  ghost predicate GatheredAll(clients: seq<Client>, states: seq<Tables>, c: Id, k: nat) {
    && |clients| == |states| + 1 && states != []
    && var log := Log(states[|states| - 1].messages, c);
    k < |log| && multiset(clients[|states|].received) == multiset(log[k + 1..])
  }

  ghost predicate AlwaysOnlyNewer(states: seq<Tables>, c: Id, k: nat) {
    && states != [] && k < |Log(states[0].messages, c)| && AnchorIsNewest(Log(states[0].messages, c), k)
    && forall i :: 0 <= i < |states| ==> FindsOnlyNewer(states, c, k, i)
  }

  /** A client that polls again and again, each time from the last message it has, gathers all that was
      posted behind its first anchor and nothing else if and only if the anchor is as new as all before
      it, and whatever a poll finds that was not there before is newer than all that was. */
  lemma PollsGatherExactlyTheNewer(clients: seq<Client>, replies: seq<seq<Message>>, states: seq<Tables>,
                                   c: Id, k: nat)
    requires PollsFrom(clients, replies, states, c, k)
    ensures GatheredAll(clients, states, c, k) <==> AlwaysOnlyNewer(states, c, k)
  {
    if !AnchorIsNewest(Log(states[0].messages, c), k) {
      SentTwiceSpoils(clients, replies, states, c, k);
    } else if forall i :: 0 <= i < |states| ==> FindsOnlyNewer(states, c, k, i) {
      CaughtUpUntil(clients, replies, states, c, k, |states|);
    } else {
      LostSpoils(clients, replies, states, c, k);
    }
  }

  lemma SentTwiceSpoils(clients: seq<Client>, replies: seq<seq<Message>>, states: seq<Tables>, c: Id, k: nat)
    requires PollsFrom(clients, replies, states, c, k) && !AnchorIsNewest(Log(states[0].messages, c), k)
    ensures !GatheredAll(clients, states, c, k)
  {
    var x := SentTwice(clients, replies, states, c, k);
    OccursOnce(states[|states| - 1], c, x, k + 1);
    var m := Log(states[|states| - 1].messages, c)[x];
    DifferentElements(clients[|states|].received, Log(states[|states| - 1].messages, c)[k + 1..], m);
  }

  lemma LostSpoils(clients: seq<Client>, replies: seq<seq<Message>>, states: seq<Tables>, c: Id, k: nat)
    requires PollsFrom(clients, replies, states, c, k) && AnchorIsNewest(Log(states[0].messages, c), k)
    requires exists i :: 0 <= i < |states| && !FindsOnlyNewer(states, c, k, i)
    ensures !GatheredAll(clients, states, c, k)
  {
    var p := LostForGood(clients, replies, states, c, k);
    LostFromSuffix(clients[|states|].received, Log(states[|states| - 1].messages, c), k, p);
  }

  lemma LostFromSuffix(received: seq<Message>, log: seq<Message>, k: nat, p: nat)
    requires k < p < |log| && log[p] !in received
    ensures multiset(received) != multiset(log[k + 1..])
  {
    assert log[p] == log[k + 1..][p - k - 1];
    DifferentElements(received, log[k + 1..], log[p]);
  }

  lemma DifferentElements(a: seq<Message>, b: seq<Message>, m: Message)
    requires (m in a) != (m in b)
    ensures multiset(a) != multiset(b)
  {
    assert m in multiset(a) <==> m in a;
  }

  // ---------- While the clock does not go back ----------

  // The next message behind those a client has is strictly newer
  predicate NextIsNewer(log: seq<Message>, had: nat) {
    0 < had < |log| ==> log[had - 1].time < log[had].time
  }

  // What poll i asks for begins with a message strictly newer than the one before it
  predicate NoTie(states: seq<Tables>, c: Id, k: nat, i: nat)
    requires i < |states|
  {
    NextIsNewer(Log(states[i].messages, c), Had(states, c, k, i))
  }

  ghost predicate NeverATie(states: seq<Tables>, c: Id, k: nat) {
    forall i :: 0 <= i < |states| ==> NoTie(states, c, k, i)
  }

  // In an ordered log only a tie can keep anything back
  lemma OnlyTies(log: seq<Message>, had: nat)
    requires NeverDescending(log)
    ensures AllNewer(log, had) <==> NextIsNewer(log, had)
  {
    if NextIsNewer(log, had) {
      forall x, y | 0 <= x < had <= y < |log| ensures log[x].time < log[y].time {
        assert log[x].time <= log[had - 1].time < log[had].time <= log[y].time;
      }
    }
  }

  // Then the client gathers everything exactly if no poll meets a tie
  lemma PollsGatherExactlyWithoutTies(clients: seq<Client>, replies: seq<seq<Message>>, states: seq<Tables>,
                                      c: Id, k: nat)
    requires PollsFrom(clients, replies, states, c, k)
    requires forall i :: 0 <= i < |states| ==> NeverDescending(Log(states[i].messages, c))
    ensures GatheredAll(clients, states, c, k) <==> NeverATie(states, c, k)
  {
    PollsGatherExactlyTheNewer(clients, replies, states, c, k);
    assert NeverDescending(Log(states[0].messages, c));
    forall i | 0 <= i < |states| ensures FindsOnlyNewer(states, c, k, i) <==> NoTie(states, c, k, i) {
      OnlyTies(Log(states[i].messages, c), Had(states, c, k, i));
    }
  }

  ghost predicate HasTheLog(client: Client, log: seq<Message>, k: nat) {
    k < |log| && client.received == log[k + 1..] && client.anchor == log[|log| - 1].id
  }

  lemma PollInOrder(client: Client, was: seq<Message>, t: Tables, c: Id, k: nat, reply: seq<Message>)
    requires HasTheLog(client, was, k) && was <= Log(t.messages, c) && LogOk(t, c)
    requires Ascending(Log(t.messages, c)) && IsReply(reply, t, c, client.anchor)
    ensures HasTheLog(Received(client, reply), Log(t.messages, c), k)
  {
    var log, n := Log(t.messages, c), |was|;
    PollIsTheLog(t, c, n, client.anchor, reply);
    HasTheRest(client, was, log, k, reply);
  }

  lemma HasTheRest(client: Client, was: seq<Message>, log: seq<Message>, k: nat, reply: seq<Message>)
    requires HasTheLog(client, was, k) && was <= log && reply == log[|was|..]
    ensures HasTheLog(Received(client, reply), log, k)
  {
    assert log == was + reply;
    assert (was + reply)[k + 1..] == was[k + 1..] + reply;
    if reply != [] {
      assert log[|log| - 1] == reply[|reply| - 1];
    }
  }

  lemma InOrderFirst(clients: seq<Client>, replies: seq<seq<Message>>, states: seq<Tables>, c: Id, k: nat)
    requires PollsFrom(clients, replies, states, c, k)
    ensures HasTheLog(clients[0], LogSeen(states, c, k, 0), k)
  {
    var was := Log(states[0].messages, c)[..k + 1];
    assert was[k + 1..] == [] && was[k] == Log(states[0].messages, c)[k];
  }

  lemma InOrderNext(clients: seq<Client>, replies: seq<seq<Message>>, states: seq<Tables>, c: Id, k: nat, i: nat)
    requires PollsFrom(clients, replies, states, c, k) && i < |states| && Ascending(Log(states[i].messages, c))
    requires HasTheLog(clients[i], LogSeen(states, c, k, i), k)
    ensures HasTheLog(clients[i + 1], LogSeen(states, c, k, i + 1), k)
  {
    OnePoll(clients, replies, states, c, k, i);
    PollInOrder(clients[i], LogSeen(states, c, k, i), states[i], c, k, replies[i]);
  }

  lemma {:induction false} InOrderUpTo(clients: seq<Client>, replies: seq<seq<Message>>, states: seq<Tables>,
                                       c: Id, k: nat, n: nat)
    requires PollsFrom(clients, replies, states, c, k) && n <= |states|
    requires forall i :: 0 <= i < |states| ==> Ascending(Log(states[i].messages, c))
    ensures HasTheLog(clients[n], LogSeen(states, c, k, n), k)
  {
    if n == 0 {
      InOrderFirst(clients, replies, states, c, k);
    } else {
      InOrderUpTo(clients, replies, states, c, k, n - 1);
      InOrderNext(clients, replies, states, c, k, n - 1);
    }
  }

  ghost predicate GatheredInOrder(clients: seq<Client>, states: seq<Tables>, c: Id, k: nat) {
    && |clients| == |states| + 1 && states != []
    && HasTheLog(clients[|states|], Log(states[|states| - 1].messages, c), k)
  }

  lemma PollsGatherInOrder(clients: seq<Client>, replies: seq<seq<Message>>, states: seq<Tables>, c: Id, k: nat)
    requires PollsFrom(clients, replies, states, c, k)
    requires forall i :: 0 <= i < |states| ==> Ascending(Log(states[i].messages, c))
    ensures GatheredInOrder(clients, states, c, k)
  {
    InOrderUpTo(clients, replies, states, c, k, |states|);
  }

  // ---------- Polling in a run ----------

  // The states a client sees that asks before these commands of a run
  function StatesAt(run: seq<Command>, moments: seq<nat>): seq<Tables>
    requires forall i :: 0 <= i < |moments| ==> moments[i] <= |run|
  {
    seq(|moments|, i requires 0 <= i < |moments| => Before(run, moments[i]))
  }

  // The moments go forward, and the chat lives between them
  ghost predicate AreMoments(run: seq<Command>, c: Id, moments: seq<nat>) {
    && (forall i :: 0 <= i < |moments| ==> moments[i] <= |run|)
    && (forall i, j :: 0 <= i < j < |moments| ==>
          moments[i] <= moments[j] && Lives(run, c, moments[i], moments[j]))
    && (forall i :: 0 <= i < |moments| ==> |Log(Before(run, moments[i]).messages, c)| < TWO_TO_THE_64)
  }

  lemma RunIsHistory(run: seq<Command>, c: Id, moments: seq<nat>)
    requires IsRun(run) && AreMoments(run, c, moments)
    ensures IsHistory(StatesAt(run, moments), c)
  {
    var states := StatesAt(run, moments);
    forall i | 0 <= i < |states| ensures LogOk(states[i], c) {
      ReachableMessages(run, c, moments[i]);
    }
    forall i, j | 0 <= i < j < |states| ensures Log(states[i].messages, c) <= Log(states[j].messages, c) {
      LogGrows(run, c, moments[i], moments[j]);
    }
  }

  // A client that polls at these moments of a run, message k being its first anchor
  ghost predicate PollsIn(run: seq<Command>, c: Id, moments: seq<nat>, k: nat, clients: seq<Client>,
                          replies: seq<seq<Message>>)
    requires AreMoments(run, c, moments)
  {
    var states := StatesAt(run, moments);
    && IsPolling(clients, replies, states, c)
    && 0 < |states| && k < |Log(states[0].messages, c)|
    && clients[0] == Client(Log(states[0].messages, c)[k].id, [])
  }

  lemma PollsInHistory(run: seq<Command>, c: Id, moments: seq<nat>, k: nat, clients: seq<Client>,
                       replies: seq<seq<Message>>)
    requires IsRun(run) && AreMoments(run, c, moments) && PollsIn(run, c, moments, k, clients, replies)
    ensures PollsFrom(clients, replies, StatesAt(run, moments), c, k)
  {
    RunIsHistory(run, c, moments);
  }

  lemma TimesAt(run: seq<Command>, c: Id, moments: seq<nat>)
    requires IsRun(run) && AreMoments(run, c, moments)
    ensures ClockNeverGoesBack(run, c) ==>
              forall t :: t in StatesAt(run, moments) ==> NeverDescending(Log(t.messages, c))
    ensures ClockAdvances(run, c) ==> forall t :: t in StatesAt(run, moments) ==> Ascending(Log(t.messages, c))
  {
    forall i | 0 <= i < |moments|
      ensures ClockNeverGoesBack(run, c) ==> NeverDescending(Log(Before(run, moments[i]).messages, c))
      ensures ClockAdvances(run, c) ==> Ascending(Log(Before(run, moments[i]).messages, c))
    {
      ReachableTimes(run, c, moments[i]);
    }
  }

  /** In a run of the server, while the chat lives, a client gathers exactly what is behind its first
      anchor if and only if the anchor is as new as all before it and every poll finds only newer messages
      than were there. While the clock does not go back over the posts to this chat, that is: if and only
      if no poll meets a tie. While it advances with each of them the client gathers the very log. */
  lemma PollsGatherTheLog(run: seq<Command>, c: Id, moments: seq<nat>, k: nat, clients: seq<Client>,
                          replies: seq<seq<Message>>)
    requires IsRun(run) && AreMoments(run, c, moments) && PollsIn(run, c, moments, k, clients, replies)
    ensures var states := StatesAt(run, moments);
            && (GatheredAll(clients, states, c, k) <==> AlwaysOnlyNewer(states, c, k))
            && (ClockNeverGoesBack(run, c) ==> (GatheredAll(clients, states, c, k) <==> NeverATie(states, c, k)))
            && (ClockAdvances(run, c) ==> GatheredInOrder(clients, states, c, k))
  {
    var states := StatesAt(run, moments);
    PollsInHistory(run, c, moments, k, clients, replies);
    TimesAt(run, c, moments);
    PollsGatherExactlyTheNewer(clients, replies, states, c, k);
    if ClockNeverGoesBack(run, c) {
      PollsGatherExactlyWithoutTies(clients, replies, states, c, k);
    }
    if ClockAdvances(run, c) {
      PollsGatherInOrder(clients, replies, states, c, k);
    }
  }
}
