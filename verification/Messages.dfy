/** Reading a chat's messages: windows of the newest-first list, and polling for what is new. */
module Messages {
  import opened Entities
  import opened Tables
  import opened Server
  import opened ChatRuns
  import Chats

  // ---------- The log of a chat ----------

  function Log(ms: seq<Message>, c: Id): seq<Message> {
    if ms == [] then []
    else Log(ms[..|ms| - 1], c) + if ms[|ms| - 1].chatId == c then [ms[|ms| - 1]] else []
  }

  ghost predicate Ascending(log: seq<Message>) {
    forall i, j :: 0 <= i < j < |log| ==> log[i].time < log[j].time
  }

  ghost predicate NeverDescending(log: seq<Message>) {
    forall i, j :: 0 <= i < j < |log| ==> log[i].time <= log[j].time
  }

  function Reversed(s: seq<Message>): seq<Message> {
    seq(|s|, i requires 0 <= i < |s| => s[|s| - 1 - i])
  }

  // The messages of a log after a time
  function Later(log: seq<Message>, time: int): seq<Message> {
    if log == [] then []
    else Later(log[..|log| - 1], time) + if log[|log| - 1].time > time then [log[|log| - 1]] else []
  }

  // ---------- The query ----------

  // The time of a message looked up by id alone; a missing one compares with nothing
  function AnchorTime(ms: seq<Message>, id: Id): Option<int> {
    if ms == [] then None
    else if ms[|ms| - 1].id == id then Some(ms[|ms| - 1].time)
    else AnchorTime(ms[..|ms| - 1], id)
  }

  // The join with the table of users: messages whose sender has a row
  function WithSender(log: seq<Message>, users: map<Id, User>): seq<Message> {
    if log == [] then []
    else WithSender(log[..|log| - 1], users) + if log[|log| - 1].senderId in users then [log[|log| - 1]] else []
  }

  // The rows the query selects, before ordering and limiting
  function Selected(t: Tables, c: Id, last: Option<Id>): seq<Message> {
    var rows := WithSender(Log(t.messages, c), t.users);
    match last
    case None => rows
    case Some(id) =>
      match AnchorTime(t.messages, id)
      case None => []
      case Some(time) => Later(rows, time)
  }

  lemma {:induction false} JoinElements(log: seq<Message>, users: map<Id, User>)
    ensures forall m :: m in WithSender(log, users) <==> m in log && m.senderId in users
  {
    if log != [] {
      JoinElements(log[..|log| - 1], users);
      assert log == log[..|log| - 1] + [log[|log| - 1]];
    }
  }

  lemma {:induction false} JoinKeepsAll(log: seq<Message>, users: map<Id, User>)
    ensures WithSender(log, users) == log <==> forall m :: m in log ==> m.senderId in users
    ensures |WithSender(log, users)| <= |log|
  {
    if log != [] {
      var n := |log| - 1;
      JoinKeepsAll(log[..n], users);
      assert log == log[..n] + [log[n]];
      if log[n].senderId in users && WithSender(log, users) == log {
        assert WithSender(log[..n], users) == WithSender(log, users)[..n];
      }
    }
  }

  // While the keys are in order the join loses no row
  lemma JoinLosesNothing(t: Tables, c: Id)
    requires KeysOk(t)
    ensures WithSender(Log(t.messages, c), t.users) == Log(t.messages, c)
  {
    LogElements(t.messages, c);
    JoinKeepsAll(Log(t.messages, c), t.users);
  }

  function Window(rows: seq<Message>, offset: nat, limit: nat): seq<Message> {
    if offset >= |rows| then []
    else if limit < |rows| - offset then rows[offset..offset + limit]
    else rows[offset..]
  }

  // Newest first, then limited
  ghost predicate IsAnswer(rows: seq<Message>, t: Tables, c: Id, last: Option<Id>, offset: nat, limit: nat) {
    exists ordered: seq<Message> ::
      && multiset(ordered) == multiset(Selected(t, c, last))
      && NewestFirst(ordered)
      && rows == Window(ordered, offset, limit)
  }

  ghost predicate NewestFirst(rows: seq<Message>) {
    forall i, j :: 0 <= i < j < |rows| ==> rows[i].time >= rows[j].time
  }

  /** While times are strictly increasing the order leaves no choice: newest first is the log reversed. */
  lemma {:induction false} NewestFirstIsReversed(log: seq<Message>, rows: seq<Message>)
    requires Ascending(log) && NewestFirst(rows) && multiset(rows) == multiset(log)
    ensures rows == Reversed(log)
  {
    if log == [] {
      assert |multiset(rows)| == 0;
    } else {
      var n := |log| - 1;
      FirstIsNewest(log, rows);
      assert log == log[..n] + [rows[0]] && rows == [rows[0]] + rows[1..];
      SameRest(log[..n], rows[1..], rows[0]);
      NewestFirstIsReversed(log[..n], rows[1..]);
      assert Reversed(log) == [log[n]] + Reversed(log[..n]);
      assert rows == [rows[0]] + rows[1..];
    }
  }

  lemma SameRest(a: seq<Message>, b: seq<Message>, m: Message)
    requires multiset(a + [m]) == multiset([m] + b)
    ensures multiset(a) == multiset(b)
  {
    assert multiset(a) == multiset(a + [m]) - multiset{m};
    assert multiset(b) == multiset([m] + b) - multiset{m};
  }

  lemma FirstIsNewest(log: seq<Message>, rows: seq<Message>)
    requires log != [] && Ascending(log) && NewestFirst(rows) && multiset(rows) == multiset(log)
    ensures rows != [] && rows[0] == log[|log| - 1]
  {
    var newest := log[|log| - 1];
    assert newest in multiset(log);
    assert newest in rows;
    assert rows[0] in multiset(rows);
    assert rows[0] in log;
  }

  // ---------- The handler's loop ----------

  function Numbered(s: seq<Message>): map<int, Message> {
    map i | 0 <= i < |s| :: s[i]
  }

  /** Collects the answer from its last row to its first, numbering as it goes. */
  method CollectReply(messages: seq<Message>) returns (data: map<int, Message>)
    ensures data == Numbered(Reversed(messages))
  {
    data := map[];
    var i := |messages| - 1;
    while i >= 0
      invariant -1 <= i < |messages|
      invariant data == Numbered(Reversed(messages)[..|messages| - 1 - i])
      invariant |data| == |messages| - 1 - i
    {
      if |data| !in data {
        data := data[|data| := messages[i]];
      }
      i := i - 1;
    }
  }

  lemma ReversedTwice(s: seq<Message>)
    ensures Reversed(Reversed(s)) == s
  {
  }

  lemma {:induction false} ReversedElements(s: seq<Message>)
    ensures multiset(Reversed(s)) == multiset(s)
  {
    if s != [] {
      var n := |s| - 1;
      ReversedElements(s[..n]);
      assert Reversed(s) == [s[n]] + Reversed(s[..n]);
      assert s == s[..n] + [s[n]];
    }
  }

  lemma SameSize(a: seq<Message>, b: seq<Message>)
    requires multiset(a) == multiset(b)
    ensures |a| == |b|
  {
    assert |multiset(a)| == |multiset(b)|;
  }

  // The last messages of a log without as many as the offset says: at most the limit, oldest first
  ghost predicate IsWindow(reply: seq<Message>, log: seq<Message>, offset: nat, limit: nat) {
    && |reply| == (if offset >= |log| then 0 else if limit < |log| - offset then limit else |log| - offset)
    && forall i :: 0 <= i < |reply| ==> reply[i] == log[|log| - offset - |reply| + i]
  }

  /** The reply to a free selection runs forwards through some order of the log by time, and is the
      window of it counted from the end; with strictly increasing times the order is the log's own. */
  lemma AnyReply(t: Tables, c: Id, offset: nat, limit: nat, rows: seq<Message>)
    requires KeysOk(t) && IsAnswer(rows, t, c, None, offset, limit)
    ensures exists ordered: seq<Message> ::
              && multiset(ordered) == multiset(Log(t.messages, c)) && NeverDescending(ordered)
              && IsWindow(Reversed(rows), ordered, offset, limit)
    ensures Ascending(Log(t.messages, c)) ==> IsWindow(Reversed(rows), Log(t.messages, c), offset, limit)
  {
    var log := Log(t.messages, c);
    JoinLosesNothing(t, c);
    var newestFirst: seq<Message> :|
      multiset(newestFirst) == multiset(log) && NewestFirst(newestFirst) && rows == Window(newestFirst, offset, limit);
    var ordered := Reversed(newestFirst);
    ReversedElements(newestFirst);
    ReversedInOrder(newestFirst);
    WindowReversed(newestFirst, offset, limit);
    if Ascending(log) {
      NewestFirstIsReversed(log, newestFirst);
      ReversedTwice(log);
    }
  }

  lemma ReversedInOrder(s: seq<Message>)
    ensures NewestFirst(s) ==> NeverDescending(Reversed(s))
    ensures NewestFirst(Reversed(s)) ==> NeverDescending(s)
  {
    var r := Reversed(s);
    if NewestFirst(r) {
      forall i, j | 0 <= i < j < |s| ensures s[i].time <= s[j].time {
        assert s[i] == r[|s| - 1 - i] && s[j] == r[|s| - 1 - j];
      }
    }
  }

  lemma WindowReversed(rows: seq<Message>, offset: nat, limit: nat)
    ensures IsWindow(Reversed(Window(rows, offset, limit)), Reversed(rows), offset, limit)
  {
  }

  // ---------- What is later than a time ----------

  // The messages after some place are those after a time
  ghost predicate SplitsAt(log: seq<Message>, m: nat, time: int) {
    && m <= |log|
    && (forall i :: 0 <= i < m ==> log[i].time <= time)
    && (forall i :: m <= i < |log| ==> log[i].time > time)
  }

  lemma {:induction false} LaterElements(log: seq<Message>, time: int)
    ensures forall m :: m in Later(log, time) <==> m in log && m.time > time
    ensures |Later(log, time)| <= |log|
  {
    if log != [] {
      LaterElements(log[..|log| - 1], time);
      assert log == log[..|log| - 1] + [log[|log| - 1]];
    }
  }

  lemma {:induction false} LaterIsSuffix(log: seq<Message>, m: nat, time: int)
    requires SplitsAt(log, m, time)
    ensures Later(log, time) == log[m..]
  {
    if log != [] {
      var n := |log| - 1;
      if m <= n {
        LaterIsSuffix(log[..n], m, time);
        assert log[m..] == log[..n][m..] + [log[n]];
      } else {
        LaterIsSuffix(log[..n], n, time);
      }
    }
  }

  lemma {:induction false} InOrderSplits(log: seq<Message>, time: int) returns (m: nat)
    requires NeverDescending(log)
    ensures SplitsAt(log, m, time)
  {
    if log == [] || log[|log| - 1].time <= time {
      m := |log|;
    } else {
      m := InOrderSplits(log[..|log| - 1], time);
    }
  }

  /** Asking for what is newer than a message yields exactly the messages after it if and only if
      the next one is strictly newer: with equal times it would be missed. */
  lemma NewerIsSuffix(log: seq<Message>, k: nat)
    requires NeverDescending(log) && k < |log|
    ensures Later(log, log[k].time) == log[k + 1..] <==> k + 1 == |log| || log[k].time < log[k + 1].time
  {
    var m := InOrderSplits(log, log[k].time);
    LaterIsSuffix(log, m, log[k].time);
    assert k < m;
    assert |log[m..]| == |log| - m && |log[k + 1..]| == |log| - (k + 1);
  }

  // ---------- Logs over a run ----------

  lemma {:induction false} LogConcat(a: seq<Message>, b: seq<Message>, c: Id)
    ensures Log(a + b, c) == Log(a, c) + Log(b, c)
  {
    if b == [] {
      assert a + b == a;
    } else {
      var n := |b| - 1;
      LogConcat(a, b[..n], c);
      assert (a + b)[..|a| + n] == a + b[..n];
    }
  }

  lemma {:induction false} LogOutside(ms: seq<Message>, dead: Id, c: Id)
    requires dead != c
    ensures Log(MessagesOutside(ms, dead), c) == Log(ms, c)
  {
    if ms != [] {
      LogOutside(ms[1..], dead, c);
      var first := if ms[0].chatId == dead then [] else [ms[0]];
      LogConcat(first, MessagesOutside(ms[1..], dead), c);
      LogConcat([ms[0]], ms[1..], c);
      assert [ms[0]] + ms[1..] == ms;
      assert Log(first, c) == Log([ms[0]], c);
    }
  }

  lemma {:induction false} LogElements(ms: seq<Message>, c: Id)
    ensures forall m :: m in Log(ms, c) <==> m in ms && m.chatId == c
  {
    if ms != [] {
      LogElements(ms[..|ms| - 1], c);
      assert ms == ms[..|ms| - 1] + [ms[|ms| - 1]];
    }
  }

  ghost predicate IdsOk(ms: seq<Message>) {
    forall i, j :: 0 <= i < j < |ms| ==> ms[i].id != ms[j].id
  }

  // A message is posted to the chat at a later time than those already there
  ghost predicate ClockAdvances(run: seq<Command>, c: Id) {
    forall i, m :: 0 <= i < |run| && PostsTo(run[i], c) && m in Log(Before(run, i).messages, c) ==>
      m.time < run[i].message.time
  }

  ghost predicate ClockNeverGoesBack(run: seq<Command>, c: Id) {
    forall i, m :: 0 <= i < |run| && PostsTo(run[i], c) && m in Log(Before(run, i).messages, c) ==>
      m.time <= run[i].message.time
  }

  predicate PostsTo(cmd: Command, c: Id) {
    cmd.ChatPost? && cmd.message.chatId == c
  }

  lemma {:induction false} OutsideKeepsIds(ms: seq<Message>, dead: Id)
    requires IdsOk(ms)
    ensures IdsOk(MessagesOutside(ms, dead))
  {
    if ms != [] {
      OutsideKeepsIds(ms[1..], dead);
      MessagesOutsideElements(ms[1..], dead);
      var rest := MessagesOutside(ms[1..], dead);
      forall j | 0 <= j < |rest| ensures rest[j].id != ms[0].id {
        assert rest[j] in ms[1..];
        var k :| 0 <= k < |ms[1..]| && ms[1..][k] == rest[j];
        assert ms[k + 1] == rest[j];
      }
    }
  }

  lemma {:induction false} LogIds(ms: seq<Message>, c: Id)
    requires IdsOk(ms)
    ensures IdsOk(Log(ms, c))
  {
    if ms != [] {
      var n := |ms| - 1;
      LogIds(ms[..n], c);
      LogElements(ms[..n], c);
      var log := Log(ms[..n], c);
      forall j | 0 <= j < |log| ensures log[j].id != ms[n].id {
        assert log[j] in ms[..n];
      }
    }
  }

  // A command leaves the messages alone, adds one, or removes those of one chat with the chat
  lemma StepOnMessages(t: Tables, c: Command)
    requires ChatsOk(t)
    ensures var ms, ms' := t.messages, Step(t, c).0.messages;
            || ms' == ms
            || (c.ChatPost? && ms' == ms + [c.message] && Insertable(t, c.message))
            || (c.ChatLeave? && ms' == MessagesOutside(ms, c.chat) && c.chat !in Step(t, c).0.chats)
  {
    if c.ChatPost? {
    } else if c.ChatLeave? {
      assert Step(t, c) == Chats.Leave(t, c.caller, c.chat);
    } else if !ChangesChats(c) {
      OthersKeepChats(t, c);
    }
  }

  // So the log of a chat stays, grows by one message posted to it, or is gone with the chat
  lemma StepOnLog(t: Tables, cmd: Command, c: Id)
    requires ChatsOk(t)
    ensures var log, log' := Log(t.messages, c), Log(Step(t, cmd).0.messages, c);
            || log' == log
            || (PostsTo(cmd, c) && log' == log + [cmd.message])
            || (log' == [] && c !in Step(t, cmd).0.chats)
  {
    StepOnMessages(t, cmd);
    if cmd.ChatPost? {
      LogConcat(t.messages, [cmd.message], c);
    } else if cmd.ChatLeave? && cmd.chat != c {
      LogOutside(t.messages, cmd.chat, c);
    } else if cmd.ChatLeave? {
      var gone := MessagesOutside(t.messages, c);
      MessagesOutsideElements(t.messages, c);
      LogElements(gone, c);
      assert Log(gone, c) != [] ==> Log(gone, c)[0] in Log(gone, c);
    }
  }

  lemma StepKeepsIds(t: Tables, c: Command)
    requires ChatsOk(t) && IdsOk(t.messages)
    ensures IdsOk(Step(t, c).0.messages)
  {
    StepOnMessages(t, c);
    if c.ChatLeave? {
      OutsideKeepsIds(t.messages, c.chat);
    }
  }

  lemma IdsNext(run: seq<Command>, n: nat)
    requires IsRun(run) && n < |run| && IdsOk(Before(run, n).messages)
    ensures IdsOk(Before(run, n + 1).messages)
  {
    RunPrefix(run, n);
    ReachableChats(run[..n]);
    StepKeepsIds(Before(run, n), run[n]);
    BeforeNext(run, n);
  }

  lemma LogNext(run: seq<Command>, c: Id, n: nat)
    requires IsRun(run) && n < |run|
    ensures var log, log' := Log(Before(run, n).messages, c), Log(Before(run, n + 1).messages, c);
            || log' == log
            || (PostsTo(run[n], c) && log' == log + [run[n].message])
            || (log' == [] && c !in Before(run, n + 1).chats)
  {
    RunPrefix(run, n);
    ReachableChats(run[..n]);
    StepOnLog(Before(run, n), run[n], c);
    BeforeNext(run, n);
  }

  lemma TimesNext(run: seq<Command>, c: Id, n: nat)
    requires IsRun(run) && n < |run|
    ensures var log, log' := Log(Before(run, n).messages, c), Log(Before(run, n + 1).messages, c);
            && (ClockNeverGoesBack(run, c) && NeverDescending(log) ==> NeverDescending(log'))
            && (ClockAdvances(run, c) && Ascending(log) ==> Ascending(log'))
  {
    var log, log' := Log(Before(run, n).messages, c), Log(Before(run, n + 1).messages, c);
    LogNext(run, c, n);
    if PostsTo(run[n], c) && log' == log + [run[n].message] {
      assert forall i :: 0 <= i < |log| ==> log[i] in log && log'[i] == log[i];
    }
  }

  lemma {:induction false} ReachableIds(run: seq<Command>, n: nat)
    requires IsRun(run) && n <= |run|
    ensures IdsOk(Before(run, n).messages)
  {
    if n > 0 {
      ReachableIds(run, n - 1);
      IdsNext(run, n - 1);
    }
  }

  /** The times of a chat's messages are in order in every reachable state, or strictly so, if they
      are at every post to this chat. */
  lemma {:induction false} ReachableTimes(run: seq<Command>, c: Id, n: nat)
    requires IsRun(run) && n <= |run|
    ensures ClockNeverGoesBack(run, c) ==> NeverDescending(Log(Before(run, n).messages, c))
    ensures ClockAdvances(run, c) ==> Ascending(Log(Before(run, n).messages, c))
  {
    if n > 0 {
      ReachableTimes(run, c, n - 1);
      TimesNext(run, c, n - 1);
    }
  }

  /** Message ids are unique in every reachable state, and the join with the senders loses no row. */
  lemma ReachableMessages(run: seq<Command>, c: Id, n: nat)
    requires IsRun(run) && n <= |run|
    ensures IdsOk(Before(run, n).messages)
    ensures Selected(Before(run, n), c, None) == Log(Before(run, n).messages, c)
    ensures KeysOk(Before(run, n))
  {
    ReachableIds(run, n);
    RunPrefix(run, n);
    ReachableChats(run[..n]);
    JoinLosesNothing(Before(run, n), c);
  }

  // The chat exists throughout
  ghost predicate Lives(run: seq<Command>, c: Id, i: nat, j: nat)
    requires i <= j <= |run|
  {
    forall k :: i <= k <= j ==> c in Before(run, k).chats
  }

  /** While a chat lives its log only grows at the end. */
  lemma {:induction false} LogGrows(run: seq<Command>, c: Id, i: nat, j: nat)
    requires IsRun(run) && i <= j <= |run| && Lives(run, c, i, j)
    ensures Log(Before(run, i).messages, c) <= Log(Before(run, j).messages, c)
    decreases j - i
  {
    if i < j {
      LogGrows(run, c, i, j - 1);
      LogNext(run, c, j - 1);
    }
  }
}
