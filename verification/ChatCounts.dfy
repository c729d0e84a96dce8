/** Counting chats and their members over every run: titles, double counting, the limit. */
module ChatCounts {
  import opened Entities
  import opened Tables
  import opened Server
  import opened ChatRuns
  import opened Validators
  import Chats

  // ---------- Private chats ----------

  lemma TwoRows(t: Tables, c: Id) returns (u: Id, v: Id)
    requires SizesOk(t) && KeysOk(t) && IsPrivate(t, c)
    ensures u != v && u in t.users && v in t.users && RowsOfChat(t, c) == {(u, c), (v, c)}
  {
    var rows := RowsOfChat(t, c);
    var p :| p in rows;
    assert |rows - {p}| == 1;
    var q :| q in rows - {p};
    assert |rows - {p} - {q}| == 0;
    assert rows == {p, q};
    u, v := p.0, q.0;
    assert p in t.party && q in t.party;
  }

  /** A private chat always has exactly two members, and they are different users. */
  lemma PrivateChatHasTwoMembers(run: seq<Command>, c: Id)
    requires IsRun(run) && IsPrivate(After(run), c)
    ensures exists u, v :: && u != v && u in After(run).users && v in After(run).users
                           && RowsOfChat(After(run), c) == {(u, c), (v, c)}
  {
    ReachableChats(run);
    var u, v := TwoRows(After(run), c);
  }

  lemma OneTitle(t: Tables, u: Id, c: Id)
    requires SizesOk(t) && KeysOk(t) && IsPrivate(t, c) && (u, c) in t.party
    ensures |TitleRows(t, u, c)| == 1
  {
    var x, y := TwoRows(t, c);
    assert (u, c) in RowsOfChat(t, c);
    var other := if u == x then y else x;
    assert (other, c) in RowsOfChat(t, c);
    forall p | p in TitleRows(t, u, c) ensures p == (other, c) {
      assert p in RowsOfChat(t, c);
    }
    assert TitleRows(t, u, c) == {(other, c)};
  }

  /** The scalar sub-select for the title of a private chat always yields exactly one row, so
      reading a chat's description never fails for a participant. */
  lemma TitleOfPrivateChat(run: seq<Command>, u: Id, c: Id)
    requires IsRun(run) && (u, c) in After(run).party
    ensures IsPrivate(After(run), c) ==> |TitleRows(After(run), u, c)| == 1
    ensures GetChatInfo(After(run), u, c).ChatInfo?
  {
    ReachableChats(run);
    if IsPrivate(After(run), c) {
      OneTitle(After(run), u, c);
    }
  }

  // What leaving does to the rows and messages of the chat and of the others
  ghost predicate LeavesChat(t: Tables, t': Tables, u: Id, c: Id) {
    && RowsOfChat(t', c) == (if c in t'.chats then RowsOfChat(t, c) - {(u, c)} else {})
    && (forall d :: d != c ==> RowsOfChat(t', d) == RowsOfChat(t, d) && (d in t'.chats <==> d in t.chats))
    && (forall m :: m in t'.messages <==> m in t.messages && (c in t'.chats || m.chatId != c))
  }

  lemma LeaveEffect(t: Tables, u: Id, c: Id)
    requires SizesOk(t) && KeysOk(t) && (u, c) in t.party
    ensures LeavesChat(t, Chats.Leave(t, u, c).0, u, c)
    ensures c !in Chats.Leave(t, u, c).0.chats <==> IsDead(t.chats[c].(size := t.chats[c].size - 1))
  {
    MessagesOutsideElements(t.messages, c);
  }

  /** Leaving ends the caller's membership and nobody else's, unless it ends the chat: it does so
      exactly for a private chat or the last member, and then with every row and message of it. */
  lemma LeaveEndsChat(run: seq<Command>, u: Id, c: Id)
    requires IsRun(run) && (u, c) in After(run).party
    ensures LeavesChat(After(run), Chats.Leave(After(run), u, c).0, u, c)
    ensures c !in Chats.Leave(After(run), u, c).0.chats <==>
            IsPrivate(After(run), c) || RowsOfChat(After(run), c) == {(u, c)}
  {
    var t := After(run);
    ReachableChats(run);
    LeaveEffect(t, u, c);
    assert (u, c) in RowsOfChat(t, c);
    assert RowsOfChat(t, c) == RowsOfChat(t, c) - {(u, c)} + {(u, c)};
  }

  // ---------- Double counting ----------

  ghost function Pick(s: set<Id>): Id
    requires s != {}
    ensures Pick(s) in s
  {
    var x :| x in s; x
  }

  // The sizes of some chats, summed
  ghost function SumOfSizes(t: Tables, cs: set<Id>): int
    requires cs <= t.chats.Keys
  {
    if cs == {} then 0 else t.chats[Pick(cs)].size + SumOfSizes(t, cs - {Pick(cs)})
  }

  // The chat counts of some users, summed
  ghost function SumOfCounts(t: Tables, us: set<Id>): nat {
    if us == {} then 0 else ChatsCount(t, Pick(us)) + SumOfCounts(t, us - {Pick(us)})
  }

  lemma {:induction false} RowsByChat(t: Tables, cs: set<Id>)
    requires SizesOk(t) && cs <= t.chats.Keys
    ensures |set p | p in t.party && p.1 in cs| == SumOfSizes(t, cs)
  {
    var rows := set p | p in t.party && p.1 in cs;
    if cs == {} {
      assert rows == {};
    } else {
      var c := Pick(cs);
      RowsByChat(t, cs - {c});
      var others := set p | p in t.party && p.1 in cs - {c};
      assert rows == RowsOfChat(t, c) + others && RowsOfChat(t, c) !! others;
    }
  }

  lemma {:induction false} RowsByUser(t: Tables, us: set<Id>)
    ensures |set p | p in t.party && p.0 in us| == SumOfCounts(t, us)
  {
    var rows := set p | p in t.party && p.0 in us;
    if us == {} {
      assert rows == {};
    } else {
      var u := Pick(us);
      RowsByUser(t, us - {u});
      var others := set p | p in t.party && p.0 in us - {u};
      assert rows == RowsOfUser(t, u) + others && RowsOfUser(t, u) !! others;
    }
  }

  /** The sizes of all chats, the party rows, and the chat counts of all users add up to one number. */
  lemma DoubleCounting(run: seq<Command>)
    requires IsRun(run)
    ensures var t := After(run);
            SumOfSizes(t, t.chats.Keys) == |t.party| == SumOfCounts(t, t.users.Keys)
  {
    var t := After(run);
    ReachableChats(run);
    RowsByChat(t, t.chats.Keys);
    RowsByUser(t, t.users.Keys);
    assert (set p | p in t.party && p.1 in t.chats.Keys) == t.party;
    assert (set p | p in t.party && p.0 in t.users.Keys) == t.party;
  }

  // ---------- The limit of 512 chats ----------

  // A chat_add, which nothing forbids, of a user who already has the maximal number of chats
  predicate Overfills(t: Tables, c: Command) {
    && c.ChatAdd? && Chats.AddRefusal(t, c.caller, c.chat, c.user) == Okey
    && ChatsCount(t, c.user) == Chats.MAX_CHATS_COUNT_TO_JOIN
  }

  ghost predicate WithinLimit(t: Tables) {
    forall u :: ChatsCount(t, u) <= Chats.MAX_CHATS_COUNT_TO_JOIN
  }

  lemma WithChatCounts(t: Tables, id: Id, chat: Chat, members: set<Id>, u: Id)
    requires forall w :: w in members ==> (w, id) !in t.party
    ensures ChatsCount(Chats.WithChat(t, id, chat, members), u) == ChatsCount(t, u) + if u in members then 1 else 0
  {
    var t' := Chats.WithChat(t, id, chat, members);
    assert RowsOfUser(t', u) == RowsOfUser(t, u) + if u in members then {(u, id)} else {};
  }

  lemma FewerRowsCounts(t: Tables, t': Tables, u: Id)
    requires t'.party <= t.party
    ensures ChatsCount(t', u) <= ChatsCount(t, u)
  {
    assert RowsOfUser(t', u) <= RowsOfUser(t, u);
    assert RowsOfUser(t, u) == RowsOfUser(t', u) + (RowsOfUser(t, u) - RowsOfUser(t', u));
  }

  lemma CreateKeepsLimit(t: Tables, caller: Id, subject: string, id: Id)
    requires KeysOk(t) && WithinLimit(t) && id !in t.chats
    ensures WithinLimit(Chats.CreatePrivate(t, caller, subject, id).0)
    ensures WithinLimit(Chats.CreatePublic(t, caller, subject, id).0)
  {
    forall u ensures ChatsCount(Chats.CreatePrivate(t, caller, subject, id).0, u) <= Chats.MAX_CHATS_COUNT_TO_JOIN {
      WithChatCounts(t, id, Chat(Private, None, 2), {caller, subject}, u);
      assert ChatsCount(t, u) <= Chats.MAX_CHATS_COUNT_TO_JOIN;
      FewerRowsCounts(t, t.(chats := t.chats[id := Chat(Private, None, 2)]), u);
    }
    forall u ensures ChatsCount(Chats.CreatePublic(t, caller, subject, id).0, u) <= Chats.MAX_CHATS_COUNT_TO_JOIN {
      WithChatCounts(t, id, Chat(Public, Some(subject), 1), {caller}, u);
      assert ChatsCount(t, u) <= Chats.MAX_CHATS_COUNT_TO_JOIN;
      FewerRowsCounts(t, t.(chats := t.chats[id := Chat(Public, Some(subject), 1)]), u);
    }
  }

  lemma AddKeepsLimit(t: Tables, caller: Id, chat: Id, user: Id)
    requires WithinLimit(t)
    ensures WithinLimit(Chats.Add(t, caller, chat, user).0) <==> !Overfills(t, ChatAdd(caller, chat, user))
  {
    var t' := Chats.Add(t, caller, chat, user).0;
    if Chats.AddRefusal(t, caller, chat, user) == Okey {
      var row := t.chats[chat].(size := t.chats[chat].size + 1);
      forall u ensures ChatsCount(t', u) == ChatsCount(t, u) + if u == user then 1 else 0 {
        WithChatCounts(t, chat, row, {user}, u);
      }
    }
  }

  lemma LeaveKeepsLimit(t: Tables, t': Tables)
    requires WithinLimit(t) && t'.party <= t.party
    ensures WithinLimit(t')
  {
    forall u ensures ChatsCount(t', u) <= Chats.MAX_CHATS_COUNT_TO_JOIN {
      FewerRowsCounts(t, t', u);
    }
  }

  lemma StepKeepsLimit(t: Tables, c: Command)
    requires ChatsOk(t) && WithinLimit(t) && Enabled(t, c)
    ensures WithinLimit(Step(t, c).0) <==> !Overfills(t, c)
  {
    match c {
      case ChatCreatePrivate(caller, user, id) => CreateKeepsLimit(t, caller, user, id);
      case ChatCreatePublic(caller, title, id) => CreateKeepsLimit(t, caller, title, id);
      case ChatAdd(caller, chat, user) => AddKeepsLimit(t, caller, chat, user);
      case ChatLeave(caller, chat) => LeaveKeepsLimit(t, Step(t, c).0);
      case ChatPost(message, fileSize) => LeaveKeepsLimit(t, Step(t, c).0);
      case _ => OthersKeepChats(t, c); LeaveKeepsLimit(t, Step(t, c).0);
    }
  }

  lemma LimitNext(run: seq<Command>, n: nat)
    requires IsRun(run) && n < |run| && WithinLimit(Before(run, n))
    ensures WithinLimit(Before(run, n + 1)) <==> !Overfills(Before(run, n), run[n])
  {
    RunPrefix(run, n);
    ReachableChats(run[..n]);
    StepKeepsLimit(Before(run, n), run[n]);
    BeforeNext(run, n);
  }

  lemma {:induction false} WithinLimitUpTo(run: seq<Command>, n: nat)
    requires IsRun(run) && n <= |run|
    requires forall i :: 0 <= i < n ==> !Overfills(Before(run, i), run[i])
    ensures WithinLimit(Before(run, n))
  {
    if n == 0 {
      forall u ensures ChatsCount(EMPTY_TABLES, u) == 0 {
        assert RowsOfUser(EMPTY_TABLES, u) == {};
      }
    } else {
      WithinLimitUpTo(run, n - 1);
      LimitNext(run, n - 1);
    }
  }

  /** Nobody is ever in more than 512 chats exactly when no chat_add succeeds for a user who is in
      512: creating a chat checks the limit, adding to one does not. */
  lemma LimitHoldsExactlyWithoutOverfill(run: seq<Command>)
    requires IsRun(run)
    ensures (forall n :: 0 <= n <= |run| ==> WithinLimit(Before(run, n))) <==>
            (forall i :: 0 <= i < |run| ==> !Overfills(Before(run, i), run[i]))
  {
    if forall i :: 0 <= i < |run| ==> !Overfills(Before(run, i), run[i]) {
      forall n | 0 <= n <= |run| ensures WithinLimit(Before(run, n)) {
        WithinLimitUpTo(run, n);
      }
    }
    if forall n :: 0 <= n <= |run| ==> WithinLimit(Before(run, n)) {
      forall i | 0 <= i < |run| ensures !Overfills(Before(run, i), run[i]) {
        assert WithinLimit(Before(run, i)) && WithinLimit(Before(run, i + 1));
        LimitNext(run, i);
      }
    }
  }

  /** Past the limit the check for exactly 512 no longer stops anyone. */
  lemma CreateAboveLimit(t: Tables, u: Id, title: string, id: Id)
    requires u in t.users && ChatsCount(t, u) > Chats.MAX_CHATS_COUNT_TO_JOIN && IsChatName(title)
    requires KeysOk(t) && id !in t.chats
    ensures Chats.CreatePublic(t, u, title, id).1 == Okey
    ensures ChatsCount(Chats.CreatePublic(t, u, title, id).0, u) == ChatsCount(t, u) + 1
  {
    WithChatCounts(t, id, Chat(Public, Some(title), 1), {u}, u);
  }
}
