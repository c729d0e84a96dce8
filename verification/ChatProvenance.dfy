/** Where chats, memberships and messages come from: at every moment of a run they are exactly what the
    commands so far have made and not ended. */
module ChatProvenance {
  import opened Entities
  import opened Tables
  import opened Server
  import opened ContactRuns
  import opened ChatRuns
  import opened CommandEffects
  import ChatCounts
  import Chats

  // ---------- What commands do to one row ----------

  // The command opens the chat
  predicate Opens(t: Tables, c: Command, chat: Id) {
    (c.ChatCreatePrivate? || c.ChatCreatePublic?) && c.id == chat && Step(t, c).1 == Okey
  }

  // The command brings the user into the chat
  predicate Joins(t: Tables, c: Command, u: Id, chat: Id) {
    && Step(t, c).1 == Okey
    && match c
       case ChatCreatePrivate(caller, user, id) => id == chat && (u == caller || u == user)
       case ChatCreatePublic(caller, _, id) => id == chat && u == caller
       case ChatAdd(_, into, user) => into == chat && u == user
       case _ => false
  }

  // The caller leaves the chat
  predicate Leaves(t: Tables, c: Command, chat: Id) {
    c.ChatLeave? && c.chat == chat && Step(t, c).1 == Okey
  }

  // And so does the user, because it is the caller or because nobody is left in a private chat
  predicate Quits(t: Tables, c: Command, u: Id, chat: Id) {
    Leaves(t, c, chat) && (c.caller == u || IsPrivate(t, chat))
  }

  // And so the chat ends, a private one with either member, a public one with the last
  predicate Ends(t: Tables, c: Command, chat: Id) {
    Leaves(t, c, chat) && (IsPrivate(t, chat) || RowsOfChat(t, chat) == {(c.caller, chat)})
  }

  // The command posts the message
  predicate Posts(t: Tables, c: Command, m: Message) {
    c.ChatPost? && c.message == m && Step(t, c).1 == Okey
  }

  ghost predicate RowsFollowChats(t: Tables, c: Command, u: Id, chat: Id, m: Message) {
    var t' := Step(t, c).0;
    && (chat in t'.chats <==> Opens(t, c, chat) || (chat in t.chats && !Ends(t, c, chat)))
    && ((u, chat) in t'.party <==> Joins(t, c, u, chat) || ((u, chat) in t.party && !Quits(t, c, u, chat)))
    && (m in t'.messages <==> Posts(t, c, m) || (m in t.messages && !Ends(t, c, m.chatId)))
  }

  lemma PrivateFollowsChats(t: Tables, c: Command, u: Id, chat: Id, m: Message)
    requires ChatsOk(t) && RelationsOk(t) && Enabled(t, c) && c.ChatCreatePrivate?
    ensures RowsFollowChats(t, c, u, chat, m)
  {
    CreatePrivateEffect(t, c.caller, c.user, c.id);
  }

  lemma PublicFollowsChats(t: Tables, c: Command, u: Id, chat: Id, m: Message)
    requires ChatsOk(t) && Enabled(t, c) && c.ChatCreatePublic?
    ensures RowsFollowChats(t, c, u, chat, m)
  {
    CreatePublicEffect(t, c.caller, c.title, c.id);
  }

  lemma AddFollowsChats(t: Tables, c: Command, u: Id, chat: Id, m: Message)
    requires ChatsOk(t) && RelationsOk(t) && Enabled(t, c) && c.ChatAdd?
    ensures RowsFollowChats(t, c, u, chat, m)
  {
    ChatAddEffect(t, c.caller, c.chat, c.user);
  }

  lemma LeaveFollowsChats(t: Tables, c: Command, u: Id, chat: Id, m: Message)
    requires ChatsOk(t) && c.ChatLeave?
    ensures RowsFollowChats(t, c, u, chat, m)
  {
    ChatLeaveEffect(t, c.caller, c.chat);
    if (c.caller, c.chat) in t.party {
      var t' := Step(t, c).0;
      assert Step(t, c) == Chats.Leave(t, c.caller, c.chat);
      ChatCounts.LeaveEffect(t, c.caller, c.chat);
      LeaveEnds(t, c.caller, c.chat);
      assert (u, chat) in t'.party <==> (u, chat) in RowsOfChat(t', chat);
      assert (u, chat) in t.party <==> (u, chat) in RowsOfChat(t, chat);
    }
  }

  lemma LeaveEnds(t: Tables, u: Id, c: Id)
    requires ChatsOk(t) && (u, c) in t.party
    ensures c in t.chats
    ensures IsDead(t.chats[c].(size := t.chats[c].size - 1)) <==> IsPrivate(t, c) || RowsOfChat(t, c) == {(u, c)}
  {
    assert (u, c) in RowsOfChat(t, c);
    assert RowsOfChat(t, c) == RowsOfChat(t, c) - {(u, c)} + {(u, c)};
  }

  lemma PostFollowsChats(t: Tables, c: Command, u: Id, chat: Id, m: Message)
    requires ChatsOk(t) && Enabled(t, c) && c.ChatPost?
    ensures RowsFollowChats(t, c, u, chat, m)
  {
    ChatPostEffect(t, c.message, c.fileSize);
  }

  lemma OtherFollowsChats(t: Tables, c: Command, u: Id, chat: Id, m: Message)
    requires !ChangesChats(c)
    ensures RowsFollowChats(t, c, u, chat, m)
  {
    OthersKeepChats(t, c);
  }

  lemma StepFollowsChats(t: Tables, c: Command, u: Id, chat: Id, m: Message)
    requires ChatsOk(t) && RelationsOk(t) && Enabled(t, c)
    ensures RowsFollowChats(t, c, u, chat, m)
  {
    match c {
      case ChatCreatePrivate(_, _, _) => PrivateFollowsChats(t, c, u, chat, m);
      case ChatCreatePublic(_, _, _) => PublicFollowsChats(t, c, u, chat, m);
      case ChatAdd(_, _, _) => AddFollowsChats(t, c, u, chat, m);
      case ChatLeave(_, _) => LeaveFollowsChats(t, c, u, chat, m);
      case ChatPost(_, _) => PostFollowsChats(t, c, u, chat, m);
      case _ => OtherFollowsChats(t, c, u, chat, m);
    }
  }

  // ---------- Over a run ----------

  ghost function OpenedAt(run: seq<Command>, chat: Id): int -> bool {
    i => 0 <= i < |run| && Opens(Before(run, i), run[i], chat)
  }

  ghost function EndedAt(run: seq<Command>, chat: Id): int -> bool {
    i => 0 <= i < |run| && Ends(Before(run, i), run[i], chat)
  }

  ghost function JoinedAt(run: seq<Command>, u: Id, chat: Id): int -> bool {
    i => 0 <= i < |run| && Joins(Before(run, i), run[i], u, chat)
  }

  ghost function QuitAt(run: seq<Command>, u: Id, chat: Id): int -> bool {
    i => 0 <= i < |run| && Quits(Before(run, i), run[i], u, chat)
  }

  ghost function PostedAt(run: seq<Command>, m: Message): int -> bool {
    i => 0 <= i < |run| && Posts(Before(run, i), run[i], m)
  }

  lemma ChatRowsNext(run: seq<Command>, n: nat, u: Id, chat: Id, m: Message)
    requires IsRun(run) && n < |run|
    ensures RowsFollowChats(Before(run, n), run[n], u, chat, m)
    ensures Before(run, n + 1) == Step(Before(run, n), run[n]).0
  {
    RunPrefix(run, n);
    ReachableChats(run[..n]);
    ReachableRelations(run[..n]);
    StepFollowsChats(Before(run, n), run[n], u, chat, m);
    BeforeNext(run, n);
  }

  const ANY_MESSAGE := Message("", "", "", 0, Text, "")

  /** A chat is there exactly when it was opened and has not ended since. */
  lemma {:induction false} ChatOpened(run: seq<Command>, n: nat, chat: Id)
    requires IsRun(run) && n <= |run|
    ensures chat in Before(run, n).chats <==> Since(OpenedAt(run, chat), EndedAt(run, chat), n)
  {
    if n > 0 {
      ChatOpened(run, n - 1, chat);
      ChatRowsNext(run, n - 1, "", chat, ANY_MESSAGE);
      SinceNext(OpenedAt(run, chat), EndedAt(run, chat), n - 1);
    }
  }

  /** A user is in a chat exactly when the user opened it, was its other member or was added, and has not
      left since, nor, from a private chat, the other member. */
  lemma {:induction false} MembershipProvenance(run: seq<Command>, n: nat, u: Id, chat: Id)
    requires IsRun(run) && n <= |run|
    ensures (u, chat) in Before(run, n).party <==> Since(JoinedAt(run, u, chat), QuitAt(run, u, chat), n)
  {
    if n > 0 {
      MembershipProvenance(run, n - 1, u, chat);
      ChatRowsNext(run, n - 1, u, chat, ANY_MESSAGE);
      SinceNext(JoinedAt(run, u, chat), QuitAt(run, u, chat), n - 1);
    }
  }

  /** A message is there exactly when it was posted and its chat has not ended since. */
  lemma {:induction false} MessageProvenance(run: seq<Command>, n: nat, m: Message)
    requires IsRun(run) && n <= |run|
    ensures m in Before(run, n).messages <==> Since(PostedAt(run, m), EndedAt(run, m.chatId), n)
  {
    if n > 0 {
      MessageProvenance(run, n - 1, m);
      ChatRowsNext(run, n - 1, "", m.chatId, m);
      SinceNext(PostedAt(run, m), EndedAt(run, m.chatId), n - 1);
    }
  }

  /** Every message was posted by somebody who was then a member of its chat, and fits. */
  lemma MessagesAreFromMembers(run: seq<Command>, n: nat, m: Message)
    requires IsRun(run) && n <= |run| && m in Before(run, n).messages
    ensures exists i :: && 0 <= i < n && run[i].ChatPost? && run[i].message == m
                        && (m.senderId, m.chatId) in Before(run, i).party && FitsPost(m, run[i].fileSize)
  {
    MessageProvenance(run, n, m);
    var i :| 0 <= i < n && SinceMoment(PostedAt(run, m), EndedAt(run, m.chatId), i, n);
    RunPrefix(run, i);
    ReachableChats(run[..i]);
    assert Enabled(Before(run, i), run[i]);
    ChatPostEffect(Before(run, i), m, run[i].fileSize);
  }
}
