/** Properties of chats over every run of the server. */
module ChatRuns {
  import opened Entities
  import opened Tables
  import opened Server
  import opened ContactRuns
  import opened SqlLiterals
  import Chats
  import Contacts

  // ---------- The invariant ----------

  // What the kind of chat allows
  predicate SuitsKind(chat: Chat) {
    match chat.kind
    case Private => chat.size == 2
    case Public => 1 <= chat.size <= Chats.MAX_CHAT_PARTICIPANTS_COUNT
  }

  // The recorded size is the number of party rows
  ghost predicate SizesOk(t: Tables) {
    forall c :: c in t.chats ==> t.chats[c].size == |RowsOfChat(t, c)| && SuitsKind(t.chats[c])
  }

  // Foreign keys
  ghost predicate KeysOk(t: Tables) {
    && (forall p :: p in t.party ==> p.0 in t.users && p.1 in t.chats)
    && (forall m :: m in t.messages ==> m.chatId in t.chats && m.senderId in t.users)
  }

  predicate IsPrivate(t: Tables, c: Id) {
    c in t.chats && t.chats[c].kind == Private
  }

  ghost predicate SharePair(t: Tables, c: Id, d: Id) {
    exists u, v :: u != v && (u, c) in t.party && (v, c) in t.party && (u, d) in t.party && (v, d) in t.party
  }

  // No two private chats have two members in common
  ghost predicate PairsOk(t: Tables) {
    forall c, d :: IsPrivate(t, c) && IsPrivate(t, d) && SharePair(t, c, d) ==> c == d
  }

  ghost predicate ChatsOk(t: Tables) {
    SizesOk(t) && KeysOk(t) && PairsOk(t)
  }

  // ---------- Every step keeps it ----------

  lemma WithChatSizes(t: Tables, id: Id, chat: Chat, members: set<Id>)
    requires SizesOk(t) && SuitsKind(chat)
    requires chat.size == |RowsOfChat(t, id) + PartyRows(members, id)|
    ensures SizesOk(Chats.WithChat(t, id, chat, members))
  {
    var t' := Chats.WithChat(t, id, chat, members);
    forall c | c in t'.chats ensures t'.chats[c].size == |RowsOfChat(t', c)| && SuitsKind(t'.chats[c]) {
      assert RowsOfChat(t', c) ==
             if c == id then RowsOfChat(t, id) + PartyRows(members, id) else RowsOfChat(t, c);
    }
  }

  lemma WithChatKeys(t: Tables, id: Id, chat: Chat, members: set<Id>)
    requires KeysOk(t) && members <= t.users.Keys
    ensures KeysOk(Chats.WithChat(t, id, chat, members))
  {
  }

  // Rows added to a public chat, or one that is new, bring no private pair together
  lemma WithPublicPairs(t: Tables, id: Id, chat: Chat, members: set<Id>)
    requires PairsOk(t) && chat.kind == Public
    ensures PairsOk(Chats.WithChat(t, id, chat, members))
  {
    var t' := Chats.WithChat(t, id, chat, members);
    forall c, d | IsPrivate(t', c) && IsPrivate(t', d) && SharePair(t', c, d) ensures c == d {
      var x, y :| x != y && (x, c) in t'.party && (y, c) in t'.party && (x, d) in t'.party && (y, d) in t'.party;
      assert SharePair(t, c, d);
    }
  }

  lemma PairCardinality(t: Tables, c: Id, u: Id, v: Id)
    requires u != v && (u, c) in t.party && (v, c) in t.party
    ensures |PairRows(t, c, u, v)| > 1
  {
    var rows := PairRows(t, c, u, v);
    assert rows == rows - {(u, c), (v, c)} + {(u, c), (v, c)};
    assert |rows - {(u, c), (v, c)} + {(u, c), (v, c)}| >= |{(u, c), (v, c)}|;
  }

  lemma NewPrivatePairs(t: Tables, u: Id, v: Id, id: Id, chat: Chat)
    requires PairsOk(t) && KeysOk(t) && id !in t.chats && u != v && !PrivateChatExists(t, u, v)
    ensures PairsOk(Chats.WithChat(t, id, chat, {u, v}))
  {
    var t' := Chats.WithChat(t, id, chat, {u, v});
    assert forall w, c :: (w, c) in t'.party <==> (w, c) in t.party || (c == id && (w == u || w == v));
    forall c, d | IsPrivate(t', c) && IsPrivate(t', d) && SharePair(t', c, d) ensures c == d {
      var x, y :| x != y && (x, c) in t'.party && (y, c) in t'.party && (x, d) in t'.party && (y, d) in t'.party;
      if c != d && c != id && d != id {
        assert SharePair(t, c, d);
      } else if c != d {
        PairCardinality(t, if c == id then d else c, u, v);
      }
    }
  }

  lemma NewPrivateKeepsChats(t: Tables, u: Id, v: Id, id: Id, chat: Chat)
    requires ChatsOk(t) && id !in t.chats && u != v && !PrivateChatExists(t, u, v)
    requires u in t.users && v in t.users && chat.kind == Private && chat.size == 2
    ensures ChatsOk(Chats.WithChat(t, id, chat, {u, v}))
  {
    assert RowsOfChat(t, id) == {};
    assert PartyRows({u, v}, id) == {(u, id), (v, id)};
    WithChatSizes(t, id, chat, {u, v});
    WithChatKeys(t, id, chat, {u, v});
    NewPrivatePairs(t, u, v, id, chat);
  }

  lemma ContactsAreUsers(t: Tables, u: Id, v: Id)
    requires RelationsOk(t) && UsersRelation(t, u, v) == Contacts
    ensures u != v && u in t.users && v in t.users
  {
    assert (u, v) in t.contacts || (v, u) in t.contacts;
  }

  lemma CreatePrivateKeepsChats(t: Tables, caller: Id, contact: Id, id: Id)
    requires ChatsOk(t) && RelationsOk(t) && caller in t.users && id !in t.chats
    ensures ChatsOk(Chats.CreatePrivate(t, caller, contact, id).0)
  {
    if Chats.PrivateRefusal(t, caller, contact) == Okey {
      ContactsAreUsers(t, caller, contact);
      NewPrivateKeepsChats(t, caller, contact, id, Chat(Private, None, 2));
    }
  }

  lemma NewPublicKeepsChats(t: Tables, u: Id, id: Id, chat: Chat)
    requires ChatsOk(t) && id !in t.chats && u in t.users && chat.kind == Public && chat.size == 1
    ensures ChatsOk(Chats.WithChat(t, id, chat, {u}))
  {
    assert RowsOfChat(t, id) == {};
    assert PartyRows({u}, id) == {(u, id)};
    WithChatSizes(t, id, chat, {u});
    WithChatKeys(t, id, chat, {u});
    WithPublicPairs(t, id, chat, {u});
  }

  lemma CreatePublicKeepsChats(t: Tables, caller: Id, title: string, id: Id)
    requires ChatsOk(t) && caller in t.users && id !in t.chats
    ensures ChatsOk(Chats.CreatePublic(t, caller, title, id).0)
  {
    if Chats.CreatePublic(t, caller, title, id).1 == Okey {
      NewPublicKeepsChats(t, caller, id, Chat(Public, Some(title), 1));
    }
  }

  lemma AddKeepsChats(t: Tables, caller: Id, chat: Id, user: Id)
    requires ChatsOk(t)
    ensures ChatsOk(Chats.Add(t, caller, chat, user).0)
  {
    if Chats.AddRefusal(t, caller, chat, user) == Okey {
      var row := t.chats[chat].(size := t.chats[chat].size + 1);
      assert PartyRows({user}, chat) == {(user, chat)};
      WithChatSizes(t, chat, row, {user});
      WithChatKeys(t, chat, row, {user});
      WithPublicPairs(t, chat, row, {user});
    }
  }

  lemma FewerRowsPairs(t: Tables, t': Tables)
    requires PairsOk(t) && t'.party <= t.party
    requires forall c :: IsPrivate(t', c) ==> IsPrivate(t, c)
    ensures PairsOk(t')
  {
    forall c, d | IsPrivate(t', c) && IsPrivate(t', d) && SharePair(t', c, d) ensures c == d {
      assert SharePair(t, c, d);
    }
  }

  lemma LeaveSizes(t: Tables, caller: Id, chat: Id)
    requires SizesOk(t) && chat in t.chats && (caller, chat) in t.party
    ensures SizesOk(Chats.Leave(t, caller, chat).0)
  {
    var t' := Chats.Leave(t, caller, chat).0;
    forall c | c in t'.chats ensures t'.chats[c].size == |RowsOfChat(t', c)| && SuitsKind(t'.chats[c]) {
      assert RowsOfChat(t', c) == if c == chat then RowsOfChat(t, c) - {(caller, chat)} else RowsOfChat(t, c);
    }
  }

  lemma LeaveKeepsChats(t: Tables, caller: Id, chat: Id)
    requires ChatsOk(t)
    ensures ChatsOk(Chats.Leave(t, caller, chat).0)
  {
    if (caller, chat) in t.party {
      LeaveSizes(t, caller, chat);
      MessagesOutsideElements(t.messages, chat);
      FewerRowsPairs(t, Chats.Leave(t, caller, chat).0);
    }
  }

  lemma PostKeepsChats(t: Tables, m: Message, fileSize: nat)
    requires ChatsOk(t)
    ensures ChatsOk(Chats.Post(t, m, fileSize).0)
  {
    SameChatsKeepsChats(t, Chats.Post(t, m, fileSize).0);
  }

  lemma SameChatsKeepsChats(t: Tables, t': Tables)
    requires ChatsOk(t) && t'.chats == t.chats && t'.party == t.party && t.users.Keys <= t'.users.Keys
    requires forall m :: m in t'.messages ==> m in t.messages || (m.chatId in t.chats && m.senderId in t'.users)
    ensures ChatsOk(t')
  {
    forall c | c in t'.chats ensures t'.chats[c].size == |RowsOfChat(t', c)| && SuitsKind(t'.chats[c]) {
      assert RowsOfChat(t', c) == RowsOfChat(t, c);
    }
    FewerRowsPairs(t, t');
  }

  predicate ChangesChats(c: Command) {
    c.ChatCreatePrivate? || c.ChatCreatePublic? || c.ChatAdd? || c.ChatLeave? || c.ChatPost?
  }

  lemma InvitesKeepChats(t: Tables, c: Command)
    requires IsRelational(c)
    ensures var t' := Step(t, c).0;
            t'.chats == t.chats && t'.party == t.party && t'.messages == t.messages && t'.users == t.users
  {
    Contacts.OnlyRelationsChange(t, c.caller, c.user);
    Contacts.OnlyRelationsChange(t, c.user, c.caller);
  }

  lemma OthersKeepChats(t: Tables, c: Command)
    requires !ChangesChats(c)
    ensures var t' := Step(t, c).0;
            && t'.chats == t.chats && t'.party == t.party && t'.messages == t.messages
            && t.users.Keys <= t'.users.Keys
  {
    if IsRelational(c) {
      InvitesKeepChats(t, c);
    }
  }

  /** Every command keeps the chats in order. */
  lemma StepKeepsChats(t: Tables, c: Command)
    requires ChatsOk(t) && RelationsOk(t) && Enabled(t, c)
    ensures ChatsOk(Step(t, c).0)
  {
    match c {
      case ChatCreatePrivate(caller, user, id) => CreatePrivateKeepsChats(t, caller, user, id);
      case ChatCreatePublic(caller, title, id) => CreatePublicKeepsChats(t, caller, title, id);
      case ChatAdd(caller, chat, user) => AddKeepsChats(t, caller, chat, user);
      case ChatLeave(caller, chat) => LeaveKeepsChats(t, caller, chat);
      case ChatPost(message, fileSize) => PostKeepsChats(t, message, fileSize);
      case _ => OthersKeepChats(t, c); SameChatsKeepsChats(t, Step(t, c).0);
    }
  }

  lemma {:induction false} ReachableChats(run: seq<Command>)
    requires IsRun(run)
    ensures ChatsOk(After(run))
  {
    if run != [] {
      var n := |run| - 1;
      RunPrefix(run, n);
      ReachableChats(run[..n]);
      ReachableRelations(run[..n]);
      StepKeepsChats(Before(run, n), run[n]);
    }
  }

  // ---------- Asking whether a user is in a chat ----------

  lemma {:induction false} UsersSignedUp(run: seq<Command>, u: Id)
    requires u in After(run).users
    ensures exists i :: 0 <= i < |run| && run[i].Signup? && run[i].id == u
  {
    if run != [] {
      var n := |run| - 1;
      if u in After(run[..n]).users {
        UsersSignedUp(run[..n], u);
        var i :| 0 <= i < n && run[..n][i].Signup? && run[..n][i].id == u;
        assert run[i].Signup?;
      } else {
        StepAddsUser(After(run[..n]), run[n], u);
      }
    }
  }

  lemma StepAddsUser(t: Tables, c: Command, u: Id)
    requires u in Step(t, c).0.users && u !in t.users
    ensures c.Signup? && c.id == u
  {
    if !c.Signup? && !c.ProfileSet? {
      OnlyAccountsChangeUsers(t, c);
    }
  }

  /** The query for membership does not escape the user's id, but adding to a chat comes to it only for
      the caller and, past the check of the relation, for a contact. Both signed up, so if generated ids
      read as themselves the query asks about that user, whatever was sent. */
  lemma AddAsksAboutUsers(run: seq<Command>, chat: Id, caller: Id, user: Id)
    requires IsRun(run) && caller in After(run).users
    requires forall i :: 0 <= i < |run| && run[i].Signup? ==> ReadsAsItself(run[i].id)
    ensures ReadCondition(ParticipantCondition(chat, caller)) == Some((chat, caller))
    ensures UsersRelation(After(run), caller, user) == Contacts ==>
              ReadCondition(ParticipantCondition(chat, user)) == Some((chat, user))
  {
    UsersSignedUp(run, caller);
    ConditionReadsBack(chat, caller);
    ConditionReadsBack(chat, user);
    ReachableRelations(run);
    if UsersRelation(After(run), caller, user) == Contacts {
      ContactsAreUsers(After(run), caller, user);
      UsersSignedUp(run, user);
    }
  }
}
