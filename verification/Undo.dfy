/** What one command does and another takes back, in any state that satisfies the invariants. */
module Undo {
  import opened Entities
  import opened Tables
  import opened ContactRuns
  import opened ChatRuns
  import Chats
  import Contacts

  lemma {:induction false} NothingOutside(ms: seq<Message>, c: Id)
    requires forall m :: m in ms ==> m.chatId != c
    ensures MessagesOutside(ms, c) == ms
  {
    if ms != [] {
      assert ms[0] in ms && forall m :: m in ms[1..] ==> m in ms;
      NothingOutside(ms[1..], c);
    }
  }

  lemma RemoveNewChat(t: Tables, id: Id, chat: Chat, members: set<Id>)
    requires KeysOk(t) && id !in t.chats
    ensures Chats.WithoutChat(Chats.WithChat(t, id, chat, members), id) == t
  {
    NothingOutside(t.messages, id);
    var t' := Chats.WithChat(t, id, chat, members);
    assert t'.chats - {id} == t.chats;
    assert (set p | p in t'.party && p.1 != id) == t.party;
  }

  /** Whichever of the two leaves a new private chat, the tables are as before it was created. */
  lemma LeaveUndoesCreatePrivate(t: Tables, caller: Id, contact: Id, id: Id, leaver: Id)
    requires ChatsOk(t) && RelationsOk(t) && id !in t.chats && (leaver == caller || leaver == contact)
    requires Chats.CreatePrivate(t, caller, contact, id).1 == Okey
    ensures Chats.Leave(Chats.CreatePrivate(t, caller, contact, id).0, leaver, id) == (t, Okey)
  {
    RemoveNewChat(t, id, Chat(Private, None, 2), {caller, contact});
    assert (leaver, id) in PartyRows({caller, contact}, id);
  }

  /** When its creator leaves a new public chat, the tables are as before it was created. */
  lemma LeaveUndoesCreatePublic(t: Tables, caller: Id, title: string, id: Id)
    requires ChatsOk(t) && id !in t.chats
    requires Chats.CreatePublic(t, caller, title, id).1 == Okey
    ensures Chats.Leave(Chats.CreatePublic(t, caller, title, id).0, caller, id) == (t, Okey)
  {
    RemoveNewChat(t, id, Chat(Public, Some(title), 1), {caller});
    assert (caller, id) in PartyRows({caller}, id);
  }

  /** When a user who was just added leaves, the tables are as before. */
  lemma LeaveUndoesAdd(t: Tables, caller: Id, chat: Id, user: Id)
    requires ChatsOk(t) && Chats.Add(t, caller, chat, user).1 == Okey
    ensures Chats.Leave(Chats.Add(t, caller, chat, user).0, user, chat) == (t, Okey)
  {
    var t' := Chats.Add(t, caller, chat, user).0;
    assert PartyRows({user}, chat) == {(user, chat)};
    assert t'.party - {(user, chat)} == t.party;
    assert t'.chats[chat := t.chats[chat]] == t.chats;
  }

  /** Cancelling or rejecting a request leaves the tables as before it was made. */
  lemma DropUndoesCreate(t: Tables, from: Id, to: Id)
    requires Contacts.Create(t, from, to).1 == Okey
    ensures Contacts.Drop(Contacts.Create(t, from, to).0, from, to) == (t, Okey)
  {
    var t' := Contacts.Create(t, from, to).0;
    assert t'.requests[(from, to) := 0] == t.requests;
  }

  /** A request, its acceptance, and either side's deletion of the contact cancel out. */
  lemma DeleteUndoesAcceptedRequest(t: Tables, from: Id, to: Id)
    requires Contacts.Create(t, from, to).1 == Okey
    ensures var asked := Contacts.Create(t, from, to).0;
            var (accepted, code) := Contacts.Accept(asked, from, to);
            && code == Okey && UsersRelation(accepted, from, to) == Contacts == UsersRelation(accepted, to, from)
            && Contacts.Delete(accepted, from, to) == (t, Okey) == Contacts.Delete(accepted, to, from)
  {
    DropUndoesCreate(t, from, to);
    var accepted := Contacts.Accept(Contacts.Create(t, from, to).0, from, to).0;
    assert accepted.contacts[(from, to) := 0][(to, from) := 0] == t.contacts;
    assert accepted.contacts[(to, from) := 0][(from, to) := 0] == t.contacts;
  }

  /** The query for an existing private chat answers what it is meant to: whether some private chat
      has exactly these two members. So a second one for the same pair is always refused. */
  lemma PrivateChatExistsMeans(t: Tables, u: Id, v: Id)
    requires ChatsOk(t) && u != v
    ensures PrivateChatExists(t, u, v) <==> exists c :: IsPrivate(t, c) && RowsOfChat(t, c) == {(u, c), (v, c)}
  {
    forall c | IsPrivate(t, c) ensures |PairRows(t, c, u, v)| > 1 <==> RowsOfChat(t, c) == {(u, c), (v, c)} {
      var rows, pair := RowsOfChat(t, c), PairRows(t, c, u, v);
      assert pair <= {(u, c), (v, c)} && pair <= rows && |rows| == 2;
      SubsetOfPair(pair, {(u, c), (v, c)});
      SubsetOfPair(pair, rows);
      assert rows == {(u, c), (v, c)} ==> pair == rows;
    }
  }

  lemma SubsetOfPair(a: set<(Id, Id)>, b: set<(Id, Id)>)
    requires a <= b && |b| == 2
    ensures |a| > 1 <==> a == b
  {
    assert b == a + (b - a);
  }
}
