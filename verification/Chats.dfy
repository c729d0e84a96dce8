/** Creating, joining, leaving and posting to chats. */
module Chats {
  import opened Entities
  import opened Tables
  import opened Validators

  const MAX_CHATS_COUNT_TO_JOIN := 512
  const MAX_CHAT_PARTICIPANTS_COUNT := 65536
  const MAX_TEXT_MESSAGE_SIZE := 4096
  const MAX_FILE_MESSAGE_SIZE := 268435456

  // ---------- Effects ----------

  function WithChat(t: Tables, id: Id, chat: Chat, members: set<Id>): Tables {
    t.(chats := t.chats[id := chat], party := t.party + PartyRows(members, id))
  }

  // The reasons to refuse a private chat, in the order they are checked
  function PrivateRefusal(t: Tables, caller: Id, contact: Id): Status {
    if ChatsCount(t, caller) == MAX_CHATS_COUNT_TO_JOIN then JoinedChatsLimitExceeded
    else if UsersRelation(t, caller, contact) != Contacts then NonexistentContact
    else if PrivateChatExists(t, caller, contact) then AlreadyInChat
    else if ChatsCount(t, contact) == MAX_CHATS_COUNT_TO_JOIN then JoinedChatsLimitExceeded
    else Okey
  }

  // The id is fresh: no chat and no party row carries it
  function CreatePrivate(t: Tables, caller: Id, contact: Id, id: Id): (Tables, Status) {
    var refusal := PrivateRefusal(t, caller, contact);
    if refusal != Okey then (t, refusal)
    else if caller !in t.users || contact !in t.users then
      (t.(chats := t.chats[id := Chat(Private, None, 2)]), InternalServerError)
    else (WithChat(t, id, Chat(Private, None, 2), {caller, contact}), Okey)
  }

  function CreatePublic(t: Tables, caller: Id, title: string, id: Id): (Tables, Status) {
    if ChatsCount(t, caller) == MAX_CHATS_COUNT_TO_JOIN then (t, JoinedChatsLimitExceeded)
    else if !IsChatName(title) then (t, InvalidChatName)
    else if caller !in t.users then (t.(chats := t.chats[id := Chat(Public, Some(title), 1)]), InternalServerError)
    else (WithChat(t, id, Chat(Public, Some(title), 1), {caller}), Okey)
  }

  function AddRefusal(t: Tables, caller: Id, chat: Id, user: Id): Status {
    var info := GetChatInfo(t, caller, chat);
    if (caller, chat) !in t.party then NotAParticipant
    else if info.NoChatInfo? then InternalServerError
    else if info.kind == Private then ImpossibleAddToPrivateChat
    else if info.size >= MAX_CHAT_PARTICIPANTS_COUNT then ChatParticipantsLimitExceeded
    else if UsersRelation(t, caller, user) != Contacts then NonexistentContact
    else if (user, chat) in t.party then AlreadyInChat
    else if user !in t.users then InternalServerError
    else Okey
  }

  function Add(t: Tables, caller: Id, chat: Id, user: Id): (Tables, Status) {
    var refusal := AddRefusal(t, caller, chat, user);
    if refusal != Okey then (t, refusal)
    else (WithChat(t, chat, t.chats[chat].(size := t.chats[chat].size + 1), {user}), Okey)
  }

  function WithoutChat(t: Tables, c: Id): Tables {
    t.(chats := t.chats - {c}, party := (set p | p in t.party && p.1 != c), messages := MessagesOutside(t.messages, c))
  }

  // A public chat outlives all but its last member, a private chat none of its two
  function Leave(t: Tables, caller: Id, chat: Id): (Tables, Status) {
    if (caller, chat) !in t.party then (t, NotAParticipant)
    else if chat !in t.chats then (t.(party := t.party - {(caller, chat)}), Okey)
    else
      var left := t.chats[chat].(size := t.chats[chat].size - 1);
      if IsDead(left) then (WithoutChat(t, chat), Okey)
      else (t.(chats := t.chats[chat := left], party := t.party - {(caller, chat)}), Okey)
  }

  function Post(t: Tables, m: Message, fileSize: nat): (Tables, Status) {
    if (m.senderId, m.chatId) !in t.party then (t, NotAParticipant)
    else if m.kind == Text && |m.content| > MAX_TEXT_MESSAGE_SIZE then (t, TextMessageTooLarge)
    else if m.kind == File && fileSize > MAX_FILE_MESSAGE_SIZE then (t, FileTooLarge)
    else if !Insertable(t, m) then (t, InternalServerError)
    else (t.(messages := t.messages + [m]), Okey)
  }

  // ---------- Handlers ----------

  // What chat_create fills in step by step
  class ChatCreationParams {
    var id: Id
    var kind: ChatKind
    var title: Option<string>
    var size: int
    var defaultUsersIds: seq<Id>

    constructor (id: Id, kind: ChatKind)
      ensures this.id == id && this.kind == kind && title == None && defaultUsersIds == []
    {
      this.id, this.kind, title, size, defaultUsersIds := id, kind, None, 0, [];
    }
  }

  lemma InsertablePair(t: Tables, u: Id, v: Id, c: Id)
    requires u != v && forall w :: (w, c) !in t.party
    ensures InsertableRows(t.users, t.party, [u, v], c) == (u in t.users && v in t.users)
    ensures Elements([u, v]) == {u, v}
  {
    assert [u, v][0] == u && [u, v][1] == v;
    assert u in [u, v] && v in [u, v];
  }

  lemma InsertableOne(t: Tables, u: Id, c: Id)
    requires forall w :: (w, c) !in t.party
    ensures InsertableRows(t.users, t.party, [u], c) == (u in t.users)
    ensures Elements([u]) == {u}
  {
    assert u in [u];
  }

  method HandlePrivate(db: Database, params: ChatCreationParams, caller: Id, contactId: Id) returns (status: Status)
    requires params.id !in db.chats && (forall u :: (u, params.id) !in db.party)
    requires params.kind == Private && params.title == None && params.defaultUsersIds == [caller]
    requires ChatsCount(db.View(), caller) != MAX_CHATS_COUNT_TO_JOIN
    modifies db, params
    ensures (db.View(), status) == CreatePrivate(old(db.View()), caller, contactId, old(params.id))
  {
    params.size := 2;
    var rels := UsersRelation(db.View(), caller, contactId);
    if rels != Contacts {
      return NonexistentContact;
    }
    var isExist := PrivateChatExists(db.View(), caller, contactId);
    if isExist {
      return AlreadyInChat;
    }
    var chatsCount := ChatsCount(db.View(), contactId);
    if chatsCount == MAX_CHATS_COUNT_TO_JOIN {
      return JoinedChatsLimitExceeded;
    }
    params.defaultUsersIds := params.defaultUsersIds + [contactId];
    assert params.defaultUsersIds == [caller, contactId];
    InsertablePair(db.View(), caller, contactId, params.id);
    status := db.CreateChat(params.id, Chat(params.kind, params.title, params.size), params.defaultUsersIds);
  }

  method HandlePublic(db: Database, params: ChatCreationParams, caller: Id, title: string) returns (status: Status)
    requires params.id !in db.chats && (forall u :: (u, params.id) !in db.party)
    requires params.kind == Public && params.title == None && params.defaultUsersIds == [caller]
    requires ChatsCount(db.View(), caller) != MAX_CHATS_COUNT_TO_JOIN
    modifies db, params
    ensures (db.View(), status) == CreatePublic(old(db.View()), caller, title, old(params.id))
  {
    params.size := 1;
    if !IsChatName(title) {
      return InvalidChatName;
    }
    params.title := Some(title);
    InsertableOne(db.View(), caller, params.id);
    status := db.CreateChat(params.id, Chat(params.kind, params.title, params.size), params.defaultUsersIds);
  }

  /** Creates a chat of either kind; the subject is a contact's id or a title. */
  method HandleChatCreate(db: Database, kind: ChatKind, caller: Id, subject: string, id: Id) returns (status: Status)
    requires id !in db.chats && (forall u :: (u, id) !in db.party)
    modifies db
    ensures (db.View(), status) == if kind == Private then CreatePrivate(old(db.View()), caller, subject, id)
                                   else CreatePublic(old(db.View()), caller, subject, id)
  {
    var params := new ChatCreationParams(id, kind);
    var chatsCount := ChatsCount(db.View(), caller);
    if chatsCount == MAX_CHATS_COUNT_TO_JOIN {
      return JoinedChatsLimitExceeded;
    }
    params.defaultUsersIds := params.defaultUsersIds + [caller];
    if kind == Private {
      status := HandlePrivate(db, params, caller, subject);
    } else {
      status := HandlePublic(db, params, caller, subject);
    }
  }

  method HandleChatAdd(db: Database, caller: Id, chatId: Id, userId: Id) returns (status: Status)
    modifies db
    ensures (db.View(), status) == Add(old(db.View()), caller, chatId, userId)
  {
    var isPart := (caller, chatId) in db.party;
    if !isPart {
      return NotAParticipant;
    }
    var info := GetChatInfo(db.View(), caller, chatId);
    if info.NoChatInfo? {
      return InternalServerError;
    }
    if info.kind == Private {
      return ImpossibleAddToPrivateChat;
    }
    if info.size >= MAX_CHAT_PARTICIPANTS_COUNT {
      return ChatParticipantsLimitExceeded;
    }
    var rels := UsersRelation(db.View(), caller, userId);
    if rels != Contacts {
      return NonexistentContact;
    }
    isPart := (userId, chatId) in db.party;
    if isPart {
      return AlreadyInChat;
    }
    status := db.AddUserToChat(chatId, userId);
    assert PartyRows({userId}, chatId) == {(userId, chatId)};
  }

  method HandleChatLeave(db: Database, userId: Id, chatId: Id) returns (status: Status)
    modifies db
    ensures (db.View(), status) == Leave(old(db.View()), userId, chatId)
  {
    var isPart := (userId, chatId) in db.party;
    if !isPart {
      return NotAParticipant;
    }
    status := ExcludeUserFromChat(db, userId, chatId);
  }

  // What the statements do one after another
  lemma StatementsLeave(t: Tables, u: Id, c: Id, t': Tables)
    requires (u, c) in t.party && t' == t.(chats := t'.chats, party := t'.party, messages := t'.messages)
    requires var chats := if c in t.chats then t.chats[c := t.chats[c].(size := t.chats[c].size - 1)] else t.chats;
             var dead := c in chats && IsDead(chats[c]);
             && t'.chats == (if dead then chats - {c} else chats)
             && t'.party == (if dead then set p | p in t.party - {(u, c)} && p.1 != c else t.party - {(u, c)})
             && t'.messages == (if dead then MessagesOutside(t.messages, c) else t.messages)
    ensures t' == Leave(t, u, c).0
  {
    assert (set p | p in t.party - {(u, c)} && p.1 != c) == set p | p in t.party && p.1 != c;
  }

  /** The transaction of three statements behind leaving a chat. */
  method ExcludeUserFromChat(db: Database, userId: Id, chatId: Id) returns (status: Status)
    modifies db
    ensures (db.View(), status) == Leave(old(db.View()), userId, chatId)
  {
    ghost var before := db.View();
    var affected := db.DeletePartyRow(userId, chatId);
    if !affected {
      assert db.party == before.party;
      return NotAParticipant;
    }
    db.DecreaseChatSize(chatId);
    db.DeleteDeadChat(chatId);
    StatementsLeave(before, userId, chatId, db.View());
    status := Okey;
  }

  method HandleChatPost(db: Database, message: Message, fileSize: nat) returns (status: Status)
    modifies db
    ensures (db.View(), status) == Post(old(db.View()), message, fileSize)
  {
    var isPart := (message.senderId, message.chatId) in db.party;
    if !isPart {
      return NotAParticipant;
    }
    if message.kind == Text {
      if |message.content| > MAX_TEXT_MESSAGE_SIZE {
        return TextMessageTooLarge;
      }
    } else {
      if fileSize > MAX_FILE_MESSAGE_SIZE {
        return FileTooLarge;
      }
    }
    status := db.PostMessage(message);
  }
}
