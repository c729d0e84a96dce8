/** The server's relational tables, the queries the handlers ask, and a database object whose
    methods do what the generated statements say. */
module Tables {
  import opened Entities

  datatype User = User(login: string, password: string, name: string, phone: string, email: string, self: string,
                       online: bool)

  datatype ChatKind = Private | Public

  datatype Chat = Chat(kind: ChatKind, title: Option<string>, size: int)

  datatype MessageKind = Text | File

  datatype Message = Message(id: Id, chatId: Id, senderId: Id, time: int, kind: MessageKind, content: string)

  // The tables of contacts and requests have no unique key; a party row is (user, chat)
  datatype Tables = Tables(
    users: map<Id, User>,
    contacts: multiset<(Id, Id)>,
    requests: multiset<(Id, Id)>,
    chats: map<Id, Chat>,
    party: set<(Id, Id)>,
    messages: seq<Message>)

  const EMPTY_TABLES := Tables(map[], multiset{}, multiset{}, map[], {}, [])

  // ---------- Queries ----------

  datatype Relation = Unrelated | Contacts | Requests | Self

  function RowsBetween(rows: multiset<(Id, Id)>, u: Id, v: Id): nat {
    rows[(u, v)] + if u == v then 0 else rows[(v, u)]
  }

  function UsersRelation(t: Tables, u: Id, v: Id): Relation {
    if u == v then Self
    else if RowsBetween(t.contacts, u, v) > 0 then Contacts
    else if RowsBetween(t.requests, u, v) > 0 then Requests
    else Unrelated
  }

  // The ids the searching list is read from
  function SearchingIds(t: Tables, u: Id): set<Id> {
    set v | v in t.users && v != u &&
            (v, u) !in t.contacts && (u, v) !in t.contacts && (v, u) !in t.requests && (u, v) !in t.requests
  }

  function Elements(s: seq<Id>): set<Id> {
    set u | u in s
  }

  function PartyRows(members: set<Id>, c: Id): set<(Id, Id)> {
    set u | u in members :: (u, c)
  }

  function RowsOfChat(t: Tables, c: Id): set<(Id, Id)> {
    set p | p in t.party && p.1 == c
  }

  function RowsOfUser(t: Tables, u: Id): set<(Id, Id)> {
    set p | p in t.party && p.0 == u
  }

  function ChatsCount(t: Tables, u: Id): nat {
    |RowsOfUser(t, u)|
  }

  // A private chat holding more than one row of the two users
  predicate PrivateChatExists(t: Tables, u: Id, v: Id) {
    exists c | c in t.chats :: t.chats[c].kind == Private && |PairRows(t, c, u, v)| > 1
  }

  function PairRows(t: Tables, c: Id, u: Id, v: Id): set<(Id, Id)> {
    set p | p in t.party && p.1 == c && (p.0 == u || p.0 == v)
  }

  // The rows the title of a private chat is selected from: it must yield at most one
  function TitleRows(t: Tables, u: Id, c: Id): set<(Id, Id)> {
    set p | p in t.party && p.1 == c && p.0 != u && p.0 in t.users
  }

  datatype ChatInfo = ChatInfo(kind: ChatKind, size: int) | NoChatInfo(code: Status)

  function GetChatInfo(t: Tables, u: Id, c: Id): ChatInfo {
    if (u, c) !in t.party || c !in t.chats then NoChatInfo(NonexistentChat)
    else if t.chats[c].kind == Private && |TitleRows(t, u, c)| > 1 then NoChatInfo(InternalServerError)
    else ChatInfo(t.chats[c].kind, t.chats[c].size)
  }

  function MessagesOutside(ms: seq<Message>, c: Id): seq<Message> {
    if ms == [] then []
    else (if ms[0].chatId == c then [] else [ms[0]]) + MessagesOutside(ms[1..], c)
  }

  lemma {:induction false} MessagesOutsideElements(ms: seq<Message>, c: Id)
    ensures forall m :: m in MessagesOutside(ms, c) <==> m in ms && m.chatId != c
  {
    if ms != [] {
      MessagesOutsideElements(ms[1..], c);
      assert ms == [ms[0]] + ms[1..];
    }
  }

  // Every row only names rows that exist
  ghost predicate ForeignKeysHold(t: Tables) {
    && (forall p :: p in t.contacts || p in t.requests ==> p.0 in t.users && p.1 in t.users)
    && (forall p :: p in t.party ==> p.0 in t.users && p.1 in t.chats)
    && (forall m :: m in t.messages ==> m.chatId in t.chats && m.senderId in t.users)
  }

  // ---------- Statements ----------

  /** Methods answer with the responder's status code. An insert that breaks a primary key,
      unique index or foreign key changes nothing; no statement leaves a row that names none. */
  class Database {
    var users: map<Id, User>
    var contacts: multiset<(Id, Id)>
    var requests: multiset<(Id, Id)>
    var chats: map<Id, Chat>
    var party: set<(Id, Id)>
    var messages: seq<Message>

    function View(): Tables
      reads this
    {
      Tables(users, contacts, requests, chats, party, messages)
    }

    constructor ()
      ensures View() == EMPTY_TABLES
    {
      users, contacts, requests, chats, party, messages := map[], multiset{}, multiset{}, map[], {}, [];
    }

    method SignupUser(id: Id, login: string, password: string) returns (code: Status)
      modifies this`users
      ensures ForeignKeysHold(old(View())) ==> ForeignKeysHold(View())
      ensures id in old(users) ==> code == ExistingLogin
      ensures code == if id in old(users) || (exists u | u in old(users) :: old(users)[u].login == login)
                      then ExistingLogin else Okey
      ensures users == if code == Okey then old(users)[id := User(login, password, login, "", "", "", false)]
                       else old(users)
    {
      if id in users || exists u | u in users :: users[u].login == login {
        return ExistingLogin;
      }
      users := users[id := User(login, password, login, "", "", "", false)];
      code := Okey;
    }

    method UpdateUser(id: Id, row: User) returns (code: Status)
      requires id in users
      modifies this`users
      ensures ForeignKeysHold(old(View())) ==> ForeignKeysHold(View())
      ensures code == if exists u | u in old(users) :: u != id && old(users)[u].login == row.login
                      then ExistingLogin else Okey
      ensures users == if code == Okey then old(users)[id := row] else old(users)
    {
      if exists u | u in users :: u != id && users[u].login == row.login {
        return ExistingLogin;
      }
      users := users[id := row];
      code := Okey;
    }

    method CreateRequest(from: Id, to: Id) returns (code: Status)
      modifies this`requests
      ensures ForeignKeysHold(old(View())) ==> ForeignKeysHold(View())
      ensures code == if from in users && to in users then Okey else InternalServerError
      ensures requests == if code == Okey then old(requests) + multiset{(from, to)} else old(requests)
    {
      if from !in users || to !in users {
        return InternalServerError;
      }
      requests := requests + multiset{(from, to)};
      code := Okey;
    }

    method DeleteRequest(from: Id, to: Id)
      modifies this`requests
      ensures ForeignKeysHold(old(View())) ==> ForeignKeysHold(View())
      ensures requests == old(requests)[(from, to) := 0]
    {
      requests := requests[(from, to) := 0];
    }

    method CreateContact(from: Id, to: Id) returns (code: Status)
      modifies this`contacts
      ensures ForeignKeysHold(old(View())) ==> ForeignKeysHold(View())
      ensures code == if from in users && to in users then Okey else InternalServerError
      ensures contacts == if code == Okey then old(contacts) + multiset{(from, to)} else old(contacts)
    {
      if from !in users || to !in users {
        return InternalServerError;
      }
      contacts := contacts + multiset{(from, to)};
      code := Okey;
    }

    method DeleteContact(u: Id, v: Id)
      modifies this`contacts
      ensures ForeignKeysHold(old(View())) ==> ForeignKeysHold(View())
      ensures contacts == old(contacts)[(u, v) := 0][(v, u) := 0]
    {
      contacts := contacts[(u, v) := 0][(v, u) := 0];
    }

    // Two statements outside a transaction: when the rows are refused the chat stays
    method CreateChat(id: Id, chat: Chat, members: seq<Id>) returns (code: Status)
      modifies this`chats, this`party
      ensures ForeignKeysHold(old(View())) ==> ForeignKeysHold(View())
      ensures id in old(chats) ==> code == InternalServerError && chats == old(chats) && party == old(party)
      ensures id !in old(chats) ==> chats == old(chats)[id := chat]
      ensures id !in old(chats) ==>
                code == if InsertableRows(users, old(party), members, id) then Okey else InternalServerError
      ensures id !in old(chats) ==>
                party == if code == Okey then old(party) + PartyRows(Elements(members), id) else old(party)
    {
      if id in chats {
        return InternalServerError;
      }
      chats := chats[id := chat];
      if !InsertableRows(users, party, members, id) {
        return InternalServerError;
      }
      party := party + PartyRows(Elements(members), id);
      code := Okey;
    }

    method AddUserToChat(c: Id, u: Id) returns (code: Status)
      modifies this`chats, this`party
      ensures ForeignKeysHold(old(View())) ==> ForeignKeysHold(View())
      ensures code == if c in old(chats) && u in users && (u, c) !in old(party) then Okey else InternalServerError
      ensures code != Okey ==> chats == old(chats) && party == old(party)
      ensures code == Okey ==> && party == old(party) + {(u, c)}
                               && chats == old(chats)[c := old(chats)[c].(size := old(chats)[c].size + 1)]
    {
      if c !in chats || u !in users || (u, c) in party {
        return InternalServerError;
      }
      party := party + {(u, c)};
      chats := chats[c := chats[c].(size := chats[c].size + 1)];
      code := Okey;
    }

    method DeletePartyRow(u: Id, c: Id) returns (affected: bool)
      modifies this`party
      ensures ForeignKeysHold(old(View())) ==> ForeignKeysHold(View())
      ensures affected == ((u, c) in old(party)) && party == old(party) - {(u, c)}
    {
      affected := (u, c) in party;
      party := party - {(u, c)};
    }

    method DecreaseChatSize(c: Id)
      modifies this`chats
      ensures ForeignKeysHold(old(View())) ==> ForeignKeysHold(View())
      ensures c !in old(chats) ==> chats == old(chats)
      ensures c in old(chats) ==> chats == old(chats)[c := old(chats)[c].(size := old(chats)[c].size - 1)]
    {
      if c in chats {
        chats := chats[c := chats[c].(size := chats[c].size - 1)];
      }
    }

    // Deletes a chat nobody can use any more, with its party and message rows
    method DeleteDeadChat(c: Id)
      modifies this`chats, this`party, this`messages
      ensures ForeignKeysHold(old(View())) ==> ForeignKeysHold(View())
      ensures var dead := c in old(chats) && IsDead(old(chats)[c]);
              && chats == (if dead then old(chats) - {c} else old(chats))
              && party == (if dead then set p | p in old(party) && p.1 != c else old(party))
              && messages == (if dead then MessagesOutside(old(messages), c) else old(messages))
    {
      if c in chats && IsDead(chats[c]) {
        chats := chats - {c};
        party := set p | p in party && p.1 != c;
        MessagesOutsideElements(messages, c);
        messages := MessagesOutside(messages, c);
      }
    }

    method PostMessage(m: Message) returns (code: Status)
      modifies this`messages
      ensures ForeignKeysHold(old(View())) ==> ForeignKeysHold(View())
      ensures code == if Insertable(View().(messages := old(messages)), m) then Okey else InternalServerError
      ensures messages == if code == Okey then old(messages) + [m] else old(messages)
    {
      if !Insertable(View(), m) {
        return InternalServerError;
      }
      messages := messages + [m];
      code := Okey;
    }
  }

  predicate IsDead(chat: Chat) {
    (chat.kind == Public && chat.size == 0) || (chat.kind == Private && chat.size == 1)
  }

  predicate InsertableRows(users: map<Id, User>, party: set<(Id, Id)>, members: seq<Id>, c: Id) {
    && (forall u | u in members :: u in users && (u, c) !in party)
    && (forall i, j | 0 <= i < j < |members| :: members[i] != members[j])
  }

  predicate Insertable(t: Tables, m: Message) {
    && m.chatId in t.chats && m.senderId in t.users
    && (forall o | o in t.messages ::
          && o.id != m.id
          && (o.chatId != m.chatId || o.senderId != m.senderId || o.time != m.time))
  }
}
