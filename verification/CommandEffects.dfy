/** What each command does, said row by row: exactly when it succeeds, what it answers if it does not,
    which rows it adds, changes and removes, and that it leaves all others. */
module CommandEffects {
  import opened Entities
  import opened Tables
  import opened Server
  import opened Validators
  import opened ContactRuns
  import opened ChatRuns
  import Accounts
  import Chats
  import Contacts
  import Undo

  // ---------- Accounts ----------

  ghost predicate LoginInUse(t: Tables, login: string, except: set<Id>) {
    exists u :: u in t.users && u !in except && t.users[u].login == login
  }

  // One users row is new or different, and nothing else
  ghost predicate OnlyUserChanges(t: Tables, t': Tables, u: Id) {
    && t' == t.(users := t'.users) && t'.users.Keys == t.users.Keys + {u}
    && forall v :: v in t.users && v != u ==> t'.users[v] == t.users[v]
  }

  /** Signing up needs a valid login that nobody has and a valid password. The new row holds both, the
      login also as the name, and nothing else yet. */
  lemma SignupEffect(t: Tables, id: Id, login: string, password: string)
    requires id !in t.users
    ensures var (t', code) := Step(t, Signup(id, login, password));
            && (code == Okey <==> IsLogin(login) && IsPassword(password) && !LoginInUse(t, login, {}))
            && (code == InvalidLogin <==> !IsLogin(login))
            && (code == InvalidPassword <==> IsLogin(login) && !IsPassword(password))
            && (code == Okey ==>
                  && OnlyUserChanges(t, t', id)
                  && t'.users[id].login == login && t'.users[id].name == login && t'.users[id].password == password
                  && t'.users[id].phone == "" && t'.users[id].email == "" && t'.users[id].self == ""
                  && !t'.users[id].online)
            && (code != Okey ==> t' == t && code in {InvalidLogin, InvalidPassword, ExistingLogin})
  {
  }

  predicate IsOption(opt: string) {
    opt == "pl" || opt == "pp" || opt == "pn" || opt == "pph" || opt == "pe" || opt == "ps"
  }

  // The validator of each option
  predicate IsValidFor(opt: string, value: string) {
    && (opt == "pl" ==> IsLogin(value)) && (opt == "pp" ==> IsPassword(value)) && (opt == "pn" ==> IsName(value))
    && (opt == "pph" ==> IsPhone(value)) && (opt == "pe" ==> IsEmail(value)) && (opt == "ps" ==> IsSelf(value))
  }

  ghost predicate SetsLogin(options: seq<string>, params: seq<string>, login: string)
    requires |params| == |options| + 1
  {
    exists i :: 0 <= i < |options| && options[i] == "pl" && "pl" !in options[i + 1..] && params[i + 1] == login
  }

  ghost predicate AllValid(options: seq<string>, params: seq<string>)
    requires |params| == |options| + 1
  {
    forall i :: 0 <= i < |options| ==> IsValidFor(options[i], params[i + 1])
  }

  lemma {:induction false} LastLogin(options: seq<string>, params: seq<string>, login: string)
    requires |params| == |options| + 1
    ensures Accounts.LastSetting(options, params, "pl") == Some(login) <==> SetsLogin(options, params, login)
  {
    if SetsLogin(options, params, login) {
      var i :| 0 <= i < |options| && options[i] == "pl" && "pl" !in options[i + 1..] && params[i + 1] == login;
      assert forall j :: i < j < |options| ==> options[j] == options[i + 1..][j - i - 1];
      Accounts.LastOccurrenceWins(options, params, "pl", i);
    }
    if Accounts.LastSetting(options, params, "pl") == Some(login) {
      var i := LastPlace(options, params, "pl");
      var rest := options[i + 1..];
      assert forall j :: 0 <= j < |rest| ==> rest[j] == options[i + 1 + j];
    }
  }

  lemma {:induction false} LastPlace(options: seq<string>, params: seq<string>, opt: string) returns (i: nat)
    requires |options| < |params| && Accounts.LastSetting(options, params, opt).Some?
    ensures i < |options| && options[i] == opt && (forall j :: i < j < |options| ==> options[j] != opt)
    ensures Accounts.LastSetting(options, params, opt) == Some(params[i + 1])
  {
    var n := |options| - 1;
    if options[n] == opt {
      i := n;
    } else {
      i := LastPlace(options[..n], params, opt);
    }
  }

  /** Settings are accepted exactly when each passes its validator and no other user has the login that is
      set last; what they change is said by ProfileSetIsFieldwise. */
  lemma ProfileSetEffect(t: Tables, caller: Id, options: seq<string>, params: seq<string>)
    requires UsersOk(t) && caller in t.users
    ensures var (t', code) := Step(t, ProfileSet(caller, options, params));
            && (code == InvalidCommand <==> |params| != |options| + 1 || exists opt :: opt in options && !IsOption(opt))
            && (code != InvalidCommand ==>
                  && (code == InvalidProfileData <==> !AllValid(options, params))
                  && (code == Okey <==>
                      AllValid(options, params) &&
                      forall login :: SetsLogin(options, params, login) ==> !LoginInUse(t, login, {caller}))
                  && (code == Okey ==> OnlyUserChanges(t, t', caller))
                  && (code != Okey ==> t' == t && code in {InvalidProfileData, ExistingLogin}))
  {
    OptionsKnown(options, params);
    if Accounts.IsProfileCommand(options, params) {
      SettingsValid(options, params);
      LoginFree(t, caller, options, params);
    }
  }

  lemma OptionsKnown(options: seq<string>, params: seq<string>)
    ensures !Accounts.IsProfileCommand(options, params) <==>
            |params| != |options| + 1 || exists opt :: opt in options && !IsOption(opt)
  {
  }

  lemma SettingsValid(options: seq<string>, params: seq<string>)
    requires Accounts.IsProfileCommand(options, params)
    ensures AllValid(options, params) <==>
            !exists i | 0 <= i < |options| :: !Accounts.IsValidSetting(options[i], params[i + 1])
  {
    forall i | 0 <= i < |options|
      ensures Accounts.IsValidSetting(options[i], params[i + 1]) == IsValidFor(options[i], params[i + 1])
    {
      assert options[i] in options;
    }
  }

  // The login the row would get is taken by another exactly if it is set, and taken
  lemma LoginFree(t: Tables, caller: Id, options: seq<string>, params: seq<string>)
    requires UsersOk(t) && caller in t.users && |params| == |options| + 1
    ensures var row := Accounts.WithSettings(t.users[caller], options, params);
            options != [] && Accounts.LoginTaken(t.users, row.login, Some(caller)) <==>
            exists login :: SetsLogin(options, params, login) && LoginInUse(t, login, {caller})
  {
    var setting := Accounts.LastSetting(options, params, "pl");
    forall login ensures SetsLogin(options, params, login) <==> setting == Some(login) {
      LastLogin(options, params, login);
    }
    if setting.Some? {
      assert SetsLogin(options, params, setting.value);
      assert options != [];
    }
  }

  // ---------- Invitations and contacts ----------

  predicate AreContacts(t: Tables, u: Id, v: Id) {
    (u, v) in t.contacts || (v, u) in t.contacts
  }

  predicate HaveRequest(t: Tables, u: Id, v: Id) {
    (u, v) in t.requests || (v, u) in t.requests
  }

  // No request or contact row of other pairs changes, and no other table
  ghost predicate OnlyPairChanges(t: Tables, t': Tables, u: Id, v: Id) {
    && t' == t.(requests := t'.requests, contacts := t'.contacts)
    && forall p :: p != (u, v) && p != (v, u) ==> t'.requests[p] == t.requests[p] && t'.contacts[p] == t.contacts[p]
  }

  /** A request can be made to any user with whom there is none and who is no contact, but not to oneself;
      it adds one row. */
  lemma InviteCreateEffect(t: Tables, caller: Id, user: Id)
    requires caller in t.users
    ensures var (t', code) := Step(t, InviteCreate(caller, user));
            && (code == Okey <==>
                user in t.users && user != caller && !AreContacts(t, caller, user) && !HaveRequest(t, caller, user))
            && (code == Okey ==> OnlyPairChanges(t, t', caller, user) && t'.contacts == t.contacts
                                 && t'.requests[(caller, user)] == 1 && t'.requests[(user, caller)] == 0)
            && (code != Okey ==> t' == t)
  {
  }

  /** Cancelling removes the caller's own request to the user, rejecting the user's to the caller. */
  lemma InviteDropEffect(t: Tables, caller: Id, user: Id, own: bool)
    requires RelationsOk(t)
    ensures var (t', code) := Step(t, if own then InviteCancel(caller, user) else InviteReject(caller, user));
            var gone := if own then (caller, user) else (user, caller);
            && (code == Okey <==> gone in t.requests)
            && (code == Okey ==> OnlyPairChanges(t, t', caller, user) && t'.contacts == t.contacts
                                 && t'.requests[gone] == 0
                                 && t'.requests[(gone.1, gone.0)] == t.requests[(gone.1, gone.0)])
            && (code != Okey ==> t' == t && code == NonexistentRequest)
  {
    assert Related(t, user, caller) <= if user == caller then 0 else 1;
  }

  /** Accepting needs the user's request to the caller and turns it into a contact row of the same two. */
  lemma InviteAcceptEffect(t: Tables, caller: Id, user: Id)
    requires RelationsOk(t)
    ensures var (t', code) := Step(t, InviteAccept(caller, user));
            && (code == Okey <==> (user, caller) in t.requests)
            && (code == Okey ==> OnlyPairChanges(t, t', caller, user)
                                 && !HaveRequest(t', caller, user)
                                 && t'.contacts[(user, caller)] == 1 && t'.contacts[(caller, user)] == 0)
            && (code != Okey ==> t' == t && code == NonexistentRequest)
  {
    assert Related(t, user, caller) <= if user == caller then 0 else 1;
  }

  /** Deleting needs a contact, whoever asked for it, and removes the row. */
  lemma ContactDeleteEffect(t: Tables, caller: Id, user: Id)
    requires RelationsOk(t)
    ensures var (t', code) := Step(t, ContactDelete(caller, user));
            && (code == Okey <==> AreContacts(t, caller, user))
            && (code == Okey ==> OnlyPairChanges(t, t', caller, user) && t'.requests == t.requests
                                 && !AreContacts(t', caller, user))
            && (code != Okey ==> t' == t && code == NonexistentContact)
  {
  }

  // ---------- Chats ----------

  // Some private chat has exactly these two members
  ghost predicate HavePrivateChat(t: Tables, u: Id, v: Id) {
    exists c :: IsPrivate(t, c) && RowsOfChat(t, c) == {(u, c), (v, c)}
  }

  // A new chat with its rows, and nothing else
  ghost predicate AddsChat(t: Tables, t': Tables, id: Id, kind: ChatKind, title: Option<string>, members: set<Id>) {
    && t' == t.(chats := t'.chats, party := t'.party) && t'.chats.Keys == t.chats.Keys + {id}
    && (forall c :: c in t.chats && c != id ==> t'.chats[c] == t.chats[c])
    && t'.chats[id].kind == kind && t'.chats[id].title == title && t'.chats[id].size == |members|
    && (forall p :: p in t'.party <==> p in t.party || (p.1 == id && p.0 in members))
  }

  lemma RelationMeans(t: Tables, u: Id, v: Id)
    requires RelationsOk(t)
    ensures UsersRelation(t, u, v) == Contacts <==> AreContacts(t, u, v)
    ensures AreContacts(t, u, v) ==> u != v && u in t.users && v in t.users
  {
    assert Related(t, u, v) <= if u == v then 0 else 1;
  }

  /** A private chat is made exactly between contacts who have none yet and of whom neither is in 512
      chats; its members are the two. */
  lemma CreatePrivateEffect(t: Tables, caller: Id, user: Id, id: Id)
    requires ChatsOk(t) && RelationsOk(t) && Enabled(t, ChatCreatePrivate(caller, user, id))
    ensures var (t', code) := Step(t, ChatCreatePrivate(caller, user, id));
            && (code == Okey <==>
                && AreContacts(t, caller, user) && !HavePrivateChat(t, caller, user)
                && |RowsOfUser(t, caller)| != 512 && |RowsOfUser(t, user)| != 512)
            && (code == NonexistentContact <==> |RowsOfUser(t, caller)| != 512 && !AreContacts(t, caller, user))
            && (code == AlreadyInChat <==>
                && |RowsOfUser(t, caller)| != 512
                && AreContacts(t, caller, user) && HavePrivateChat(t, caller, user))
            && (code == Okey ==> AddsChat(t, t', id, Private, None, {caller, user}))
            && (code != Okey ==> t' == t && code in {NonexistentContact, AlreadyInChat, JoinedChatsLimitExceeded})
  {
    RelationMeans(t, caller, user);
    if AreContacts(t, caller, user) {
      Undo.PrivateChatExistsMeans(t, caller, user);
      assert |{caller, user}| == 2;
    }
  }

  /** A public chat is made for whoever is not in 512 chats, under a valid title; its member is the caller. */
  lemma CreatePublicEffect(t: Tables, caller: Id, title: string, id: Id)
    requires Enabled(t, ChatCreatePublic(caller, title, id))
    ensures var (t', code) := Step(t, ChatCreatePublic(caller, title, id));
            && (code == Okey <==> |RowsOfUser(t, caller)| != 512 && IsChatName(title))
            && (code == InvalidChatName <==> |RowsOfUser(t, caller)| != 512 && !IsChatName(title))
            && (code == Okey ==> AddsChat(t, t', id, Public, Some(title), {caller}))
            && (code != Okey ==> t' == t && code in {InvalidChatName, JoinedChatsLimitExceeded})
  {
  }

  /** A member of a public chat of fewer than 65536 can add any contact who is not in it. */
  lemma ChatAddEffect(t: Tables, caller: Id, chat: Id, user: Id)
    requires ChatsOk(t) && RelationsOk(t) && caller in t.users
    ensures var (t', code) := Step(t, ChatAdd(caller, chat, user));
            && (code == NotAParticipant <==> (caller, chat) !in t.party)
            && ((caller, chat) in t.party ==>
                  && chat in t.chats
                  && (code == ImpossibleAddToPrivateChat <==> t.chats[chat].kind == Private)
                  && (code == Okey <==>
                      && t.chats[chat].kind == Public && |RowsOfChat(t, chat)| < 65536
                      && AreContacts(t, caller, user) && (user, chat) !in t.party))
            && (code == Okey ==>
                  && t' == t.(chats := t'.chats, party := t.party + {(user, chat)})
                  && t'.chats == t.chats[chat := t.chats[chat].(size := t.chats[chat].size + 1)])
            && (code != Okey ==> t' == t)
  {
    AddAnswer(t, caller, chat, user);
    AddRows(t, caller, chat, user);
  }

  lemma AddRows(t: Tables, caller: Id, chat: Id, user: Id)
    ensures var (t', code) := Chats.Add(t, caller, chat, user);
            && (code == Okey ==>
                  && chat in t.chats && t' == t.(chats := t'.chats, party := t.party + {(user, chat)})
                  && t'.chats == t.chats[chat := t.chats[chat].(size := t.chats[chat].size + 1)])
            && (code != Okey ==> t' == t)
            && code == Chats.AddRefusal(t, caller, chat, user)
    ensures Step(t, ChatAdd(caller, chat, user)) == Chats.Add(t, caller, chat, user)
  {
    assert PartyRows({user}, chat) == {(user, chat)};
  }

  lemma AddAnswer(t: Tables, caller: Id, chat: Id, user: Id)
    requires ChatsOk(t) && RelationsOk(t)
    ensures var code := Chats.AddRefusal(t, caller, chat, user);
            && (code == NotAParticipant <==> (caller, chat) !in t.party)
            && ((caller, chat) in t.party ==>
                  && chat in t.chats
                  && (code == ImpossibleAddToPrivateChat <==> t.chats[chat].kind == Private)
                  && (code == Okey <==>
                      && t.chats[chat].kind == Public && |RowsOfChat(t, chat)| < 65536
                      && AreContacts(t, caller, user) && (user, chat) !in t.party))
  {
    RelationMeans(t, caller, user);
    if (caller, chat) in t.party {
      RowsKnown(t, caller, chat);
    }
  }

  // A participant's chat is known, with its title
  lemma RowsKnown(t: Tables, u: Id, c: Id)
    requires ChatsOk(t) && (u, c) in t.party
    ensures c in t.chats && t.chats[c].size == |RowsOfChat(t, c)|
    ensures GetChatInfo(t, u, c) == ChatInfo(t.chats[c].kind, t.chats[c].size)
  {
    if t.chats[c].kind == Private {
      var rows, others := RowsOfChat(t, c), TitleRows(t, u, c);
      assert (u, c) in rows && others <= rows - {(u, c)} && |rows - {(u, c)}| == 1;
      Fewer(others, rows - {(u, c)});
    }
  }

  lemma Fewer(a: set<(Id, Id)>, b: set<(Id, Id)>)
    requires a <= b
    ensures |a| <= |b|
  {
    assert b == a + (b - a);
  }

  /** Only a member can leave; what leaving does is said by LeaveEndsChat. */
  lemma ChatLeaveEffect(t: Tables, caller: Id, chat: Id)
    requires ChatsOk(t)
    ensures var (t', code) := Step(t, ChatLeave(caller, chat));
            && (code == Okey <==> (caller, chat) in t.party)
            && (code == Okey && chat in t'.chats ==>
                  && t' == t.(chats := t'.chats, party := t.party - {(caller, chat)})
                  && t'.chats == t.chats[chat := t.chats[chat].(size := t.chats[chat].size - 1)])
            && (code != Okey ==> t' == t && code == NotAParticipant)
  {
    assert Step(t, ChatLeave(caller, chat)) == Chats.Leave(t, caller, chat);
  }

  // A text of at most 4096 characters, or a file of at most 256 megabytes
  predicate FitsPost(m: Message, fileSize: nat) {
    match m.kind
    case Text => |m.content| <= 4096
    case File => fileSize <= 256 * 1048576
  }

  // Another message of the chat by the same sender at the same time
  ghost predicate TwinPosted(t: Tables, m: Message) {
    exists o :: o in t.messages && o.chatId == m.chatId && o.senderId == m.senderId && o.time == m.time
  }

  /** A post needs a member, a size within the limit, and no message of the chat by the same sender at the
      same time; it puts the message at the end. */
  lemma ChatPostEffect(t: Tables, m: Message, fileSize: nat)
    requires ChatsOk(t) && Enabled(t, ChatPost(m, fileSize))
    ensures var (t', code) := Step(t, ChatPost(m, fileSize));
            && (code == Okey <==> (m.senderId, m.chatId) in t.party && FitsPost(m, fileSize) && !TwinPosted(t, m))
            && (code == NotAParticipant <==> (m.senderId, m.chatId) !in t.party)
            && (code == TextMessageTooLarge <==>
                (m.senderId, m.chatId) in t.party && m.kind == Text && !FitsPost(m, fileSize))
            && (code == FileTooLarge <==>
                (m.senderId, m.chatId) in t.party && m.kind == File && !FitsPost(m, fileSize))
            && (code == Okey ==> t' == t.(messages := t.messages + [m]))
            && (code != Okey ==> t' == t)
  {
  }
}
