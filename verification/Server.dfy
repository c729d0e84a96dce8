/** The server as a state machine: one command is one step on the tables. */
module Server {
  import opened Entities
  import opened Tables
  import Accounts
  import Chats
  import Contacts

  // A caller is the user of a session made by a login. Generated ids and the clock are inputs.
  datatype Command =
    | Signup(id: Id, login: string, password: string)
    | ProfileSet(caller: Id, options: seq<string>, params: seq<string>)
    | InviteCreate(caller: Id, user: Id)
    | InviteCancel(caller: Id, user: Id)
    | InviteAccept(caller: Id, user: Id)
    | InviteReject(caller: Id, user: Id)
    | ContactDelete(caller: Id, user: Id)
    | ChatCreatePrivate(caller: Id, user: Id, id: Id)
    | ChatCreatePublic(caller: Id, title: string, id: Id)
    | ChatAdd(caller: Id, chat: Id, user: Id)
    | ChatLeave(caller: Id, chat: Id)
    | ChatPost(message: Message, fileSize: nat)

  function Caller(c: Command): Id
    requires !c.Signup?
  {
    if c.ChatPost? then c.message.senderId else c.caller
  }

  // The caller is registered and a generated id is not in use
  ghost predicate Enabled(t: Tables, c: Command) {
    && (c.Signup? ==> c.id !in t.users)
    && (!c.Signup? ==> Caller(c) in t.users)
    && (c.ChatCreatePrivate? || c.ChatCreatePublic? ==> c.id !in t.chats)
    && (c.ChatPost? ==> forall m :: m in t.messages ==> m.id != c.message.id)
  }

  function Step(t: Tables, c: Command): (Tables, Status) {
    match c
    case Signup(id, login, password) => Accounts.Signup(t, id, login, password)
    case ProfileSet(caller, options, params) =>
      if caller in t.users then Accounts.ProfileSet(t, caller, options, params) else (t, InvalidCommand)
    case InviteCreate(caller, user) => Contacts.Create(t, caller, user)
    case InviteCancel(caller, user) => Contacts.Drop(t, caller, user)
    case InviteAccept(caller, user) => Contacts.Accept(t, user, caller)
    case InviteReject(caller, user) => Contacts.Drop(t, user, caller)
    case ContactDelete(caller, user) => Contacts.Delete(t, caller, user)
    case ChatCreatePrivate(caller, user, id) => Chats.CreatePrivate(t, caller, user, id)
    case ChatCreatePublic(caller, title, id) => Chats.CreatePublic(t, caller, title, id)
    case ChatAdd(caller, chat, user) => Chats.Add(t, caller, chat, user)
    case ChatLeave(caller, chat) => Chats.Leave(t, caller, chat)
    case ChatPost(message, fileSize) => Chats.Post(t, message, fileSize)
  }

  // ---------- Runs ----------

  function After(run: seq<Command>): Tables {
    if run == [] then EMPTY_TABLES else Step(After(run[..|run| - 1]), run[|run| - 1]).0
  }

  // The tables before command i
  function Before(run: seq<Command>, i: nat): Tables
    requires i <= |run|
  {
    After(run[..i])
  }

  function StatusOf(run: seq<Command>, i: nat): Status
    requires i < |run|
  {
    Step(Before(run, i), run[i]).1
  }

  ghost predicate IsRun(run: seq<Command>) {
    forall i :: 0 <= i < |run| ==> Enabled(Before(run, i), run[i])
  }

  lemma BeforePrefix(run: seq<Command>, n: nat)
    requires n <= |run|
    ensures forall i :: 0 <= i <= n ==> Before(run[..n], i) == Before(run, i)
    ensures forall i :: 0 <= i < n ==> StatusOf(run[..n], i) == StatusOf(run, i)
  {
    forall i | 0 <= i <= n ensures run[..n][..i] == run[..i] {
    }
  }

  lemma RunPrefix(run: seq<Command>, n: nat)
    requires IsRun(run) && n <= |run|
    ensures IsRun(run[..n])
  {
    BeforePrefix(run, n);
    forall i | 0 <= i < n ensures Enabled(Before(run[..n], i), run[..n][i]) {
      assert Enabled(Before(run, i), run[i]);
    }
  }

  lemma AfterLast(run: seq<Command>, before: seq<Command>, last: Command)
    requires run != [] && before == run[..|run| - 1] && last == run[|run| - 1]
    ensures After(run) == Step(After(before), last).0
  {
  }

  lemma BeforeEnd(run: seq<Command>)
    ensures Before(run, |run|) == After(run)
  {
    assert run[..|run|] == run;
  }

  lemma BeforeNext(run: seq<Command>, i: nat)
    requires i < |run|
    ensures Before(run, i + 1) == Step(Before(run, i), run[i]).0
    ensures Before(run, |run|) == After(run)
  {
    BeforeEnd(run);
    BeforeStep(run, i);
  }

  lemma BeforeStep(run: seq<Command>, i: nat)
    requires i < |run|
    ensures Before(run, i + 1) == Step(Before(run, i), run[i]).0
  {
    AfterLast(run[..i + 1], run[..i], run[i]);
  }

  // ---------- The handlers take these steps ----------

  /** Dispatches a command to its handler. */
  method Handle(db: Database, session: ClientSession, c: Command) returns (status: Status)
    requires Enabled(db.View(), c)
    requires !c.Signup? ==> session.nativeToken == Caller(c)
    requires c.ChatCreatePrivate? || c.ChatCreatePublic? ==> forall u :: (u, c.id) !in db.party
    modifies db, session`login
    ensures (db.View(), status) == Step(old(db.View()), c)
  {
    match c {
      case Signup(id, login, password) => status := Accounts.HandleSignup(db, id, login, password);
      case ProfileSet(_, options, params) =>
        var handler := new Accounts.ProfileSetHandler();
        status := handler.Execute(db, session, options, params);
      case InviteCreate(caller, user) => status := Contacts.HandleCreate(db, user, caller);
      case InviteCancel(caller, user) => status := Contacts.HandleCancel(db, user, caller);
      case InviteAccept(caller, user) => status := Contacts.HandleAccept(db, user, caller);
      case InviteReject(caller, user) => status := Contacts.HandleReject(db, user, caller);
      case ContactDelete(caller, user) => status := Contacts.HandleContactDelete(db, caller, user);
      case ChatCreatePrivate(caller, user, id) => status := Chats.HandleChatCreate(db, Private, caller, user, id);
      case ChatCreatePublic(caller, title, id) => status := Chats.HandleChatCreate(db, Public, caller, title, id);
      case ChatAdd(caller, chat, user) => status := Chats.HandleChatAdd(db, caller, chat, user);
      case ChatLeave(caller, chat) => status := Chats.HandleChatLeave(db, caller, chat);
      case ChatPost(message, fileSize) => status := Chats.HandleChatPost(db, message, fileSize);
    }
  }
}
