/** Small runs of the server to start from: two users sign up, become contacts, and open a chat. */
module Scenes {
  import opened Entities
  import opened Tables
  import opened Server
  import opened Validators
  import Accounts
  import Chats
  import Contacts

  // Two users to be, one password and one chat title
  datatype Scene = Scene(a: Id, b: Id, loginA: string, loginB: string, password: string, title: string)

  predicate IsScene(s: Scene) {
    && s.a != s.b && s.loginA != s.loginB
    && IsLogin(s.loginA) && IsLogin(s.loginB) && IsPassword(s.password) && IsChatName(s.title)
  }

  function NewUser(login: string, password: string): User {
    User(login, password, login, "", "", "", false)
  }

  // The tables after the first commands: two signups, a request and its acceptance, a chat
  function Signed1(s: Scene): Tables {
    EMPTY_TABLES.(users := map[s.a := NewUser(s.loginA, s.password)])
  }

  function Signed2(s: Scene): Tables {
    EMPTY_TABLES.(users := Signed1(s).users[s.b := NewUser(s.loginB, s.password)])
  }

  function Asked(s: Scene): Tables {
    Signed2(s).(requests := multiset{(s.a, s.b)})
  }

  function Befriended(s: Scene): Tables {
    Signed2(s).(contacts := multiset{(s.a, s.b)})
  }

  const LOBBY := "c"

  function PublicChat(s: Scene): Chat {
    Chat(Public, Some(s.title), 1)
  }

  function Opened(s: Scene): Tables {
    Chats.WithChat(Befriended(s), LOBBY, PublicChat(s), {s.b})
  }

  // A chat id for every number
  function Name(k: nat): Id {
    seq(k, _ => 'n')
  }

  // ---------- One step at a time ----------

  ghost predicate Leads(t: Tables, c: Command, t': Tables) {
    Enabled(t, c) && Step(t, c).0 == t'
  }

  ghost predicate ReachedBy(run: seq<Command>, t: Tables) {
    IsRun(run) && After(run) == t
  }

  ghost predicate Reachable(t: Tables) {
    exists run :: ReachedBy(run, t)
  }

  lemma Extend(t: Tables, c: Command, t': Tables)
    requires Reachable(t) && Leads(t, c, t')
    ensures Reachable(t')
  {
    var run :| ReachedBy(run, t);
    ExtendRun(run, t, c, t');
  }

  lemma ExtendRun(run: seq<Command>, t: Tables, c: Command, t': Tables)
    requires ReachedBy(run, t) && Leads(t, c, t')
    ensures ReachedBy(run + [c], t')
  {
    var longer := run + [c];
    assert longer[..|run|] == run && run[..|run|] == run;
    BeforePrefix(longer, |run|);
    forall i | 0 <= i < |longer| ensures Enabled(Before(longer, i), longer[i]) {
      if i < |run| {
        assert Enabled(Before(run, i), run[i]);
      }
    }
    assert After(longer) == t';
  }

  lemma SignupLeads(t: Tables, id: Id, login: string, password: string)
    requires IsLogin(login) && IsPassword(password) && id !in t.users && !Accounts.LoginTaken(t.users, login, None)
    ensures Leads(t, Signup(id, login, password), t.(users := t.users[id := NewUser(login, password)]))
  {
  }

  lemma AskLeads(s: Scene)
    requires IsScene(s)
    ensures Leads(Signed2(s), InviteCreate(s.a, s.b), Asked(s))
  {
  }

  lemma AcceptLeads(s: Scene)
    requires IsScene(s)
    ensures Leads(Asked(s), InviteAccept(s.b, s.a), Befriended(s))
  {
    assert Contacts.Accept(Asked(s), s.a, s.b).1 == Okey;
  }

  lemma OpenLeads(t: Tables, u: Id, title: string, id: Id)
    requires u in t.users && IsChatName(title) && id !in t.chats
    requires ChatsCount(t, u) < Chats.MAX_CHATS_COUNT_TO_JOIN
    ensures Leads(t, ChatCreatePublic(u, title, id), Chats.WithChat(t, id, Chat(Public, Some(title), 1), {u}))
  {
  }

  lemma OpenReaches(t: Tables, u: Id, title: string, id: Id)
    requires Reachable(t)
    requires u in t.users && IsChatName(title) && id !in t.chats
    requires ChatsCount(t, u) < Chats.MAX_CHATS_COUNT_TO_JOIN
    ensures Reachable(Chats.WithChat(t, id, Chat(Public, Some(title), 1), {u}))
  {
    OpenLeads(t, u, title, id);
    Extend(t, ChatCreatePublic(u, title, id), Chats.WithChat(t, id, Chat(Public, Some(title), 1), {u}));
  }

  // Two users sign up, become contacts, and one of them opens a chat
  function Opening(s: Scene): seq<Command> {
    [Signup(s.a, s.loginA, s.password)] + [Signup(s.b, s.loginB, s.password)] + [InviteCreate(s.a, s.b)]
    + [InviteAccept(s.b, s.a)] + [ChatCreatePublic(s.b, s.title, LOBBY)]
  }

  lemma SignedReached(s: Scene)
    requires IsScene(s)
    ensures ReachedBy([Signup(s.a, s.loginA, s.password)] + [Signup(s.b, s.loginB, s.password)], Signed2(s))
  {
    assert ReachedBy([], EMPTY_TABLES);
    SignupLeads(EMPTY_TABLES, s.a, s.loginA, s.password);
    ExtendRun([], EMPTY_TABLES, Signup(s.a, s.loginA, s.password), Signed1(s));
    SignupLeads(Signed1(s), s.b, s.loginB, s.password);
    assert [] + [Signup(s.a, s.loginA, s.password)] == [Signup(s.a, s.loginA, s.password)];
    ExtendRun([Signup(s.a, s.loginA, s.password)], Signed1(s), Signup(s.b, s.loginB, s.password), Signed2(s));
  }

  lemma BefriendedReached(s: Scene)
    requires IsScene(s)
    ensures ReachedBy(Opening(s)[..4], Befriended(s))
  {
    var run := [Signup(s.a, s.loginA, s.password)] + [Signup(s.b, s.loginB, s.password)];
    SignedReached(s);
    AskLeads(s);
    ExtendRun(run, Signed2(s), InviteCreate(s.a, s.b), Asked(s));
    AcceptLeads(s);
    ExtendRun(run + [InviteCreate(s.a, s.b)], Asked(s), InviteAccept(s.b, s.a), Befriended(s));
    assert Opening(s)[..4] == run + [InviteCreate(s.a, s.b)] + [InviteAccept(s.b, s.a)];
  }

  lemma OpenedReached(s: Scene)
    requires IsScene(s)
    ensures ReachedBy(Opening(s), Opened(s))
  {
    BefriendedReached(s);
    assert RowsOfUser(Befriended(s), s.b) == {};
    OpenLeads(Befriended(s), s.b, s.title, LOBBY);
    ExtendRun(Opening(s)[..4], Befriended(s), ChatCreatePublic(s.b, s.title, LOBBY), Opened(s));
    assert Opening(s) == Opening(s)[..4] + [ChatCreatePublic(s.b, s.title, LOBBY)];
  }

  // The chat has both users in it
  function Joined(s: Scene): Tables {
    Chats.WithChat(Opened(s), LOBBY, PublicChat(s).(size := 2), {s.a})
  }

  function Joining(s: Scene): seq<Command> {
    Opening(s) + [ChatAdd(s.b, LOBBY, s.a)]
  }

  lemma AddLeads(t: Tables, caller: Id, chat: Id, user: Id)
    requires caller in t.users && Chats.AddRefusal(t, caller, chat, user) == Okey
    ensures Leads(t, ChatAdd(caller, chat, user),
                  Chats.WithChat(t, chat, t.chats[chat].(size := t.chats[chat].size + 1), {user}))
  {
  }

  lemma JoinedReached(s: Scene)
    requires IsScene(s)
    ensures ReachedBy(Joining(s), Joined(s))
  {
    OpenedReached(s);
    assert PartyRows({s.b}, LOBBY) == {(s.b, LOBBY)};
    assert (s.a, s.b) in Opened(s).contacts;
    AddLeads(Opened(s), s.b, LOBBY, s.a);
    ExtendRun(Opening(s), Opened(s), ChatAdd(s.b, LOBBY, s.a), Joined(s));
  }

  const PAIR := "p"

  // The two have a private chat
  function Paired(s: Scene): Tables {
    Chats.WithChat(Befriended(s), PAIR, Chat(Private, None, 2), {s.b, s.a})
  }

  lemma PairLeads(s: Scene)
    requires IsScene(s)
    ensures Leads(Befriended(s), ChatCreatePrivate(s.b, s.a, PAIR), Paired(s))
    ensures Step(Befriended(s), ChatCreatePrivate(s.b, s.a, PAIR)).1 == Okey
  {
    assert (s.a, s.b) in Befriended(s).contacts;
    assert RowsOfUser(Befriended(s), s.a) == {} && RowsOfUser(Befriended(s), s.b) == {};
    assert Chats.PrivateRefusal(Befriended(s), s.b, s.a) == Okey;
  }

  /** Private chats exist: two contacts can have one. */
  lemma PairedReached(s: Scene)
    requires IsScene(s)
    ensures ReachedBy(Opening(s)[..4] + [ChatCreatePrivate(s.b, s.a, PAIR)], Paired(s))
    ensures Step(Befriended(s), ChatCreatePrivate(s.b, s.a, PAIR)).1 == Okey
    ensures RowsOfChat(Paired(s), PAIR) == {(s.a, PAIR), (s.b, PAIR)} && Paired(s).chats[PAIR].kind == Private
  {
    BefriendedReached(s);
    PairLeads(s);
    assert PartyRows({s.b, s.a}, PAIR) == {(s.a, PAIR), (s.b, PAIR)};
    ExtendRun(Opening(s)[..4], Befriended(s), ChatCreatePrivate(s.b, s.a, PAIR), Paired(s));
  }

  function Repeat(c: char, n: nat): string {
    seq(n, _ => c)
  }

  /** Such a scene exists. */
  lemma SomeScene()
    ensures IsScene(Scene(Repeat('a', 1), Repeat('b', 1), Repeat('a', 5), Repeat('b', 5),
                          Repeat('!', 7), Repeat('c', 5)))
  {
    assert Repeat('a', 5)[0] != Repeat('b', 5)[0] && Repeat('a', 1)[0] != Repeat('b', 1)[0];
    assert Repeat('!', 7)[0] == '!' && IsSpecial('!');
  }
}
