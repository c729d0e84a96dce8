/** Properties of accounts, invitations and contacts over every run of the server. */
module ContactRuns {
  import opened Entities
  import opened Tables
  import opened Server
  import opened Validators
  import opened Search
  import Accounts
  import Contacts

  // ---------- Users ----------

  predicate IsValidUser(u: User) {
    && IsLogin(u.login) && IsPassword(u.password) && IsName(u.name)
    && IsPhone(u.phone) && IsEmail(u.email) && IsSelf(u.self)
  }

  // The widths of the columns
  predicate FitsColumns(u: User) {
    && |u.login| <= 32 && |u.password| <= 32 && |u.name| <= 50
    && |u.phone| <= 16 && |u.email| <= 50 && |u.self| <= 100
  }

  ghost predicate UsersOk(t: Tables) {
    && (forall id :: id in t.users ==> IsValidUser(t.users[id]) && FitsColumns(t.users[id]))
    && (forall a, b :: a in t.users && b in t.users && t.users[a].login == t.users[b].login ==> a == b)
  }

  lemma SettingIsValid(options: seq<string>, params: seq<string>, opt: string, current: string)
    requires Accounts.IsProfileCommand(options, params) && opt in Accounts.PROFILE_OPTIONS
    requires forall i :: 0 <= i < |options| ==> Accounts.IsValidSetting(options[i], params[i + 1])
    requires Accounts.IsValidSetting(opt, current)
    ensures Accounts.IsValidSetting(opt, Accounts.Or(Accounts.LastSetting(options, params, opt), current))
  {
    if options != [] && options[|options| - 1] != opt {
      SettingIsValid(options[..|options| - 1], params[..|options|], opt, current);
      LastSettingPrefix(options[..|options| - 1], params, opt, |options|);
    }
  }

  lemma LastSettingPrefix(options: seq<string>, params: seq<string>, opt: string, n: nat)
    requires |options| < n <= |params|
    ensures Accounts.LastSetting(options, params[..n], opt) == Accounts.LastSetting(options, params, opt)
  {
    if options != [] {
      LastSettingPrefix(options[..|options| - 1], params, opt, n);
    }
  }

  lemma ProfileSetKeepsUsers(t: Tables, caller: Id, options: seq<string>, params: seq<string>)
    requires UsersOk(t) && caller in t.users
    ensures UsersOk(Accounts.ProfileSet(t, caller, options, params).0)
  {
    var (t', code) := Accounts.ProfileSet(t, caller, options, params);
    if code == Okey {
      var row := t.users[caller];
      SettingIsValid(options, params, "pl", row.login);
      SettingIsValid(options, params, "pp", row.password);
      SettingIsValid(options, params, "pn", row.name);
      SettingIsValid(options, params, "pph", row.phone);
      SettingIsValid(options, params, "pe", row.email);
      SettingIsValid(options, params, "ps", row.self);
      var updated := Accounts.WithSettings(row, options, params);
      assert IsValidUser(updated);
      assert options == [] ==> updated == row;
    }
  }

  lemma OnlyAccountsChangeUsers(t: Tables, c: Command)
    requires !c.Signup? && !c.ProfileSet?
    ensures Step(t, c).0.users == t.users
  {
  }

  /** Every command keeps every users row valid, and logins unique. */
  lemma StepKeepsUsers(t: Tables, c: Command)
    requires UsersOk(t) && Enabled(t, c)
    ensures UsersOk(Step(t, c).0)
  {
    if c.Signup? {
      SignupKeepsUsers(t, c.id, c.login, c.password);
    } else if c.ProfileSet? {
      ProfileSetKeepsUsers(t, c.caller, c.options, c.params);
    } else {
      OnlyAccountsChangeUsers(t, c);
    }
  }

  lemma SignupKeepsUsers(t: Tables, id: Id, login: string, password: string)
    requires UsersOk(t) && id !in t.users
    ensures UsersOk(Accounts.Signup(t, id, login, password).0)
  {
    if IsLogin(login) {
      LoginIsName(login);
    }
  }

  lemma {:induction false} ReachableUsers(run: seq<Command>)
    requires IsRun(run)
    ensures UsersOk(After(run))
  {
    if run != [] {
      var n := |run| - 1;
      RunPrefix(run, n);
      ReachableUsers(run[..n]);
      StepKeepsUsers(Before(run, n), run[n]);
    }
  }

  // ---------- Invitations and contacts ----------

  // The rows of both tables that relate two users
  function Related(t: Tables, u: Id, v: Id): nat {
    RowsBetween(t.contacts, u, v) + RowsBetween(t.requests, u, v)
  }

  ghost predicate RelationsOk(t: Tables) {
    && (forall u, v :: Related(t, u, v) <= if u == v then 0 else 1)
    && (forall p :: p in t.contacts || p in t.requests ==> p.0 in t.users && p.1 in t.users)
  }

  lemma CreateKeepsRelations(t: Tables, from: Id, to: Id)
    requires RelationsOk(t)
    ensures RelationsOk(Contacts.Create(t, from, to).0)
  {
    var t' := Contacts.Create(t, from, to).0;
    forall u, v ensures Related(t', u, v) <= if u == v then 0 else 1 {
      assert Related(t, u, v) <= if u == v then 0 else 1;
    }
  }

  lemma DropKeepsRelations(t: Tables, from: Id, to: Id)
    requires RelationsOk(t)
    ensures RelationsOk(Contacts.Drop(t, from, to).0)
  {
    var t' := Contacts.Drop(t, from, to).0;
    forall u, v ensures Related(t', u, v) <= if u == v then 0 else 1 {
      assert Related(t, u, v) <= if u == v then 0 else 1;
    }
  }

  lemma AcceptKeepsRelations(t: Tables, from: Id, to: Id)
    requires RelationsOk(t)
    ensures RelationsOk(Contacts.Accept(t, from, to).0)
  {
    var t' := Contacts.Accept(t, from, to).0;
    assert Related(t, from, to) <= if from == to then 0 else 1;
    forall u, v ensures Related(t', u, v) <= if u == v then 0 else 1 {
      assert Related(t, u, v) <= if u == v then 0 else 1;
    }
  }

  lemma DeleteKeepsRelations(t: Tables, from: Id, to: Id)
    requires RelationsOk(t)
    ensures RelationsOk(Contacts.Delete(t, from, to).0)
  {
    var t' := Contacts.Delete(t, from, to).0;
    forall u, v ensures Related(t', u, v) <= if u == v then 0 else 1 {
      assert Related(t, u, v) <= if u == v then 0 else 1;
    }
  }

  predicate IsRelational(c: Command) {
    c.InviteCreate? || c.InviteCancel? || c.InviteAccept? || c.InviteReject? || c.ContactDelete?
  }

  lemma OthersKeepRelations(t: Tables, c: Command)
    requires !IsRelational(c)
    ensures Step(t, c).0.contacts == t.contacts && Step(t, c).0.requests == t.requests
    ensures t.users.Keys <= Step(t, c).0.users.Keys
  {
  }

  /** Every command keeps at most one row between two users and none from a user to itself. */
  lemma StepKeepsRelations(t: Tables, c: Command)
    requires RelationsOk(t)
    ensures RelationsOk(Step(t, c).0)
  {
    match c {
      case InviteCreate(caller, user) => CreateKeepsRelations(t, caller, user);
      case InviteCancel(caller, user) => DropKeepsRelations(t, caller, user);
      case InviteAccept(caller, user) => AcceptKeepsRelations(t, user, caller);
      case InviteReject(caller, user) => DropKeepsRelations(t, user, caller);
      case ContactDelete(caller, user) => DeleteKeepsRelations(t, caller, user);
      case _ => OtherKeepsRelations(t, c);
    }
  }

  lemma OtherKeepsRelations(t: Tables, c: Command)
    requires RelationsOk(t) && !IsRelational(c)
    ensures RelationsOk(Step(t, c).0)
  {
    OthersKeepRelations(t, c);
    var t' := Step(t, c).0;
    forall u, v ensures Related(t', u, v) <= if u == v then 0 else 1 {
      assert Related(t, u, v) <= if u == v then 0 else 1;
    }
  }

  lemma {:induction false} ReachableRelations(run: seq<Command>)
    ensures RelationsOk(After(run))
  {
    if run != [] {
      ReachableRelations(run[..|run| - 1]);
      StepKeepsRelations(After(run[..|run| - 1]), run[|run| - 1]);
    }
  }

  // ---------- Where rows come from ----------

  // The command asks b on behalf of a
  predicate Asks(t: Tables, c: Command, a: Id, b: Id) {
    c == InviteCreate(a, b) && Step(t, c).1 == Okey
  }

  // The command accepts, by b, what a asked
  predicate Accepts(t: Tables, c: Command, a: Id, b: Id) {
    c == InviteAccept(b, a) && Step(t, c).1 == Okey
  }

  // The command cancels by a, or rejects by b, what a asked
  predicate Withdraws(t: Tables, c: Command, a: Id, b: Id) {
    (c == InviteCancel(a, b) || c == InviteReject(b, a)) && Step(t, c).1 == Okey
  }

  // The command deletes the contact, by either side
  predicate Severs(t: Tables, c: Command, a: Id, b: Id) {
    (c == ContactDelete(a, b) || c == ContactDelete(b, a)) && Step(t, c).1 == Okey
  }

  // How a command moves one request row and one contact row
  ghost predicate RowsFollow(t: Tables, c: Command, a: Id, b: Id) {
    && ((a, b) in Step(t, c).0.requests <==>
        Asks(t, c, a, b) || ((a, b) in t.requests && !Accepts(t, c, a, b) && !Withdraws(t, c, a, b)))
    && ((a, b) in Step(t, c).0.contacts <==>
        Accepts(t, c, a, b) || ((a, b) in t.contacts && !Severs(t, c, a, b)))
    && (Accepts(t, c, a, b) ==> (a, b) in t.requests)
  }

  lemma CreateFollows(t: Tables, caller: Id, user: Id, a: Id, b: Id)
    ensures RowsFollow(t, InviteCreate(caller, user), a, b)
  {
    assert Step(t, InviteCreate(caller, user)) == Contacts.Create(t, caller, user);
  }

  lemma CancelFollows(t: Tables, caller: Id, user: Id, a: Id, b: Id)
    ensures RowsFollow(t, InviteCancel(caller, user), a, b)
  {
    assert Step(t, InviteCancel(caller, user)) == Contacts.Drop(t, caller, user);
  }

  lemma RejectFollows(t: Tables, caller: Id, user: Id, a: Id, b: Id)
    ensures RowsFollow(t, InviteReject(caller, user), a, b)
  {
    assert Step(t, InviteReject(caller, user)) == Contacts.Drop(t, user, caller);
  }

  lemma AcceptFollows(t: Tables, caller: Id, user: Id, a: Id, b: Id)
    requires RelationsOk(t)
    ensures RowsFollow(t, InviteAccept(caller, user), a, b)
  {
    assert Step(t, InviteAccept(caller, user)) == Contacts.Accept(t, user, caller);
  }

  lemma DeleteFollows(t: Tables, caller: Id, user: Id, a: Id, b: Id)
    ensures RowsFollow(t, ContactDelete(caller, user), a, b)
  {
    assert Step(t, ContactDelete(caller, user)) == Contacts.Delete(t, caller, user);
  }

  lemma OtherFollows(t: Tables, c: Command, a: Id, b: Id)
    requires !IsRelational(c)
    ensures RowsFollow(t, c, a, b)
  {
    OthersKeepRelations(t, c);
  }

  lemma StepFollows(t: Tables, c: Command, a: Id, b: Id)
    requires RelationsOk(t)
    ensures RowsFollow(t, c, a, b)
  {
    match c {
      case InviteCreate(caller, user) => CreateFollows(t, caller, user, a, b);
      case InviteCancel(caller, user) => CancelFollows(t, caller, user, a, b);
      case InviteAccept(caller, user) => AcceptFollows(t, caller, user, a, b);
      case InviteReject(caller, user) => RejectFollows(t, caller, user, a, b);
      case ContactDelete(caller, user) => DeleteFollows(t, caller, user, a, b);
      case _ => OtherFollows(t, c, a, b);
    }
  }

  // Some moment before n had p and no moment after it had q
  ghost predicate Since(p: int -> bool, q: int -> bool, n: nat) {
    exists i :: 0 <= i < n && SinceMoment(p, q, i, n)
  }

  ghost predicate SinceMoment(p: int -> bool, q: int -> bool, i: int, n: nat) {
    p(i) && forall j :: i < j < n ==> !q(j)
  }

  lemma SinceNext(p: int -> bool, q: int -> bool, n: nat)
    ensures Since(p, q, n + 1) <==> p(n) || (Since(p, q, n) && !q(n))
  {
    forall i | 0 <= i < n ensures SinceMoment(p, q, i, n + 1) <==> SinceMoment(p, q, i, n) && !q(n) {
    }
    if Since(p, q, n + 1) {
      var i :| 0 <= i < n + 1 && SinceMoment(p, q, i, n + 1);
      assert i < n ==> SinceMoment(p, q, i, n) && !q(n);
    }
    if p(n) {
      assert SinceMoment(p, q, n, n + 1);
    } else if Since(p, q, n) && !q(n) {
      var i :| 0 <= i < n && SinceMoment(p, q, i, n);
      assert SinceMoment(p, q, i, n + 1);
    }
  }

  // The same events at the moments of a run
  ghost function AskedAt(run: seq<Command>, a: Id, b: Id): int -> bool {
    i => 0 <= i < |run| && Asks(Before(run, i), run[i], a, b)
  }

  ghost function AcceptedAt(run: seq<Command>, a: Id, b: Id): int -> bool {
    i => 0 <= i < |run| && Accepts(Before(run, i), run[i], a, b)
  }

  ghost function AnsweredAt(run: seq<Command>, a: Id, b: Id): int -> bool {
    i => 0 <= i < |run| && (Accepts(Before(run, i), run[i], a, b) || Withdraws(Before(run, i), run[i], a, b))
  }

  ghost function SeveredAt(run: seq<Command>, a: Id, b: Id): int -> bool {
    i => 0 <= i < |run| && Severs(Before(run, i), run[i], a, b)
  }

  lemma RowsNext(run: seq<Command>, n: nat, a: Id, b: Id)
    requires n < |run|
    ensures (a, b) in Before(run, n + 1).requests <==>
            AskedAt(run, a, b)(n) || ((a, b) in Before(run, n).requests && !AnsweredAt(run, a, b)(n))
    ensures (a, b) in Before(run, n + 1).contacts <==>
            AcceptedAt(run, a, b)(n) || ((a, b) in Before(run, n).contacts && !SeveredAt(run, a, b)(n))
    ensures AcceptedAt(run, a, b)(n) ==> (a, b) in Before(run, n).requests
  {
    ReachableRelations(run[..n]);
    BeforeNext(run, n);
    StepFollows(Before(run, n), run[n], a, b);
  }

  /** At every moment a request row stands for a request not accepted, cancelled or rejected since. */
  lemma {:induction false} RequestProvenance(run: seq<Command>, n: nat, a: Id, b: Id)
    requires n <= |run|
    ensures (a, b) in Before(run, n).requests <==> Since(AskedAt(run, a, b), AnsweredAt(run, a, b), n)
  {
    if n > 0 {
      RequestProvenance(run, n - 1, a, b);
      RowsNext(run, n - 1, a, b);
      SinceNext(AskedAt(run, a, b), AnsweredAt(run, a, b), n - 1);
    }
  }

  lemma {:induction false} ContactAcceptance(run: seq<Command>, n: nat, a: Id, b: Id)
    requires n <= |run|
    ensures (a, b) in Before(run, n).contacts <==> Since(AcceptedAt(run, a, b), SeveredAt(run, a, b), n)
  {
    if n > 0 {
      ContactAcceptance(run, n - 1, a, b);
      RowsNext(run, n - 1, a, b);
      SinceNext(AcceptedAt(run, a, b), SeveredAt(run, a, b), n - 1);
    }
  }

  /** At every moment a and b are contacts by a's wish exactly when a asked at some moment i, b accepted
      at a later j with no acceptance, cancellation or rejection between, and neither has deleted the
      contact since. */
  lemma ContactProvenance(run: seq<Command>, n: nat, a: Id, b: Id)
    requires n <= |run|
    ensures (a, b) in Before(run, n).contacts <==>
            exists i, j :: && 0 <= i < j < n
                           && SinceMoment(AskedAt(run, a, b), AnsweredAt(run, a, b), i, j)
                           && SinceMoment(AcceptedAt(run, a, b), SeveredAt(run, a, b), j, n)
  {
    ContactAcceptance(run, n, a, b);
    if (a, b) in Before(run, n).contacts {
      var j :| 0 <= j < n && SinceMoment(AcceptedAt(run, a, b), SeveredAt(run, a, b), j, n);
      RowsNext(run, j, a, b);
      RequestProvenance(run, j, a, b);
      var i :| 0 <= i < j && SinceMoment(AskedAt(run, a, b), AnsweredAt(run, a, b), i, j);
    }
  }

  // ---------- The searching list ----------

  /** The searching list names exactly the users the caller can send a request to; a request takes
      both off each other's lists, and cancelling or rejecting it puts them back. */
  lemma SearchingListIsInvitable(t: Tables, u: Id, v: Id)
    requires u in t.users
    ensures v in SearchingIds(t, u) <==> v in t.users && UsersRelation(t, u, v) == Unrelated
    ensures v in SearchingIds(t, u) <==> Contacts.Create(t, u, v).1 == Okey
    ensures v in SearchingIds(t, u) ==>
              var asked := Contacts.Create(t, u, v).0;
              && v !in SearchingIds(asked, u) && u !in SearchingIds(asked, v)
              && v in SearchingIds(Contacts.Drop(asked, u, v).0, u)
              && u in SearchingIds(Contacts.Drop(asked, u, v).0, v)
  {
  }

  // Some order of the searching list's rows
  ghost predicate IsSearchingAnswer(t: Tables, u: Id, info: seq<UserInfo>) {
    && (forall i :: 0 <= i < |info| ==>
          && info[i].id in SearchingIds(t, u)
          && info[i].login == t.users[info[i].id].login && info[i].name == t.users[info[i].id].name)
    && (forall i, j :: 0 <= i < j < |info| ==> info[i].id != info[j].id)
    && (forall v :: v in SearchingIds(t, u) ==> exists i :: 0 <= i < |info| && info[i].id == v)
  }

  /** What a search reads in a reachable state always has non-empty logins and names, so the
      estimator is only ever at risk from an empty query. */
  lemma ReachableCandidates(run: seq<Command>, u: Id, info: seq<UserInfo>)
    requires IsRun(run) && IsSearchingAnswer(After(run), u, info) && |info| < TWO_TO_THE_31
    ensures SearchingList(info)
  {
    ReachableUsers(run);
    forall i | 0 <= i < |info| ensures Searchable(info[i]) {
      assert IsValidUser(After(run).users[info[i].id]);
    }
  }
}
