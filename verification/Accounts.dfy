/** Signing up and changing a profile. */
module Accounts {
  import opened Entities
  import opened Tables
  import opened Validators

  // ---------- Effects ----------

  predicate LoginTaken(users: map<Id, User>, login: string, except: Option<Id>) {
    exists u | u in users :: users[u].login == login && except != Some(u)
  }

  // The id is fresh: no user carries it
  function Signup(t: Tables, id: Id, login: string, password: string): (Tables, Status) {
    if !IsLogin(login) then (t, InvalidLogin)
    else if !IsPassword(password) then (t, InvalidPassword)
    else if LoginTaken(t.users, login, None) then (t, ExistingLogin)
    else (t.(users := t.users[id := User(login, password, login, "", "", "", false)]), Okey)
  }

  const PROFILE_OPTIONS: set<string> := {"pl", "pp", "pn", "pph", "pe", "ps"}

  // The validator of a profile option
  predicate IsValidSetting(opt: string, value: string)
    requires opt in PROFILE_OPTIONS
  {
    if opt == "pl" then IsLogin(value)
    else if opt == "pp" then IsPassword(value)
    else if opt == "pn" then IsName(value)
    else if opt == "pph" then IsPhone(value)
    else if opt == "pe" then IsEmail(value)
    else IsSelf(value)
  }

  // Parameter 0 is the session token; option i takes parameter i + 1
  predicate IsProfileCommand(options: seq<string>, params: seq<string>) {
    |params| == |options| + 1 && forall opt :: opt in options ==> opt in PROFILE_OPTIONS
  }

  // The parameter of the last occurrence of an option
  function LastSetting(options: seq<string>, params: seq<string>, opt: string): Option<string>
    requires |options| < |params|
  {
    if options == [] then None
    else if options[|options| - 1] == opt then Some(params[|options|])
    else LastSetting(options[..|options| - 1], params, opt)
  }

  /** The last occurrence of an option decides its setting; an option not given has none. */
  lemma {:induction false} LastOccurrenceWins(options: seq<string>, params: seq<string>, opt: string, i: nat)
    requires |options| < |params|
    ensures opt !in options <==> LastSetting(options, params, opt) == None
    ensures i < |options| && options[i] == opt && (forall j :: i < j < |options| ==> options[j] != opt) ==>
              LastSetting(options, params, opt) == Some(params[i + 1])
  {
    if options != [] {
      var n := |options| - 1;
      LastOccurrenceWins(options[..n], params, opt, i);
      assert options == options[..n] + [options[n]];
    }
  }

  function Or(value: Option<string>, default: string): string {
    match value
    case Some(v) => v
    case None => default
  }

  function WithSettings(row: User, options: seq<string>, params: seq<string>): User
    requires |options| < |params|
  {
    User(Or(LastSetting(options, params, "pl"), row.login),
         Or(LastSetting(options, params, "pp"), row.password),
         Or(LastSetting(options, params, "pn"), row.name),
         Or(LastSetting(options, params, "pph"), row.phone),
         Or(LastSetting(options, params, "pe"), row.email),
         Or(LastSetting(options, params, "ps"), row.self),
         row.online)
  }

  function ProfileSet(t: Tables, caller: Id, options: seq<string>, params: seq<string>): (Tables, Status)
    requires caller in t.users
  {
    if !IsProfileCommand(options, params) then (t, InvalidCommand)
    else if exists i | 0 <= i < |options| :: !IsValidSetting(options[i], params[i + 1]) then (t, InvalidProfileData)
    else
      var row := WithSettings(t.users[caller], options, params);
      if options != [] && LoginTaken(t.users, row.login, Some(caller)) then (t, ExistingLogin)
      else (t.(users := t.users[caller := row]), Okey)
  }

  // The column an option names
  function Field(row: User, opt: string): string
    requires opt in PROFILE_OPTIONS
  {
    if opt == "pl" then row.login
    else if opt == "pp" then row.password
    else if opt == "pn" then row.name
    else if opt == "pph" then row.phone
    else if opt == "pe" then row.email
    else row.self
  }

  /** A successful profile_set gives every named field the parameter of its last option and leaves
      the other fields and the other users alone; any other outcome changes nothing. */
  lemma ProfileSetIsFieldwise(t: Tables, caller: Id, options: seq<string>, params: seq<string>, opt: string)
    requires caller in t.users && opt in PROFILE_OPTIONS
    ensures var (t', code) := ProfileSet(t, caller, options, params);
            && (code != Okey ==> t' == t)
            && (code == Okey ==>
                  && t' == t.(users := t'.users) && t'.users == t.users[caller := t'.users[caller]]
                  && t'.users[caller].online == t.users[caller].online
                  && (opt !in options ==> Field(t'.users[caller], opt) == Field(t.users[caller], opt))
                  && forall i :: 0 <= i < |options| && options[i] == opt && opt !in options[i + 1..] ==>
                       Field(t'.users[caller], opt) == params[i + 1])
  {
    var (t', code) := ProfileSet(t, caller, options, params);
    if code == Okey {
      assert Field(t'.users[caller], opt) == Or(LastSetting(options, params, opt), Field(t.users[caller], opt));
      LastOccurrenceWins(options, params, opt, 0);
      forall i | 0 <= i < |options| && options[i] == opt && opt !in options[i + 1..]
        ensures Field(t'.users[caller], opt) == params[i + 1]
      {
        forall j | i < j < |options| ensures options[j] != opt {
          assert options[j] == options[i + 1..][j - i - 1];
        }
        LastOccurrenceWins(options, params, opt, i);
      }
    }
  }

  // ---------- Handlers ----------

  method HandleSignup(db: Database, id: Id, login: string, password: string) returns (status: Status)
    requires id !in db.users
    modifies db
    ensures (db.View(), status) == Signup(old(db.View()), id, login, password)
  {
    if !IsLogin(login) {
      return InvalidLogin;
    }
    if !IsPassword(password) {
      return InvalidPassword;
    }
    status := db.SignupUser(id, login, password);
  }

  class ProfileSetHandler {
    var profileFields: map<string, Option<string>>

    constructor ()
      ensures profileFields == map opt | opt in PROFILE_OPTIONS :: None
    {
      profileFields := map opt | opt in PROFILE_OPTIONS :: None;
    }

    /** Validates and collects the settings; stops at the first invalid one. */
    method CollectSettings(options: seq<string>, params: seq<string>) returns (ok: bool)
      requires IsProfileCommand(options, params)
      requires profileFields == map opt | opt in PROFILE_OPTIONS :: None
      modifies this
      ensures ok <==> forall i :: 0 <= i < |options| ==> IsValidSetting(options[i], params[i + 1])
      ensures ok ==> profileFields == map opt | opt in PROFILE_OPTIONS :: LastSetting(options, params, opt)
    {
      for i := 0 to |options|
        invariant forall k :: 0 <= k < i ==> IsValidSetting(options[k], params[k + 1])
        invariant profileFields == map opt | opt in PROFILE_OPTIONS :: LastSetting(options[..i], params, opt)
      {
        var opt := options[i];
        if !IsValidSetting(opt, params[i + 1]) {
          return false;
        }
        profileFields := profileFields[opt := Some(params[i + 1])];
        assert options[..i + 1][..i] == options[..i];
      }
      assert options[..|options|] == options;
      ok := true;
    }

    /** All or nothing: either every setting reaches the caller's row and the session follows
        a new login, or nothing changes. */
    method Execute(db: Database, session: ClientSession, options: seq<string>, params: seq<string>)
      returns (status: Status)
      requires session.nativeToken in db.users
      requires profileFields == map opt | opt in PROFILE_OPTIONS :: None
      modifies this, db, session`login
      ensures (db.View(), status) == ProfileSet(old(db.View()), session.nativeToken, options, params)
      ensures session.login == if status == Okey then Or(LastSetting(options, params, "pl"), old(session.login))
                               else old(session.login)
    {
      if !IsProfileCommand(options, params) {
        return InvalidCommand;
      }
      if options == [] {
        assert db.View().(users := db.users[session.nativeToken := db.users[session.nativeToken]]) == db.View();
        return Okey;
      }
      var ok := CollectSettings(options, params);
      if !ok {
        return InvalidProfileData;
      }
      var row := db.users[session.nativeToken];
      row := User(Or(profileFields["pl"], row.login), Or(profileFields["pp"], row.password),
                  Or(profileFields["pn"], row.name), Or(profileFields["pph"], row.phone),
                  Or(profileFields["pe"], row.email), Or(profileFields["ps"], row.self), row.online);
      status := db.UpdateUser(session.nativeToken, row);
      if status != Okey {
        return;
      }
      var login := profileFields["pl"];
      if login.Some? {
        session.login := login.value;
      }
    }
  }
}
