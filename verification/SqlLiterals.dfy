/** Escaping values for SQL text, and the reader of the target dialect that undoes it.
    The reader follows the section "String Literals" of the MySQL reference manual. */
module SqlLiterals {
  import opened Entities

  // ---------- Escaping ----------

  predicate IsSpecialSymbol(c: char) {
    c == '\"' || c == '\'' || c == '\\'
  }

  function EscapedChar(c: char): string {
    if IsSpecialSymbol(c) then ['\\', c] else [c]
  }

  function Escaped(s: string): string {
    if s == "" then "" else EscapedChar(s[0]) + Escaped(s[1..])
  }

  lemma Regroup(a: string, b: string, c: string, d: string)
    ensures a + b + c + d == a + (b + (c + d))
    ensures a + b + c == a + (b + c)
  {
  }

  lemma {:induction false} EscapedConcat(s: string, t: string)
    ensures Escaped(s + t) == Escaped(s) + Escaped(t)
  {
    if s == "" {
      assert s + t == t;
    } else {
      EscapedConcat(s[1..], t);
      assert (s + t)[0] == s[0] && (s + t)[1..] == s[1..] + t;
      Regroup(EscapedChar(s[0]), Escaped(s[1..]), Escaped(t), "");
    }
  }

  /** Exactly the two quotes and the backslash are escaped, each with one character. */
  lemma {:induction false} EscapedLength(s: string)
    ensures |Escaped(s)| == |s| + multiset(s)['\"'] + multiset(s)['\''] + multiset(s)['\\']
  {
    if s != "" {
      EscapedLength(s[1..]);
      assert s == [s[0]] + s[1..];
    }
  }

  class Text {
    var val: string

    constructor (val: string)
      ensures this.val == val
    {
      this.val := val;
    }

    /** Inserts a backslash before every special symbol, in place. */
    method Escape()
      modifies this
      ensures val == Escaped(old(val))
    {
      ghost var read := 0;
      var i := 0;
      while i < |val|
        invariant read <= |old(val)|
        invariant i == |Escaped(old(val)[..read])|
        invariant val == Escaped(old(val)[..read]) + old(val)[read..]
        decreases |old(val)| - read
      {
        EscapeStep(old(val), read, val, i);
        if IsSpecialSymbol(val[i]) {
          val := val[..i] + "\\" + val[i..];
          i := i + 1;
        }
        i := i + 1;
        read := read + 1;
      }
      assert old(val)[..read] == old(val);
    }
  }

  lemma EscapedNext(s: string, k: nat)
    requires k < |s|
    ensures Escaped(s[..k + 1]) == Escaped(s[..k]) + EscapedChar(s[k])
  {
    assert s[..k + 1] == s[..k] + [s[k]];
    EscapedConcat(s[..k], [s[k]]);
    assert Escaped([s[k]]) == EscapedChar(s[k]) + Escaped([s[k]][1..]);
  }

  // The text halfway: the part read so far is escaped, the rest is as it was
  lemma EscapeStep(s: string, k: nat, val: string, i: nat)
    requires k < |s| && i == |Escaped(s[..k])| && val == Escaped(s[..k]) + s[k..]
    ensures i < |val| && val[i] == s[k]
    ensures IsSpecialSymbol(s[k]) ==> val[..i] + "\\" + val[i..] == Escaped(s[..k + 1]) + s[k + 1..]
    ensures !IsSpecialSymbol(s[k]) ==> val == Escaped(s[..k + 1]) + s[k + 1..]
    ensures |Escaped(s[..k + 1])| == i + |EscapedChar(s[k])|
  {
    EscapedNext(s, k);
    assert s[k..] == [s[k]] + s[k + 1..];
    assert val[..i] == Escaped(s[..k]) && val[i..] == s[k..];
  }

  /** Escapes several values, each where it stands. */
  method ToMysqlFormat(args: seq<Text>)
    requires forall i, j :: 0 <= i < j < |args| ==> args[i] != args[j]
    modifies args
    ensures forall i :: 0 <= i < |args| ==> args[i].val == Escaped(old(args[i].val))
  {
    for k := 0 to |args|
      invariant forall i :: 0 <= i < k ==> args[i].val == Escaped(old(args[i].val))
      invariant forall i :: k <= i < |args| ==> args[i].val == old(args[i].val)
    {
      args[k].Escape();
    }
  }

  function Quoted(s: string): string {
    "\"" + Escaped(s) + "\""
  }

  // ---------- The reader ----------

  // What a backslash and a character stand for
  function Unescaped(c: char): string {
    if c == '0' then "\0"
    else if c == 'b' then ['\U{08}']
    else if c == 'n' then "\n"
    else if c == 'r' then "\r"
    else if c == 't' then "\t"
    else if c == 'Z' then ['\U{1A}']
    else if c == '%' || c == '_' then ['\\', c]
    else [c]
  }

  // A value read and the text after it
  type Reading = Option<(string, string)>

  function Prepend(s: string, r: Reading): Reading {
    match r
    case None => None
    case Some((value, rest)) => Some((s + value, rest))
  }

  predicate IsQuote(c: char) {
    c == '\"' || c == '\''
  }

  // Reads on from inside a literal in these quotes; a doubled one stands for one
  function ReadInside(q: char, s: string): Reading {
    if s == "" then None
    else if s[0] == q then
      if |s| > 1 && s[1] == q then Prepend([q], ReadInside(q, s[2..])) else Some(("", s[1..]))
    else if s[0] == '\\' then
      if |s| == 1 then None else Prepend(Unescaped(s[1]), ReadInside(q, s[2..]))
    else Prepend([s[0]], ReadInside(q, s[1..]))
  }

  function ReadLiteral(s: string): Reading {
    if s != "" && IsQuote(s[0]) then ReadInside(s[0], s[1..]) else None
  }

  lemma PrependTwice(s: string, t: string, r: Reading)
    ensures Prepend(s, Prepend(t, r)) == Prepend(s + t, r)
    ensures Prepend("", r) == r
  {
    if r.Some? {
      assert s + (t + r.value.0) == s + t + r.value.0;
      assert "" + r.value.0 == r.value.0;
    }
  }

  lemma ReadEscapedChar(q: char, c: char, t: string)
    requires IsQuote(q)
    ensures ReadInside(q, EscapedChar(c) + t) == Prepend([c], ReadInside(q, t))
  {
    var s := EscapedChar(c) + t;
    if IsSpecialSymbol(c) {
      assert s[0] == '\\' && s[1] == c && s[2..] == t;
    } else {
      assert s[0] == c && s[1..] == t;
    }
  }

  /** Reading past an escaped text, inside quotes of either kind, yields the text and goes on behind it. */
  lemma {:induction false} ReadEscaped(q: char, s: string, t: string)
    requires IsQuote(q)
    ensures ReadInside(q, Escaped(s) + t) == Prepend(s, ReadInside(q, t))
  {
    if s == "" {
      assert Escaped(s) + t == t;
      PrependTwice("", "", ReadInside(q, t));
    } else {
      ReadEscaped(q, s[1..], t);
      assert Escaped(s) + t == EscapedChar(s[0]) + (Escaped(s[1..]) + t);
      ReadEscapedChar(q, s[0], Escaped(s[1..]) + t);
      PrependTwice([s[0]], s[1..], ReadInside(q, t));
      assert [s[0]] + s[1..] == s;
    }
  }

  /** An escaped text between quotes of either kind reads back as itself, and the reader stops behind it,
      exactly when the text that follows does not begin with another such quote. */
  lemma BetweenQuotesReadsBack(q: char, s: string, rest: string)
    requires IsQuote(q)
    ensures ReadLiteral([q] + Escaped(s) + [q] + rest) == Some((s, rest)) <==> rest == "" || rest[0] != q
  {
    var t := [q] + rest;
    assert ([q] + Escaped(s) + [q] + rest)[1..] == Escaped(s) + t;
    ReadEscaped(q, s, t);
    assert t[1..] == rest;
    if rest == "" || rest[0] != q {
      assert s + "" == s;
    }
  }

  /** So a quoted value reads back as itself exactly when no other quote follows. */
  lemma QuotedReadsBack(s: string, rest: string)
    ensures ReadLiteral(Quoted(s) + rest) == Some((s, rest)) <==> rest == "" || rest[0] != '\"'
  {
    BetweenQuotesReadsBack('\"', s, rest);
    assert ['\"'] + Escaped(s) + ['\"'] + rest == Quoted(s) + rest;
  }

  // ---------- A value that is not escaped ----------

  // No quote, and no backslash but before a percent sign or an underscore
  predicate ReadsAsItself(s: string) {
    if s == "" then true
    else if s[0] == '\"' then false
    else if s[0] == '\\' then |s| > 1 && (s[1] == '%' || s[1] == '_') && ReadsAsItself(s[2..])
    else ReadsAsItself(s[1..])
  }

  lemma {:induction false} ReadingShrinks(s: string)
    ensures ReadInside('\"', s).Some? ==> |ReadInside('\"', s).value.0| + |ReadInside('\"', s).value.1| < |s|
  {
    if s != "" {
      ReadingShrinks(s[1..]);
      if |s| > 1 {
        ReadingShrinks(s[2..]);
      }
    }
  }

  lemma PrependSame(s: string, v: string, rest: string, r: Reading)
    ensures Prepend(s, r) == Some((s + v, rest)) <==> r == Some((v, rest))
  {
    if r.Some? {
      assert (s + r.value.0)[|s|..] == r.value.0 && (s + v)[|s|..] == v;
    }
  }

  lemma {:induction false} RawInside(s: string, rest: string)
    requires rest == "" || rest[0] != '\"'
    ensures ReadInside('\"', s + "\"" + rest) == Some((s, rest)) <==> ReadsAsItself(s)
  {
    var text := s + "\"" + rest;
    if s == "" {
      assert text[1..] == rest;
    } else if s[0] == '\"' {
      ReadingShrinks(text[2..]);
    } else if s[0] == '\\' && |s| == 1 {
      assert text[1] == '\"';
    } else if s[0] == '\\' {
      assert text[1] == s[1] && text[2..] == s[2..] + "\"" + rest;
      ReadingShrinks(text[2..]);
      if s[1] == '%' || s[1] == '_' {
        RawInside(s[2..], rest);
        PrependSame(s[..2], s[2..], rest, ReadInside('\"', text[2..]));
        assert s[..2] + s[2..] == s && s[..2] == Unescaped(s[1]);
      }
    } else {
      assert text[1..] == s[1..] + "\"" + rest;
      RawInside(s[1..], rest);
      PrependSame([s[0]], s[1..], rest, ReadInside('\"', text[1..]));
      assert [s[0]] + s[1..] == s;
    }
  }

  // The condition of the query that asks whether a user is in a chat: only the chat's id is escaped
  function ParticipantCondition(chat: string, user: string): string {
    Quoted(chat) + " and user_id = " + "\"" + user + "\"" + ";"
  }

  function ReadCondition(s: string): Option<(string, string)> {
    match ReadLiteral(s)
    case None => None
    case Some((chat, rest)) =>
      if " and user_id = " <= rest then
        match ReadLiteral(rest[15..])
        case None => None
        case Some((user, end)) => if end == ";" then Some((chat, user)) else None
      else None
  }

  lemma RawReadsBack(user: string)
    ensures ReadLiteral("\"" + user + "\"" + ";") == Some((user, ";")) <==> ReadsAsItself(user)
  {
    var literal := "\"" + user + "\"" + ";";
    assert literal[1..] == user + "\"" + ";";
    RawInside(user, ";");
  }

  lemma ConditionText(chat: string, user: string)
    ensures var literal := "\"" + user + "\"" + ";";
            var rest := " and user_id = " + literal;
            && ReadLiteral(ParticipantCondition(chat, user)) == Some((chat, rest))
            && " and user_id = " <= rest && rest[15..] == literal
  {
    var rest := " and user_id = " + ("\"" + user + "\"" + ";");
    assert ParticipantCondition(chat, user) == Quoted(chat) + rest;
    QuotedReadsBack(chat, rest);
  }

  /** The query asks about the very chat and user exactly when the user's id reads as itself. */
  lemma ConditionReadsBack(chat: string, user: string)
    ensures ReadCondition(ParticipantCondition(chat, user)) == Some((chat, user)) <==> ReadsAsItself(user)
  {
    ConditionText(chat, user);
    RawReadsBack(user);
  }

  // ---------- Lists of values ----------

  function Values(vs: seq<string>): string {
    if vs == [] then "" else if |vs| == 1 then Quoted(vs[0]) else Quoted(vs[0]) + "," + Values(vs[1..])
  }

  // Reads n comma-separated literals
  function ReadValues(n: nat, s: string): Option<(seq<string>, string)> {
    if n == 0 then Some(([], s))
    else
      match ReadLiteral(s)
      case None => None
      case Some((v, rest)) =>
        if n == 1 then Some(([v], rest))
        else if rest == "" || rest[0] != ',' then None
        else
          match ReadValues(n - 1, rest[1..])
          case None => None
          case Some((vs, rest')) => Some(([v] + vs, rest'))
  }

  /** A list of quoted values reads back as exactly the values. */
  lemma {:induction false} ValuesReadBack(vs: seq<string>, rest: string)
    requires rest == "" || rest[0] != '\"'
    ensures ReadValues(|vs|, Values(vs) + rest) == Some((vs, rest))
  {
    if |vs| == 1 {
      QuotedReadsBack(vs[0], rest);
      assert vs == [vs[0]];
    } else if |vs| > 1 {
      var tail := "," + (Values(vs[1..]) + rest);
      assert Values(vs) + rest == Quoted(vs[0]) + tail;
      QuotedReadsBack(vs[0], tail);
      assert tail[1..] == Values(vs[1..]) + rest;
      ValuesReadBack(vs[1..], rest);
      assert [vs[0]] + vs[1..] == vs;
    } else {
      assert Values(vs) + rest == rest;
    }
  }

  // The values of the statement that adds a user: the login is also the name
  function AddUserValues(id: string, login: string, password: string): string {
    Values([id, login, password, login, "", "", ""]) + "," + "false" + ");"
  }

  /** Whatever characters they hold, id, login and password reach the users row unchanged. */
  lemma AddUserReadsBack(id: string, login: string, password: string)
    ensures ReadValues(7, AddUserValues(id, login, password)) ==
            Some(([id, login, password, login, "", "", ""], ",false);"))
  {
    var vs := [id, login, password, login, "", "", ""];
    ValuesReadBack(vs, ",false);");
    assert AddUserValues(id, login, password) == Values(vs) + ",false);";
  }

  // ---------- Rows of a new chat ----------

  function RowText(user: string, chat: string): string {
    "(" + Quoted(user) + "," + Quoted(chat) + ")"
  }

  function RowsText(users: seq<string>, chat: string): string {
    if users == [] then ""
    else if |users| == 1 then RowText(users[0], chat)
    else RowsText(users[..|users| - 1], chat) + "," + RowText(users[|users| - 1], chat)
  }

  /** Writes the rows of the second statement of a chat's creation. */
  method WriteRows(defaultUsersIds: seq<string>, id: string) returns (ostr: string)
    ensures ostr == RowsText(defaultUsersIds, id)
  {
    ostr := "";
    for i := 0 to |defaultUsersIds|
      invariant ostr == RowsText(defaultUsersIds[..i], id)
    {
      if i > 0 {
        ostr := ostr + ",";
      }
      ostr := ostr + RowText(defaultUsersIds[i], id);
      assert defaultUsersIds[..i + 1][..i] == defaultUsersIds[..i];
    }
    assert defaultUsersIds[..|defaultUsersIds|] == defaultUsersIds;
  }

  // Reads comma-separated rows of two literals, as many as there are
  function ReadRows(s: string): (r: Option<(seq<(string, string)>, string)>)
    decreases |s|
  {
    if s == "" || s[0] != '(' then None
    else
      match ReadValues(2, s[1..])
      case None => None
      case Some((vs, rest)) =>
        if |vs| != 2 || rest == "" || rest[0] != ')' || |rest| >= |s| then None
        else if |rest| == 1 || rest[1] != ',' then Some(([(vs[0], vs[1])], rest[1..]))
        else
          match ReadRows(rest[2..])
          case None => None
          case Some((rows, rest')) => Some(([(vs[0], vs[1])] + rows, rest'))
  }

  function RowsFor(users: seq<string>, chat: string): seq<(string, string)> {
    seq(|users|, i requires 0 <= i < |users| => (users[i], chat))
  }

  lemma ReadOneRow(user: string, chat: string, rest: string)
    ensures ReadValues(2, (RowText(user, chat) + rest)[1..]) == Some(([user, chat], ")" + rest))
  {
    var vs := [user, chat];
    assert vs[1..] == [chat];
    assert (RowText(user, chat) + rest)[1..] == Values(vs) + (")" + rest);
    ValuesReadBack(vs, ")" + rest);
  }

  lemma RowsRegroup(first: string, middle: string, last: string)
    ensures first + "," + middle + "," + last == first + "," + (middle + "," + last)
  {
  }

  lemma {:induction false} RowsTextFirst(users: seq<string>, chat: string)
    requires |users| > 1
    ensures RowsText(users, chat) == RowText(users[0], chat) + "," + RowsText(users[1..], chat)
  {
    var n := |users| - 1;
    if n > 1 {
      RowsTextFirst(users[..n], chat);
      assert users[..n][1..] == users[1..][..n - 1];
      var first, last := RowText(users[0], chat), RowText(users[n], chat);
      var middle := RowsText(users[1..][..n - 1], chat);
      assert RowsText(users[..n], chat) == first + "," + middle;
      assert RowsText(users[1..], chat) == middle + "," + last;
      RowsRegroup(first, middle, last);
    } else {
      assert users[1..] == [users[1]] && users[..1] == [users[0]];
    }
  }

  lemma ReadRowsStep(user: string, chat: string, rest: string)
    ensures var s := RowText(user, chat) + rest;
            ReadRows(s) ==
            if rest == "" || rest[0] != ',' then Some(([(user, chat)], rest))
            else match ReadRows(rest[1..])
                 case None => None
                 case Some((rows, rest')) => Some(([(user, chat)] + rows, rest'))
  {
    var s := RowText(user, chat) + rest;
    ReadOneRow(user, chat, rest);
    assert s[0] == '(' && |s| > 1 + |rest|;
    assert (")" + rest)[1..] == rest;
    assert rest != "" ==> (")" + rest)[2..] == rest[1..];
  }

  /** The rows read back as exactly one row for each default member, in order. */
  lemma {:induction false} RowsReadBack(users: seq<string>, chat: string, rest: string)
    requires users != [] && (rest == "" || rest[0] != ',')
    ensures ReadRows(RowsText(users, chat) + rest) == Some((RowsFor(users, chat), rest))
  {
    if |users| == 1 {
      ReadRowsStep(users[0], chat, rest);
      assert RowsFor(users, chat) == [(users[0], chat)];
    } else {
      var tail := "," + (RowsText(users[1..], chat) + rest);
      RowsTextFirst(users, chat);
      Regroup(RowText(users[0], chat), ",", RowsText(users[1..], chat), rest);
      ReadRowsStep(users[0], chat, tail);
      RowsReadBack(users[1..], chat, rest);
      assert tail[1..] == RowsText(users[1..], chat) + rest;
      assert RowsFor(users, chat) == [(users[0], chat)] + RowsFor(users[1..], chat);
    }
  }
}
