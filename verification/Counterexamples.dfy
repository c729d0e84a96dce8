/** Inputs at which the server does not do what it promises, each in a run of the whole machine
    or on texts as they are. */
module Counterexamples {
  import opened Entities
  import opened Tables
  import opened Server
  import opened Scenes
  import Chats
  import CommandRoundTrip
  import CommandText
  import ContactRuns
  import Messages
  import Polling
  import Search
  import Selection

  // ---------- Two messages at one time ----------

  function Told(s: Scene, time: int): Message {
    Message("m", LOBBY, s.b, time, Text, "")
  }

  function Answered(s: Scene, time: int): Message {
    Message("n", LOBBY, s.a, time, Text, "")
  }

  // Both users of a chat post to it at one time
  function TiedRun(s: Scene, time: int): seq<Command> {
    Joining(s) + [ChatPost(Told(s, time), 0)] + [ChatPost(Answered(s, time), 0)]
  }

  lemma PostLeads(t: Tables, m: Message)
    requires (m.senderId, m.chatId) in t.party && Insertable(t, m) && m.content == ""
    ensures Leads(t, ChatPost(m, 0), t.(messages := t.messages + [m]))
  {
  }

  // The chat with some messages in it
  function Holding(s: Scene, messages: seq<Message>): Tables {
    Joined(s).(messages := messages)
  }

  lemma PostReaches(s: Scene, run: seq<Command>, messages: seq<Message>, m: Message)
    requires IsScene(s) && ReachedBy(run, Holding(s, messages)) && Insertable(Holding(s, messages), m)
    requires m.chatId == LOBBY && m.content == "" && (m.senderId == s.a || m.senderId == s.b)
    ensures ReachedBy(run + [ChatPost(m, 0)], Holding(s, messages + [m]))
  {
    assert PartyRows({s.b}, LOBBY) == {(s.b, LOBBY)} && PartyRows({s.a}, LOBBY) == {(s.a, LOBBY)};
    PostLeads(Holding(s, messages), m);
    ExtendRun(run, Holding(s, messages), ChatPost(m, 0), Holding(s, messages + [m]));
  }

  lemma TiedReached(s: Scene, time: int)
    requires IsScene(s)
    ensures IsRun(TiedRun(s, time)) && |TiedRun(s, time)| == 8
    ensures Before(TiedRun(s, time), 6) == Joined(s)
    ensures Before(TiedRun(s, time), 7) == Holding(s, [Told(s, time)])
    ensures Before(TiedRun(s, time), 8) == Holding(s, [Told(s, time), Answered(s, time)])
  {
    var run := TiedRun(s, time);
    JoinedReached(s);
    PostReaches(s, Joining(s), [], Told(s, time));
    PostReaches(s, Joining(s) + [ChatPost(Told(s, time), 0)], [Told(s, time)], Answered(s, time));
    assert run[..6] == Joining(s) && run[..7] == Joining(s) + [ChatPost(Told(s, time), 0)] && run[..8] == run;
  }

  lemma TiedLogs(s: Scene, time: int)
    requires IsScene(s)
    ensures Messages.Log([], LOBBY) == []
    ensures Messages.Log([Told(s, time)], LOBBY) == [Told(s, time)]
    ensures Messages.Log([Told(s, time), Answered(s, time)], LOBBY) == [Told(s, time), Answered(s, time)]
  {
    var ms := [Told(s, time), Answered(s, time)];
    assert ms[..1] == [Told(s, time)] && ms[..1][..0] == [];
    assert [Told(s, time)][..0] == [];
  }

  lemma OnlyLastPost(s: Scene, time: int, i: nat)
    requires i < |TiedRun(s, time)| && TiedRun(s, time)[i].ChatPost?
    ensures (i == 6 && TiedRun(s, time)[i].message == Told(s, time))
         || (i == 7 && TiedRun(s, time)[i].message == Answered(s, time))
  {
  }

  lemma TiedClock(s: Scene, time: int)
    requires IsScene(s)
    ensures Messages.ClockNeverGoesBack(TiedRun(s, time), LOBBY)
  {
    var run := TiedRun(s, time);
    TiedReached(s, time);
    TiedLogs(s, time);
    forall i, m | 0 <= i < |run| && Messages.PostsTo(run[i], LOBBY) && m in Messages.Log(Before(run, i).messages, LOBBY)
      ensures m.time <= run[i].message.time
    {
      OnlyLastPost(s, time, i);
    }
  }

  lemma TiedTables(s: Scene, time: int)
    requires IsScene(s)
    ensures var run := TiedRun(s, time);
            && |run| == 8 && LOBBY in Before(run, 7).chats && LOBBY in Before(run, 8).chats
            && Before(run, 7).messages == [Told(s, time)]
            && Before(run, 8).messages == [Told(s, time), Answered(s, time)]
  {
    TiedReached(s, time);
  }

  lemma TiedMoments(s: Scene, time: int)
    requires IsScene(s)
    ensures Polling.AreMoments(TiedRun(s, time), LOBBY, [7, 8])
  {
    TiedTables(s, time);
    TiedLogs(s, time);
    assert Messages.Lives(TiedRun(s, time), LOBBY, 7, 8);
  }

  // Nothing is newer than the first of the two
  lemma NothingNewer(t: Tables, s: Scene, time: int)
    requires t.messages == [Told(s, time)] || t.messages == [Told(s, time), Answered(s, time)]
    ensures Polling.IsReply([], t, LOBBY, "m")
  {
    var ms := t.messages;
    assert Messages.AnchorTime(ms, "m") == Some(time) by {
      assert [Told(s, time), Answered(s, time)][..1] == [Told(s, time)];
    }
    var rows := Messages.WithSender(Messages.Log(ms, LOBBY), t.users);
    Messages.LogElements(ms, LOBBY);
    Messages.JoinElements(Messages.Log(ms, LOBBY), t.users);
    Messages.LaterIsSuffix(rows, |rows|, time);
    var none: seq<Message> := [];
    assert Messages.NewestFirst(none) && Messages.Window(none, 0, TWO_TO_THE_64 - 1) == none;
    assert Messages.Reversed(none) == none;
    assert multiset(none) == multiset(Messages.Selected(t, LOBBY, Some("m")));
  }

  /** A client polls after the first of two messages of one time and again after the second, and is
      never sent the second. */
  lemma TiedPostIsMissed(s: Scene, time: int)
    requires IsScene(s)
    ensures var run := TiedRun(s, time);
            && IsRun(run) && Messages.ClockNeverGoesBack(run, LOBBY) && Polling.AreMoments(run, LOBBY, [7, 8])
            && Messages.Log(After(run).messages, LOBBY) == [Told(s, time), Answered(s, time)]
            && var client := Polling.Client("m", []);
            Polling.PollsIn(run, LOBBY, [7, 8], 0, [client, client, client], [[], []])
  {
    var run := TiedRun(s, time);
    TiedReached(s, time);
    TiedLogs(s, time);
    TiedClock(s, time);
    TiedMoments(s, time);
    TiedPolls(s, time);
    assert run[..8] == run;
  }

  lemma TiedPolls(s: Scene, time: int)
    requires IsScene(s) && Polling.AreMoments(TiedRun(s, time), LOBBY, [7, 8])
    ensures var client := Polling.Client("m", []);
            Polling.PollsIn(TiedRun(s, time), LOBBY, [7, 8], 0, [client, client, client], [[], []])
  {
    var states := Polling.StatesAt(TiedRun(s, time), [7, 8]);
    TiedTables(s, time);
    TiedLogs(s, time);
    NothingNewer(states[0], s, time);
    NothingNewer(states[1], s, time);
    TwoEmptyPolls(states, LOBBY, Polling.Client("m", []));
  }

  lemma TwoEmptyPolls(states: seq<Tables>, c: Id, client: Polling.Client)
    requires |states| == 2
    requires Polling.IsReply([], states[0], c, client.anchor) && Polling.IsReply([], states[1], c, client.anchor)
    ensures Polling.IsPolling([client, client, client], [[], []], states, c)
  {
    assert Polling.Received(client, []) == client;
  }

  // ---------- An emptied query ----------

  /** Two users who signed up are enough: one searches for the other, and then for nothing. */
  lemma EmptiedQueryIsUndefined(s: Scene, query: string)
    requires IsScene(s) && query != ""
    ensures Reachable(Signed2(s))
    ensures var found := Search.Candidates([UserInfo(s.b, s.loginB, s.loginB)]);
            && ContactRuns.IsSearchingAnswer(Signed2(s), s.a, found.info)
            && Search.CacheAfter([Search.Call(query, found)]).Some?
            && Search.CacheAfter([Search.Call(query, found), Search.Call("", found)]).None?
  {
    var found := Search.Candidates([UserInfo(s.b, s.loginB, s.loginB)]);
    var calls := [Search.Call(query, found), Search.Call("", found)];
    SignedReached(s);
    assert Search.ClearsQuery(calls, 1);
    Search.UndefinedExactlyWhenQueryCleared(calls);
    Search.UndefinedExactlyWhenQueryCleared(calls[..1]);
    assert calls[..1] == [Search.Call(query, found)];
  }

  // ---------- Commands that do not come back ----------

  ghost predicate IsSimple(token: string) {
    token != "" && CommandRoundTrip.IsPlain(token) && !CommandText.HasSpace(token)
  }

  lemma SimpleFreed(token: string)
    requires IsSimple(token)
    ensures CommandText.FreeFromComposite(token) == token
    ensures CommandRoundTrip.Unbroken(token, 0) && CommandRoundTrip.Balance(token) == 0
    ensures !Selection.IsSpace(token[0])
  {
    CommandRoundTrip.PlainIsBalanced(token, 0);
    CommandRoundTrip.UnbrokenWithoutSpace(token, 0);
    CommandRoundTrip.FreeUndoesWrap(token);
    assert token[0] in token;
  }

  /** An empty parameter is lost: the command is printed with a space at the end, and read without it. */
  lemma EmptyParameterIsLost(name: string)
    requires IsSimple(name)
    ensures CommandText.Joined(CommandText.Words(CommandText.Command(name, [], [""]))) == name + " "
    ensures CommandText.Interpreted(name + " ") == Some(CommandText.Command(name, [], []))
  {
    SimpleFreed(name);
    CommandRoundTrip.SplitFirst(name, " ");
    assert [name, ""][..1] == [name] && name + " " + "" == name + " ";
    assert CommandText.Words(CommandText.Command(name, [], [""])) == [name, ""];
    assert CommandText.SplitFrom(name + " ") == [name];
    assert CommandText.FromWords([name]).options == [] && CommandText.FromWords([name]).params == [];
  }

  /** A text that asks for a search with an empty query: brackets around nothing are read as an empty
      parameter, and empty settings keep the defaults. */
  lemma EmptySearchCanBeSent(token: string)
    requires IsSimple(token) && token[0] != '-'
    ensures CommandText.Interpreted("search " + token + " <> <> <>") ==
            Some(CommandText.Command("search", [], [token, "", "", ""]))
  {
    EmptySearchText(token);
    EmptyBrackets();
    EmptySearchRead("search", token, "<>");
  }

  lemma EmptyBrackets()
    ensures IsUnspaced("<>") && CommandText.FreeFromComposite("<>") == ""
  {
    CommandRoundTrip.BalanceConcat("<", ">", 0);
    assert "<" + ">" == "<>";
    assert "<>"[1..] == ">" && CommandText.LastClose(">") == Some(0);
  }

  lemma EmptySearchRead(name: string, token: string, empty: string)
    requires IsSimple(name) && IsSimple(token) && token[0] != '-'
    requires IsUnspaced(empty) && CommandText.FreeFromComposite(empty) == ""
    ensures CommandText.Interpreted(CommandText.Joined([name, token, empty, empty, empty])) ==
            Some(CommandText.Command(name, [], [token, "", "", ""]))
  {
    var words := [name, token, empty, empty, empty];
    SimpleFreed(name);
    SimpleFreed(token);
    UnspacedSplit(words);
    var rest, read := words[1..], CommandText.FromWords(words);
    assert rest == [token, empty, empty, empty] && CommandText.LeadingOptions(rest) == 0;
    assert read.options == [] && read.params == [token, "", "", ""];
  }

  lemma EmptySearchText(token: string)
    ensures CommandText.Joined(["search", token, "<>", "<>", "<>"]) == "search " + token + " <> <> <>"
  {
    var start, bracket := ["search"] + [token], ["<>"];
    CommandText.JoinedSnoc(["search"], token);
    CommandText.JoinedSnoc(start, "<>");
    CommandText.JoinedSnoc(start + bracket, "<>");
    CommandText.JoinedSnoc(start + bracket + bracket, "<>");
    assert start + bracket + bracket + bracket == ["search", token, "<>", "<>", "<>"];
    assert "search" + " " + token + " " + "<>" + " " + "<>" + " " + "<>" == "search " + token + " <> <> <>";
  }

  ghost predicate IsUnspaced(word: string) {
    word != "" && !CommandText.HasSpace(word) && CommandRoundTrip.Balance(word) == 0
  }

  lemma UnspacedSplit(words: seq<string>)
    requires words != [] && forall i :: 0 <= i < |words| ==> IsUnspaced(words[i])
    ensures CommandText.SplitFrom(CommandText.Joined(words)) == words
  {
    forall i | 0 <= i < |words| ensures words[i] != "" && !Selection.IsSpace(words[i][0]) {
      assert IsUnspaced(words[i]) && words[i][0] in words[i];
    }
    forall i | 0 <= i < |words|
      ensures CommandRoundTrip.Unbroken(words[i], 0) && CommandRoundTrip.Balance(words[i]) == 0
    {
      assert IsUnspaced(words[i]);
      CommandRoundTrip.UnbrokenWithoutSpace(words[i], 0);
    }
    CommandRoundTrip.SplitJoined(words);
  }

  /** An open bracket swallows the parameter behind it: the two are read as one. */
  lemma OpenBracketMerges(name: string, param: string)
    requires IsSimple(name) && IsSimple(param)
    ensures CommandText.Joined(CommandText.Words(CommandText.Command(name, [], ["<", param]))) == name + " < " + param
    ensures CommandText.Interpreted(name + " < " + param) == Some(CommandText.Command(name, [], ["< " + param]))
  {
    SimpleFreed(param);
    OpenBracketText(name, param);
    assert CommandText.Words(CommandText.Command(name, [], ["<", param])) == [name, "<", param];
    OpenBracketRead(name, param);
  }

  lemma OpenBracketText(name: string, param: string)
    ensures CommandText.Joined([name, "<", param]) == name + " < " + param
  {
    CommandText.JoinedSnoc([name], "<");
    CommandText.JoinedSnoc([name, "<"], param);
    assert [name] + ["<"] == [name, "<"] && [name, "<"] + [param] == [name, "<", param];
    assert name + " " + "<" + " " + param == name + " < " + param;
  }

  lemma OpenBracketRead(name: string, param: string)
    requires IsSimple(name) && IsSimple(param)
    ensures CommandText.Interpreted(name + " < " + param) == Some(CommandText.Command(name, [], ["< " + param]))
  {
    var tail := "< " + param;
    SimpleFreed(name);
    CommandRoundTrip.SplitFirst(name, " " + tail);
    assert name + (" " + tail) == name + " < " + param && (" " + tail)[1..] == tail;
    SplitOpen(param);
    assert CommandText.SplitFrom(name + " < " + param) == [name, tail];
    OpenNotFreed(param);
    var read := CommandText.FromWords([name, tail]);
    assert [name, tail][1..] == [tail] && CommandText.LeadingOptions([tail]) == 0;
    assert read.options == [] && read.params == [tail];
  }

  lemma SplitOpen(param: string)
    requires IsSimple(param)
    ensures CommandText.SplitFrom("< " + param) == ["< " + param]
  {
    var tail := " " + param;
    assert tail[1..] == param && "< " + param == "<" + tail && ("<" + tail)[1..] == tail;
    CommandRoundTrip.UnbrokenWithoutSpace(param, 1);
    assert CommandRoundTrip.Unbroken(tail, 1);
    CommandRoundTrip.RunThrough("<", tail, "", 1);
    assert tail + "" == tail && "<" + tail == "< " + param && "" + ['<'] == "<";
    assert CommandText.InWord("", "<" + tail, 0) == CommandText.InWord("<", tail, 1);
  }

  lemma OpenNotFreed(param: string)
    requires IsSimple(param)
    ensures CommandText.FreeFromComposite("< " + param) == "< " + param
    ensures !CommandText.IsOptionWord("< " + param)
  {
    var token := "< " + param;
    assert !CommandText.HasLineBreak(token) by {
      assert forall c :: c in token <==> c == '<' || c == ' ' || c in param;
    }
    assert !CommandRoundTrip.Encloses(token) by {
      assert forall i :: 2 <= i < |token| ==> token[i] in param;
    }
    CommandRoundTrip.EnclosedInLine(token);
  }
}
