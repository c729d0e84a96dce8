/** Runs in which a user ends up in 513 chats: the limit of 512 is not kept by chat_add. */
module LimitExample {
  import opened Entities
  import opened Tables
  import opened Server
  import opened Scenes
  import Chats
  import ChatCounts

  // ---------- Five hundred and twelve chats, and one more ----------

  ghost predicate FilledWell(s: Scene, t: Tables, k: nat) {
    && s.a in t.users && s.b in t.users && (s.a, s.b) in t.contacts
    && LOBBY in t.chats && t.chats[LOBBY] == PublicChat(s)
    && (s.b, LOBBY) in t.party && (s.a, LOBBY) !in t.party
    && (forall id :: id in t.chats ==> id == LOBBY || |id| <= k)
    && (forall p :: p in t.party ==> p.1 in t.chats)
    && ChatsCount(t, s.a) == k
  }

  lemma NameIsFresh(s: Scene, t: Tables, k: nat)
    requires k > 0 && FilledWell(s, t, k - 1)
    ensures Name(k) !in t.chats && Name(k) != LOBBY
  {
    assert Name(k)[0] == 'n' && LOBBY[0] == 'c';
  }

  lemma OneMore(s: Scene, t: Tables, k: nat) returns (t': Tables)
    requires IsScene(s) && 0 < k <= Chats.MAX_CHATS_COUNT_TO_JOIN && FilledWell(s, t, k - 1) && Reachable(t)
    ensures Reachable(t') && FilledWell(s, t', k)
  {
    NameIsFresh(s, t, k);
    OpenReaches(t, s.a, s.title, Name(k));
    ChatCounts.WithChatCounts(t, Name(k), PublicChat(s), {s.a}, s.a);
    t' := Chats.WithChat(t, Name(k), PublicChat(s), {s.a});
  }

  lemma {:induction false} Fill(s: Scene, k: nat) returns (t: Tables)
    requires IsScene(s) && k <= Chats.MAX_CHATS_COUNT_TO_JOIN
    ensures Reachable(t) && FilledWell(s, t, k)
  {
    if k == 0 {
      OpenedReached(s);
      t := Opened(s);
      assert PartyRows({s.b}, LOBBY) == {(s.b, LOBBY)};
      assert RowsOfUser(t, s.a) == {};
    } else {
      t := Fill(s, k - 1);
      t := OneMore(s, t, k);
    }
  }

  lemma LobbyAdmits(s: Scene, t: Tables, k: nat)
    requires IsScene(s) && FilledWell(s, t, k)
    ensures Chats.AddRefusal(t, s.b, LOBBY, s.a) == Okey
  {
    assert (s.a, s.b) in t.contacts;
  }

  lemma LobbyTakesOneMore(s: Scene, t: Tables, k: nat)
    requires IsScene(s) && FilledWell(s, t, k)
    ensures Leads(t, ChatAdd(s.b, LOBBY, s.a), Chats.WithChat(t, LOBBY, PublicChat(s).(size := 2), {s.a}))
  {
    LobbyAdmits(s, t, k);
    AddLeads(t, s.b, LOBBY, s.a);
  }

  lemma LobbyReaches(s: Scene, t: Tables, k: nat) returns (t': Tables)
    requires IsScene(s) && FilledWell(s, t, k) && Reachable(t)
    ensures Reachable(t') && ChatsCount(t', s.a) == k + 1
  {
    t' := Chats.WithChat(t, LOBBY, PublicChat(s).(size := 2), {s.a});
    LobbyTakesOneMore(s, t, k);
    Extend(t, ChatAdd(s.b, LOBBY, s.a), t');
    ChatCounts.WithChatCounts(t, LOBBY, PublicChat(s).(size := 2), {s.a}, s.a);
  }

  /** A user opens 512 chats, and a contact then adds the user to another one. */
  lemma LimitCanBeExceeded(s: Scene)
    requires IsScene(s)
    ensures exists run :: IsRun(run) && ChatsCount(After(run), s.a) == 513
  {
    var t := Fill(s, 512);
    var t' := LobbyReaches(s, t, 512);
    var run :| ReachedBy(run, t');
  }
}
