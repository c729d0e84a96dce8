/** The worker that takes one command after another: the handlers, run on one database, pass
    through exactly the states of the machine, so what is proved of every run holds of them. */
module Service {
  import opened Entities
  import opened Tables
  import opened Server
  import opened ContactRuns
  import opened ChatRuns

  lemma CommandOfRun(run: seq<Command>, i: nat)
    requires IsRun(run) && i < |run|
    ensures Enabled(Before(run, i), run[i])
    ensures forall c, u :: c !in Before(run, i).chats ==> (u, c) !in Before(run, i).party
    ensures Before(run, i + 1) == Step(Before(run, i), run[i]).0
  {
    RunPrefix(run, i);
    ReachableChats(run[..i]);
    BeforeNext(run, i);
  }

  method Serve(run: seq<Command>) returns (db: Database, statuses: seq<Status>)
    requires IsRun(run)
    ensures fresh(db) && db.View() == After(run)
    ensures UsersOk(db.View()) && RelationsOk(db.View()) && ChatsOk(db.View())
    ensures |statuses| == |run| && forall i :: 0 <= i < |run| ==> statuses[i] == StatusOf(run, i)
  {
    db := new Database();
    statuses := [];
    for i := 0 to |run|
      invariant fresh(db) && db.View() == Before(run, i)
      invariant |statuses| == i && forall k :: 0 <= k < i ==> statuses[k] == StatusOf(run, k)
    {
      CommandOfRun(run, i);
      var session := new ClientSession(if run[i].Signup? then "" else Caller(run[i]), "");
      var status := Handle(db, session, run[i]);
      statuses := statuses + [status];
    }
    assert run[..|run|] == run;
    ReachableUsers(run);
    ReachableRelations(run);
    ReachableChats(run);
  }
}
