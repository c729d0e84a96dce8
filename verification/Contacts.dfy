/** Invitations and contacts: what each command does to the tables, and the handlers that
    reach it statement by statement. */
module Contacts {
  import opened Entities
  import opened Tables

  // ---------- Effects ----------

  function Create(t: Tables, from: Id, to: Id): (Tables, Status) {
    if UsersRelation(t, from, to) != Unrelated then (t, ImpossibleToCreateRequest)
    else if from !in t.users || to !in t.users then (t, InternalServerError)
    else (t.(requests := t.requests + multiset{(from, to)}), Okey)
  }

  function Drop(t: Tables, from: Id, to: Id): (Tables, Status) {
    if (from, to) !in t.requests then (t, NonexistentRequest)
    else (t.(requests := t.requests[(from, to) := 0]), Okey)
  }

  function Accept(t: Tables, from: Id, to: Id): (Tables, Status) {
    var (dropped, code) := Drop(t, from, to);
    if code != Okey then (t, code)
    else if from !in t.users || to !in t.users then (dropped, InternalServerError)
    else (dropped.(contacts := t.contacts + multiset{(from, to)}), Okey)
  }

  function Delete(t: Tables, u: Id, v: Id): (Tables, Status) {
    if RowsBetween(t.contacts, u, v) == 0 then (t, NonexistentContact)
    else (t.(contacts := t.contacts[(u, v) := 0][(v, u) := 0]), Okey)
  }

  ghost predicate OnlyRelationsDiffer(t: Tables, t': Tables) {
    t' == t.(contacts := t'.contacts, requests := t'.requests)
  }

  /** These commands touch no other table. */
  lemma OnlyRelationsChange(t: Tables, u: Id, v: Id)
    ensures OnlyRelationsDiffer(t, Create(t, u, v).0) && OnlyRelationsDiffer(t, Drop(t, u, v).0)
    ensures OnlyRelationsDiffer(t, Accept(t, u, v).0) && OnlyRelationsDiffer(t, Delete(t, u, v).0)
  {
  }

  // ---------- Handlers ----------

  method HandleAccept(db: Database, ufrom: Id, uto: Id) returns (status: Status)
    modifies db
    ensures (db.View(), status) == Accept(old(db.View()), ufrom, uto)
  {
    var isRequestExist := (ufrom, uto) in db.requests;
    if !isRequestExist {
      return NonexistentRequest;
    }
    db.DeleteRequest(ufrom, uto);
    status := db.CreateContact(ufrom, uto);
  }

  method HandleReject(db: Database, ufrom: Id, uto: Id) returns (status: Status)
    modifies db
    ensures (db.View(), status) == Drop(old(db.View()), ufrom, uto)
  {
    var isRequestExist := (ufrom, uto) in db.requests;
    if !isRequestExist {
      return NonexistentRequest;
    }
    db.DeleteRequest(ufrom, uto);
    status := Okey;
  }

  method HandleCreate(db: Database, uto: Id, ufrom: Id) returns (status: Status)
    modifies db
    ensures (db.View(), status) == Create(old(db.View()), ufrom, uto)
  {
    var rels := UsersRelation(db.View(), ufrom, uto);
    if rels != Unrelated {
      return ImpossibleToCreateRequest;
    }
    status := db.CreateRequest(ufrom, uto);
  }

  method HandleCancel(db: Database, uto: Id, ufrom: Id) returns (status: Status)
    modifies db
    ensures (db.View(), status) == Drop(old(db.View()), ufrom, uto)
  {
    status := HandleReject(db, ufrom, uto);
  }

  method HandleContactDelete(db: Database, id: Id, contactId: Id) returns (status: Status)
    modifies db
    ensures (db.View(), status) == Delete(old(db.View()), id, contactId)
  {
    var isContactExist := (id, contactId) in db.contacts || (contactId, id) in db.contacts;
    if !isContactExist {
      return NonexistentContact;
    }
    db.DeleteContact(id, contactId);
    status := Okey;
  }
}
