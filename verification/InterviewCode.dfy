/** The service that saves interview journeys. */
module InterviewCode {
  import opened Wrappers
  import opened Pages
  import opened Interview
  import opened InterviewStored

  datatype Outcome = Saved | SharingRevoked | DatabaseError

  class InterviewService {
    var db: Db

    constructor (db: Db)
      ensures this.db == db
    {
      this.db := db;
    }

    method FindRounds(jid: int, uid: int) returns (rounds: seq<int>)
      ensures forall i | 0 <= i < |rounds| ::
                rounds[i] in db.rows && db.rows[rounds[i]].jid == jid && db.rows[rounds[i]].uid == uid
      ensures forall k :: k in rounds <==> k in db.rows && db.rows[k].jid == jid && db.rows[k].uid == uid
    {
      var found := set k | k in db.rows && db.rows[k].jid == jid && db.rows[k].uid == uid;
      rounds := FirstPage(found, |found|);
      LastPageIsAll(rounds, found, |found|);
      assert forall k :: k in rounds <==> k in Members(rounds);
      assert forall i | 0 <= i < |rounds| :: rounds[i] in Members(rounds);
    }

    /** The ids that the request sends as unshared. */
    method Unshared(rounds: seq<Round>) returns (unshared: set<int>)
      ensures forall id :: id in unshared <==>
                id != 0 && exists m | 0 <= m < |rounds| :: rounds[m].id == id && !rounds[m].shared
    {
      unshared := {};
      for i := 0 to |rounds|
        invariant forall id :: id in unshared <==>
                    id != 0 && exists m | 0 <= m < i :: rounds[m].id == id && !rounds[m].shared
      {
        if rounds[i].id != 0 && !rounds[i].shared {
          unshared := unshared + {rounds[i].id};
        }
      }
    }

    /** Whether a stored round of the journey is shared and sent as unshared. */
    method Revokes(rounds: seq<int>, unshared: set<int>) returns (b: bool)
      requires forall i | 0 <= i < |rounds| :: rounds[i] in db.rows
      ensures b <==> exists i | 0 <= i < |rounds| :: rounds[i] in unshared && db.rows[rounds[i]].shared
    {
      for i := 0 to |rounds|
        invariant forall m | 0 <= m < i :: !(rounds[m] in unshared && db.rows[rounds[m]].shared)
      {
        if rounds[i] in unshared && db.rows[rounds[i]].shared { return true; }
      }
      return false;
    }

    /** The request is saved, refused because it revokes sharing, or fails in the database. */
    method SaveJourney(j: Journey) returns (outcome: Outcome)
      requires WellFormed(db)
      modifies this
      ensures outcome == Saved ==> Save(old(db), j) == Some(db)
      ensures outcome != Saved ==> db == old(db)
      ensures (outcome == SharingRevoked ==> Refused(old(db), j)) && (Refused(old(db), j) ==> outcome != Saved)
      ensures outcome == Saved ==>
                forall i: nat, k | WritesLast(old(db), JourneyId(old(db), j), j.rounds, i, k) ::
                  StoredAt(db, k, j.rounds[i])
      ensures outcome == Saved && j.id > 0 ==>
                forall i | 0 <= i < |j.rounds| && j.rounds[i].id in old(db).rows ::
                  var row := old(db).rows[j.rounds[i].id];
                  row.jid == j.id && row.uid == j.uid && row.shared && j.rounds[i].id != 0 ==> j.rounds[i].shared
      ensures WellFormed(db)
    {
      if j.id > 0 && |j.rounds| > 0 {
        var unshared := Unshared(j.rounds);
        if unshared != {} {
          var readable: bool := *;
          if !readable { return DatabaseError; }
          var rounds := FindRounds(j.id, j.uid);
          var revokes := Revokes(rounds, unshared);
          if revokes {
            ghost var i :| 0 <= i < |rounds| && rounds[i] in unshared && db.rows[rounds[i]].shared;
            ghost var m :| 0 <= m < |j.rounds| && j.rounds[m].id == rounds[i] && !j.rounds[m].shared;
            assert Checked(db, j, j.rounds[m]);
            return SharingRevoked;
          }
          forall i | 0 <= i < |j.rounds| && Checked(db, j, j.rounds[i]) && !j.rounds[i].shared
            ensures !db.rows[j.rounds[i].id].shared
          {
            assert j.rounds[i].id in rounds && j.rounds[i].id in unshared;
          }
        } else {
          forall i | 0 <= i < |j.rounds| ensures j.rounds[i].id == 0 || j.rounds[i].shared {
            assert j.rounds[i].id !in unshared;
          }
        }
      }
      assert !Refused(db, j);
      var ok: bool := *;
      if !ok { return DatabaseError; }
      forall i: nat, k | WritesLast(db, JourneyId(db, j), j.rounds, i, k)
        ensures StoredAt(PutAll(db, JourneyId(db, j), j.rounds), k, j.rounds[i])
      {
        RoundsAreStored(db, JourneyId(db, j), j.rounds, i, k);
      }
      db := PutAll(db, JourneyId(db, j), j.rounds);
      return Saved;
    }
  }
}
