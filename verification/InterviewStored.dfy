/** What a saved journey leaves in the table: which requests are refused, and where the rounds of the
  * others are found. */
module InterviewStored {
  import opened Wrappers
  import opened Interview

  /** Spelled out: the request names a stored, shared round of its own journey and user as unshared. */
  lemma RefusedMeans(db: Db, j: Journey)
    ensures Refused(db, j) <==>
            j.id > 0 && exists i :: 0 <= i < |j.rounds| && !j.rounds[i].shared && j.rounds[i].id != 0 &&
                                    j.rounds[i].id in db.rows &&
                                    var row := db.rows[j.rounds[i].id];
                                    row.shared && row.jid == j.id && row.uid == j.uid
  {}

  /** The row that a round is written to. */
  function WrittenTo(db: Db, jid: int, r: Round): int {
    var hit := Target(db, jid, r);
    if hit.Some? then hit.value else if r.id != 0 then r.id else db.next
  }

  /** The row carries what the round says. */
  predicate Carries(row: Row, r: Round) {
    row.uid == r.uid && row.shared == r.shared && row.details == r.details
  }

  /** One round is written to one row and changes no other: to the row with its id, else to the row
    * of its journey and number, else to a new one. */
  lemma WhatPutDoes(db: Db, jid: int, r: Round)
    requires WellFormed(db)
    ensures var after, k := Put(db, jid, r), WrittenTo(db, jid, r);
            && after.rows.Keys == db.rows.Keys + {k} && Carries(after.rows[k], r)
            && (forall m | m in db.rows && m != k :: after.rows[m] == db.rows[m])
            && (k in db.rows ==> after.rows[k].jid == db.rows[k].jid && after.rows[k].number == db.rows[k].number)
            && (k !in db.rows ==> after.rows[k].jid == jid && after.rows[k].number == r.number)
    ensures var k := WrittenTo(db, jid, r);
            if r.id != 0 && r.id in db.rows then k == r.id
            else if exists m :: m in db.rows && db.rows[m].jid == jid && db.rows[m].number == r.number then
              k in db.rows && db.rows[k].jid == jid && db.rows[k].number == r.number
            else k !in db.rows && (r.id != 0 ==> k == r.id)
  {}

  /** Round i of the request is written to row k. */
  predicate Writes(db: Db, jid: int, rounds: seq<Round>, i: nat, k: int)
    requires WellFormed(db) && i < |rounds|
  {
    WrittenTo(PutAll(db, jid, rounds[..i]), jid, rounds[i]) == k
  }

  /** Round i is the last one to be written to row k. */
  ghost predicate WritesLast(db: Db, jid: int, rounds: seq<Round>, i: nat, k: int)
    requires WellFormed(db)
  {
    && i < |rounds| && Writes(db, jid, rounds, i, k)
    && forall m: nat | i < m < |rounds| :: !Writes(db, jid, rounds, m, k)
  }

  lemma WritesInPrefix(db: Db, jid: int, rounds: seq<Round>, n: nat, i: nat, k: int)
    requires WellFormed(db) && i < n <= |rounds|
    ensures Writes(db, jid, rounds[..n], i, k) == Writes(db, jid, rounds, i, k)
  {
    assert rounds[..n][..i] == rounds[..i];
  }

  lemma WritesLastInPrefix(db: Db, jid: int, rounds: seq<Round>, i: nat, k: int)
    requires WellFormed(db) && i < |rounds| - 1
    ensures WritesLast(db, jid, rounds, i, k) ==>
              WritesLast(db, jid, rounds[..|rounds| - 1], i, k) && !Writes(db, jid, rounds, |rounds| - 1, k)
  {
    if WritesLast(db, jid, rounds, i, k) {
      var n := |rounds| - 1;
      WritesInPrefix(db, jid, rounds, n, i, k);
      forall m: nat | i < m < n ensures !Writes(db, jid, rounds[..n], m, k) { WritesInPrefix(db, jid, rounds, n, m, k); }
    }
  }

  predicate StoredAt(db: Db, k: int, r: Round) {
    k in db.rows && Carries(db.rows[k], r)
  }

  lemma PutStores(db: Db, jid: int, last: Round, k: int, r: Round)
    requires WellFormed(db)
    ensures WrittenTo(db, jid, last) == k ==> StoredAt(Put(db, jid, last), k, last)
    ensures WrittenTo(db, jid, last) != k && StoredAt(db, k, r) ==> StoredAt(Put(db, jid, last), k, r)
  {
    WhatPutDoes(db, jid, last);
  }

  lemma LastRoundStored(db: Db, jid: int, rounds: seq<Round>, k: int, r: Round)
    requires WellFormed(db) && rounds != []
    ensures var n := |rounds| - 1;
            if Writes(db, jid, rounds, n, k) then StoredAt(PutAll(db, jid, rounds), k, rounds[n])
            else StoredAt(PutAll(db, jid, rounds[..n]), k, r) ==> StoredAt(PutAll(db, jid, rounds), k, r)
  {
    PutStores(PutAll(db, jid, rounds[..|rounds| - 1]), jid, rounds[|rounds| - 1], k, r);
  }

  /** Every round of a request is stored, unless a later one of it is written over it. */
  lemma {:induction false} RoundsAreStored(db: Db, jid: int, rounds: seq<Round>, i: nat, k: int)
    requires WellFormed(db) && i < |rounds|
    ensures WritesLast(db, jid, rounds, i, k) ==> StoredAt(PutAll(db, jid, rounds), k, rounds[i])
  {
    if i < |rounds| - 1 {
      WritesLastInPrefix(db, jid, rounds, i, k);
      RoundsAreStored(db, jid, rounds[..|rounds| - 1], i, k);
    }
    LastRoundStored(db, jid, rounds, k, rounds[i]);
  }
}
