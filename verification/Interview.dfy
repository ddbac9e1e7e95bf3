/** Saving an interview journey with its rounds. A round that is shared is not meant to
  * become unshared again; the service checks by round id, the table matches by id or by
  * journey and round number. */
module Interview {
  import opened Wrappers

  datatype Round = Round(id: int, uid: int, number: int, shared: bool, details: string)

  datatype Journey = Journey(id: int, uid: int, rounds: seq<Round>)

  datatype Row = Row(jid: int, uid: int, number: int, shared: bool, details: string)

  /** `slots` is the unique index on journey and round number; ids and journey ids below
    * `next` and `nextJourney` have been handed out. */
  datatype Db = Db(rows: map<int, Row>, slots: map<(int, int), int>, next: nat, nextJourney: nat)

  predicate WellFormed(db: Db) {
    && (forall k | k in db.rows :: k < db.next && db.rows[k].jid < db.nextJourney)
    && (forall k | k in db.rows ::
          (db.rows[k].jid, db.rows[k].number) in db.slots && db.slots[(db.rows[k].jid, db.rows[k].number)] == k)
    && (forall p | p in db.slots ::
          db.slots[p] in db.rows && (db.rows[db.slots[p]].jid, db.rows[db.slots[p]].number) == p)
  }

  // ----- the upsert of one round -----

  /** The row that an insert collides with: by primary key first, then by the unique index. */
  function Target(db: Db, jid: int, r: Round): Option<int> {
    if r.id != 0 && r.id in db.rows then Some(r.id)
    else if (jid, r.number) in db.slots then Some(db.slots[(jid, r.number)])
    else None
  }

  function Larger(a: nat, b: int): nat {
    if b < a then a else b
  }

  /** On a collision every column but the key, the journey, the number and the creation time
    * is overwritten. */
  function Put(db: Db, jid: int, r: Round): Db
    requires WellFormed(db)
  {
    var hit := Target(db, jid, r);
    if hit.Some? then
      var old' := db.rows[hit.value];
      db.(rows := db.rows[hit.value := Row(old'.jid, r.uid, old'.number, r.shared, r.details)])
    else
      var id := if r.id != 0 then r.id else db.next;
      Db(db.rows[id := Row(jid, r.uid, r.number, r.shared, r.details)], db.slots[(jid, r.number) := id],
         Larger(db.next, id + 1), Larger(db.nextJourney, jid + 1))
  }

  lemma PutIsWellFormed(db: Db, jid: int, r: Round)
    requires WellFormed(db)
    ensures WellFormed(Put(db, jid, r))
    ensures forall k | k in db.rows :: k in Put(db, jid, r).rows
  {}

  function PutAll(db: Db, jid: int, rounds: seq<Round>): (after: Db)
    requires WellFormed(db)
    ensures WellFormed(after) && forall k | k in db.rows :: k in after.rows
  {
    if rounds == [] then db
    else
      var before := PutAll(db, jid, rounds[..|rounds| - 1]);
      PutIsWellFormed(before, jid, rounds[|rounds| - 1]);
      Put(before, jid, rounds[|rounds| - 1])
  }

  // ----- the service -----

  function JourneyId(db: Db, j: Journey): int {
    if j.id == 0 then db.nextJourney else j.id
  }

  /** The check looks at the stored row that carries the round's id. */
  predicate Checked(db: Db, j: Journey, r: Round) {
    && j.id > 0 && r.id != 0 && r.id in db.rows
    && db.rows[r.id].jid == j.id && db.rows[r.id].uid == j.uid
  }

  /** The check fails: some round it looks at is stored as shared and sent as unshared. */
  predicate Refused(db: Db, j: Journey) {
    exists i | 0 <= i < |j.rounds| ::
      Checked(db, j, j.rounds[i]) && !j.rounds[i].shared && db.rows[j.rounds[i].id].shared
  }

  function Save(db: Db, j: Journey): (r: Option<Db>)
    requires WellFormed(db)
    ensures r.Some? ==> WellFormed(r.value)
  {
    if Refused(db, j) then None else Some(PutAll(db, JourneyId(db, j), j.rounds))
  }

  // ----- when sharing is kept -----

  ghost predicate KeepsSharing(db: Db, after: Db) {
    forall k | k in db.rows && db.rows[k].shared :: k in after.rows && after.rows[k].shared
  }

  /** Round i of the request lands on row k. */
  predicate Lands(db: Db, jid: int, rounds: seq<Round>, i: nat, k: int)
    requires WellFormed(db) && i < |rounds|
  {
    Target(PutAll(db, jid, rounds[..i]), jid, rounds[i]) == Some(k)
  }

  /** Round i is the last one to land on row k. */
  ghost predicate LandsLast(db: Db, jid: int, rounds: seq<Round>, i: nat, k: int)
    requires WellFormed(db)
  {
    && i < |rounds| && Lands(db, jid, rounds, i, k)
    && forall m: nat | i < m < |rounds| :: !Lands(db, jid, rounds, m, k)
  }

  lemma LandsInPrefix(db: Db, jid: int, rounds: seq<Round>, n: nat, i: nat, k: int)
    requires WellFormed(db) && i < n <= |rounds|
    ensures Lands(db, jid, rounds[..n], i, k) == Lands(db, jid, rounds, i, k)
  {
    assert rounds[..n][..i] == rounds[..i];
  }

  lemma LastRound(db: Db, jid: int, rounds: seq<Round>, k: int)
    requires WellFormed(db) && k in db.rows && rounds != []
    ensures var n := |rounds| - 1;
            PutAll(db, jid, rounds).rows[k].shared ==
            if Lands(db, jid, rounds, n, k) then rounds[n].shared else PutAll(db, jid, rounds[..n]).rows[k].shared
  {}

  /** A row keeps its flag if no round lands on it... */
  lemma {:induction false} UntouchedKeepsFlag(db: Db, jid: int, rounds: seq<Round>, k: int)
    requires WellFormed(db) && k in db.rows && forall i: nat | i < |rounds| :: !Lands(db, jid, rounds, i, k)
    ensures PutAll(db, jid, rounds).rows[k].shared == db.rows[k].shared
  {
    if rounds != [] {
      var n := |rounds| - 1;
      forall i: nat | i < n ensures !Lands(db, jid, rounds[..n], i, k) { LandsInPrefix(db, jid, rounds, n, i, k); }
      UntouchedKeepsFlag(db, jid, rounds[..n], k);
      LastRound(db, jid, rounds, k);
    }
  }

  lemma LandsLastInPrefix(db: Db, jid: int, rounds: seq<Round>, i: nat, k: int)
    requires WellFormed(db) && LandsLast(db, jid, rounds, i, k) && i < |rounds| - 1
    ensures LandsLast(db, jid, rounds[..|rounds| - 1], i, k) && !Lands(db, jid, rounds, |rounds| - 1, k)
  {
    var n := |rounds| - 1;
    LandsInPrefix(db, jid, rounds, n, i, k);
    forall m: nat | i < m < n ensures !Lands(db, jid, rounds[..n], m, k) { LandsInPrefix(db, jid, rounds, n, m, k); }
  }

  /** ... and otherwise has the flag of the last one that does. */
  lemma {:induction false} LastOneDecides(db: Db, jid: int, rounds: seq<Round>, i: nat, k: int)
    requires WellFormed(db) && k in db.rows && LandsLast(db, jid, rounds, i, k)
    ensures PutAll(db, jid, rounds).rows[k].shared == rounds[i].shared
  {
    LastRound(db, jid, rounds, k);
    if i < |rounds| - 1 {
      LandsLastInPrefix(db, jid, rounds, i, k);
      LastOneDecides(db, jid, rounds[..|rounds| - 1], i, k);
    }
  }

  lemma {:induction false} LastTrue(p: nat -> bool, n: nat) returns (i: nat)
    requires exists m: nat :: m < n && p(m)
    ensures i < n && p(i) && forall m: nat | i < m < n :: !p(m)
  {
    if p(n - 1) { i := n - 1; } else { i := LastTrue(p, n - 1); }
  }

  /** A round that the check looks at lands on the row the check looked at. */
  lemma CheckedLandsOnItself(db: Db, j: Journey, i: nat, k: int)
    requires WellFormed(db) && i < |j.rounds|
    ensures Checked(db, j, j.rounds[i]) && Lands(db, JourneyId(db, j), j.rounds, i, k) ==> k == j.rounds[i].id
  {}

  /** An unshared round that the check does not look at is the last to land on a shared row. */
  ghost predicate SlipsThrough(db: Db, j: Journey, i: nat, k: int)
    requires WellFormed(db)
  {
    && k in db.rows && db.rows[k].shared
    && LandsLast(db, JourneyId(db, j), j.rounds, i, k)
    && !j.rounds[i].shared && !Checked(db, j, j.rounds[i])
  }

  /** An accepted save keeps all sharing exactly when nothing slips through the check. */
  lemma SharingIsKeptExactlyWhen(db: Db, j: Journey)
    requires WellFormed(db) && Save(db, j).Some?
    ensures KeepsSharing(db, Save(db, j).value) <==> !exists i: nat, k :: SlipsThrough(db, j, i, k)
  {
    var after, jid := Save(db, j).value, JourneyId(db, j);
    if i: nat, k :| SlipsThrough(db, j, i, k) {
      LastOneDecides(db, jid, j.rounds, i, k);
      assert !after.rows[k].shared;
    } else {
      forall k | k in db.rows && db.rows[k].shared ensures after.rows[k].shared {
        SharedRowStays(db, j, k);
      }
    }
  }

  lemma LastKeepsSharing(db: Db, j: Journey, i: nat, k: int)
    requires WellFormed(db) && !Refused(db, j) && k in db.rows && db.rows[k].shared
    requires LandsLast(db, JourneyId(db, j), j.rounds, i, k) && !SlipsThrough(db, j, i, k)
    ensures PutAll(db, JourneyId(db, j), j.rounds).rows[k].shared
  {
    LastOneDecides(db, JourneyId(db, j), j.rounds, i, k);
    if Checked(db, j, j.rounds[i]) { CheckedLandsOnItself(db, j, i, k); }
  }

  lemma SharedRowStays(db: Db, j: Journey, k: int)
    requires WellFormed(db) && !Refused(db, j) && k in db.rows && db.rows[k].shared
    requires forall i: nat :: !SlipsThrough(db, j, i, k)
    ensures PutAll(db, JourneyId(db, j), j.rounds).rows[k].shared
  {
    var jid := JourneyId(db, j);
    var p := (m: nat) => m < |j.rounds| && Lands(db, jid, j.rounds, m, k);
    if exists m: nat :: m < |j.rounds| && p(m) {
      var i := LastTrue(p, |j.rounds|);
      assert p(i);
      forall m: nat | i < m < |j.rounds| ensures !Lands(db, jid, j.rounds, m, k) { assert !p(m); }
      assert LandsLast(db, jid, j.rounds, i, k);
      assert !SlipsThrough(db, j, i, k);
      LastKeepsSharing(db, j, i, k);
    } else {
      forall m: nat | m < |j.rounds| ensures !Lands(db, jid, j.rounds, m, k) { assert !p(m); }
      UntouchedKeepsFlag(db, jid, j.rounds, k);
    }
  }

  /** A request that names its rounds: every unshared round carries the id of a stored round of
    * this journey and user, or meets no stored round at all. */
  ghost predicate NamesItsRounds(db: Db, j: Journey)
  {
    forall r | r in j.rounds && !r.shared ::
      Checked(db, j, r) || Target(db, JourneyId(db, j), r).None?
  }

  /** What a round lands on is stored already, or was put there by the same request. */
  lemma {:induction false} LandsOnStored(db: Db, jid: int, rounds: seq<Round>, r: Round)
    requires WellFormed(db)
    ensures var hit := Target(PutAll(db, jid, rounds), jid, r);
            hit.Some? && hit.value in db.rows ==> Target(db, jid, r) == hit
  {
    if rounds != [] {
      var n := |rounds| - 1;
      LandsOnStored(db, jid, rounds[..n], r);
      SlotsOfStored(db, jid, rounds, (jid, r.number));
    }
  }

  lemma {:induction false} SlotsOfStored(db: Db, jid: int, rounds: seq<Round>, p: (int, int))
    requires WellFormed(db)
    ensures var after := PutAll(db, jid, rounds);
            p in after.slots && after.slots[p] in db.rows ==> p in db.slots && db.slots[p] == after.slots[p]
  {
    if rounds != [] { SlotsOfStored(db, jid, rounds[..|rounds| - 1], p); }
  }

  // ----- the condition on the request and the table before it -----

  lemma {:induction false} SlotsStay(db: Db, jid: int, rounds: seq<Round>, p: (int, int))
    requires WellFormed(db) && p in db.slots
    ensures p in PutAll(db, jid, rounds).slots && PutAll(db, jid, rounds).slots[p] == db.slots[p]
  {
    if rounds != [] { SlotsStay(db, jid, rounds[..|rounds| - 1], p); }
  }

  /** Round ids are those of stored rounds, or none is given. */
  predicate KnownIds(db: Db, rounds: seq<Round>) {
    forall i | 0 <= i < |rounds| :: rounds[i].id == 0 || rounds[i].id in db.rows
  }

  lemma LandsWhereItAims(db: Db, jid: int, rounds: seq<Round>, i: nat, k: int)
    requires WellFormed(db) && KnownIds(db, rounds) && i < |rounds| && k in db.rows
    ensures Lands(db, jid, rounds, i, k) <==> Target(db, jid, rounds[i]) == Some(k)
  {
    var r := rounds[i];
    LandsOnStored(db, jid, rounds[..i], r);
    if Target(db, jid, r) == Some(k) && r.id == 0 { SlotsStay(db, jid, rounds[..i], (jid, r.number)); }
    if Target(db, jid, r) == Some(k) && r.id != 0 { assert r.id in PutAll(db, jid, rounds[..i]).rows; }
  }

  /** Round i is the last of the request that aims at row k, and it revokes unseen. */
  ghost predicate RevokesUnseen(db: Db, j: Journey, i: nat, k: int) {
    var jid := JourneyId(db, j);
    && i < |j.rounds| && k in db.rows && db.rows[k].shared
    && Target(db, jid, j.rounds[i]) == Some(k)
    && (forall m: nat | i < m < |j.rounds| :: Target(db, jid, j.rounds[m]) != Some(k))
    && !j.rounds[i].shared && !Checked(db, j, j.rounds[i])
  }

  lemma SlipsByAiming(db: Db, j: Journey, i: nat, k: int)
    requires WellFormed(db) && KnownIds(db, j.rounds)
    ensures SlipsThrough(db, j, i, k) <==> RevokesUnseen(db, j, i, k)
  {
    var jid := JourneyId(db, j);
    if i < |j.rounds| && k in db.rows {
      forall m: nat | m < |j.rounds|
        ensures Lands(db, jid, j.rounds, m, k) <==> Target(db, jid, j.rounds[m]) == Some(k)
      {
        LandsWhereItAims(db, jid, j.rounds, m, k);
      }
    }
  }

  /** For a request with known ids the condition can be read off the request and the table: sharing
    * is kept exactly when no unshared round that is not checked is the last to aim at a shared row. */
  lemma SharingOfKnownIds(db: Db, j: Journey)
    requires WellFormed(db) && KnownIds(db, j.rounds) && Save(db, j).Some?
    ensures KeepsSharing(db, Save(db, j).value) <==> !exists i: nat, k :: RevokesUnseen(db, j, i, k)
  {
    SharingIsKeptExactlyWhen(db, j);
    forall i: nat, k ensures SlipsThrough(db, j, i, k) <==> RevokesUnseen(db, j, i, k) { SlipsByAiming(db, j, i, k); }
  }

  /** Requests that name their rounds never revoke sharing. */
  lemma NamedRequestsKeepSharing(db: Db, j: Journey)
    requires WellFormed(db) && NamesItsRounds(db, j) && Save(db, j).Some?
    ensures KeepsSharing(db, Save(db, j).value)
  {
    forall i: nat, k ensures !SlipsThrough(db, j, i, k) {
      if i < |j.rounds| { LandsOnStored(db, JourneyId(db, j), j.rounds[..i], j.rounds[i]); }
    }
    SharingIsKeptExactlyWhen(db, j);
  }

  /** The table after a request, accepted or not. */
  function Next(db: Db, j: Journey): (after: Db)
    requires WellFormed(db)
    ensures WellFormed(after)
  {
    var r := Save(db, j);
    if r.Some? then r.value else db
  }

  function Run(db: Db, js: seq<Journey>): (after: Db)
    requires WellFormed(db)
    ensures WellFormed(after)
  {
    if js == [] then db else Next(Run(db, js[..|js| - 1]), js[|js| - 1])
  }

  /** Over every run in which each accepted request lets nothing slip through, no round that
    * was ever shared is unshared. */
  lemma {:induction false} RunsKeepSharing(db: Db, js: seq<Journey>)
    requires WellFormed(db)
    requires forall n: nat, i: nat, k | n < |js| :: !SlipsThrough(Run(db, js[..n]), js[n], i, k)
    ensures KeepsSharing(db, Run(db, js))
  {
    if js != [] {
      var n := |js| - 1;
      forall m: nat, i: nat, k | m < n ensures !SlipsThrough(Run(db, js[..n][..m]), js[..n][m], i, k) {
        assert js[..n][..m] == js[..m];
      }
      RunsKeepSharing(db, js[..n]);
      var before := Run(db, js[..n]);
      if Save(before, js[n]).Some? { SharingIsKeptExactlyWhen(before, js[n]); }
    }
  }

  /** The failing family: a new round, without an id, for the number of a shared round. */
  lemma NewRoundRevokes(db: Db, jid: int, uid: int, k: int)
    requires WellFormed(db) && jid > 0 && k in db.rows && db.rows[k].jid == jid && db.rows[k].shared
    ensures var r := Round(0, uid, db.rows[k].number, false, "");
            var saved := Save(db, Journey(jid, uid, [r]));
            saved.Some? && k in saved.value.rows && !saved.value.rows[k].shared
  {
    var r := Round(0, uid, db.rows[k].number, false, "");
    assert [r][..0] == [];
    assert Target(db, jid, r) == Some(k);
    assert PutAll(db, jid, [r]) == Put(db, jid, r);
  }
}
