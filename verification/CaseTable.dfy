/** The published cases in the order in which lists show them: newest id first. */
module CaseTable {
  import opened Wrappers

  /** A case; `details` stands for the columns that neither identify nor list it. */
  datatype Case = Case(id: int, uid: int, biz: string, status: int, labels: seq<string>, introduction: string,
                       title: string, details: string, ctime: int, utime: int)

  type Table = map<int, Case>

  /** What a list query selects of a row. */
  function Listed(c: Case): Case {
    Case(c.id, 0, "", c.status, c.labels, c.introduction, c.title, "", 0, c.utime)
  }

  predicate IsMax(m: int, ids: set<int>) {
    m in ids && forall x | x in ids :: x <= m
  }

  lemma {:induction false} HasMax(ids: set<int>)
    requires ids != {}
    ensures exists m :: IsMax(m, ids)
  {
    assert (forall x :: x !in ids) ==> ids == {};
    var m :| m in ids;
    var rest := ids - {m};
    if rest == {} {
      assert ids == {m};
      assert IsMax(m, ids);
    } else {
      HasMax(rest);
      var k :| IsMax(k, rest);
      var j := if k > m then k else m;
      forall x | x in ids ensures x <= j { assert x == m || x in rest; }
      assert IsMax(j, ids);
    }
  }

  function Max(ids: set<int>): (m: int)
    requires ids != {}
    ensures IsMax(m, ids)
  {
    HasMax(ids);
    var m :| IsMax(m, ids);
    m
  }

  /** The ids in descending order. */
  function Descending(ids: set<int>): (s: seq<int>)
    ensures forall i | 0 <= i < |s| :: s[i] in ids
  {
    if ids == {} then [] else [Max(ids)] + Descending(ids - {Max(ids)})
  }

  /** The rows of `ids` in list order. */
  function Rows(t: Table, ids: set<int>): (r: seq<Case>)
    requires ids <= t.Keys
  {
    var s := Descending(ids);
    seq(|s|, i requires 0 <= i < |s| => Listed(t[s[i]]))
  }

  function Published(t: Table): seq<Case> {
    Rows(t, t.Keys)
  }

  /** OFFSET and LIMIT. */
  function Page<T>(s: seq<T>, offset: nat, limit: nat): seq<T> {
    s[Min(offset, |s|)..Min(offset + limit, |s|)]
  }

  /** The answer to a page query: `limit` entries from `offset` on, or as many as there are. */
  ghost predicate Selects<T>(r: seq<T>, s: seq<T>, offset: nat, limit: nat) {
    && |r| == (if offset >= |s| then 0 else if |s| - offset < limit then |s| - offset else limit)
    && (offset < |s| ==> r == s[offset..offset + |r|])
  }

  lemma PageSelects<T>(s: seq<T>, offset: nat, limit: nat)
    ensures Selects(Page(s, offset, limit), s, offset, limit)
    ensures forall i | 0 <= i < |Page(s, offset, limit)| :: Page(s, offset, limit)[i] == s[offset + i]
  {}

  function Top(t: Table, n: nat): seq<Case> {
    Page(Published(t), 0, n)
  }

  lemma PageOfTop<T>(s: seq<T>, n: nat, offset: nat, limit: nat)
    requires offset + limit <= n
    ensures Page(Page(s, 0, n), offset, limit) == Page(s, offset, limit)
  {}

  // ----- when the top of the list changes -----

  predicate Falling(s: seq<int>) {
    forall i, j | 0 <= i < j < |s| :: s[i] > s[j]
  }

  /** How many leading ids are newer than `id`. */
  function Newer(s: seq<int>, id: int): (r: nat)
    ensures r <= |s| && (forall i | 0 <= i < r :: s[i] > id) && (r < |s| ==> s[r] <= id)
  {
    if s != [] && s[0] > id then 1 + Newer(s[1..], id) else 0
  }

  /** The place of an id in the list: how many published cases are newer. */
  function Rank(t: Table, id: int): nat {
    Newer(Descending(t.Keys), id)
  }

  lemma {:induction false} DescendingFalls(ids: set<int>)
    ensures Falling(Descending(ids))
  {
    if ids != {} {
      var rest := Descending(ids - {Max(ids)});
      DescendingFalls(ids - {Max(ids)});
      forall i | 0 <= i < |rest| ensures rest[i] < Max(ids) { assert rest[i] in rest; }
    }
  }

  lemma {:induction false} DescendingLength(ids: set<int>)
    ensures |Descending(ids)| == |ids|
  {
    if ids != {} { DescendingLength(ids - {Max(ids)}); }
  }

  /** What a list shows of a case: neither owner, business, contents nor creation time. */
  predicate Shows(entry: Case, row: Case) {
    && entry.id == row.id && entry.title == row.title && entry.introduction == row.introduction
    && entry.labels == row.labels && entry.status == row.status && entry.utime == row.utime
    && entry.uid == 0 && entry.biz == "" && entry.details == "" && entry.ctime == 0
  }

  lemma EveryCaseListed(t: Table, id: int)
    requires id in t && t[id].id == id
    ensures exists i :: 0 <= i < |Published(t)| && Published(t)[i].id == id
  {
    var s := Descending(t.Keys);
    DescendingHasAll(t.Keys, id);
    var i :| 0 <= i < |s| && s[i] == id;
    assert Published(t)[i].id == id;
  }

  lemma ListedInOrder(t: Table)
    requires forall k | k in t :: t[k].id == k
    ensures forall i, j | 0 <= i < j < |Published(t)| :: Published(t)[i].id > Published(t)[j].id
  {
    DescendingFalls(t.Keys);
  }

  /** The list has one entry for every published case, newest id first. */
  lemma PublishedList(t: Table)
    requires forall k | k in t :: t[k].id == k
    ensures |Published(t)| == |t|
    ensures forall i, j | 0 <= i < j < |Published(t)| :: Published(t)[i].id > Published(t)[j].id
    ensures forall i | 0 <= i < |Published(t)| ::
              Published(t)[i].id in t && Shows(Published(t)[i], t[Published(t)[i].id])
    ensures forall k | k in t :: exists i :: 0 <= i < |Published(t)| && Published(t)[i].id == k
  {
    DescendingLength(t.Keys);
    assert |t.Keys| == |t|;
    ListedInOrder(t);
    forall k | k in t ensures exists i :: 0 <= i < |Published(t)| && Published(t)[i].id == k { EveryCaseListed(t, k); }
  }

  lemma DescendingCons(ids: set<int>, m: int)
    requires IsMax(m, ids)
    ensures Descending(ids) == [m] + Descending(ids - {m})
  {
    assert Max(ids) == m;
  }

  lemma {:induction false} DescendingHasAll(ids: set<int>, id: int)
    requires id in ids
    ensures id in Descending(ids)
  {
    if id != Max(ids) { DescendingHasAll(ids - {Max(ids)}, id); }
  }

  /** Where a new id goes. */
  function Insert(s: seq<int>, id: int): seq<int> {
    if s == [] || s[0] <= id then [id] + s else [s[0]] + Insert(s[1..], id)
  }

  lemma {:induction false} InsertAt(s: seq<int>, id: int)
    ensures var t, r := Insert(s, id), Newer(s, id);
            |t| == |s| + 1 && t[r] == id && forall i | 0 <= i < r :: t[i] == s[i]
  {
    if s != [] && s[0] > id { InsertAt(s[1..], id); }
  }

  /** A new id takes its place; the others keep their order. */
  lemma {:induction false} DescendingInsert(ids: set<int>, id: int)
    requires id !in ids
    ensures Descending(ids + {id}) == Insert(Descending(ids), id)
  {
    var all := ids + {id};
    if ids == {} || Max(ids) < id {
      DescendingCons(all, id);
      assert all - {id} == ids;
    } else {
      var m := Max(ids);
      DescendingInsert(ids - {m}, id);
      DescendingCons(all, m);
      assert all - {m} == ids - {m} + {id};
    }
  }

  lemma KnownIdAtRank(ids: set<int>, id: int)
    requires id in ids
    ensures var s, r := Descending(ids), Newer(Descending(ids), id);
            r < |s| && s[r] == id && forall i | 0 <= i < |s| && i != r :: s[i] != id
  {
    DescendingFalls(ids);
    DescendingHasAll(ids, id);
  }

  /** Writing the row of one case changes the first n entries exactly when the case is among
    * them and does not look as before. */
  lemma TopChanges(t: Table, c: Case, n: nat)
    requires forall k | k in t :: t[k].id == k
    ensures Top(t[c.id := c], n) == Top(t, n) <==>
            Rank(t, c.id) >= n || (c.id in t && Listed(t[c.id]) == Listed(c))
  {
    if c.id in t { KnownCase(t, c, n); } else { NewCase(t, c, n); }
  }

  lemma KnownCase(t: Table, c: Case, n: nat)
    requires c.id in t
    ensures Top(t[c.id := c], n) == Top(t, n) <==> Rank(t, c.id) >= n || Listed(t[c.id]) == Listed(c)
  {
    var u, r := t[c.id := c], Rank(t, c.id);
    assert u.Keys == t.Keys;
    KnownIdAtRank(t.Keys, c.id);
    var before, after := Published(t), Published(u);
    assert before[r] == Listed(t[c.id]) && after == before[r := Listed(c)];
    if r < n { assert Top(t, n)[r] == before[r] && Top(u, n)[r] == after[r]; }
  }

  lemma NewRows(t: Table, c: Case)
    requires c.id !in t && forall k | k in t :: t[k].id == k
    ensures var before, after, r := Published(t), Published(t[c.id := c]), Rank(t, c.id);
            && r <= |before| && |after| == |before| + 1 && after[r] == Listed(c)
            && (forall i | 0 <= i < r :: after[i] == before[i])
            && (r < |before| ==> before[r].id != c.id)
  {
    var u, s, r := t[c.id := c], Descending(t.Keys), Rank(t, c.id);
    assert u.Keys == t.Keys + {c.id};
    DescendingInsert(t.Keys, c.id);
    InsertAt(s, c.id);
    forall i | 0 <= i < r ensures Published(u)[i] == Published(t)[i] {
      assert Descending(u.Keys)[i] == s[i] && s[i] != c.id;
    }
  }

  lemma NewCase(t: Table, c: Case, n: nat)
    requires c.id !in t && forall k | k in t :: t[k].id == k
    ensures Top(t[c.id := c], n) == Top(t, n) <==> Rank(t, c.id) >= n
  {
    var before, after, r := Published(t), Published(t[c.id := c]), Rank(t, c.id);
    NewRows(t, c);
    if r < n {
      assert Page(after, 0, n)[r] == Listed(c);
      if r < |before| { assert Page(before, 0, n)[r] == before[r]; }
    }
  }
}
