/** Reading the first page of a set of rows. */
module Pages {

  predicate Distinct(s: seq<int>) {
    forall i, j | 0 <= i < j < |s| :: s[i] != s[j]
  }

  function Members(s: seq<int>): set<int> {
    set x | x in s
  }

  /** A page of at most `limit` different members, as full as the set allows. */
  predicate IsPage(page: seq<int>, rows: set<int>, limit: nat) {
    && Distinct(page) && Members(page) <= rows
    && |page| == if |rows| < limit then |rows| else limit
  }

  /** Taking from the second of two joined pages. */
  lemma JoinTake(a: seq<int>, b: seq<int>, c: seq<int>, n: nat)
    requires n <= |c|
    ensures (a + b) + c[..n] == a + (b + c)[..|b| + n]
    ensures n == |c| ==> (a + b) + c[..n] == a + (b + c)
  {
    assert (b + c)[..|b| + n] == b + c[..n];
    assert n == |c| ==> c[..n] == c;
  }

  lemma MembersAppend(s: seq<int>, t: seq<int>)
    ensures Members(s + t) == Members(s) + Members(t)
  {}

  lemma DistinctAppend(s: seq<int>, t: seq<int>)
    requires Distinct(s) && Distinct(t) && Members(s) !! Members(t)
    ensures Distinct(s + t)
  {
    forall i, j | 0 <= i < j < |s + t| ensures (s + t)[i] != (s + t)[j] {
      if i < |s| <= j { assert s[i] in Members(s) && t[j - |s|] in Members(t); }
    }
  }

  lemma {:induction false} DistinctMembers(s: seq<int>)
    requires Distinct(s)
    ensures |Members(s)| == |s|
  {
    if s != [] {
      var k := |s| - 1;
      DistinctMembers(s[..k]);
      assert Members(s) == Members(s[..k]) + {s[k]};
      assert s[k] !in Members(s[..k]);
    }
  }

  lemma SameSize(a: set<int>, b: set<int>)
    requires a <= b && |a| == |b|
    ensures a == b
  {
    assert |b - a| == |b| - |a|;
    assert b == a + (b - a);
  }

  lemma {:induction false} SizeOfSubset(a: set<int>, b: set<int>)
    requires a <= b
    ensures |a| <= |b|
  {
    if a != {} {
      assert (forall x :: x !in a) ==> a == {};
      var x :| x in a;
      SizeOfSubset(a - {x}, b - {x});
    }
  }

  /** A page that is not full, or that is as long as the set, is all of it. */
  lemma LastPageIsAll(page: seq<int>, rows: set<int>, limit: nat)
    requires IsPage(page, rows, limit) && (|page| < limit || limit >= |rows|)
    ensures Members(page) == rows
  {
    DistinctMembers(page);
    SameSize(Members(page), rows);
  }

  lemma ProperSubsetIsSmaller(a: set<int>, b: set<int>)
    requires a < b
    ensures |a| < |b|
  {
    SizeOfSubset(a, b);
    if |a| == |b| { SameSize(a, b); }
  }

  lemma DistinctNext(page: seq<int>, x: int)
    requires Distinct(page) && x !in Members(page)
    ensures Distinct(page + [x]) && Members(page + [x]) == Members(page) + {x}
  {}

  /** Any rows in any order; which ones is up to the database. */
  method FirstPage(rows: set<int>, limit: nat) returns (page: seq<int>)
    ensures IsPage(page, rows, limit)
  {
    page := [];
    var rest := rows;
    while rest != {} && |page| < limit
      invariant rest <= rows && Members(page) == rows - rest && Distinct(page)
      invariant |page| + |rest| == |rows| && |page| <= limit
      decreases rest
    {
      assert (forall x :: x !in rest) ==> rest == {};
      var x :| x in rest;
      DistinctNext(page, x);
      page, rest := page + [x], rest - {x};
    }
  }

  lemma {:induction false} APage(rows: set<int>, limit: nat) returns (page: seq<int>)
    ensures IsPage(page, rows, limit)
    decreases limit
  {
    assert (forall x :: x !in rows) ==> rows == {};
    if rows == {} || limit == 0 {
      page := [];
    } else {
      var x :| x in rows;
      page := APage(rows - {x}, limit - 1);
      DistinctNext(page, x);
      page := page + [x];
    }
  }
}
