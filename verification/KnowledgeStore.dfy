/** What the remote knowledge base holds, and what a sequence of bulk items means.
  * A bulk item either puts a document or removes one; an attempt may land any
  * subset of its items, in order. */
module KnowledgeStore {
  import opened Wrappers

  type Store = map<string, string>

  datatype Document = Document(id: string, body: string)

  datatype Item = Put(id: string, body: string) | Remove(id: string) {
    /** What a lookup of this item's id answers once the item has landed. */
    function Effect(): Option<string> {
      if Put? then Some(body) else None
    }
  }

  function Lookup(s: Store, id: string): Option<string> {
    if id in s then Some(s[id]) else None
  }

  function Apply(s: Store, m: Item): Store {
    match m
    case Put(id, body) => s[id := body]
    case Remove(id) => s - {id}
  }

  /** Every item lands, in order. */
  function ApplyAll(s: Store, ms: seq<Item>): Store {
    if ms == [] then s else Apply(ApplyAll(s, ms[..|ms| - 1]), ms[|ms| - 1])
  }

  /** Item k lands exactly when keep[k] says so. */
  function ApplySome(s: Store, ms: seq<Item>, keep: seq<bool>): Store
    requires |keep| == |ms|
  {
    if ms == [] then s
    else
      var k := |ms| - 1;
      var before := ApplySome(s, ms[..k], keep[..k]);
      if keep[k] then Apply(before, ms[k]) else before
  }

  /** The outcome the last item for `id` asks for, if any item names it. */
  function LastEffect(ms: seq<Item>, id: string): Option<Option<string>> {
    if ms == [] then None
    else if ms[|ms| - 1].id == id then Some(ms[|ms| - 1].Effect())
    else LastEffect(ms[..|ms| - 1], id)
  }

  function Puts(docs: seq<Document>): (ms: seq<Item>)
    ensures |ms| == |docs|
  {
    seq(|docs|, i requires 0 <= i < |docs| => Put(docs[i].id, docs[i].body))
  }

  function Removes(ids: seq<string>): (ms: seq<Item>)
    ensures |ms| == |ids|
  {
    seq(|ids|, i requires 0 <= i < |ids| => Remove(ids[i]))
  }

  /** `s` differs from `s0` only at ids named by `ms`, and there it holds either
    * the old answer or the effect of one of the items naming that id. */
  ghost predicate Mixed(s0: Store, s: Store, ms: seq<Item>) {
    forall id: string :: MixedAt(s0, s, ms, id)
  }

  ghost predicate MixedAt(s0: Store, s: Store, ms: seq<Item>, id: string) {
    Lookup(s, id) == Lookup(s0, id)
    || exists m :: m in ms && m.id == id && Lookup(s, id) == m.Effect()
  }

  lemma SameLookups(s: Store, t: Store)
    requires forall id: string :: Lookup(s, id) == Lookup(t, id)
    ensures s == t
  {
    forall id | id in s.Keys + t.Keys
      ensures id in s && id in t && s[id] == t[id]
    {
      assert Lookup(s, id) == Lookup(t, id);
    }
  }

  lemma {:induction false} LookupAfterAll(s: Store, ms: seq<Item>, id: string)
    ensures Lookup(ApplyAll(s, ms), id) ==
            match LastEffect(ms, id) case Some(e) => e case None => Lookup(s, id)
  {
    if ms != [] { LookupAfterAll(s, ms[..|ms| - 1], id); }
  }

  lemma {:induction false} NamedHasLastEffect(ms: seq<Item>, m: Item)
    requires m in ms
    ensures LastEffect(ms, m.id).Some?
  {
    var k := |ms| - 1;
    if ms[k].id != m.id {
      assert ms == ms[..k] + [ms[k]];
      NamedHasLastEffect(ms[..k], m);
    }
  }

  lemma {:induction false} ApplyAllConcat(s: Store, a: seq<Item>, b: seq<Item>)
    ensures ApplyAll(s, a + b) == ApplyAll(ApplyAll(s, a), b)
  {
    if b == [] {
      assert a + b == a;
    } else {
      var k := |b| - 1;
      ApplyAllConcat(s, a, b[..k]);
      assert (a + b)[..|a + b| - 1] == a + b[..k];
    }
  }

  /** Landing more items of the batch keeps the store in the mixed state. */
  lemma {:induction false} PartialKeepsMixed(s0: Store, s: Store, ms: seq<Item>, part: seq<Item>, keep: seq<bool>)
    requires Mixed(s0, s, ms) && |keep| == |part|
    requires forall m :: m in part ==> m in ms
    ensures Mixed(s0, ApplySome(s, part, keep), ms)
  {
    if part != [] {
      var k := |part| - 1;
      PartialKeepsMixed(s0, s, ms, part[..k], keep[..k]);
      var before, after := ApplySome(s, part[..k], keep[..k]), ApplySome(s, part, keep);
      assert part[k] in ms;
      forall id: string
        ensures MixedAt(s0, after, ms, id)
      {
        assert MixedAt(s0, before, ms, id);
        if Lookup(after, id) != Lookup(before, id) {
          assert part[k].id == id && Lookup(after, id) == part[k].Effect();
        }
      }
    }
  }

  /** Idempotence: a full pass over the batch forgets every partial pass before it. */
  lemma FullPassForgets(s0: Store, s: Store, ms: seq<Item>)
    requires Mixed(s0, s, ms)
    ensures ApplyAll(s, ms) == ApplyAll(s0, ms)
  {
    forall id: string
      ensures Lookup(ApplyAll(s, ms), id) == Lookup(ApplyAll(s0, ms), id)
    {
      LookupAfterAll(s, ms, id);
      LookupAfterAll(s0, ms, id);
      assert MixedAt(s0, s, ms, id);
      if LastEffect(ms, id).None? {
        forall m | m in ms && m.id == id ensures false { NamedHasLastEffect(ms, m); }
      }
    }
    SameLookups(ApplyAll(s, ms), ApplyAll(s0, ms));
  }

  /** No item names this id. */
  predicate Unnamed(ms: seq<Item>, id: string) {
    forall m | m in ms :: m.id != id
  }

  ghost predicate KeepsOthers(s0: Store, s: Store, ms: seq<Item>) {
    forall id: string | Unnamed(ms, id) :: Lookup(s, id) == Lookup(s0, id)
  }

  lemma MixedStart(s: Store, ms: seq<Item>)
    ensures Mixed(s, s, ms)
  {
    forall id: string ensures MixedAt(s, s, ms, id) {}
  }

  lemma UnnamedMixed(s0: Store, s: Store, ms: seq<Item>, id: string)
    requires Mixed(s0, s, ms) && Unnamed(ms, id)
    ensures Lookup(s, id) == Lookup(s0, id)
  {
    assert MixedAt(s0, s, ms, id);
  }

  lemma {:induction false} UnnamedHasNoEffect(ms: seq<Item>, id: string)
    requires Unnamed(ms, id)
    ensures LastEffect(ms, id).None?
  {
    if ms != [] {
      assert ms[|ms| - 1] in ms;
      UnnamedHasNoEffect(ms[..|ms| - 1], id);
    }
  }

  /** After some full batches and part of another, ids that no item names are as they were. */
  lemma OthersKept(s0: Store, s: Store, ms: seq<Item>, lo: nat, hi: nat)
    requires lo <= hi <= |ms| && Mixed(ApplyAll(s0, ms[..lo]), s, ms[lo..hi])
    ensures KeepsOthers(s0, s, ms)
  {
    forall id: string | Unnamed(ms, id) ensures Lookup(s, id) == Lookup(s0, id) {
      UnnamedMixed(ApplyAll(s0, ms[..lo]), s, ms[lo..hi], id);
      LookupAfterAll(s0, ms[..lo], id);
      UnnamedHasNoEffect(ms[..lo], id);
    }
  }

  /** The body given by the last document carrying `id`. */
  function LastBody(docs: seq<Document>, id: string): Option<string> {
    if docs == [] then None
    else if docs[|docs| - 1].id == id then Some(docs[|docs| - 1].body)
    else LastBody(docs[..|docs| - 1], id)
  }

  lemma {:induction false} UpsertMeaning(s: Store, docs: seq<Document>, id: string)
    ensures Lookup(ApplyAll(s, Puts(docs)), id) ==
            if LastBody(docs, id).Some? then LastBody(docs, id) else Lookup(s, id)
  {
    if docs != [] {
      var k := |docs| - 1;
      UpsertMeaning(s, docs[..k], id);
      assert Puts(docs)[..k] == Puts(docs[..k]);
    }
  }

  lemma {:induction false} DeleteMeaning(s: Store, ids: seq<string>)
    ensures ApplyAll(s, Removes(ids)) == s - set id | id in ids
  {
    if ids == [] {
      assert s - {} == s;
    } else {
      var k := |ids| - 1;
      DeleteMeaning(s, ids[..k]);
      assert Removes(ids)[..k] == Removes(ids[..k]);
      assert ids == ids[..k] + [ids[k]];
      assert (set id | id in ids) == (set id | id in ids[..k]) + {ids[k]};
    }
  }
}
