/** Revision assignment and duplicate suppression (hub/dedupe.py).

    A payload hash is injective here: two payloads are the same exactly when they are equal. */
module Dedupe {
  import opened Wrappers
  import opened Records

  datatype Seen = Seen(revision: nat, payload: Payload)

  /** Latest known revision and payload per (dataset, key). */
  type Index = map<(string, string), Seen>

  function Lookup(ix: Index, dataset: string, key: string): Option<Seen> {
    if (dataset, key) in ix then Some(ix[(dataset, key)]) else None
  }

  function Observe(ix: Index, r: Record): Index {
    var prior := Lookup(ix, r.dataset, r.key);
    if prior.None? || r.revision > prior.value.revision
    then ix[(r.dataset, r.key) := Seen(r.revision, r.fields)]
    else ix
  }

  function ObserveAll(ix: Index, rs: seq<Record>): Index {
    if rs == [] then ix else Observe(ObserveAll(ix, rs[..|rs| - 1]), rs[|rs| - 1])
  }

  /** A candidate's next revision, or `None` when its payload is the one already known. */
  function Assign(ix: Index, candidate: Record): Option<Record> {
    var prior := Lookup(ix, candidate.dataset, candidate.key);
    if prior.Some? && prior.value.payload == candidate.fields then None
    else Some(candidate.(revision := if prior.None? then 1 else prior.value.revision + 1))
  }

  // ---------------------------------------------------------------- what an index knows

  /** No revision of a key was ever journalled with two payloads. */
  ghost predicate Consistent(rs: seq<Record>) {
    forall i, j :: 0 <= i < |rs| && 0 <= j < |rs| && SameRevision(rs[i], rs[j]) ==>
      rs[i].fields == rs[j].fields
  }

  ghost predicate SameFact(a: Record, b: Record) { a.dataset == b.dataset && a.key == b.key }

  ghost predicate SameRevision(a: Record, b: Record) { SameFact(a, b) && a.revision == b.revision }

  /** `seen` is the highest revision of (dataset, key) among `rs`. */
  ghost predicate IsHighest(rs: seq<Record>, dataset: string, key: string, seen: Option<Seen>) {
    match seen
    case None => forall r :: r in rs ==> !(r.dataset == dataset && r.key == key)
    case Some(s) =>
      && (exists r :: r in rs && r.dataset == dataset && r.key == key && Seen(r.revision, r.fields) == s)
      && (forall r :: r in rs && r.dataset == dataset && r.key == key ==> r.revision <= s.revision)
  }

  /** Replaying a journal leaves, for each key, exactly its highest revision. */
  lemma {:induction false} ObserveAllKeepsHighest(rs: seq<Record>, dataset: string, key: string)
    ensures IsHighest(rs, dataset, key, Lookup(ObserveAll(map[], rs), dataset, key))
  {
    if rs == [] {
    } else {
      var init, r := rs[..|rs| - 1], rs[|rs| - 1];
      ObserveAllKeepsHighest(init, dataset, key);
      assert rs == init + [r];
      var seen := Lookup(ObserveAll(map[], rs), dataset, key);
      if r.dataset == dataset && r.key == key && seen == Some(Seen(r.revision, r.fields)) {
        assert r in rs;
      }
    }
  }

  lemma HighestIsUnique(rs: seq<Record>, dataset: string, key: string, s: Option<Seen>, t: Option<Seen>)
    requires Consistent(rs)
    requires IsHighest(rs, dataset, key, s) && IsHighest(rs, dataset, key, t)
    ensures s == t
  {
    if s.Some? && t.Some? {
      var r :| r in rs && r.dataset == dataset && r.key == key && Seen(r.revision, r.fields) == s.value;
      var q :| q in rs && q.dataset == dataset && q.key == key && Seen(q.revision, q.fields) == t.value;
      assert SameRevision(r, q);
    }
  }

  lemma SameLookupsSameIndex(a: Index, b: Index)
    requires forall d, k :: Lookup(a, d, k) == Lookup(b, d, k)
    ensures a == b
  {
    forall x: (string, string)
      ensures x in a <==> x in b
      ensures x in a ==> a[x] == b[x]
    {
      assert Lookup(a, x.0, x.1) == Lookup(b, x.0, x.1);
    }
  }

  /** Replay forgets the order of the journal's lines. */
  lemma ReplayOrderIndependent(rs: seq<Record>, qs: seq<Record>)
    requires multiset(rs) == multiset(qs) && Consistent(rs)
    ensures ObserveAll(map[], rs) == ObserveAll(map[], qs)
  {
    forall r ensures r in rs <==> r in qs {
      assert r in rs <==> r in multiset(rs);
      assert r in qs <==> r in multiset(qs);
    }
    forall d, k
      ensures Lookup(ObserveAll(map[], rs), d, k) == Lookup(ObserveAll(map[], qs), d, k)
    {
      ObserveAllKeepsHighest(rs, d, k);
      ObserveAllKeepsHighest(qs, d, k);
      assert IsHighest(rs, d, k, Lookup(ObserveAll(map[], qs), d, k));
      HighestIsUnique(rs, d, k, Lookup(ObserveAll(map[], rs), d, k), Lookup(ObserveAll(map[], qs), d, k));
    }
    SameLookupsSameIndex(ObserveAll(map[], rs), ObserveAll(map[], qs));
  }

  // ---------------------------------------------------------------- the class

  class RevisionIndex {
    var state: Index

    constructor ()
      ensures state == map[]
    {
      state := map[];
    }

    method ObserveRecord(r: Record)
      modifies this
      ensures state == Observe(old(state), r)
      ensures forall d, k :: (d, k) != (r.dataset, r.key) ==> Lookup(state, d, k) == Lookup(old(state), d, k)
    {
      var current := Lookup(state, r.dataset, r.key);
      if current.None? || r.revision > current.value.revision {
        state := state[(r.dataset, r.key) := Seen(r.revision, r.fields)];
      }
    }

    /** Replay a journal, so a restarted writer does not restart revisions at 1. */
    method RebuildFrom(rs: seq<Record>)
      modifies this
      ensures state == ObserveAll(old(state), rs)
    {
      for i := 0 to |rs|
        invariant state == ObserveAll(old(state), rs[..i])
      {
        ObserveRecord(rs[i]);
        assert rs[..i + 1][..i] == rs[..i];
      }
      assert rs[..|rs|] == rs;
    }

    /** Decide a candidate's revision, folding it into the index unless it is a duplicate. */
    method AssignRevision(candidate: Record) returns (r: Option<Record>)
      modifies this
      ensures r == Assign(old(state), candidate)
      ensures state == if r.None? then old(state) else Observe(old(state), r.value)
      ensures r.Some? ==> Lookup(state, candidate.dataset, candidate.key) == Some(Seen(r.value.revision, candidate.fields))
    {
      var prior := Lookup(state, candidate.dataset, candidate.key);
      if prior.Some? && prior.value.payload == candidate.fields { return None; }
      var next := if prior.None? then 1 else prior.value.revision + 1;
      var stamped := candidate.(revision := next);
      ObserveRecord(stamped);
      return Some(stamped);
    }
  }
}
