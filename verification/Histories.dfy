/** One scope's facts on their own timeline (hub/pipeline.py, `ScopeHistory`).

    The meaning of a history is a map from key to its latest fact.  `Before` says which facts
    precede a moment of the timeline; the class keeps a sorted list of slots and answers the same
    question by bisection. */
module Histories {
  import opened Wrappers
  import opened Ordering
  import opened Records
  import opened Derive

  datatype Fact = Fact(at: int, fields: Payload)
  type Facts = map<string, Fact>
  datatype Slot = Slot(at: int, key: string)

  // ---------------------------------------------------------------- the timeline of a map of facts

  predicate SlotLess(a: Slot, b: Slot) {
    a.at < b.at || (a.at == b.at && StrLess(a.key, b.key))
  }

  lemma SlotLessTransitive(a: Slot, b: Slot, c: Slot)
    requires SlotLess(a, b) && SlotLess(b, c)
    ensures SlotLess(a, c)
  {
    if a.at == c.at { StrTransitive(a.key, b.key, c.key); }
  }

  lemma SlotLessTotal(a: Slot, b: Slot)
    ensures SlotLess(a, b) || a == b || SlotLess(b, a)
    ensures !(SlotLess(a, b) && SlotLess(b, a)) && !SlotLess(a, a)
  {
    StrTotal(a.key, b.key);
    StrIrreflexive(a.key);
    if StrLess(a.key, b.key) && StrLess(b.key, a.key) { StrTransitive(a.key, b.key, a.key); }
  }

  predicate Ascending(s: seq<Slot>) { forall i, j :: 0 <= i < j < |s| ==> SlotLess(s[i], s[j]) }

  ghost predicate Lists(order: seq<Slot>, slots: set<Slot>) {
    Ascending(order) && forall s :: s in order <==> s in slots
  }

  lemma {:induction false} ListingIsUnique(a: seq<Slot>, b: seq<Slot>, slots: set<Slot>)
    requires Lists(a, slots) && Lists(b, slots)
    ensures a == b
  {
    assert b != [] ==> b[0] in slots;
    if a == [] {
    } else {
      assert a[0] in slots && a[0] in b;
      assert b[0] in slots && b[0] in a;
      assert a[0] == b[0] by {
        var i :| 0 <= i < |b| && b[i] == a[0];
        var j :| 0 <= j < |a| && a[j] == b[0];
        SlotLessTotal(a[0], b[0]);
      }
      TailLists(a, slots);
      TailLists(b, slots);
      ListingIsUnique(a[1..], b[1..], slots - {a[0]});
      assert a == [a[0]] + a[1..] && b == [b[0]] + b[1..];
    }
  }

  lemma TailLists(a: seq<Slot>, slots: set<Slot>)
    requires Lists(a, slots) && a != []
    ensures Lists(a[1..], slots - {a[0]})
  {
    forall s
      ensures s in a[1..] <==> s in slots - {a[0]}
    {
      if s in a[1..] {
        var i :| 0 <= i < |a[1..]| && a[1..][i] == s;
        assert a[i + 1] == s;
        SlotLessTotal(a[0], s);
      }
      assert a == [a[0]] + a[1..];
    }
  }

  lemma {:induction false} ListingExists(slots: set<Slot>)
    ensures exists order :: Lists(order, slots)
    decreases slots
  {
    if slots == {} {
      assert Lists([], slots);
    } else {
      var x :| x in slots;
      ListingExists(slots - {x});
      var rest :| Lists(rest, slots - {x});
      var order := InsertSlot(rest, x);
      assert Lists(order, slots);
    }
  }

  /** Where a new slot goes, and the list with it in place. */
  lemma InsertSlot(order: seq<Slot>, x: Slot) returns (r: seq<Slot>)
    requires Ascending(order) && x !in order
    ensures Ascending(r) && forall s :: s in r <==> s in order || s == x
  {
    var cut := Cut(order, x);
    r := order[..cut] + [x] + order[cut..];
    InsertAscends(order, x, cut);
  }

  /** How many slots of an ascending list precede `x`. */
  ghost function Cut(order: seq<Slot>, x: Slot): (n: nat)
    requires Ascending(order)
    ensures n <= |order|
    ensures forall i :: 0 <= i < n ==> SlotLess(order[i], x)
    ensures forall i :: n <= i < |order| ==> !SlotLess(order[i], x)
  {
    if order == [] || !SlotLess(order[0], x) then
      (if order != [] then CutAtHead(order, x); 0 else 0)
    else 1 + Cut(order[1..], x)
  }

  lemma CutAtHead(order: seq<Slot>, x: Slot)
    requires Ascending(order) && order != [] && !SlotLess(order[0], x)
    ensures forall i :: 0 <= i < |order| ==> !SlotLess(order[i], x)
  {
    forall i | 0 <= i < |order| ensures !SlotLess(order[i], x) {
      if SlotLess(order[i], x) && i > 0 { SlotLessTransitive(order[0], order[i], x); }
    }
  }

  lemma RemovalAscends(order: seq<Slot>, i: nat)
    requires Ascending(order) && i < |order|
    ensures var left := order[..i] + order[i + 1..];
            Ascending(left) && forall s :: s in left <==> s in order && s != order[i]
  {
    var left := order[..i] + order[i + 1..];
    forall j | 0 <= j < |left| ensures left[j] in order && left[j] != order[i] {
      var k := if j < i then j else j + 1;
      assert left[j] == order[k];
      SlotLessTotal(order[i], order[k]);
    }
    forall k | 0 <= k < |order| && k != i ensures order[k] in left {
      assert order[k] == left[if k < i then k else k - 1];
    }
  }

  lemma InsertAscends(order: seq<Slot>, x: Slot, cut: nat)
    requires Ascending(order) && x !in order && cut <= |order|
    requires forall i :: 0 <= i < cut ==> SlotLess(order[i], x)
    requires forall i :: cut <= i < |order| ==> !SlotLess(order[i], x)
    ensures var r := order[..cut] + [x] + order[cut..];
            Ascending(r) && forall s :: s in r <==> s in order || s == x
  {
    var r := order[..cut] + [x] + order[cut..];
    assert order == order[..cut] + order[cut..];
    forall i | cut <= i < |order| ensures SlotLess(x, order[i]) {
      assert order[i] in order;
      SlotLessTotal(x, order[i]);
    }
    forall i, j | 0 <= i < j < |r| ensures SlotLess(r[i], r[j]) {
      assert r[i] == if i < cut then order[i] else if i == cut then x else order[i - 1];
      assert r[j] == if j < cut then order[j] else if j == cut then x else order[j - 1];
      if i < cut < j { SlotLessTransitive(order[i], x, order[j - 1]); }
    }
  }

  /** A finite set of slots in timeline order. */
  ghost function Ranked(slots: set<Slot>): (order: seq<Slot>)
    ensures Lists(order, slots)
  {
    ListingExists(slots);
    var order :| Lists(order, slots);
    order
  }

  /** The slots strictly before `(at, key)`, this key's own slot excepted wherever it stands. */
  ghost function EarlierSlots(f: Facts, at: int, key: string): set<Slot> {
    set k | k in f && k != key && SlotLess(Slot(f[k].at, k), Slot(at, key)) :: Slot(f[k].at, k)
  }

  ghost function FieldsAt(f: Facts, slots: seq<Slot>): History
    requires forall s :: s in slots ==> s.key in f
  {
    seq(|slots|, i requires 0 <= i < |slots| => assert slots[i] in slots; f[slots[i].key].fields)
  }

  /** Every fact that precedes `(at, key)` on the timeline, oldest first. */
  ghost function Before(f: Facts, at: int, key: string): History {
    FieldsAt(f, Ranked(EarlierSlots(f, at, key)))
  }

  /** What precedes `(at, key)`, in so many words: the other keys' facts of an earlier effective_at, or of
      that one and a lesser key, by effective_at and then by key, each key once. */
  lemma BeforeIs(f: Facts, at: int, key: string) returns (order: seq<Slot>)
    ensures |Before(f, at, key)| == |order|
    ensures forall i :: 0 <= i < |order| ==>
              order[i].key in f && f[order[i].key] == Fact(order[i].at, Before(f, at, key)[i])
    ensures forall i, j :: 0 <= i < j < |order| ==>
              order[i].at < order[j].at || (order[i].at == order[j].at && StrLess(order[i].key, order[j].key))
    ensures forall k: string :: (exists i :: 0 <= i < |order| && order[i].key == k) <==>
              k in f && k != key && (f[k].at < at || (f[k].at == at && StrLess(k, key)))
  {
    var slots := EarlierSlots(f, at, key);
    order := Ranked(slots);
    forall k: string
      ensures (exists i :: 0 <= i < |order| && order[i].key == k) <==>
              k in f && k != key && (f[k].at < at || (f[k].at == at && StrLess(k, key)))
    {
      if k in f && k != key && (f[k].at < at || (f[k].at == at && StrLess(k, key))) {
        assert Slot(f[k].at, k) in slots && Slot(f[k].at, k) in order;
      }
      if i :| 0 <= i < |order| && order[i].key == k { assert order[i] in slots; }
    }
    forall i | 0 <= i < |order| ensures order[i].key in f && f[order[i].key] == Fact(order[i].at, Before(f, at, key)[i]) {
      assert order[i] in slots;
    }
  }

  // ---------------------------------------------------------------- laws of the timeline

  /** Facts from `(at, key)` on do not change what precedes it. */
  lemma BeforeIgnoresLater(f: Facts, g: Facts, at: int, key: string)
    requires forall k :: k != key && k in f && SlotLess(Slot(f[k].at, k), Slot(at, key)) ==> k in g && g[k] == f[k]
    requires forall k :: k != key && k in g && SlotLess(Slot(g[k].at, k), Slot(at, key)) ==> k in f && f[k] == g[k]
    ensures Before(f, at, key) == Before(g, at, key)
  {
    assert EarlierSlots(f, at, key) == EarlierSlots(g, at, key);
    var slots := Ranked(EarlierSlots(f, at, key));
    forall i | 0 <= i < |slots|
      ensures FieldsAt(f, slots)[i] == FieldsAt(g, slots)[i]
    {
      assert slots[i] in EarlierSlots(f, at, key);
    }
  }

  /** A fact never counts as its own predecessor, wherever its prior revision stood. */
  lemma OwnRevisionNeverCounts(f: Facts, at: int, key: string, prior: Fact)
    ensures Before(f[key := prior], at, key) == Before(f - {key}, at, key)
  {
    BeforeIgnoresLater(f[key := prior], f - {key}, at, key);
  }

  // ---------------------------------------------------------------- the class

  function Others(key: string): Slot -> bool { (s: Slot) => s.key != key }

  lemma OthersSnoc(f: Facts, slots: seq<Slot>, s: Slot, key: string)
    requires forall t :: t in Filter(slots, Others(key)) ==> t.key in f
    requires s.key in f
    ensures forall t :: t in Filter(slots + [s], Others(key)) ==> t.key in f
    ensures FieldsAt(f, Filter(slots + [s], Others(key))) ==
            FieldsAt(f, Filter(slots, Others(key))) + if s.key != key then [f[s.key].fields] else []
  {
    FilterSnoc(slots, s, Others(key));
  }

  function Reverse<T>(s: seq<T>): (r: seq<T>)
    ensures |r| == |s|
    ensures forall i :: 0 <= i < |s| ==> r[i] == s[|s| - 1 - i]
  {
    if s == [] then [] else Reverse(s[1..]) + [s[0]]
  }

  /** `bisect.bisect_left` on an ascending list. */
  method BisectLeft(order: seq<Slot>, x: Slot) returns (cut: nat)
    requires Ascending(order)
    ensures cut <= |order|
    ensures forall i :: 0 <= i < cut ==> SlotLess(order[i], x)
    ensures forall i :: cut <= i < |order| ==> !SlotLess(order[i], x)
  {
    var low, high := 0, |order|;
    while low < high
      invariant 0 <= low <= high <= |order|
      invariant forall i :: 0 <= i < low ==> SlotLess(order[i], x)
      invariant forall i :: high <= i < |order| ==> !SlotLess(order[i], x)
    {
      var mid := (low + high) / 2;
      if SlotLess(order[mid], x) {
        forall i | low <= i <= mid ensures SlotLess(order[i], x) {
          if i < mid { SlotLessTransitive(order[i], order[mid], x); }
        }
        low := mid + 1;
      } else {
        forall i | mid <= i < high ensures !SlotLess(order[i], x) {
          if mid < i && SlotLess(order[i], x) { SlotLessTransitive(order[mid], order[i], x); }
        }
        high := mid;
      }
    }
    cut := low;
  }

  class ScopeHistory {
    var order: seq<Slot>                    // ascending
    var fields: map<string, Payload>
    var effectiveAt: map<string, int>       // key -> its slot's effective_at

    constructor ()
      ensures Valid() && Model() == map[]
    {
      order, fields, effectiveAt := [], map[], map[];
    }

    /** The list is strictly ascending and holds, for each known key, one slot at that key's
        latest effective_at, and nothing else. */
    ghost predicate Valid()
      reads this
    {
      && Ascending(order)
      && fields.Keys == effectiveAt.Keys
      && forall s :: s in order <==> s.key in effectiveAt && effectiveAt[s.key] == s.at
    }

    ghost function Model(): Facts
      reads this
      requires Valid()
    {
      map k | k in fields :: Fact(effectiveAt[k], fields[k])
    }

    /** Finds a key's slot by bisection. */
    method Position(key: string) returns (at: Option<nat>)
      requires Valid()
      ensures at.Some? <==> key in fields
      ensures at.Some? ==> at.value < |order| && order[at.value] == Slot(effectiveAt[key], key)
    {
      if key !in effectiveAt { return None; }
      var slot := Slot(effectiveAt[key], key);
      assert slot in order;
      var i :| 0 <= i < |order| && order[i] == slot;
      var cut := BisectLeft(order, slot);
      SlotLessTotal(slot, slot);
      assert cut <= i;
      if cut < i { SlotLessTotal(order[cut], slot); }
      return Some(cut);
    }

    /** `bisect.insort` of a slot that is not there. */
    method Insort(slot: Slot)
      requires Ascending(order) && slot !in order
      modifies `order
      ensures Ascending(order)
      ensures forall s :: s in order <==> s in old(order) || s == slot
    {
      var cut := BisectLeft(order, slot);
      InsertAscends(order, slot, cut);
      order := order[..cut] + [slot] + order[cut..];
    }

    method Remove(i: nat)
      requires Ascending(order) && i < |order|
      modifies `order
      ensures Ascending(order)
      ensures forall s :: s in order <==> s in old(order) && s != old(order[i])
    {
      RemovalAscends(order, i);
      order := order[..i] + order[i + 1..];
    }

    /** Record a key's latest fact, in its one slot. */
    method Upsert(at: int, key: string, payload: Payload)
      requires Valid()
      modifies this
      ensures Valid()
      ensures Model() == old(Model())[key := Fact(at, payload)]
    {
      var existing := Position(key);
      if existing.Some? {
        var existingAt := order[existing.value].at;
        if existingAt != at {
          Remove(existing.value);
          Insort(Slot(at, key));
        }
      } else {
        Insort(Slot(at, key));
      }
      fields := fields[key := payload];
      effectiveAt := effectiveAt[key := at];
    }

    /** The facts in the first `i` slots, `key`'s own left out. */
    ghost function Kept(i: nat, key: string): History
      reads this
      requires Valid() && i <= |order|
    {
      if i == 0 then []
      else
        assert order[i - 1] in order;
        Kept(i - 1, key) + if order[i - 1].key != key then [fields[order[i - 1].key]] else []
    }

    /** What precedes `(at, key)`: all of it, or its newest `limit` facts walked back from the
        cut. */
    method BeforeSlot(at: int, key: string, limit: Option<nat>) returns (out: History)
      requires Valid()
      ensures out == if limit.None? then Before(Model(), at, key)
                     else Last(Before(Model(), at, key), limit.value)
    {
      var cut := BisectLeft(order, Slot(at, key));
      KeptIsBefore(at, key, cut);
      if limit.None? {
        out := [];
        for i := 0 to cut
          invariant out == Kept(i, key)
        {
          assert order[i] in order;
          if order[i].key != key { out := out + [fields[order[i].key]]; }
        }
      } else {
        out := WalkBack(cut, key, limit.value);
      }
    }

    method WalkBack(cut: nat, key: string, limit: nat) returns (out: History)
      requires Valid() && cut <= |order|
      ensures out == Last(Kept(cut, key), limit)
    {
      out := [];
      var i := cut;
      while i > 0 && |out| < limit
        invariant 0 <= i <= cut && |out| <= limit
        invariant Kept(cut, key) == Kept(i, key) + Reverse(out)
      {
        var k := order[i - 1].key;
        assert order[i - 1] in order;
        if k != key {
          ReverseSnoc(out, fields[k]);
          out := out + [fields[k]];
        }
        i := i - 1;
      }
      out := Reverse(out);
    }

    lemma {:induction false} KeptIsFiltered(i: nat, key: string)
      requires Valid() && i <= |order|
      ensures var earlier := Filter(order[..i], Others(key));
              (forall s :: s in earlier ==> s.key in Model()) && Kept(i, key) == FieldsAt(Model(), earlier)
    {
      if i != 0 {
        KeptIsFiltered(i - 1, key);
        assert order[..i] == order[..i - 1] + [order[i - 1]];
        assert order[i - 1] in order;
        OthersSnoc(Model(), order[..i - 1], order[i - 1], key);
      }
    }

    lemma KeptIsBefore(at: int, key: string, cut: nat)
      requires Valid() && cut <= |order|
      requires forall i :: 0 <= i < cut ==> SlotLess(order[i], Slot(at, key))
      requires forall i :: cut <= i < |order| ==> !SlotLess(order[i], Slot(at, key))
      ensures Kept(cut, key) == Before(Model(), at, key)
    {
      var earlier := Filter(order[..cut], Others(key));
      KeptIsFiltered(cut, key);
      FilterAscends(order[..cut], Others(key));
      forall s
        ensures s in earlier <==> s in EarlierSlots(Model(), at, key)
      {
        FilterMember(order[..cut], Others(key), s);
        EarlierMember(at, key, cut, s);
      }
      ListingIsUnique(earlier, Ranked(EarlierSlots(Model(), at, key)), EarlierSlots(Model(), at, key));
    }

    lemma EarlierMember(at: int, key: string, cut: nat, s: Slot)
      requires Valid() && cut <= |order|
      requires forall i :: 0 <= i < cut ==> SlotLess(order[i], Slot(at, key))
      requires forall i :: cut <= i < |order| ==> !SlotLess(order[i], Slot(at, key))
      ensures s in order[..cut] && s.key != key <==> s in EarlierSlots(Model(), at, key)
    {
      if s in order[..cut] {
        assert s in order;
        assert s.key in Model() && s == Slot(Model()[s.key].at, s.key);
      }
      if s in EarlierSlots(Model(), at, key) {
        assert s in order;
        var i :| 0 <= i < |order| && order[i] == s;
        assert order[..cut][i] == s;
      }
    }
  }

  lemma {:induction false} FilterAscends(s: seq<Slot>, p: Slot -> bool)
    requires Ascending(s)
    ensures Ascending(Filter(s, p))
  {
    if s == [] {
    } else {
      FilterAscends(s[1..], p);
      var t := Filter(s[1..], p);
      forall j | 0 <= j < |t| ensures SlotLess(s[0], t[j]) {
        FilterMember(s[1..], p, t[j]);
        var i :| 0 <= i < |s[1..]| && s[1..][i] == t[j];
        assert s[i + 1] == t[j];
      }
    }
  }

  lemma ReverseSnoc<T>(s: seq<T>, x: T)
    ensures Reverse(s + [x]) == [x] + Reverse(s)
  {}

  /** The tables are a function of the facts: histories that mean the same hold the same list, so
      upserts of different keys commute down to the last slot. */
  lemma SameFactsSameTables(a: ScopeHistory, b: ScopeHistory)
    requires a.Valid() && b.Valid() && a.Model() == b.Model()
    ensures a.order == b.order && a.fields == b.fields && a.effectiveAt == b.effectiveAt
  {
    assert a.fields.Keys == a.Model().Keys == b.fields.Keys;
    forall k | k in a.fields
      ensures a.fields[k] == b.fields[k] && a.effectiveAt[k] == b.effectiveAt[k]
    {
      assert a.Model()[k] == b.Model()[k];
    }
    var slots := set k | k in a.fields :: Slot(a.effectiveAt[k], k);
    ListingIsUnique(a.order, b.order, slots);
  }

  /** One slot per key: the list is as long as the table of facts. */
  lemma OneSlotPerKey(h: ScopeHistory, i: nat, j: nat)
    requires h.Valid() && i < |h.order| && j < |h.order| && h.order[i].key == h.order[j].key
    ensures i == j
  {
    assert h.order[i] in h.order && h.order[j] in h.order;
    SlotLessTotal(h.order[i], h.order[j]);
  }
}
