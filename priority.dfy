/** The entries of the route search's priority queue and the order in which
    the queue releases them. A distance is a natural number or unreached
    (the program's infinity); an entry pairs a vertex id with a distance. */
module Priority {
  import opened Wrappers

  /** A tentative distance; `None` is the program's infinity. */
  type Dist = Option<nat>

  datatype Entry = Entry(id: int, dist: Dist)

  /** `a > b` on distances, where infinity exceeds every finite distance and
      equals itself. */
  predicate Exceeds(a: Dist, b: Dist) {
    match a
    case None => b.Some?
    case Some(x) => b.Some? && x > b.value
  }

  /** The queue's comparator: true when `p1` is released after `p2`, that is
      when `p1` is farther, or equally far with the larger id. */
  predicate Prioritize(p1: Entry, p2: Entry)
    ensures Prioritize(p1, p2) <==> Exceeds(p1.dist, p2.dist) || (p1.dist == p2.dist && p1.id > p2.id)
  {
    if Exceeds(p1.dist, p2.dist) then true
    else if Exceeds(p2.dist, p1.dist) then false
    else p1.id > p2.id
  }

  /** `t` is the entry the queue releases next: no other entry goes before it. */
  predicate IsTop(t: Entry, q: multiset<Entry>)
    ensures IsTop(t, q) ==> forall e :: e in q && e != t ==> Prioritize(e, t)
  {
    t in q && forall e :: e in q ==> !Prioritize(t, e)
  }

  /** The comparator is a strict total order on entries. */
  lemma PrioritizeIsStrictTotalOrder(a: Entry, b: Entry, c: Entry)
    ensures !Prioritize(a, a)
    ensures Prioritize(a, b) ==> !Prioritize(b, a)
    ensures Prioritize(a, b) && Prioritize(b, c) ==> Prioritize(a, c)
    ensures a != b ==> Prioritize(a, b) || Prioritize(b, a)
  {
  }

  lemma MultisetHasMember(q: multiset<Entry>)
    ensures q == multiset{} || exists e :: e in q
  {
    if forall e :: e !in q {
      assert q == multiset{};
    }
  }

  /** A non-empty queue has a top. */
  lemma {:induction false} TopExists(q: multiset<Entry>)
    requires q != multiset{}
    ensures exists t :: IsTop(t, q)
    decreases |q|
  {
    MultisetHasMember(q);
    var x :| x in q;
    var rest := q - multiset{x};
    if rest == multiset{} {
      forall e | e in q ensures e == x {
        assert q[e] == rest[e] + (if e == x then 1 else 0);
      }
      assert IsTop(x, q);
    } else {
      TopExists(rest);
      var t :| IsTop(t, rest);
      if Prioritize(t, x) {
        forall e | e in q ensures !Prioritize(x, e) {
          if e != x {
            assert e in rest;
            PrioritizeIsStrictTotalOrder(t, x, e);
          }
        }
        assert IsTop(x, q);
      } else {
        forall e | e in q ensures !Prioritize(t, e) {
          if e != x {
            assert e in rest;
          }
        }
        assert IsTop(t, q);
      }
    }
  }

  /** The top is determined by the queue's contents. */
  lemma TopIsUnique(t1: Entry, t2: Entry, q: multiset<Entry>)
    requires IsTop(t1, q) && IsTop(t2, q)
    ensures t1 == t2
  {
    PrioritizeIsStrictTotalOrder(t1, t2, t1);
  }

  /** The top holds the least distance in the queue and, among the entries at
      that distance, the least id. */
  lemma TopIsNearest(t: Entry, q: multiset<Entry>, e: Entry)
    requires IsTop(t, q) && e in q
    ensures !Exceeds(t.dist, e.dist)
    ensures t.dist == e.dist ==> t.id <= e.id
  {
    assert !Prioritize(t, e);
  }
}
