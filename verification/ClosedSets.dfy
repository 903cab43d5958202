/** Transaction databases, tid sets, and closed itemsets.
    A database is a sequence of transactions; g(X) in the miners' papers is Tids(db, X). */
module ClosedSets {

  type Itemset = set<nat>
  type Database = seq<Itemset>

  function Tids(db: Database, x: Itemset): set<nat> {
    set t: nat | t < |db| && x <= db[t]
  }

  function Supp(db: Database, x: Itemset): nat {
    |Tids(db, x)|
  }

  /** The items below n that occur in every transaction containing x. */
  function Closure(db: Database, n: nat, x: Itemset): Itemset {
    set i: nat | i < n && Tids(db, x) <= Tids(db, {i})
  }

  predicate IsClosed(db: Database, n: nat, x: Itemset) {
    Closure(db, n, x) == x
  }

  lemma TidsUnion(db: Database, x: Itemset, y: Itemset)
    ensures Tids(db, x + y) == Tids(db, x) * Tids(db, y)
  {
  }

  lemma TidsAntitone(db: Database, x: Itemset, y: Itemset)
    requires x <= y
    ensures Tids(db, y) <= Tids(db, x)
  {
  }

  lemma SubsetCard<T>(a: set<T>, b: set<T>)
    requires a <= b
    ensures |a| <= |b|
    ensures |a| == |b| ==> a == b
  {
    assert b == a + (b - a);
  }

  lemma SuppAntitone(db: Database, x: Itemset, y: Itemset)
    requires x <= y
    ensures Supp(db, y) <= Supp(db, x)
    ensures Supp(db, y) == Supp(db, x) ==> Tids(db, x) == Tids(db, y)
  {
    TidsAntitone(db, x, y);
    SubsetCard(Tids(db, y), Tids(db, x));
  }

  /** x is included in the rows of exactly the items of its closure. */
  lemma TidsOfMembers(db: Database, x: Itemset, y: Itemset)
    ensures Tids(db, x) <= Tids(db, y) <==> forall i :: i in y ==> Tids(db, x) <= Tids(db, {i})
  {
    if forall i :: i in y ==> Tids(db, x) <= Tids(db, {i}) {
      forall t | t in Tids(db, x) ensures t in Tids(db, y) {
        forall i | i in y ensures i in db[t] {
          assert t in Tids(db, {i});
        }
      }
    }
    if Tids(db, x) <= Tids(db, y) {
      forall i | i in y ensures Tids(db, x) <= Tids(db, {i}) {
        TidsAntitone(db, {i}, y);
      }
    }
  }

  /** A closed set that contains x contains the closure of x. */
  lemma ClosedAbsorbs(db: Database, n: nat, x: Itemset, c: Itemset, q: nat)
    requires IsClosed(db, n, c) && x <= c && q < n
    requires Tids(db, x) <= Tids(db, {q})
    ensures q in c
  {
    TidsAntitone(db, x, c);
    assert q in Closure(db, n, c);
  }
}
