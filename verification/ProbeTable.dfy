/** Open-addressing tables as values: linear probing with step one over a sequence of buckets.
    The lemmas here carry all the cyclic-interval reasoning that the in-place operations need. */
module ProbeTable {

  import opened Options

  type Table<T> = seq<Option<T>>

  /** How many probe steps lead from bucket a to bucket b in a table of n buckets. */
  function Dist(a: int, b: int, n: int): int {
    if a <= b then b - a else b - a + n
  }

  function Home<T>(hash: T -> nat, x: T, n: nat): (h: nat)
    requires n > 0
    ensures h < n
  {
    hash(x) % n
  }

  /** The caller's promise about the hash and equality callbacks. */
  ghost predicate Lawful<T(!new)>(hash: T -> nat, eq: (T, T) -> bool) {
    && (forall x :: eq(x, x))
    && (forall x, y :: eq(x, y) ==> eq(y, x) && hash(x) == hash(y))
    && (forall x, y, z :: eq(x, y) && eq(y, z) ==> eq(x, z))
  }

  function Count<T>(t: Table<T>): nat {
    if |t| == 0 then 0 else Count(t[..|t| - 1]) + (if t[|t| - 1].Some? then 1 else 0)
  }

  ghost function Items<T>(t: Table<T>): set<T> {
    set p | 0 <= p < |t| && t[p].Some? :: t[p].value
  }

  /** Every bucket probed on the way from the item's home to bucket p is occupied. */
  ghost predicate Reachable<T>(t: Table<T>, home: nat, p: nat) {
    forall q | 0 <= q < |t| && Dist(home, q, |t|) < Dist(home, p, |t|) :: t[q].Some?
  }

  ghost predicate AllReachable<T>(t: Table<T>, hash: T -> nat) {
    forall p | 0 <= p < |t| && t[p].Some? :: Reachable(t, Home(hash, t[p].value, |t|), p)
  }

  ghost predicate NoDuplicates<T>(t: Table<T>, eq: (T, T) -> bool) {
    forall p, q | 0 <= p < |t| && 0 <= q < |t| && p != q && t[p].Some? && t[q].Some? ::
      !eq(t[p].value, t[q].value)
  }

  ghost predicate WellFormed<T>(t: Table<T>, hash: T -> nat, eq: (T, T) -> bool) {
    AllReachable(t, hash) && NoDuplicates(t, eq)
  }

  /** Bucket s is where probing for x stops: the first bucket from x's home that is free or holds an equal item. */
  ghost predicate IsSlot<T>(t: Table<T>, hash: T -> nat, eq: (T, T) -> bool, x: T, s: nat) {
    && s < |t|
    && (t[s].None? || eq(t[s].value, x))
    && forall q | 0 <= q < |t| && Dist(Home(hash, x, |t|), q, |t|) < Dist(Home(hash, x, |t|), s, |t|) ::
         t[q].Some? && !eq(t[q].value, x)
  }

  lemma {:induction false} CountUpdate<T>(t: Table<T>, p: nat, v: Option<T>)
    requires p < |t|
    ensures Count(t[p := v]) == Count(t) - (if t[p].Some? then 1 else 0) + (if v.Some? then 1 else 0)
  {
    if p == |t| - 1 {
      assert t[p := v][..|t| - 1] == t[..|t| - 1];
    } else {
      assert t[p := v][..|t| - 1] == t[..|t| - 1][p := v];
      CountUpdate(t[..|t| - 1], p, v);
    }
  }

  lemma {:induction false} FreeBucket<T>(t: Table<T>) returns (e: nat)
    requires Count(t) < |t|
    ensures e < |t| && t[e].None?
  {
    if t[|t| - 1].None? {
      e := |t| - 1;
    } else {
      e := FreeBucket(t[..|t| - 1]);
    }
  }

  lemma {:induction false} CountBound<T>(t: Table<T>)
    ensures Count(t) <= |t|
  {
    if |t| > 0 {
      CountBound(t[..|t| - 1]);
    }
  }

  lemma {:induction false} CountEmpty<T>(t: Table<T>)
    requires forall p | 0 <= p < |t| :: t[p].None?
    ensures Count(t) == 0 && Items(t) == {}
  {
    if |t| > 0 {
      CountEmpty(t[..|t| - 1]);
    }
  }

  /** itemCount really is the size of the set the table stands for. */
  lemma {:induction false} CountIsCardinality<T>(t: Table<T>, eq: (T, T) -> bool)
    requires NoDuplicates(t, eq) && forall p | 0 <= p < |t| && t[p].Some? :: eq(t[p].value, t[p].value)
    ensures |Items(t)| == Count(t)
  {
    if |t| == 0 {
      assert Items(t) == {};
    } else {
      var u := t[..|t| - 1];
      CountIsCardinality(u, eq);
      ItemsSnoc(t);
      if t[|t| - 1].Some? {
        assert t[|t| - 1].value !in Items(u);
      }
    }
  }

  lemma ItemsSnoc<T>(t: Table<T>)
    requires |t| > 0
    ensures Items(t) == Items(t[..|t| - 1]) + (if t[|t| - 1].Some? then {t[|t| - 1].value} else {})
  {
    var u := t[..|t| - 1];
    forall y | y in Items(u) ensures y in Items(t) {
      var p :| 0 <= p < |u| && u[p].Some? && u[p].value == y;
      assert t[p] == u[p];
    }
    forall y | y in Items(t) ensures y in Items(u) || t[|t| - 1] == Some(y) {
      var p :| 0 <= p < |t| && t[p].Some? && t[p].value == y;
      if p < |u| {
        assert u[p] == t[p];
      }
    }
  }

  /** Probing decides membership: a free slot means that no equal item is anywhere in the table. */
  lemma SlotDecides<T(!new)>(t: Table<T>, hash: T -> nat, eq: (T, T) -> bool, x: T, s: nat)
    requires Lawful(hash, eq) && AllReachable(t, hash) && IsSlot(t, hash, eq, x, s)
    ensures t[s].None? ==> forall y | y in Items(t) :: !eq(y, x)
  {
    if t[s].None? {
      forall y | y in Items(t) ensures !eq(y, x) {
        var p :| 0 <= p < |t| && t[p].Some? && t[p].value == y;
      }
    }
  }

  /** Writing x to its slot keeps the table well formed and changes its item set as a set insertion modulo eq. */
  lemma PlaceKeepsWellFormed<T(!new)>(t: Table<T>, hash: T -> nat, eq: (T, T) -> bool, x: T, s: nat)
    requires Lawful(hash, eq) && WellFormed(t, hash, eq) && IsSlot(t, hash, eq, x, s)
    ensures WellFormed(t[s := Some(x)], hash, eq)
    ensures Items(t[s := Some(x)]) == Items(t) - (if t[s].Some? then {t[s].value} else {}) + {x}
  {
    var u := t[s := Some(x)];
    SlotDecides(t, hash, eq, x, s);
    assert AllReachable(u, hash) by {
      forall p | 0 <= p < |u| && u[p].Some? ensures Reachable(u, Home(hash, u[p].value, |u|), p) {
        if p != s {
          assert Reachable(t, Home(hash, t[p].value, |t|), p);
        }
      }
    }
    assert NoDuplicates(u, eq) by {
      forall p, q | 0 <= p < |u| && 0 <= q < |u| && p != q && u[p].Some? && u[q].Some?
        ensures !eq(u[p].value, u[q].value)
      {
        if p == s || q == s {
          var o := if p == s then q else p;
          assert t[o].value in Items(t);
        }
      }
    }
    ItemsAfterPlace(t, eq, x, s);
  }

  lemma ItemsAfterPlace<T>(t: Table<T>, eq: (T, T) -> bool, x: T, s: nat)
    requires s < |t| && NoDuplicates(t, eq) && forall y :: eq(y, y)
    ensures Items(t[s := Some(x)]) == Items(t) - (if t[s].Some? then {t[s].value} else {}) + {x}
  {
    var u := t[s := Some(x)];
    var gone := if t[s].Some? then {t[s].value} else {};
    forall y | y in Items(t) - gone + {x} ensures y in Items(u) {
      if y == x {
        assert u[s].value == y;
      } else {
        var p :| 0 <= p < |t| && t[p].Some? && t[p].value == y;
        assert u[p] == t[p];
      }
    }
    forall y | y in Items(u) ensures y in Items(t) - gone + {x} {
      var p :| 0 <= p < |u| && u[p].Some? && u[p].value == y;
      if p != s {
        assert t[p] == u[p];
      }
    }
  }

  lemma ItemsAfterErase<T>(t: Table<T>, eq: (T, T) -> bool, s: nat)
    requires s < |t| && t[s].Some? && NoDuplicates(t, eq) && forall y :: eq(y, y)
    ensures Items(t[s := None]) == Items(t) - {t[s].value}
    ensures NoDuplicates(t[s := None], eq)
  {
    var u := t[s := None];
    forall y | y in Items(t) - {t[s].value} ensures y in Items(u) {
      var p :| 0 <= p < |t| && t[p].Some? && t[p].value == y;
      assert u[p] == t[p];
    }
    forall y | y in Items(u) ensures y in Items(t) - {t[s].value} {
      var p :| 0 <= p < |u| && u[p].Some? && u[p].value == y;
      assert t[p] == u[p];
    }
  }

  /** The state in the middle of a removal. The item of bucket g is gone and buckets g+1 .. i-1 of its probe cluster
      have been emptied and re-inserted; e is the free bucket that ends the cluster. Only the items still waiting in
      i .. e-1 may have a gap on their probe path. */
  ghost predicate Cleaning<T>(t0: Table<T>, t: Table<T>, hash: T -> nat, eq: (T, T) -> bool, g: nat, i: nat, e: nat) {
    var n := |t0|;
    && |t| == n && g < n && i < n && e < n
    && t0[e].None? && t0[g].Some?
    && 0 < Dist(g, i, n) <= Dist(g, e, n)
    && (forall q | 0 <= q < n && Dist(g, q, n) < Dist(g, e, n) :: t0[q].Some?)
    && (forall q | 0 <= q < n && Dist(g, q, n) >= Dist(g, i, n) :: t[q] == t0[q])
    && (forall p | 0 <= p < n && t[p].Some? && (Dist(g, p, n) < Dist(g, i, n) || Dist(g, p, n) >= Dist(g, e, n)) ::
          Reachable(t, Home(hash, t[p].value, n), p))
    && NoDuplicates(t, eq)
    && Items(t) == Items(t0) - {t0[g].value}
    && MovedBack(t0, t, g)
  }

  /** No surviving item is further from bucket g than before. */
  ghost predicate MovedBack<T>(t0: Table<T>, t: Table<T>, g: nat) {
    |t| == |t0| &&
    forall p, q | 0 <= p < |t0| && 0 <= q < |t0| && t0[p].Some? && t[q] == t0[p] ::
      Dist(g, q, |t0|) <= Dist(g, p, |t0|)
  }

  /** The bucket after b, as the code computes it. */
  lemma NextBucket(g: nat, b: nat, n: nat)
    requires g < n && b < n
    ensures (b + 1) % n == (if b + 1 == n then 0 else b + 1)
    ensures Dist(g, b, n) < n - 1 ==> Dist(g, (b + 1) % n, n) == Dist(g, b, n) + 1
  {
  }

  /** The first free bucket at or after g. */
  lemma ClusterEnd<T>(t: Table<T>, g: nat, f: nat) returns (e: nat)
    requires g < |t| && f < |t| && t[f].None?
    ensures e < |t| && t[e].None?
    ensures forall q | 0 <= q < |t| && Dist(g, q, |t|) < Dist(g, e, |t|) :: t[q].Some?
    decreases Dist(g, f, |t|)
  {
    if q :| 0 <= q < |t| && Dist(g, q, |t|) < Dist(g, f, |t|) && t[q].None? {
      e := ClusterEnd(t, g, q);
    } else {
      e := f;
    }
  }

  lemma CleaningStarts<T(!new)>(t0: Table<T>, hash: T -> nat, eq: (T, T) -> bool, g: nat, e: nat)
    requires Lawful(hash, eq) && WellFormed(t0, hash, eq)
    requires g < |t0| && e < |t0| && t0[g].Some? && t0[e].None?
    requires forall q | 0 <= q < |t0| && Dist(g, q, |t0|) < Dist(g, e, |t0|) :: t0[q].Some?
    ensures Cleaning(t0, t0[g := None], hash, eq, g, (g + 1) % |t0|, e)
  {
    var t, n := t0[g := None], |t0|;
    NextBucket(g, g, n);
    ItemsAfterErase(t0, eq, g);
    var i := (g + 1) % n;
    forall p | 0 <= p < n && t[p].Some? && (Dist(g, p, n) < Dist(g, i, n) || Dist(g, p, n) >= Dist(g, e, n))
      ensures Reachable(t, Home(hash, t[p].value, n), p)
    {
      assert Reachable(t0, Home(hash, t0[p].value, n), p);
    }
  }

  /** One turn of the clean-up loop: empty bucket i, probe for its item from the item's home, put it back. */
  lemma CleaningStep<T(!new)>(t0: Table<T>, t: Table<T>, hash: T -> nat, eq: (T, T) -> bool,
                              g: nat, i: nat, e: nat, x: T, s: nat)
    requires Lawful(hash, eq) && WellFormed(t0, hash, eq) && Cleaning(t0, t, hash, eq, g, i, e)
    requires i != e && t[i] == Some(x)
    requires IsSlot(t[i := None], hash, eq, x, s)
    ensures t[i := None][s].None?
    ensures Cleaning(t0, t[i := None][s := Some(x)], hash, eq, g, (i + 1) % |t0|, e)
  {
    var n := |t0|;
    var v := t[i := None][s := Some(x)];
    NextBucket(g, i, n);
    SlotIsFree(t, hash, eq, i, x, s);
    SlotNotBeyond(t0, t, hash, eq, g, i, e, x, s);
    CleaningItems(t, eq, i, x, s);
    forall p | 0 <= p < n && v[p].Some? && (Dist(g, p, n) <= Dist(g, i, n) || Dist(g, p, n) >= Dist(g, e, n))
      ensures Reachable(v, Home(hash, v[p].value, n), p)
    {
      StaysReachable(t0, t, hash, eq, g, i, e, x, s, p);
    }
    CleaningMoves(t0, t, g, i, x, s);
  }

  lemma SlotNotBeyond<T(!new)>(t0: Table<T>, t: Table<T>, hash: T -> nat, eq: (T, T) -> bool,
                               g: nat, i: nat, e: nat, x: T, s: nat)
    requires AllReachable(t0, hash) && Cleaning(t0, t, hash, eq, g, i, e)
    requires i != e && t[i] == Some(x)
    requires IsSlot(t[i := None], hash, eq, x, s) && t[i := None][s].None?
    ensures Dist(g, s, |t0|) <= Dist(g, i, |t0|)
  {
    var n := |t0|;
    var h := Home(hash, x, n);
    assert t0[i] == t[i];
    assert Reachable(t0, h, i);
    assert Dist(h, s, n) <= Dist(h, i, n);
  }

  lemma StaysReachable<T(!new)>(t0: Table<T>, t: Table<T>, hash: T -> nat, eq: (T, T) -> bool,
                                g: nat, i: nat, e: nat, x: T, s: nat, p: nat)
    requires Cleaning(t0, t, hash, eq, g, i, e)
    requires i != e && t[i] == Some(x)
    requires IsSlot(t[i := None], hash, eq, x, s)
    requires p < |t0| && t[i := None][s := Some(x)][p].Some?
    requires Dist(g, p, |t0|) <= Dist(g, i, |t0|) || Dist(g, p, |t0|) >= Dist(g, e, |t0|)
    ensures Reachable(t[i := None][s := Some(x)], Home(hash, t[i := None][s := Some(x)][p].value, |t0|), p)
  {
    var n := |t0|;
    if p != s {
      var h := Home(hash, t[p].value, n);
      assert Reachable(t, h, p);
      PathAvoids(t, h, p, g, i, e);
    }
  }

  lemma SlotIsFree<T(!new)>(t: Table<T>, hash: T -> nat, eq: (T, T) -> bool, i: nat, x: T, s: nat)
    requires i < |t| && t[i] == Some(x) && NoDuplicates(t, eq) && IsSlot(t[i := None], hash, eq, x, s)
    ensures t[i := None][s].None?
  {
  }

  lemma CleaningItems<T(!new)>(t: Table<T>, eq: (T, T) -> bool, i: nat, x: T, s: nat)
    requires i < |t| && t[i] == Some(x) && NoDuplicates(t, eq) && s < |t| && t[i := None][s].None?
    requires forall y, z :: eq(y, y) && (eq(y, z) ==> eq(z, y))
    ensures NoDuplicates(t[i := None][s := Some(x)], eq)
    ensures Items(t[i := None][s := Some(x)]) == Items(t)
  {
    ItemsAfterErase(t, eq, i);
    ItemsAfterPlace(t[i := None], eq, x, s);
    assert t[i].value in Items(t);
  }

  lemma CleaningMoves<T>(t0: Table<T>, t: Table<T>, g: nat, i: nat, x: T, s: nat)
    requires MovedBack(t0, t, g) && g < |t0| && i < |t0| && s < |t0| && t[i] == Some(x)
    requires Dist(g, s, |t0|) <= Dist(g, i, |t0|)
    ensures MovedBack(t0, t[i := None][s := Some(x)], g)
  {
  }

  /** A gap-free probe path to an item outside i .. e-1 cannot pass through i: it would have to cross the free bucket
        e. */
  lemma PathAvoids<T>(t: Table<T>, h: nat, p: nat, g: nat, i: nat, e: nat)
    requires h < |t| && p < |t| && g < |t| && i < |t| && e < |t|
    requires t[p].Some? && t[e].None? && Reachable(t, h, p)
    requires 0 < Dist(g, i, |t|) < Dist(g, e, |t|)
    requires Dist(g, p, |t|) < Dist(g, i, |t|) || Dist(g, p, |t|) >= Dist(g, e, |t|)
    ensures Dist(h, p, |t|) <= Dist(h, i, |t|)
  {
  }

  lemma CleaningEnds<T(!new)>(t0: Table<T>, t: Table<T>, hash: T -> nat, eq: (T, T) -> bool, g: nat, e: nat)
    requires Cleaning(t0, t, hash, eq, g, e, e)
    ensures WellFormed(t, hash, eq)
  {
  }
}
