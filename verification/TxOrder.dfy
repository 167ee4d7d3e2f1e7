/** The order in which the wallet lists its transactions, and which of them depend on which (BRWallet.c). */
module TxOrder {
  import opened Ledger

  /** Hashes cannot be circular: whatever spends a transaction ranks above it. */
  type Ranks = imap<Hash, nat>

  ghost function Rank(rank: Ranks, h: Hash): nat {
    if h in rank then rank[h] else 0
  }

  // ---- what a store and a list of hashes must satisfy ----

  /** Every transaction is stored under its own hash, and a transaction ranks above the ones it spends. */
  ghost predicate Store(allTx: map<Hash, Tx>, rank: Ranks) {
    forall h | h in allTx :: allTx[h].txHash == h && AboveParents(rank, allTx[h])
  }

  ghost predicate AboveParents(rank: Ranks, tx: Tx) {
    forall j | 0 <= j < |tx.inputs| :: Rank(rank, tx.inputs[j].prevout.hash) < Rank(rank, tx.txHash)
  }

  ghost predicate Listing(allTx: map<Hash, Tx>, list: seq<Hash>) {
    forall i | 0 <= i < |list| :: list[i] in allTx
  }

  ghost predicate Absent(list: seq<Hash>, n: nat, h: Hash)
    requires n <= |list|
  {
    n == 0 || (list[n - 1] != h && Absent(list, n - 1, h))
  }

  ghost predicate DistinctUpTo(list: seq<Hash>, n: nat)
    requires n <= |list|
  {
    n == 0 || (DistinctUpTo(list, n - 1) && Absent(list, n - 1, list[n - 1]))
  }

  ghost predicate SortedUpTo(allTx: map<Hash, Tx>, list: seq<Hash>, n: nat)
    requires Listing(allTx, list) && n <= |list|
  {
    n <= 1 || (SortedUpTo(allTx, list, n - 1) && allTx[list[n - 2]].blockHeight <= allTx[list[n - 1]].blockHeight)
  }

  ghost predicate Distinct(list: seq<Hash>) {
    DistinctUpTo(list, |list|)
  }

  /** Non-decreasing in height. */
  ghost predicate Sorted(allTx: map<Hash, Tx>, list: seq<Hash>)
    requires Listing(allTx, list)
  {
    SortedUpTo(allTx, list, |list|)
  }

  lemma {:induction false} AbsentIff(list: seq<Hash>, n: nat, h: Hash)
    requires n <= |list|
    ensures Absent(list, n, h) <==> forall i | 0 <= i < n :: list[i] != h
  {
    if n > 0 {
      AbsentIff(list, n - 1, h);
    }
  }

  lemma {:induction false} DistinctPairs(list: seq<Hash>, n: nat)
    requires n <= |list|
    ensures DistinctUpTo(list, n) <==> forall i, j | 0 <= i < j < n :: list[i] != list[j]
  {
    if n > 0 {
      DistinctPairs(list, n - 1);
      AbsentIff(list, n - 1, list[n - 1]);
    }
  }

  lemma {:induction false} DistinctAgree(a: seq<Hash>, b: seq<Hash>, n: nat)
    requires n <= |a| && n <= |b| && forall i | 0 <= i < n :: a[i] == b[i]
    ensures DistinctUpTo(a, n) == DistinctUpTo(b, n)
  {
    if n > 0 {
      DistinctAgree(a, b, n - 1);
      AbsentIff(a, n - 1, a[n - 1]);
      AbsentIff(b, n - 1, b[n - 1]);
    }
  }

  lemma {:induction false} SortedPairs(allTx: map<Hash, Tx>, list: seq<Hash>, n: nat)
    requires Listing(allTx, list) && n <= |list|
    ensures SortedUpTo(allTx, list, n) <==>
      forall i, j | 0 <= i < j < n :: allTx[list[i]].blockHeight <= allTx[list[j]].blockHeight
  {
    if n > 1 {
      SortedPairs(allTx, list, n - 1);
    }
  }

  lemma {:induction false} SortedAt(allTx: map<Hash, Tx>, list: seq<Hash>, n: nat, i: nat)
    requires Listing(allTx, list) && n <= |list| && SortedUpTo(allTx, list, n) && 0 < i < n
    ensures allTx[list[i - 1]].blockHeight <= allTx[list[i]].blockHeight
  {
    if i < n - 1 {
      SortedAt(allTx, list, n - 1, i);
    }
  }

  /** Whether a list is sorted depends only on the heights. */
  lemma {:induction false} SortedAgree(allTx: map<Hash, Tx>, a: seq<Hash>, other: map<Hash, Tx>, b: seq<Hash>, n: nat)
    requires Listing(allTx, a) && Listing(other, b) && n <= |a| && n <= |b|
    requires forall i | 0 <= i < n :: allTx[a[i]].blockHeight == other[b[i]].blockHeight
    ensures SortedUpTo(allTx, a, n) == SortedUpTo(other, b, n)
  {
    if n > 1 {
      SortedAgree(allTx, a, other, b, n - 1);
    }
  }

  lemma SortedSame(allTx: map<Hash, Tx>, other: map<Hash, Tx>, list: seq<Hash>)
    requires Listing(allTx, list) && Sorted(allTx, list)
    requires forall i | 0 <= i < |list| :: list[i] in other && other[list[i]].blockHeight == allTx[list[i]].blockHeight
    ensures Listing(other, list) && Sorted(other, list)
  {
    SortedAgree(allTx, list, other, list, |list|);
  }

  // ---- comparison ----

  predicate Spends(tx: Tx, h: Hash) {
    exists j | 0 <= j < |tx.inputs| :: tx.inputs[j].prevout.hash == h
  }

  /** Whether a belongs after b: higher, or at the same height a descendant. The ancestors of a are followed as long as
      the store knows them. */
  predicate IsAscending(allTx: map<Hash, Tx>, ghost rank: Ranks, a: Tx, b: Tx)
    requires Store(allTx, rank) && AboveParents(rank, a)
    decreases Rank(rank, a.txHash)
  {
    if a.blockHeight > b.blockHeight then true
    else if a.blockHeight < b.blockHeight then false
    else if Spends(a, b.txHash) then true
    else if Spends(b, a.txHash) then false
    else exists j | 0 <= j < |a.inputs| :: a.inputs[j].prevout.hash in allTx &&
                                           IsAscending(allTx, rank, allTx[a.inputs[j].prevout.hash], b)
  }

  predicate Pays(tx: Tx, a: Address) {
    exists j | 0 <= j < |tx.outputs| :: tx.outputs[j].address == a
  }

  /** The last position below n of an address the transaction pays, or -1. */
  function ChainIndex(tx: Tx, chain: seq<Address>, n: nat): (r: int)
    requires n <= |chain|
    ensures -1 <= r < n && (r >= 0 ==> Pays(tx, chain[r]))
    ensures forall i | r < i < n :: !Pays(tx, chain[i])
  {
    if n == 0 then -1 else if Pays(tx, chain[n - 1]) then n - 1 else ChainIndex(tx, chain, n - 1)
  }

  function Compare(allTx: map<Hash, Tx>, ghost rank: Ranks, internalChain: seq<Address>,
                   externalChain: seq<Address>, a: Tx, b: Tx): int
    requires Store(allTx, rank) && AboveParents(rank, a) && AboveParents(rank, b)
  {
    if IsAscending(allTx, rank, a, b) then 1
    else if IsAscending(allTx, rank, b, a) then -1
    else
      var i := ChainIndex(a, internalChain, |internalChain|);
      var chain := if i == -1 then externalChain else internalChain;
      var j := ChainIndex(b, chain, |chain|);
      var k := if i == -1 && j != -1 then ChainIndex(a, externalChain, |externalChain|) else i;
      if k != -1 && j != -1 && k != j then (if k > j then 1 else -1) else 0
  }

  /** Height always decides first. */
  lemma HeightDecides(allTx: map<Hash, Tx>, rank: Ranks, internalChain: seq<Address>,
                      externalChain: seq<Address>, a: Tx, b: Tx)
    requires Store(allTx, rank) && AboveParents(rank, a) && AboveParents(rank, b)
    ensures a.blockHeight > b.blockHeight ==> Compare(allTx, rank, internalChain, externalChain, a, b) == 1
    ensures a.blockHeight < b.blockHeight ==> Compare(allTx, rank, internalChain, externalChain, a, b) == -1
  {
  }

  // ---- inserting and removing ----

  function Inserted(list: seq<Hash>, p: nat, h: Hash): seq<Hash>
    requires p <= |list|
  {
    list[..p] + [h] + list[p..]
  }

  function RemovedAt(list: seq<Hash>, k: nat): seq<Hash>
    requires k < |list|
  {
    list[..k] + list[k + 1..]
  }

  function Comparison(allTx: map<Hash, Tx>, ghost rank: Ranks, internalChain: seq<Address>,
                      externalChain: seq<Address>, a: Hash, b: Hash): int
    requires Store(allTx, rank) && a in allTx && b in allTx
  {
    Compare(allTx, rank, internalChain, externalChain, allTx[a], allTx[b])
  }

  /** Everything from position i on belongs after h. */
  ghost predicate Later(allTx: map<Hash, Tx>, rank: Ranks, internalChain: seq<Address>, externalChain: seq<Address>,
                        list: seq<Hash>, i: nat, h: Hash)
    requires Store(allTx, rank) && Listing(allTx, list) && h in allTx
    decreases |list| - i
  {
    i >= |list| || (Comparison(allTx, rank, internalChain, externalChain, list[i], h) > 0 &&
                    Later(allTx, rank, internalChain, externalChain, list, i + 1, h))
  }

  /** The last position with nothing but later transactions from there on. */
  ghost predicate IsPlace(allTx: map<Hash, Tx>, rank: Ranks, internalChain: seq<Address>, externalChain: seq<Address>,
                          list: seq<Hash>, p: nat, h: Hash)
    requires Store(allTx, rank) && Listing(allTx, list) && h in allTx
  {
    && p <= |list|
    && Later(allTx, rank, internalChain, externalChain, list, p, h)
    && (p > 0 ==> Comparison(allTx, rank, internalChain, externalChain, list[p - 1], h) <= 0)
  }

  /** r is the list with a value to be overwritten at place i. */
  ghost predicate IsStale(list: seq<Hash>, i: nat, stale: Hash, r: seq<Hash>) {
    && i <= |list| && |r| == |list| + 1 && r[i] == stale
    && (forall k | 0 <= k < i :: r[k] == list[k]) && forall k | i <= k < |list| :: r[k + 1] == list[k]
  }

  lemma StaleKeeps(list: seq<Hash>, i: nat, stale: Hash)
    requires i <= |list|
    ensures IsStale(list, i, stale, Inserted(list, i, stale))
  {
  }

  lemma StaleEnds(list: seq<Hash>, i: nat, stale: Hash, r: seq<Hash>, h: Hash)
    requires IsStale(list, i, stale, r)
    ensures r[i := h] == Inserted(list, i, h)
  {
  }

  method ShiftOne(ghost list: seq<Hash>, i: nat, ghost stale: Hash, r: seq<Hash>) returns (r': seq<Hash>)
    requires i > 0 && IsStale(list, i, stale, r)
    ensures IsStale(list, i - 1, list[i - 1], r')
  {
    r' := r[i := r[i - 1]];
  }

  /** Moves later transactions up from the end and puts the new one in the gap. */
  method Insert(allTx: map<Hash, Tx>, ghost rank: Ranks, internalChain: seq<Address>, externalChain: seq<Address>,
                list: seq<Hash>, h: Hash)
    returns (r: seq<Hash>, ghost p: nat)
    requires Store(allTx, rank) && Listing(allTx, list) && h in allTx
    ensures p <= |list| && r == Inserted(list, p, h)
    ensures IsPlace(allTx, rank, internalChain, externalChain, list, p, h)
  {
    ghost var stale := h;
    var i: nat := |list|;
    r := list + [h];
    assert r == Inserted(list, i, stale);
    StaleKeeps(list, i, stale);
    while i > 0 && Comparison(allTx, rank, internalChain, externalChain, r[i - 1], h) > 0
      invariant IsStale(list, i, stale, r)
      invariant Later(allTx, rank, internalChain, externalChain, list, i, h)
    {
      r := ShiftOne(list, i, stale, r);
      i := i - 1;
      stale := list[i];
    }
    StaleEnds(list, i, stale, r, h);
    r := r[i := h];
    p := i;
  }

  lemma InsertMembers(list: seq<Hash>, p: nat, h: Hash, x: Hash)
    requires p <= |list|
    ensures x in Inserted(list, p, h) <==> x in list || x == h
  {
    assert list == list[..p] + list[p..];
  }

  lemma InsertAt(list: seq<Hash>, p: nat, h: Hash, i: nat)
    requires p <= |list| && i <= |list|
    ensures Inserted(list, p, h)[i] == if i < p then list[i] else if i == p then h else list[i - 1]
  {
  }

  lemma {:induction false} InsertDistinct(list: seq<Hash>, p: nat, h: Hash, n: nat)
    requires p <= |list| && n <= |list| + 1 && Distinct(list) && h !in list
    ensures DistinctUpTo(Inserted(list, p, h), n)
  {
    if n > 0 {
      InsertDistinct(list, p, h, n - 1);
      var r := Inserted(list, p, h);
      DistinctPairs(list, |list|);
      InsertAt(list, p, h, n - 1);
      forall i | 0 <= i < n - 1 ensures r[i] != r[n - 1] {
        InsertAt(list, p, h, i);
      }
      AbsentIff(r, n - 1, r[n - 1]);
    }
  }

  lemma InsertKeepsListing(allTx: map<Hash, Tx>, list: seq<Hash>, p: nat, h: Hash)
    requires Listing(allTx, list) && Distinct(list) && p <= |list| && h in allTx && h !in list
    ensures Listing(allTx, Inserted(list, p, h)) && Distinct(Inserted(list, p, h))
  {
    InsertDistinct(list, p, h, |list| + 1);
  }

  /** Sorting survives if nothing lower is left behind the insertion point and nothing higher in front of it. */
  lemma {:induction false} InsertKeepsSorted(allTx: map<Hash, Tx>, list: seq<Hash>, p: nat, h: Hash, n: nat)
    requires Listing(allTx, list) && p <= |list| && n <= |list| + 1 && h in allTx && Sorted(allTx, list)
    requires Listing(allTx, Inserted(list, p, h))
    requires p > 0 ==> allTx[list[p - 1]].blockHeight <= allTx[h].blockHeight
    requires p < |list| ==> allTx[h].blockHeight <= allTx[list[p]].blockHeight
    ensures SortedUpTo(allTx, Inserted(list, p, h), n)
  {
    if n > 1 {
      InsertKeepsSorted(allTx, list, p, h, n - 1);
      InsertAt(list, p, h, n - 2);
      InsertAt(list, p, h, n - 1);
      if n - 1 < p {
        SortedAt(allTx, list, |list|, n - 1);
      } else if n - 2 > p {
        SortedAt(allTx, list, |list|, n - 2);
      }
    }
  }

  /** The list stays sorted by height whatever the rest of the comparison says. */
  lemma PlaceKeepsSorted(allTx: map<Hash, Tx>, rank: Ranks, internalChain: seq<Address>, externalChain: seq<Address>,
                         list: seq<Hash>, p: nat, h: Hash)
    requires Store(allTx, rank) && Listing(allTx, list) && Sorted(allTx, list) && h in allTx
    requires IsPlace(allTx, rank, internalChain, externalChain, list, p, h)
    requires Listing(allTx, Inserted(list, p, h))
    ensures Sorted(allTx, Inserted(list, p, h))
  {
    if p > 0 {
      HeightDecides(allTx, rank, internalChain, externalChain, allTx[list[p - 1]], allTx[h]);
    }
    if p < |list| {
      HeightDecides(allTx, rank, internalChain, externalChain, allTx[list[p]], allTx[h]);
    }
    InsertKeepsSorted(allTx, list, p, h, |list| + 1);
  }

  // ---- dropping dependent transactions ----

  function Drop(list: seq<Hash>, gone: set<Hash>): seq<Hash> {
    if list == [] then [] else
    Drop(list[..|list| - 1], gone) + (if list[|list| - 1] in gone then [] else [list[|list| - 1]])
  }

  lemma {:induction false} DropMembers(list: seq<Hash>, gone: set<Hash>, x: Hash)
    ensures x in Drop(list, gone) <==> x in list && x !in gone
  {
    if list != [] {
      DropMembers(list[..|list| - 1], gone, x);
      assert x in list <==> x in list[..|list| - 1] || x == list[|list| - 1];
    }
  }

  lemma DropSnoc(list: seq<Hash>, x: Hash, gone: set<Hash>)
    ensures Drop(list + [x], gone) == Drop(list, gone) + (if x in gone then [] else [x])
  {
    assert (list + [x])[..|list|] == list;
  }

  lemma {:induction false} DropTwice(list: seq<Hash>, a: set<Hash>, b: set<Hash>)
    ensures Drop(Drop(list, a), b) == Drop(list, a + b)
  {
    if list != [] {
      var t, x := list[..|list| - 1], list[|list| - 1];
      DropTwice(t, a, b);
      DropSnoc(Drop(t, a), x, b);
      assert Drop(t, a) + [] == Drop(t, a);
    }
  }

  lemma {:induction false} DropNone(list: seq<Hash>, gone: set<Hash>)
    requires forall i | 0 <= i < |list| :: list[i] !in gone
    ensures Drop(list, gone) == list
  {
    if list != [] {
      var t, x := list[..|list| - 1], list[|list| - 1];
      DropNone(t, gone);
      DropSnoc(t, x, gone);
      assert t + [x] == list;
    }
  }

  lemma {:induction false} DropOne(list: seq<Hash>, k: nat)
    requires k < |list|
    requires forall i, j | 0 <= i < j < |list| :: list[i] != list[j]
    ensures Drop(list, {list[k]}) == RemovedAt(list, k)
  {
    var t, x := list[..|list| - 1], list[|list| - 1];
    if k == |list| - 1 {
      DropNone(t, {list[k]});
      assert RemovedAt(list, k) == t;
    } else {
      DropOne(t, k);
      assert t[k] == list[k];
      assert RemovedAt(t, k) + [x] == RemovedAt(list, k);
    }
  }

  lemma {:induction false} DropDistinct(list: seq<Hash>, gone: set<Hash>)
    requires Distinct(list)
    ensures Distinct(Drop(list, gone))
  {
    if list != [] {
      var t, x := list[..|list| - 1], list[|list| - 1];
      DistinctAgree(t, list, |t|);
      DropDistinct(t, gone);
      DropSnoc(t, x, gone);
      assert t + [x] == list;
      var d := Drop(t, gone);
      if x !in gone {
        DistinctAgree(d, d + [x], |d|);
        DropMembers(t, gone, x);
        AbsentIff(list, |t|, x);
        AbsentIff(d + [x], |d|, x);
      } else {
        assert d + [] == d;
      }
    }
  }

  /** What is kept is still in order. */
  lemma {:induction false} DropKeepsSorted(allTx: map<Hash, Tx>, list: seq<Hash>, gone: set<Hash>)
    requires Listing(allTx, list) && Sorted(allTx, list)
    ensures Listing(allTx, Drop(list, gone)) && Sorted(allTx, Drop(list, gone))
  {
    if list != [] {
      var t, x := list[..|list| - 1], list[|list| - 1];
      SortedAgree(allTx, t, allTx, list, |t|);
      DropKeepsSorted(allTx, t, gone);
      DropSnoc(t, x, gone);
      assert t + [x] == list;
      var d := Drop(t, gone);
      if x !in gone {
        SortedAgree(allTx, d, allTx, d + [x], |d|);
        if d != [] {
          DropMembers(t, gone, d[|d| - 1]);
          var i :| 0 <= i < |t| && t[i] == d[|d| - 1];
          SortedPairs(allTx, list, |list|);
          assert list[i] == d[|d| - 1];
        }
      } else {
        assert d + [] == d;
      }
    }
  }

  /** c is a listed transaction that spends p and is not lower: what the backward scan for dependents can see. */
  ghost predicate Child(allTx: map<Hash, Tx>, list: seq<Hash>, p: Hash, c: Hash) {
    && p in allTx && c in allTx && c in list && Spends(allTx[c], p)
    && allTx[c].blockHeight >= allTx[p].blockHeight
  }

  /** h is the target or reached from it through listed children. */
  ghost predicate Reached(allTx: map<Hash, Tx>, rank: Ranks, list: seq<Hash>, target: Hash, h: Hash)
    requires Store(allTx, rank)
    decreases Rank(rank, h)
  {
    h == target || (h in allTx && exists j | 0 <= j < |allTx[h].inputs| ::
      Child(allTx, list, allTx[h].inputs[j].prevout.hash, h) &&
      Reached(allTx, rank, list, target, allTx[h].inputs[j].prevout.hash))
  }

  ghost function Reach(allTx: map<Hash, Tx>, rank: Ranks, list: seq<Hash>, target: Hash): set<Hash>
    requires Store(allTx, rank)
  {
    set h | h in list && Reached(allTx, rank, list, target, h)
  }

  lemma ReachedChild(allTx: map<Hash, Tx>, rank: Ranks, list: seq<Hash>, target: Hash, p: Hash, c: Hash)
    requires Store(allTx, rank) && Child(allTx, list, p, c) && Reached(allTx, rank, list, target, p)
    ensures Reached(allTx, rank, list, target, c)
  {
    var j :| 0 <= j < |allTx[c].inputs| && allTx[c].inputs[j].prevout.hash == p;
  }

  lemma {:induction false} ReachedTrans(allTx: map<Hash, Tx>, rank: Ranks, list: seq<Hash>, a: Hash, b: Hash, h: Hash)
    requires Store(allTx, rank) && Reached(allTx, rank, list, a, b) && Reached(allTx, rank, list, b, h)
    ensures Reached(allTx, rank, list, a, h)
    decreases Rank(rank, h)
  {
    if h != b {
      var j :| 0 <= j < |allTx[h].inputs| && Child(allTx, list, allTx[h].inputs[j].prevout.hash, h) &&
               Reached(allTx, rank, list, b, allTx[h].inputs[j].prevout.hash);
      ReachedTrans(allTx, rank, list, a, b, allTx[h].inputs[j].prevout.hash);
    }
  }

  /** With every child of a member the child itself. */
  ghost predicate Closed(allTx: map<Hash, Tx>, list: seq<Hash>, s: set<Hash>) {
    forall p, c | p in s && Child(allTx, list, p, c) :: c in s
  }

  lemma ReachIsClosed(allTx: map<Hash, Tx>, rank: Ranks, list: seq<Hash>, target: Hash)
    requires Store(allTx, rank)
    ensures Closed(allTx, list, Reach(allTx, rank, list, target))
  {
    forall p, c | p in Reach(allTx, rank, list, target) && Child(allTx, list, p, c)
      ensures c in Reach(allTx, rank, list, target)
    {
      ReachedChild(allTx, rank, list, target, p, c);
    }
  }

  /** Taking a closed set out of the list first does not change what is reached outside that set. */
  lemma {:induction false} ReachedAfterDrop(allTx: map<Hash, Tx>, rank: Ranks, list: seq<Hash>, gone: set<Hash>,
                                            target: Hash, h: Hash)
    requires Store(allTx, rank) && Closed(allTx, list, gone) && h !in gone
    ensures Reached(allTx, rank, Drop(list, gone), target, h) <==> Reached(allTx, rank, list, target, h)
    decreases Rank(rank, h)
  {
    if h != target && h in allTx {
      forall j | 0 <= j < |allTx[h].inputs|
        ensures (Child(allTx, list, allTx[h].inputs[j].prevout.hash, h) &&
                 Reached(allTx, rank, list, target, allTx[h].inputs[j].prevout.hash)) ==
                (Child(allTx, Drop(list, gone), allTx[h].inputs[j].prevout.hash, h) &&
                 Reached(allTx, rank, Drop(list, gone), target, allTx[h].inputs[j].prevout.hash))
      {
        DropMembers(list, gone, h);
        var p := allTx[h].inputs[j].prevout.hash;
        if p !in gone {
          ReachedAfterDrop(allTx, rank, list, gone, target, p);
        }
      }
    }
  }

  lemma DropReach(allTx: map<Hash, Tx>, rank: Ranks, list: seq<Hash>, gone: set<Hash>, target: Hash)
    requires Store(allTx, rank) && Closed(allTx, list, gone)
    ensures gone + Reach(allTx, rank, Drop(list, gone), target) == gone + Reach(allTx, rank, list, target)
  {
    forall h | h !in gone
      ensures h in Reach(allTx, rank, Drop(list, gone), target) <==> h in Reach(allTx, rank, list, target)
    {
      DropMembers(list, gone, h);
      ReachedAfterDrop(allTx, rank, list, gone, target, h);
    }
  }

  /** Without children only the target itself is reached. */
  lemma {:induction false} ReachWithoutChildren(allTx: map<Hash, Tx>, rank: Ranks, list: seq<Hash>, target: Hash,
                                                h: Hash)
    requires Store(allTx, rank) && forall c :: !Child(allTx, list, target, c)
    ensures Reached(allTx, rank, list, target, h) <==> h == target
    decreases Rank(rank, h)
  {
    if h != target && h in allTx {
      forall j | 0 <= j < |allTx[h].inputs| && Child(allTx, list, allTx[h].inputs[j].prevout.hash, h)
        ensures !Reached(allTx, rank, list, target, allTx[h].inputs[j].prevout.hash)
      {
        ReachWithoutChildren(allTx, rank, list, target, allTx[h].inputs[j].prevout.hash);
      }
    }
  }

  lemma {:induction false} DropSame(list: seq<Hash>, a: set<Hash>, b: set<Hash>)
    requires forall x | x in list :: x in a <==> x in b
    ensures Drop(list, a) == Drop(list, b)
  {
    if list != [] {
      assert list[|list| - 1] in list;
      DropSame(list[..|list| - 1], a, b);
    }
  }

  /** The listed transactions that rank above h. */
  ghost function Higher(rank: Ranks, list: seq<Hash>, h: Hash): set<Hash> {
    set x | x in list && Rank(rank, x) > Rank(rank, h)
  }

  lemma ChildRanks(allTx: map<Hash, Tx>, rank: Ranks, list: seq<Hash>, p: Hash, c: Hash)
    requires Store(allTx, rank) && Child(allTx, list, p, c)
    ensures Rank(rank, p) < Rank(rank, c)
  {
    var j :| 0 <= j < |allTx[c].inputs| && allTx[c].inputs[j].prevout.hash == p;
    assert AboveParents(rank, allTx[c]);
  }

  /** Removing less of the list for a child is a smaller task. */
  lemma HigherShrinks(allTx: map<Hash, Tx>, rank: Ranks, list: seq<Hash>, rest: seq<Hash>, p: Hash, c: Hash)
    requires Store(allTx, rank) && Child(allTx, list, p, c) && forall x | x in rest :: x in list
    ensures |Higher(rank, rest, c)| < |Higher(rank, list, p)|
    ensures c !in rest ==> |Higher(rank, rest, p)| < |Higher(rank, list, p)|
  {
    ChildRanks(allTx, rank, list, p, c);
    assert c in Higher(rank, list, p);
    SmallerSet(Higher(rank, rest, c), Higher(rank, list, p), c);
    if c !in rest {
      SmallerSet(Higher(rank, rest, p), Higher(rank, list, p), c);
    }
  }

  lemma SmallerSet(a: set<Hash>, b: set<Hash>, x: Hash)
    requires a <= b && x in b && x !in a
    ensures |a| < |b|
  {
    SubsetSize(a, b - {x});
  }

  lemma {:induction false} SubsetSize(a: set<Hash>, b: set<Hash>)
    requires a <= b
    ensures |a| <= |b|
  {
    if a != {} {
      var x :| x in a;
      SubsetSize(a - {x}, b - {x});
    }
  }

  /** Scans from the end for transactions that spend h and stops at the first lower one. The order of the list makes
      that enough. */
  method FindDependents(allTx: map<Hash, Tx>, list: seq<Hash>, h: Hash) returns (hashes: seq<Hash>)
    requires Listing(allTx, list) && Sorted(allTx, list) && h in allTx
    ensures forall c :: c in hashes <==> c != h && Child(allTx, list, h, c)
  {
    hashes := [];
    var i := |list|;
    while i > 0
      invariant 0 <= i <= |list|
      invariant forall c | c in hashes :: c != h && Child(allTx, list, h, c)
      invariant forall k | i <= k < |list| :: list[k] != h && Child(allTx, list, h, list[k]) ==> list[k] in hashes
    {
      var t := list[i - 1];
      if allTx[t].blockHeight < allTx[h].blockHeight {
        SortedPairs(allTx, list, |list|);
        break;
      }
      if t != h && Spends(allTx[t], h) {
        hashes := hashes + [t];
      }
      i := i - 1;
    }
    forall c | c != h && Child(allTx, list, h, c) ensures c in hashes {
      var k :| 0 <= k < |list| && list[k] == c;
    }
  }

  /** Removing what is reached from one more child. */
  lemma DropMore(allTx: map<Hash, Tx>, rank: Ranks, list: seq<Hash>, gone: set<Hash>, target: Hash, c: Hash)
    requires Store(allTx, rank) && Closed(allTx, list, gone) && gone <= Reach(allTx, rank, list, target)
    requires c == target || Child(allTx, list, target, c)
    ensures var more := gone + Reach(allTx, rank, list, c);
      && Drop(Drop(list, gone), Reach(allTx, rank, Drop(list, gone), c)) == Drop(list, more)
      && Closed(allTx, list, more) && more <= Reach(allTx, rank, list, target)
  {
    DropTwice(list, gone, Reach(allTx, rank, Drop(list, gone), c));
    DropReach(allTx, rank, list, gone, c);
    ReachIsClosed(allTx, rank, list, c);
    if c != target {
      ReachedChild(allTx, rank, list, target, target, c);
      forall h | h in Reach(allTx, rank, list, c) ensures h in Reach(allTx, rank, list, target) {
        ReachedTrans(allTx, rank, list, target, c, h);
      }
    }
  }

  /** Without children the target alone goes. */
  lemma DropTarget(allTx: map<Hash, Tx>, rank: Ranks, list: seq<Hash>, target: Hash)
    requires Store(allTx, rank) && forall c :: c == target || !Child(allTx, list, target, c)
    ensures Drop(list, {target}) == Drop(list, Reach(allTx, rank, list, target))
  {
    if Child(allTx, list, target, target) {
      ChildRanks(allTx, rank, list, target, target);
      assert false;
    }
    forall x | x in list ensures x in {target} <==> x in Reach(allTx, rank, list, target) {
      ReachWithoutChildren(allTx, rank, list, target, x);
    }
    DropSame(list, {target}, Reach(allTx, rank, list, target));
  }

  // ---- when that is every descendant ----

  /** h is the target or a listed descendant of it along listed transactions, whatever the heights. */
  ghost predicate Descends(allTx: map<Hash, Tx>, rank: Ranks, list: seq<Hash>, target: Hash, h: Hash)
    requires Store(allTx, rank)
    decreases Rank(rank, h)
  {
    h == target || (h in allTx && h in list && exists j | 0 <= j < |allTx[h].inputs| ::
      Descends(allTx, rank, list, target, allTx[h].inputs[j].prevout.hash))
  }

  /** No listed transaction is lower than a transaction it spends. */
  ghost predicate ChildrenNotLower(allTx: map<Hash, Tx>, list: seq<Hash>) {
    forall c, j | c in list && c in allTx && 0 <= j < |allTx[c].inputs| && allTx[c].inputs[j].prevout.hash in allTx ::
      allTx[allTx[c].inputs[j].prevout.hash].blockHeight <= allTx[c].blockHeight
  }

  lemma {:induction false} ReachedNotLower(allTx: map<Hash, Tx>, rank: Ranks, list: seq<Hash>, target: Hash, h: Hash)
    requires Store(allTx, rank) && target in allTx && Reached(allTx, rank, list, target, h)
    ensures h in allTx && allTx[h].blockHeight >= allTx[target].blockHeight
    decreases Rank(rank, h)
  {
    if h != target {
      var j :| 0 <= j < |allTx[h].inputs| && Child(allTx, list, allTx[h].inputs[j].prevout.hash, h) &&
               Reached(allTx, rank, list, target, allTx[h].inputs[j].prevout.hash);
      ReachedNotLower(allTx, rank, list, target, allTx[h].inputs[j].prevout.hash);
    }
  }

  lemma {:induction false} ReachedIsDescends(allTx: map<Hash, Tx>, rank: Ranks, list: seq<Hash>, target: Hash, h: Hash)
    requires Store(allTx, rank) && target in allTx && ChildrenNotLower(allTx, list)
    ensures Reached(allTx, rank, list, target, h) <==> Descends(allTx, rank, list, target, h)
    decreases Rank(rank, h)
  {
    if h != target && h in allTx {
      forall j | 0 <= j < |allTx[h].inputs|
        ensures Reached(allTx, rank, list, target, allTx[h].inputs[j].prevout.hash) ==
                Descends(allTx, rank, list, target, allTx[h].inputs[j].prevout.hash)
        ensures Reached(allTx, rank, list, target, allTx[h].inputs[j].prevout.hash) && h in list ==>
                Child(allTx, list, allTx[h].inputs[j].prevout.hash, h)
      {
        var p := allTx[h].inputs[j].prevout.hash;
        ReachedIsDescends(allTx, rank, list, target, p);
        if Reached(allTx, rank, list, target, p) {
          ReachedNotLower(allTx, rank, list, target, p);
        }
      }
    }
  }

  /** Removal takes every descendant along with every stored transaction exactly if no listed transaction is lower than
      one it spends. */
  lemma RemovalCompleteIff(allTx: map<Hash, Tx>, rank: Ranks, list: seq<Hash>)
    requires Store(allTx, rank) && Listing(allTx, list)
    ensures ChildrenNotLower(allTx, list) <==>
      forall target, h | target in allTx && h in list ::
        Descends(allTx, rank, list, target, h) ==> Reached(allTx, rank, list, target, h)
  {
    if ChildrenNotLower(allTx, list) {
      forall target, h | target in allTx && h in list
        ensures Reached(allTx, rank, list, target, h) <==> Descends(allTx, rank, list, target, h)
      {
        ReachedIsDescends(allTx, rank, list, target, h);
      }
    } else {
      var c, j :| c in list && c in allTx && 0 <= j < |allTx[c].inputs| && allTx[c].inputs[j].prevout.hash in allTx &&
                  allTx[allTx[c].inputs[j].prevout.hash].blockHeight > allTx[c].blockHeight;
      var p := allTx[c].inputs[j].prevout.hash;
      assert Descends(allTx, rank, list, p, p);
      assert Descends(allTx, rank, list, p, c);
      if Reached(allTx, rank, list, p, c) {
        ReachedNotLower(allTx, rank, list, p, c);
        assert false;
      }
    }
  }
}
