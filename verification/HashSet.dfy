/** The linear-probed hash table behind every lookup in the wallet core (BRSet.c), updated in place.
    A set stands for a finite set of items in which no two are equal under the caller's equality. */
module HashSet {
  import opened Options
  import opened ProbeTable

  /** Start with 1, multiply by 3/2, round up, take the next prime. */
  function TableSize(k: nat): nat
    requires k < TABLE_SIZES_LEN
  {
    match k
    case 0 => 1 case 1 => 3 case 2 => 7 case 3 => 13 case 4 => 23
    case 5 => 37 case 6 => 59 case 7 => 97 case 8 => 149 case 9 => 227
    case 10 => 347 case 11 => 523 case 12 => 787 case 13 => 1187 case 14 => 1783
    case 15 => 2677 case 16 => 4019 case 17 => 6037 case 18 => 9059 case 19 => 13591
    case 20 => 20389 case 21 => 30593 case 22 => 45887 case 23 => 68863 case 24 => 103307
    case 25 => 154981 case 26 => 232487 case 27 => 348739 case 28 => 523129 case 29 => 784697
    case 30 => 1177067 case 31 => 1765609 case 32 => 2648419 case 33 => 3972643 case 34 => 5958971
    case 35 => 8938469 case 36 => 13407707 case 37 => 20111563 case 38 => 30167359 case 39 => 45251077
    case 40 => 67876637 case 41 => 101814991 case 42 => 152722489 case 43 => 229083739 case 44 => 343625629
    case 45 => 515438447 case 46 => 773157683 case 47 => 1159736527 case 48 => 1739604799 case 49 => 2609407319
    case _ => 3914111041
  }

  const TABLE_SIZES_LEN: nat := 51

  const MAX_CAPACITY: nat := 2609407319

  /** A table grows when its item count passes this limit. */
  function Limit(size: nat): nat {
    (size + 2) / 3 * 2
  }

  /** Beyond this many items the table of sizes is exhausted. */
  const MAX_ITEMS: nat := 2609407362

  ghost predicate IsTableSize(size: nat) {
    exists k :: 1 <= k < TABLE_SIZES_LEN && TableSize(k) == size
  }

  /** The smallest table size whose predecessor in the list holds the capacity. */
  ghost predicate IsSizeFor(capacity: nat, size: nat) {
    && IsTableSize(size) && capacity < size
    && forall k :: 1 <= k < TABLE_SIZES_LEN && capacity <= TableSize(k - 1) ==> size <= TableSize(k)
  }

  /** Consecutive table sizes leave room for more than the load limit of the smaller one. */
  lemma SizesGrow(k: nat)
    requires 1 <= k && k + 1 < TABLE_SIZES_LEN
    ensures TableSize(k) + 2 <= TableSize(k + 1)
    ensures Limit(TableSize(k)) + 1 <= Limit(TableSize(k + 1))
  {
  }

  /** Each size is at least one and a half times the one before, and hardly more, except for 45887, which is a little
      less. */
  lemma SizesGrowByHalf(k: nat)
    requires k + 1 < TABLE_SIZES_LEN
    ensures 3 * TableSize(k) <= 2 * TableSize(k + 1) <==> k != 21
    ensures 3 * TableSize(k) - 5 <= 2 * TableSize(k + 1) < 3 * TableSize(k) + 242
  {
  }

  /** The limit is two thirds of the buckets, rounded up to an even number at most. */
  lemma LimitIsTwoThirds(size: nat)
    ensures 2 * size <= 3 * Limit(size) <= 2 * size + 4
  {
  }

  lemma {:induction false} SizesSorted(j: nat, k: nat)
    requires 1 <= j <= k < TABLE_SIZES_LEN
    ensures TableSize(j) <= TableSize(k)
    ensures j < k ==> TableSize(j) < TableSize(k) && Limit(TableSize(j)) + 1 <= Limit(TableSize(k))
    decreases k - j
  {
    if j < k {
      SizesGrow(k - 1);
      SizesSorted(j, k - 1);
    }
  }

  lemma SecondSize()
    ensures TableSize(0) < TableSize(1)
  {
  }

  lemma SizeAfter(i: nat)
    requires i + 1 < TABLE_SIZES_LEN
    ensures TableSize(i) < TableSize(i + 1)
  {
    if i == 0 {
      SecondSize();
    } else {
      SizesSorted(i, i + 1);
    }
  }

  lemma SizesAbove(i: nat, size: nat)
    requires 1 <= i < TABLE_SIZES_LEN && size == TableSize(i)
    ensures forall k | i <= k < TABLE_SIZES_LEN :: size <= TableSize(k)
  {
    forall k | i <= k < TABLE_SIZES_LEN ensures size <= TableSize(k) {
      SizesSorted(i, k);
    }
  }

  /** The entry behind the first one that is at least the capacity is the size to take. */
  lemma FirstFits(capacity: nat, i: nat)
    requires i + 1 < TABLE_SIZES_LEN && capacity <= TableSize(i)
    requires forall j | 0 <= j < i :: TableSize(j) < capacity
    ensures IsSizeFor(capacity, TableSize(i + 1))
  {
    SizeAfter(i);
    SizesAbove(i + 1, TableSize(i + 1));
  }

  /** The load limit always leaves an empty bucket, so every probe stops. */
  lemma LimitLeavesRoom(size: nat)
    requires IsTableSize(size)
    ensures 3 <= size <= 3914111041 && Limit(size) < size
    ensures size <= MAX_CAPACITY || Limit(size) == MAX_ITEMS
  {
    var k :| 1 <= k < TABLE_SIZES_LEN && TableSize(k) == size;
    SizesSorted(1, k);
    SizesSorted(k, 50);
    if k > 1 {
      SizesSorted(2, k);
    }
    if k < 50 {
      SizesSorted(k, 49);
    }
  }

  /** What merging the distinct items D into the set S leaves: D, and whatever of S equals nothing in D. */
  ghost function Merged<T(!new)>(eq: (T, T) -> bool, s: set<T>, d: set<T>): set<T> {
    Without(eq, s, d) + d
  }

  ghost function Without<T(!new)>(eq: (T, T) -> bool, s: set<T>, d: set<T>): set<T> {
    set x | x in s && forall y | y in d :: !eq(x, y)
  }

  ghost function Common<T(!new)>(eq: (T, T) -> bool, s: set<T>, d: set<T>): set<T> {
    set x | x in s && exists y | y in d :: eq(x, y)
  }

  ghost predicate Distinct<T(!new)>(eq: (T, T) -> bool, s: set<T>) {
    forall x, y | x in s && y in s && x != y :: !eq(x, y)
  }

  /** r is the member of s that equals x, if there is one. */
  ghost predicate IsLookup<T(!new)>(eq: (T, T) -> bool, s: set<T>, x: T, r: Option<T>) {
    match r
    case Some(y) => y in s && eq(y, x)
    case None => forall y | y in s :: !eq(y, x)
  }

  class Set<T(!new, ==)> {
    var table: array<Option<T>>
    var size: nat
    var itemCount: nat
    const hash: T -> nat
    const eq: (T, T) -> bool

    /** The set the table stands for. */
    ghost function Contents(): set<T>
      reads this, table
    {
      Items(table[..])
    }

    /** Well formed and truthfully counted, but perhaps above the load limit. */
    ghost predicate Sound()
      reads this, table
    {
      && Lawful(hash, eq)
      && table.Length == size && IsTableSize(size)
      && itemCount == Count(table[..])
      && WellFormed(table[..], hash, eq)
    }

    ghost predicate Valid()
      reads this, table
    {
      Sound() && itemCount <= Limit(size)
    }

    /** The bookkeeping alone: all that holds while a removal is re-inserting a cluster. */
    ghost predicate Counted()
      reads this, table
    {
      && Lawful(hash, eq)
      && table.Length == size && IsTableSize(size)
      && itemCount == Count(table[..]) <= Limit(size)
    }

    lemma ContentsAreDistinct()
      requires Sound()
      ensures Distinct(eq, Contents()) && itemCount == |Contents()|
    {
      var t := table[..];
      CountIsCardinality(t, eq);
      forall x, y | x in Contents() && y in Contents() && x != y ensures !eq(x, y) {
        var p :| 0 <= p < |t| && t[p].Some? && t[p].value == x;
        var q :| 0 <= q < |t| && t[q].Some? && t[q].value == y;
      }
    }

    constructor (hash: T -> nat, eq: (T, T) -> bool, capacity: nat)
      requires Lawful(hash, eq) && capacity <= MAX_CAPACITY
      ensures Valid() && fresh(table) && Contents() == {} && itemCount == 0
      ensures this.hash == hash && this.eq == eq
      ensures IsSizeFor(capacity, size)
    {
      var n := SizeFor(capacity);
      table := new Option<T>[n](_ => None);
      size := n;
      itemCount := 0;
      this.hash := hash;
      this.eq := eq;
      new;
      CountEmpty(table[..]);
    }

    /** The size of a new table: the entry behind the first one that is at least the capacity. */
    static method SizeFor(capacity: nat) returns (n: nat)
      requires capacity <= MAX_CAPACITY
      ensures IsSizeFor(capacity, n)
    {
      var i := SizeIndex(capacity);
      FirstFits(capacity, i);
      n := TableSize(i + 1);
    }

    /** First entry of the size list that is at least the capacity. */
    static method SizeIndex(capacity: nat) returns (i: nat)
      requires capacity <= MAX_CAPACITY
      ensures i + 1 < TABLE_SIZES_LEN && capacity <= TableSize(i)
      ensures forall j :: 0 <= j < i ==> TableSize(j) < capacity
    {
      i := 0;
      while i < TABLE_SIZES_LEN && TableSize(i) < capacity
        invariant i < TABLE_SIZES_LEN - 1
        invariant forall j :: 0 <= j < i ==> TableSize(j) < capacity
      {
        i := i + 1;
      }
    }

    /** The probe loop shared by get, add and remove. */
    method Probe(item: T) returns (i: nat, t: Option<T>)
      requires Lawful(hash, eq) && table.Length == size && Count(table[..]) < size
      ensures IsSlot(table[..], hash, eq, item, i) && t == table[i]
    {
      ghost var s := table[..];
      ghost var e := FreeBucket(s);
      ghost var h := Home(hash, item, size);
      i := hash(item) % size;
      t := table[i];
      while t.Some? && t.value != item && !eq(t.value, item)
        invariant i < size && t == table[i]
        invariant Dist(h, i, size) <= Dist(h, e, size)
        invariant forall q | 0 <= q < size && Dist(h, q, size) < Dist(h, i, size) :: s[q].Some? && !eq(s[q].value, item)
        decreases Dist(h, e, size) - Dist(h, i, size)
      {
        NextBucket(h, i, size);
        i := (i + 1) % size;
        t := table[i];
      }
    }

    method Get(item: T) returns (r: Option<T>)
      requires Valid()
      ensures IsLookup(eq, Contents(), item, r)
    {
      LimitLeavesRoom(size);
      var i;
      i, r := Probe(item);
      SlotDecides(table[..], hash, eq, item, i);
    }

    method Contains(item: T) returns (b: bool)
      requires Valid()
      ensures b <==> exists y | y in Contents() :: eq(y, item)
    {
      var r := Get(item);
      b := r.Some?;
    }

    /** Insert or replace. Under the load limit the effect on a table in any probeable state is exactly one
        bucket write at the slot; on a valid table the set gains the item and loses its equal. */
    method Add(item: T) returns (replaced: Option<T>)
      requires Counted() && itemCount < MAX_ITEMS
      requires itemCount < Limit(size) || Valid()
      modifies this, table
      ensures fresh(table) || table == old(table)
      ensures old(itemCount) < Limit(old(size)) ==>
        table == old(table) && size == old(size) && Counted() &&
        exists s: nat :: IsSlot(old(table[..]), hash, eq, item, s) && replaced == old(table[..])[s] &&
                    table[..] == old(table[..])[s := Some(item)]
      ensures old(Valid()) ==>
        Valid() && IsLookup(eq, old(Contents()), item, replaced) &&
        Contents() == old(Contents()) - (if replaced.Some? then {replaced.value} else {}) + {item}
      ensures itemCount == old(itemCount) + (if replaced.Some? then 0 else 1)
      ensures itemCount <= Limit(old(size)) ==> table == old(table) && size == old(size)
      ensures itemCount > Limit(old(size)) ==> fresh(table) && IsSizeFor(old(size), size)
      decreases if itemCount < Limit(size) then 0 else 3
    {
      LimitLeavesRoom(size);
      ghost var t0 := table[..];
      ghost var wasValid := Valid();
      var i;
      i, replaced := Probe(item);
      if replaced.None? {
        itemCount := itemCount + 1;
      }
      table[i] := Some(item);
      CountUpdate(t0, i, Some(item));
      assert table[..] == t0[i := Some(item)];
      if wasValid {
        SlotDecides(t0, hash, eq, item, i);
        PlaceKeepsWellFormed(t0, hash, eq, item, i);
        assert replaced.Some? ==> t0[i].value in Items(t0);
      }
      if itemCount > (size + 2) / 3 * 2 {
        Grow(size);
      }
    }

    /** Rebuild the table with the next size up; the set stays the same. */
    method Grow(capacity: nat)
      requires Sound() && itemCount <= Limit(size) + 1
      requires size <= capacity <= MAX_CAPACITY
      modifies this
      ensures Valid() && fresh(table) && size > old(size) && IsSizeFor(capacity, size)
      ensures Contents() == old(Contents()) && itemCount == old(itemCount)
      decreases 2
    {
      var newSet := new Set<T>(hash, eq, capacity);
      GrownLimit(size, newSet.size);
      newSet.Union(this);
      ContentsAreDistinct();
      newSet.ContentsAreDistinct();
      table := newSet.table;
      size := newSet.size;
      itemCount := newSet.itemCount;
    }

    /** Add every item of the other set. */
    method Union(other: Set<T>)
      requires Valid() && other.Sound() && other.hash == hash && other.eq == eq
      requires other != this && other.table != table
      requires itemCount + other.itemCount <= MAX_ITEMS
      modifies this, table
      ensures Valid() && (fresh(table) || table == old(table))
      ensures Contents() == Merged(eq, old(Contents()), old(other.Contents()))
      ensures itemCount <= old(itemCount) + other.itemCount
      ensures old(itemCount) + other.itemCount <= Limit(old(size)) ==> size == old(size) && table == old(table)
      decreases if itemCount + other.itemCount <= Limit(size) then 1 else 4
    {
      ghost var o := other.table[..];
      ghost var s0 := Contents();
      ghost var fits := itemCount + other.itemCount <= Limit(size);
      var i := 0;
      while i < other.size
        invariant i <= other.size && other.table[..] == o && other.table != table
        invariant Valid() && (fresh(table) || table == old(table))
        invariant Contents() == Merged(eq, s0, Items(o[..i]))
        invariant itemCount <= old(itemCount) + Count(o[..i])
        invariant fits ==> size == old(size) && table == old(table)
      {
        var t := other.table[i];
        CountPrefix(o, i);
        assert o[..i + 1][..i] == o[..i];
        if t.Some? {
          ghost var s1 := Contents();
          var r := Add(t.value);
          MergeOne(eq, s0, o, i, s1, r);
        } else {
          ItemsPrefix(o, i);
        }
        i := i + 1;
      }
      assert o[..i] == o;
    }

    /** Takes the item in bucket i behind a removed one out and adds it again. */
    method Reinsert(ghost t0: Table<T>, ghost g: nat, i: nat, ghost e: nat, x: T)
      requires Lawful(hash, eq) && WellFormed(t0, hash, eq) && size == |t0| && Counted()
      requires i < size && table[i] == Some(x) && Cleaning(t0, table[..], hash, eq, g, i, e)
      modifies this, table
      ensures table == old(table) && size == old(size) && Counted() && itemCount == old(itemCount)
      ensures Cleaning(t0, table[..], hash, eq, g, (i + 1) % size, e)
    {
      ghost var t1 := table[..];
      CountUpdate(t1, i, None);
      itemCount := itemCount - 1;
      table[i] := None;
      assert table[..] == t1[i := None];
      var r := Add(x);
      ghost var s: nat :| IsSlot(t1[i := None], hash, eq, x, s) && r == t1[i := None][s] &&
                     table[..] == t1[i := None][s := Some(x)];
      CleaningStep(t0, t1, hash, eq, g, i, e, x, s);
    }

    /** Files the items again that follow the emptied bucket g, up to the next empty one. */
    method Refile(ghost t0: Table<T>, ghost g: nat, from: nat, ghost e: nat)
      requires Lawful(hash, eq) && WellFormed(t0, hash, eq) && size == |t0| && Counted()
      requires Cleaning(t0, table[..], hash, eq, g, from, e)
      modifies this, table
      ensures table == old(table) && size == old(size) && Counted() && itemCount == old(itemCount)
      ensures Cleaning(t0, table[..], hash, eq, g, e, e)
    {
      ghost var tbl := table;
      var i := from;
      var t := table[i];
      while t.Some?
        invariant table == tbl && size == |t0| && Counted() && itemCount == old(itemCount)
        invariant i < size && t == table[i]
        invariant Cleaning(t0, table[..], hash, eq, g, i, e)
        decreases Dist(g, e, size) - Dist(g, i, size)
      {
        NextBucket(g, i, size);
        Reinsert(t0, g, i, e, t.value);
        i := (i + 1) % size;
        t := table[i];
      }
    }

    /** Remove the equal item, then empty and re-insert the rest of its probe cluster. The table is broken in between
        (see Cleaning); no re-insertion can grow it, so the bucket count read at the start stays right. */
    method Remove(item: T) returns (removed: Option<T>)
      requires Valid()
      modifies this, table
      ensures Valid() && table == old(table) && size == old(size)
      ensures IsLookup(eq, old(Contents()), item, removed)
      ensures Contents() == old(Contents()) - (if removed.Some? then {removed.value} else {})
      ensures itemCount == old(itemCount) - (if removed.Some? then 1 else 0)
      ensures removed.None? ==> table[..] == old(table[..])
      ensures removed.Some? ==>
        exists g: nat :: g < old(size) && old(table[..])[g] == removed && MovedBack(old(table[..]), table[..], g)
    {
      LimitLeavesRoom(size);
      ghost var t0 := table[..];
      var i;
      i, removed := Probe(item);
      SlotDecides(t0, hash, eq, item, i);
      if removed.Some? {
        ghost var g := i;
        ghost var f := FreeBucket(t0);
        ghost var e := ClusterEnd(t0, g, f);
        assert removed.value in Items(t0);
        CleaningStarts(t0, hash, eq, g, e);
        CountUpdate(t0, i, None);
        itemCount := itemCount - 1;
        table[i] := None;
        assert table[..] == t0[g := None];
        Refile(t0, g, (i + 1) % size, e);
        CleaningEnds(t0, table[..], hash, eq, g, e);
      }
    }

    /** Remove everything equal to an item of the other set. */
    method Minus(other: Set<T>)
      requires Valid() && other.Valid() && other.hash == hash && other.eq == eq
      requires other != this && other.table != table
      modifies this, table
      ensures Valid() && table == old(table)
      ensures Contents() == Without(eq, old(Contents()), old(other.Contents()))
    {
      ghost var o := other.table[..];
      ghost var s0 := Contents();
      ContentsAreDistinct();
      var i := 0;
      while i < other.size
        invariant i <= other.size && other.table[..] == o && table == old(table)
        invariant Valid()
        invariant Contents() == Without(eq, s0, Items(o[..i]))
      {
        var t := other.table[i];
        ItemsPrefix(o, i);
        if t.Some? {
          ghost var s1 := Contents();
          var r := Remove(t.value);
          MinusOne(eq, s0, Items(o[..i]), t.value, s1, r);
        }
        i := i + 1;
      }
      assert o[..i] == o;
    }

    /** Remove everything that has no equal in the other set, editing the table while scanning it. */
    method Intersect(other: Set<T>)
      requires Valid() && other.Valid() && other.hash == hash && other.eq == eq
      requires other != this && other.table != table
      modifies this, table
      ensures Valid() && table == old(table)
      ensures Contents() == Common(eq, old(Contents()), old(other.Contents()))
    {
      ghost var d := other.Contents();
      ghost var s0 := Contents();
      var i, n := 0, size;
      while i < n
        invariant i <= n == size && table == old(table) && other.table != table
        invariant Valid() && other.Valid() && other.Contents() == d
        invariant Common(eq, s0, d) <= Contents() <= s0
        invariant Scanned(table[..], eq, d, i)
        decreases itemCount, n - i
      {
        ghost var t0 := table[..];
        var t := table[i];
        var found := false;
        if t.Some? {
          found := other.Contains(t.value);
          assert t.value in Contents();
        }
        if t.Some? && !found {
          var r := Remove(t.value);
          RemovedHere(t0, table[..], hash, eq, d, i, r);
        } else {
          i := i + 1;
        }
      }
    }

    method Clear()
      requires Valid()
      modifies this, table
      ensures Valid() && table == old(table) && Contents() == {} && itemCount == 0
    {
      forall i | 0 <= i < table.Length {
        table[i] := None;
      }
      itemCount := 0;
      CountEmpty(table[..]);
    }

    lemma GrownLimit(small: nat, big: nat)
      requires IsTableSize(small) && IsTableSize(big) && small < big
      ensures Limit(small) + 1 <= Limit(big)
    {
      var j :| 1 <= j < TABLE_SIZES_LEN && TableSize(j) == small;
      var k :| 1 <= k < TABLE_SIZES_LEN && TableSize(k) == big;
      if k <= j {
        SizesSorted(k, j);
      } else {
        SizesSorted(j, k);
      }
    }
  }

  lemma ItemsPrefix<T>(o: Table<T>, i: nat)
    requires i < |o|
    ensures Items(o[..i + 1]) == Items(o[..i]) + (if o[i].Some? then {o[i].value} else {})
  {
    var a, b := o[..i], o[..i + 1];
    forall y | y in Items(a) ensures y in Items(b) {
      var p :| 0 <= p < |a| && a[p].Some? && a[p].value == y;
      assert b[p] == a[p];
    }
    if o[i].Some? {
      assert b[i].value in Items(b);
    }
    forall y | y in Items(b) ensures y in Items(a) + (if o[i].Some? then {o[i].value} else {}) {
      var p :| 0 <= p < |b| && b[p].Some? && b[p].value == y;
      if p < i {
        assert a[p] == b[p];
      }
    }
  }

  lemma {:induction false} CountPrefix<T>(o: Table<T>, i: nat)
    requires i < |o|
    ensures Count(o[..i]) + (if o[i].Some? then 1 else 0) <= Count(o)
    decreases |o|
  {
    if i < |o| - 1 {
      var u := o[..|o| - 1];
      assert u[..i] == o[..i];
      CountPrefix(u, i);
    }
  }

  lemma MergeOne<T(!new)>(eq: (T, T) -> bool, s0: set<T>, o: Table<T>, i: nat, s1: set<T>, r: Option<T>)
    requires forall x, y, z :: eq(x, x) && (eq(x, y) ==> eq(y, x)) && (eq(x, y) && eq(y, z) ==> eq(x, z))
    requires NoDuplicates(o, eq) && i < |o| && o[i].Some?
    requires Distinct(eq, s0)
    requires s1 == Merged(eq, s0, Items(o[..i])) && IsLookup(eq, s1, o[i].value, r)
    ensures s1 - (if r.Some? then {r.value} else {}) + {o[i].value} == Merged(eq, s0, Items(o[..i + 1]))
  {
    var t := o[i].value;
    var d := Items(o[..i]);
    ItemsPrefix(o, i);
    forall y | y in d ensures !eq(y, t) {
      var p :| 0 <= p < i && o[..i][p].Some? && o[..i][p].value == y;
      assert o[p].value == y;
    }
  }

  lemma MinusOne<T(!new)>(eq: (T, T) -> bool, s0: set<T>, d: set<T>, t: T, s1: set<T>, r: Option<T>)
    requires forall x, y, z :: eq(x, x) && (eq(x, y) ==> eq(y, x)) && (eq(x, y) && eq(y, z) ==> eq(x, z))
    requires Distinct(eq, s0)
    requires s1 == Without(eq, s0, d) && IsLookup(eq, s1, t, r)
    ensures s1 - (if r.Some? then {r.value} else {}) == Without(eq, s0, d + {t})
  {
  }

  /** Buckets before i hold only items that the other set has too. */
  ghost predicate Scanned<T(!new)>(t: Table<T>, eq: (T, T) -> bool, d: set<T>, i: nat) {
    forall p | 0 <= p < i && p < |t| && t[p].Some? :: exists y | y in d :: eq(t[p].value, y)
  }

  /** Removing the item of bucket i never moves an unscanned item into a scanned bucket: survivors only move towards i,
      and those that do so from behind i stay behind it. */
  lemma RemovedHere<T(!new)>(t0: Table<T>, t: Table<T>, hash: T -> nat, eq: (T, T) -> bool, d: set<T>, i: nat,
                             r: Option<T>)
    requires Lawful(hash, eq) && NoDuplicates(t0, eq) && i < |t0| && t0[i].Some?
    requires IsLookup(eq, Items(t0), t0[i].value, r)
    requires Items(t) == Items(t0) - (if r.Some? then {r.value} else {})
    requires r.Some? ==> exists g: nat :: g < |t0| && t0[g] == r && MovedBack(t0, t, g)
    requires |t| == |t0|
    requires Scanned(t0, eq, d, i)
    ensures r == t0[i]
    ensures Scanned(t, eq, d, i)
  {
    assert t0[i].value in Items(t0);
    var g: nat :| g < |t0| && t0[g] == r && MovedBack(t0, t, g);
    assert g == i;
    forall p | 0 <= p < i && t[p].Some? ensures exists y | y in d :: eq(t[p].value, y) {
      assert t[p].value in Items(t);
      var q :| 0 <= q < |t0| && t0[q].Some? && t0[q].value == t[p].value;
      assert t[p] == t0[q];
    }
  }
}
