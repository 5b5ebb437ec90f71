/**
 * sortMedicines of MedicineList.tsx: a copy of the list sorted, stably, by
 * the "as of now" remaining days or expiry instant, ascending or descending.
 * sortMedicines calls Array.prototype.sort, which is stable, on a fresh copy;
 * here the copy is an array sorted in place by insertion sort, proved equal
 * to a functional stable sort whose properties are proved separately.
 * The sort itself is stated for any element type and integer key; the
 * medicine key is plugged in by SortMedicines.
 */
module MedicineSort {
  import opened MedicineTypes
  import opened Projection

  // ---------------------------------------------------------------------
  // Stable sort by an integer key
  // ---------------------------------------------------------------------

  /** Keys never decrease along `s`. */
  predicate Ordered<T>(s: seq<T>, key: T -> int) {
    forall i, j :: 0 <= i < j < |s| ==> key(s[i]) <= key(s[j])
  }

  /**
   * Insert `x` into `sorted` after every element whose key is not larger:
   * one step of a stable insertion sort.
   */
  function Insert<T>(sorted: seq<T>, x: T, key: T -> int): (r: seq<T>)
    ensures |r| == |sorted| + 1
    decreases |sorted|
  {
    if sorted == [] then [x]
    else if key(sorted[|sorted| - 1]) <= key(x) then sorted + [x]
    else Insert(sorted[..|sorted| - 1], x, key) + [sorted[|sorted| - 1]]
  }

  /** A stable sort by ascending key: insertion of each element in list order. */
  function StableSort<T>(s: seq<T>, key: T -> int): (r: seq<T>)
    ensures |r| == |s|
    decreases |s|
  {
    if s == [] then []
    else Insert(StableSort(s[..|s| - 1], key), s[|s| - 1], key)
  }

  /** Insertion adds exactly `x`. */
  lemma {:induction false} InsertPermutes<T>(sorted: seq<T>, x: T, key: T -> int)
    ensures multiset(Insert(sorted, x, key)) == multiset(sorted) + multiset{x}
    decreases |sorted|
  {
    if sorted != [] {
      var init, last := sorted[..|sorted| - 1], sorted[|sorted| - 1];
      assert sorted == init + [last];
      if key(last) > key(x) {
        InsertPermutes(init, x, key);
      }
    }
  }

  /** The stable sort is a permutation of its input. */
  lemma {:induction false} StableSortPermutes<T>(s: seq<T>, key: T -> int)
    ensures multiset(StableSort(s, key)) == multiset(s)
    decreases |s|
  {
    if s != [] {
      var init, x := s[..|s| - 1], s[|s| - 1];
      assert s == init + [x];
      StableSortPermutes(init, key);
      InsertPermutes(StableSort(init, key), x, key);
    }
  }

  /** Every element of `s` has key at most `bound`. */
  predicate KeysAtMost<T>(s: seq<T>, bound: int, key: T -> int) {
    forall i :: 0 <= i < |s| ==> key(s[i]) <= bound
  }

  lemma {:induction false} InsertKeysAtMost<T>(sorted: seq<T>, x: T, bound: int, key: T -> int)
    requires KeysAtMost(sorted, bound, key) && key(x) <= bound
    ensures KeysAtMost(Insert(sorted, x, key), bound, key)
    decreases |sorted|
  {
    if sorted != [] {
      var init := sorted[..|sorted| - 1];
      if key(sorted[|sorted| - 1]) > key(x) {
        InsertKeysAtMost(init, x, bound, key);
      }
    }
  }

  /** Inserting into an ordered sequence gives an ordered sequence. */
  lemma {:induction false} InsertOrdered<T>(sorted: seq<T>, x: T, key: T -> int)
    requires Ordered(sorted, key)
    ensures Ordered(Insert(sorted, x, key), key)
    decreases |sorted|
  {
    if sorted != [] {
      var last := sorted[|sorted| - 1];
      var init := sorted[..|sorted| - 1];
      if key(last) > key(x) {
        InsertOrdered(init, x, key);
        InsertKeysAtMost(init, x, key(last), key);
      }
    }
  }

  /** The stable sort orders by key. */
  lemma {:induction false} StableSortOrdered<T>(s: seq<T>, key: T -> int)
    ensures Ordered(StableSort(s, key), key)
    decreases |s|
  {
    if s != [] {
      StableSortOrdered(s[..|s| - 1], key);
      InsertOrdered(StableSort(s[..|s| - 1], key), s[|s| - 1], key);
    }
  }

  /** The elements of `s` whose key is `k`, in list order. */
  function WithKey<T>(s: seq<T>, k: int, key: T -> int): seq<T> {
    if s == [] then []
    else (if key(s[0]) == k then [s[0]] else []) + WithKey(s[1..], k, key)
  }

  lemma {:induction false} WithKeyAppend<T>(a: seq<T>, b: seq<T>, k: int, key: T -> int)
    ensures WithKey(a + b, k, key) == WithKey(a, k, key) + WithKey(b, k, key)
    decreases |a|
  {
    if a == [] {
      assert a + b == b;
    } else {
      var head := if key(a[0]) == k then [a[0]] else [];
      assert (a + b)[0] == a[0];
      assert (a + b)[1..] == a[1..] + b;
      WithKeyAppend(a[1..], b, k, key);
      calc {
        WithKey(a + b, k, key);
        head + WithKey(a[1..] + b, k, key);
        head + (WithKey(a[1..], k, key) + WithKey(b, k, key));
        (head + WithKey(a[1..], k, key)) + WithKey(b, k, key);
        WithKey(a, k, key) + WithKey(b, k, key);
      }
    }
  }

  /** Inserting `x` puts it after every element of equal key. */
  lemma {:induction false} InsertWithKey<T>(sorted: seq<T>, x: T, k: int, key: T -> int)
    ensures WithKey(Insert(sorted, x, key), k, key) == WithKey(sorted + [x], k, key)
    decreases |sorted|
  {
    if sorted != [] {
      var last := sorted[|sorted| - 1];
      var init := sorted[..|sorted| - 1];
      assert sorted == init + [last];
      if key(last) > key(x) {
        InsertWithKey(init, x, k, key);
        WithKeyAppend(Insert(init, x, key), [last], k, key);
        WithKeyAppend(init + [x], [last], k, key);
        WithKeyAppend(init, [x], k, key);
        WithKeyAppend(init + [last], [x], k, key);
        WithKeyAppend(init, [last], k, key);
        WithKeyAppend([x], [last], k, key);
        WithKeyAppend([last], [x], k, key);
        assert init + [x] + [last] == init + ([x] + [last]);
        assert init + [last] + [x] == init + ([last] + [x]);
        WithKeyAppend(init, [x] + [last], k, key);
        WithKeyAppend(init, [last] + [x], k, key);
      }
    }
  }

  /** Stability: the elements of each key keep their input order. */
  lemma {:induction false} StableSortStable<T>(s: seq<T>, k: int, key: T -> int)
    ensures WithKey(StableSort(s, key), k, key) == WithKey(s, k, key)
    decreases |s|
  {
    if s != [] {
      var init, x := s[..|s| - 1], s[|s| - 1];
      assert s == init + [x];
      StableSortStable(init, k, key);
      InsertWithKey(StableSort(init, key), x, k, key);
      WithKeyAppend(StableSort(init, key), [x], k, key);
      WithKeyAppend(init, [x], k, key);
    }
  }

  /**
   * `x` lands at position `j` when every element from `j` on is keyed above
   * it and the element before `j`, if any, is not.
   */
  lemma {:induction false} InsertAt<T>(s: seq<T>, j: int, x: T, key: T -> int)
    requires 0 <= j <= |s|
    requires forall k :: j <= k < |s| ==> key(s[k]) > key(x)
    requires j == 0 || key(s[j - 1]) <= key(x)
    ensures Insert(s, x, key) == s[..j] + [x] + s[j..]
    decreases |s|
  {
    if j < |s| {
      var init, last := s[..|s| - 1], s[|s| - 1];
      assert s == init + [last];
      assert key(last) > key(x);
      assert Insert(s, x, key) == Insert(init, x, key) + [last];
      forall k | j <= k < |init|
        ensures key(init[k]) > key(x)
      {
        assert init[k] == s[k];
      }
      assert j == 0 || init[j - 1] == s[j - 1];
      InsertAt(init, j, x, key);
      assert init[..j] == s[..j];
      assert s[j..] == init[j..] + [last];
    } else {
      assert s[..j] == s && s[j..] == [];
    }
  }

  /** Sorting one more element is inserting it into the sorted prefix. */
  lemma StableSortPrefix<T>(s: seq<T>, i: int, key: T -> int)
    requires 0 <= i < |s|
    ensures StableSort(s[..i + 1], key) == Insert(StableSort(s[..i], key), s[i], key)
  {
    assert s[..i + 1][..i] == s[..i];
    assert s[..i + 1][i] == s[i];
  }

  /**
   * Moves a[i] left past every element of the sorted prefix a[..i] keyed
   * above it, shifting those one place right.
   */
  method InsertLast<T>(a: array<T>, i: int, key: T -> int)
    requires 0 <= i < a.Length
    modifies a
    ensures a[..i + 1] == Insert(old(a[..i]), old(a[i]), key)
    ensures a[i + 1..] == old(a[i + 1..])
  {
    ghost var prefix := a[..i];
    var x := a[i];
    var j := i;
    while j > 0 && key(a[j - 1]) > key(x)
      invariant 0 <= j <= i
      invariant forall k :: 0 <= k < j ==> a[k] == prefix[k]
      invariant forall k :: j < k <= i ==> a[k] == prefix[k - 1]
      invariant forall k :: i < k < a.Length ==> a[k] == old(a[k])
      invariant forall k :: j <= k < i ==> key(prefix[k]) > key(x)
    {
      a[j] := a[j - 1];
      j := j - 1;
    }
    a[j] := x;
    InsertAt(prefix, j, x, key);
    assert a[..i + 1] == prefix[..j] + [x] + prefix[j..];
  }

  /**
   * Insertion sort of `a` in place, by ascending key; equal keys keep
   * their order.
   */
  method InsertionSort<T>(a: array<T>, key: T -> int)
    modifies a
    ensures a[..] == StableSort(old(a[..]), key)
  {
    ghost var s := a[..];
    var i := 0;
    while i < a.Length
      invariant 0 <= i <= a.Length
      invariant a[..i] == StableSort(s[..i], key)
      invariant a[i..] == s[i..]
    {
      StableSortPrefix(s, i, key);
      assert a[i] == s[i];
      assert a[i + 1..] == s[i + 1..];
      InsertLast(a, i, key);
      i := i + 1;
    }
    assert s[..i] == s;
  }

  /** Under a negated key, the group of key `k` is the group of key `-k`. */
  lemma {:induction false} WithNegatedKey<T>(s: seq<T>, k: int, key: T -> int, neg: T -> int)
    requires forall x :: neg(x) == -key(x)
    ensures WithKey(s, k, neg) == WithKey(s, -k, key)
    decreases |s|
  {
    if s != [] {
      WithNegatedKey(s[1..], k, key, neg);
    }
  }

  /**
   * Sorting by a key, then by its negation, then by the key again keeps
   * every group of equal key in its original order. This is a property of
   * the stable sort itself, not of a sequence of calls the list makes.
   */
  lemma ToggleKeepsGroups<T>(s: seq<T>, k: int, key: T -> int, neg: T -> int)
    requires forall x :: neg(x) == -key(x)
    ensures WithKey(StableSort(StableSort(StableSort(s, key), neg), key), k, key) == WithKey(s, k, key)
  {
    var s1 := StableSort(s, key);
    var s2 := StableSort(s1, neg);
    calc {
      WithKey(StableSort(s2, key), k, key);
      { StableSortStable(s2, k, key); }
      WithKey(s2, k, key);
      { WithNegatedKey(s2, -k, key, neg); }
      WithKey(s2, -k, neg);
      { StableSortStable(s1, -k, neg); }
      WithKey(s1, -k, neg);
      { WithNegatedKey(s1, -k, key, neg); }
      WithKey(s1, k, key);
      { StableSortStable(s, k, key); }
      WithKey(s, k, key);
    }
  }

  // ---------------------------------------------------------------------
  // The medicine list's sort
  // ---------------------------------------------------------------------

  datatype SortField = RemainingDaysField | ReplenishDateField
  datatype SortDirection = Asc | Desc

  /** The sort's settings, with the clock reading the comparator's expiry calls see. */
  datatype SortOrder = SortOrder(field: SortField, direction: SortDirection, now: int)

  /**
   * Every record has a positive daily usage. calculateMedicineExpiry divides
   * by the daily usage; a record without one gets an Infinity remaining-days
   * key (or NaN when it has no stock) and an Invalid Date expiry instant, so
   * the model sorts only lists of records with daily usage.
   */
  predicate Sortable(meds: seq<Medicine>) {
    forall m :: m in meds ==> DailyUsage(m.doses) > 0.0
  }

  /**
   * The comparator's key: remaining days or the expiry instant, as of `now`.
   * Remaining days are the whole days the full stock lasts less the days
   * passed since the baseline, never below zero; the expiry instant is the
   * baseline plus the whole days the full stock lasts, whatever `now` is.
   */
  function FieldKey(m: Medicine, o: SortOrder): (k: int)
    requires DailyUsage(m.doses) > 0.0
    ensures o.field == RemainingDaysField ==> k >= 0
    ensures o.field == RemainingDaysField ==>
      k == if (TotalUnits(m) / DailyUsage(m.doses)).Floor - DaysPassed(m, o.now) > 0
           then (TotalUnits(m) / DailyUsage(m.doses)).Floor - DaysPassed(m, o.now)
           else 0
    ensures o.field == ReplenishDateField ==>
      k == Baseline(m) + (TotalUnits(m) / DailyUsage(m.doses)).Floor * DayMillis
  {
    ExpiryRemainingDaysAtAnyTime(m, o.now);
    ExpiryDateFromBaseline(m, o.now);
    var e := MedicineExpiry(m, o.now);
    match o.field
    case RemainingDaysField => e.remainingDays
    case ReplenishDateField => e.expiryDate
  }

  /**
   * The position key of the sort: the field key for 'asc', its negation for
   * 'desc', so that the sort orders by ascending Rank. Lists with a record
   * without daily usage are outside the model (see Sortable); such a record
   * is given rank 0 only so that Rank is total.
   */
  function Rank(m: Medicine, o: SortOrder): (r: int)
    ensures DailyUsage(m.doses) > 0.0 && o.direction == Asc ==> r == FieldKey(m, o)
    ensures DailyUsage(m.doses) > 0.0 && o.direction == Desc ==> r == -FieldKey(m, o)
  {
    if DailyUsage(m.doses) <= 0.0 then 0
    else if o.direction == Asc then FieldKey(m, o)
    else -FieldKey(m, o)
  }

  /**
   * The comparator passed to sort: key(a) - key(b) for 'asc', its negation
   * for 'desc'. It is the difference of the ranks, so it is antisymmetric
   * and zero exactly on records whose field keys are equal.
   */
  function Comparator(a: Medicine, b: Medicine, o: SortOrder): (c: int)
    requires DailyUsage(a.doses) > 0.0 && DailyUsage(b.doses) > 0.0
    ensures c == Rank(a, o) - Rank(b, o)
    ensures c == 0 <==> FieldKey(a, o) == FieldKey(b, o)
  {
    var comparison := FieldKey(a, o) - FieldKey(b, o);
    if o.direction == Asc then comparison else -comparison
  }

  /** In an ordered list the comparator never asks for a swap of an earlier and a later record. */
  lemma OrderedComparator(s: seq<Medicine>, o: SortOrder)
    requires Sortable(s) && Ordered(s, RankKey(o))
    ensures forall i, j :: 0 <= i < j < |s| ==> Comparator(s[i], s[j], o) <= 0
  {
    forall i, j | 0 <= i < j < |s|
      ensures Comparator(s[i], s[j], o) <= 0
    {
      assert s[i] in s && s[j] in s;
      assert RankKey(o)(s[i]) <= RankKey(o)(s[j]);
    }
  }

  /** Rank as a key function for the generic sort. */
  function RankKey(o: SortOrder): Medicine -> int {
    m => Rank(m, o)
  }

  /** In the descending rank every record's rank is negated. */
  lemma DescendingNegatesRank(o: SortOrder)
    requires o.direction == Asc
    ensures forall m :: RankKey(o.(direction := Desc))(m) == -RankKey(o)(m)
  {
  }

  /**
   * Sorting ascending, then descending, then ascending again leaves every
   * group of records with equal key in its original relative order. The
   * list view itself sorts the store's list afresh on every render, so this
   * states what the stable sort guarantees, not a chain of calls it makes.
   */
  lemma ToggleDirectionKeepsGroups(s: seq<Medicine>, o: SortOrder, k: int)
    requires o.direction == Asc
    ensures WithKey(StableSort(StableSort(StableSort(s, RankKey(o)), RankKey(o.(direction := Desc))), RankKey(o)), k, RankKey(o))
         == WithKey(s, k, RankKey(o))
  {
    DescendingNegatesRank(o);
    ToggleKeepsGroups(s, k, RankKey(o), RankKey(o.(direction := Desc)));
  }

  /** Sorting keeps exactly the records it was given, so all still have daily usage. */
  lemma SortedIsSortable(meds: seq<Medicine>, o: SortOrder)
    requires Sortable(meds)
    ensures Sortable(StableSort(meds, RankKey(o)))
  {
    var sorted := StableSort(meds, RankKey(o));
    StableSortPermutes(meds, RankKey(o));
    forall m | m in sorted
      ensures m in meds
    {
      assert m in multiset(sorted);
    }
  }

  /**
   * Ordered by rank means non-decreasing field keys for 'asc' and
   * non-increasing ones for 'desc'.
   */
  lemma OrderedFieldKeys(s: seq<Medicine>, o: SortOrder)
    requires Sortable(s) && Ordered(s, RankKey(o))
    ensures o.direction == Asc ==>
      forall i, j :: 0 <= i < j < |s| ==> FieldKey(s[i], o) <= FieldKey(s[j], o)
    ensures o.direction == Desc ==>
      forall i, j :: 0 <= i < j < |s| ==> FieldKey(s[i], o) >= FieldKey(s[j], o)
  {
    forall i, j | 0 <= i < j < |s|
      ensures o.direction == Asc ==> FieldKey(s[i], o) <= FieldKey(s[j], o)
      ensures o.direction == Desc ==> FieldKey(s[i], o) >= FieldKey(s[j], o)
    {
      assert s[i] in s && s[j] in s;
      assert RankKey(o)(s[i]) <= RankKey(o)(s[j]);
    }
  }

  /**
   * sortMedicines: a sorted copy of `meds`; `meds` itself is a value and is
   * not changed.
   */
  method SortMedicines(meds: seq<Medicine>, o: SortOrder) returns (sorted: seq<Medicine>)
    requires Sortable(meds)
    ensures sorted == StableSort(meds, RankKey(o))
    ensures multiset(sorted) == multiset(meds)
    ensures Sortable(sorted)
    ensures o.direction == Asc ==>
      forall i, j :: 0 <= i < j < |sorted| ==> FieldKey(sorted[i], o) <= FieldKey(sorted[j], o)
    ensures o.direction == Desc ==>
      forall i, j :: 0 <= i < j < |sorted| ==> FieldKey(sorted[i], o) >= FieldKey(sorted[j], o)
    ensures forall i, j :: 0 <= i < j < |sorted| ==> Comparator(sorted[i], sorted[j], o) <= 0
    ensures forall k :: WithKey(sorted, k, RankKey(o)) == WithKey(meds, k, RankKey(o))
  {
    var a := new Medicine[|meds|](i requires 0 <= i < |meds| => meds[i]);
    assert a[..] == meds;
    InsertionSort(a, RankKey(o));
    sorted := a[..];
    StableSortPermutes(meds, RankKey(o));
    SortedIsSortable(meds, o);
    StableSortOrdered(meds, RankKey(o));
    OrderedFieldKeys(sorted, o);
    OrderedComparator(sorted, o);
    forall k
      ensures WithKey(sorted, k, RankKey(o)) == WithKey(meds, k, RankKey(o))
    {
      StableSortStable(meds, k, RankKey(o));
    }
  }
}
