/**
 * The list-level computations of MedicineList.tsx other than sorting: the
 * replenishment filter and the per-time-slot and daily dose totals.
 */
module Collection {
  import opened MedicineTypes
  import opened Projection
  import opened Arith

  /** baseDate + offsetDays days: exactly `offsetDays` whole days after `baseDate`. */
  function WindowDate(baseDate: int, offsetDays: int): (w: int)
    ensures (w - baseDate) % DayMillis == 0
    ensures (w - baseDate) / DayMillis == offsetDays
  {
    baseDate + offsetDays * DayMillis
  }

  /**
   * The filter's test at `target`: the replenish date target + daysLeft days
   * is not after `target`. An unbounded supply makes an invalid date, which
   * compares false.
   */
  predicate NeedsReplenishment(m: Medicine, target: int)
    requires ValidDoses(m.doses)
    ensures NeedsReplenishment(m, target) ==> DailyUsage(m.doses) > 0.0
  {
    match RemainingDays(m, target).days
    case Unbounded => false
    case Finite(daysLeft) => target + daysLeft * DayMillis <= target
  }

  /** The test holds exactly when no whole day of supply is left at `target`. */
  lemma NeedsReplenishmentIffNoDaysLeft(m: Medicine, target: int)
    requires ValidDoses(m.doses)
    ensures NeedsReplenishment(m, target) <==> RemainingDays(m, target).days == Finite(0)
  {
    if RemainingDays(m, target).days.Finite? {
      var d := RemainingDays(m, target).days.value;
      if d > 0 {
        MulIntMonotone(1, d, DayMillis);
      }
    }
  }

  /**
   * Equivalently: the medicine is taken every day and less than one day's
   * usage is left at `target`. A medicine with no daily usage is never kept.
   */
  lemma NeedsReplenishmentIffLessThanOneDay(m: Medicine, target: int)
    requires ValidDoses(m.doses)
    ensures NeedsReplenishment(m, target)
        <==> DailyUsage(m.doses) > 0.0 && RemainingUnits(m, target) < DailyUsage(m.doses)
  {
    NeedsReplenishmentIffNoDaysLeft(m, target);
    if DailyUsage(m.doses) > 0.0 && RemainingUnits(m, target) > 0.0 {
      FloorDivIsZero(RemainingUnits(m, target), DailyUsage(m.doses));
    }
  }

  /** The medicines of `meds` that need replenishment at `target`, in list order. */
  function KeepNeedingReplenishment(meds: seq<Medicine>, target: int): (r: seq<Medicine>)
    requires AllValidDoses(meds)
    ensures forall m :: m in r <==> m in meds && NeedsReplenishment(m, target)
    ensures forall m :: multiset(r)[m] == if m in meds && NeedsReplenishment(m, target) then multiset(meds)[m] else 0
  {
    if meds == [] then []
    else
      var rest := KeepNeedingReplenishment(meds[1..], target);
      assert meds == [meds[0]] + meds[1..];
      if NeedsReplenishment(meds[0], target) then [meds[0]] + rest else rest
  }

  /**
   * filterByReplenishDate: the medicines whose supply is exhausted at
   * baseDate + offsetDays days.
   */
  function FilterByReplenishDate(meds: seq<Medicine>, baseDate: int, offsetDays: int): (r: seq<Medicine>)
    requires AllValidDoses(meds)
    ensures forall m :: m in r <==> m in meds && NeedsReplenishment(m, WindowDate(baseDate, offsetDays))
  {
    KeepNeedingReplenishment(meds, WindowDate(baseDate, offsetDays))
  }

  /** The filter keeps list order: its result is a subsequence of its input. */
  lemma {:induction false} KeepNeedingReplenishmentIsSubsequence(meds: seq<Medicine>, target: int)
    requires AllValidDoses(meds)
    ensures IsSubsequence(KeepNeedingReplenishment(meds, target), meds)
    decreases |meds|
  {
    if meds != [] {
      var rest := KeepNeedingReplenishment(meds[1..], target);
      KeepNeedingReplenishmentIsSubsequence(meds[1..], target);
      assert meds == [meds[0]] + meds[1..];
      if NeedsReplenishment(meds[0], target) {
        SubsequenceCons(rest, meds[1..], meds[0]);
      } else {
        SubsequenceExtend(rest, meds[1..], meds[0]);
      }
    }
  }

  /**
   * The filter's result is an order-preserving subsequence of the list, and
   * a medicine with zero daily usage is never in it.
   */
  lemma FilterByReplenishDateProperties(meds: seq<Medicine>, baseDate: int, offsetDays: int)
    requires AllValidDoses(meds)
    ensures IsSubsequence(FilterByReplenishDate(meds, baseDate, offsetDays), meds)
    ensures forall m :: m in FilterByReplenishDate(meds, baseDate, offsetDays) ==> DailyUsage(m.doses) > 0.0
  {
    KeepNeedingReplenishmentIsSubsequence(meds, WindowDate(baseDate, offsetDays));
    forall m | m in FilterByReplenishDate(meds, baseDate, offsetDays)
      ensures DailyUsage(m.doses) > 0.0
    {
      NeedsReplenishmentIffLessThanOneDay(m, WindowDate(baseDate, offsetDays));
    }
  }

  /** reduce((sum, med) => sum + med.doses[slot], 0): the column total of one time slot. */
  function SlotTotal(meds: seq<Medicine>, slot: TimeSlot): (total: real)
    ensures AllValidDoses(meds) ==> total >= 0.0
  {
    if meds == [] then 0.0
    else
      assert AllValidDoses(meds) ==> AllValidDoses(meds[..|meds| - 1]);
      SlotTotal(meds[..|meds| - 1], slot) + DoseAt(meds[|meds| - 1].doses, slot)
  }

  /** reduce((sum, med) => sum + (morning + noon + night), 0): the daily total. */
  function DailyTotal(meds: seq<Medicine>): (total: real)
    ensures AllValidDoses(meds) ==> total >= 0.0
  {
    if meds == [] then 0.0
    else
      assert AllValidDoses(meds) ==> AllValidDoses(meds[..|meds| - 1]);
      DailyTotal(meds[..|meds| - 1]) + DailyUsage(meds[|meds| - 1].doses)
  }

  /** The morning, noon and night totals add up to the daily total. */
  lemma {:induction false} SlotTotalsMakeDailyTotal(meds: seq<Medicine>)
    ensures SlotTotal(meds, Morning) + SlotTotal(meds, Noon) + SlotTotal(meds, Night) == DailyTotal(meds)
    decreases |meds|
  {
    if meds != [] {
      SlotTotalsMakeDailyTotal(meds[..|meds| - 1]);
    }
  }
}
