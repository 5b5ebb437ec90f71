/**
 * The per-medicine projections of MedicineList.tsx: supply left at a target
 * date, the "as of now" expiry, and the suggested number of packs to buy.
 */
module Projection {
  import opened MedicineTypes
  import opened Arith

  /** A count of whole days or units, or the `Infinity` of a medicine never taken. */
  datatype Amount = Unbounded | Finite(value: int)

  /** Result of calculateRemainingDays. */
  datatype Remaining = Remaining(days: Amount, quantity: Amount)

  /** Result of calculateMedicineExpiry; `expiryDate` is an instant in milliseconds. */
  datatype Expiry = Expiry(remainingDays: int, expiryDate: int)

  /** Result of calculateSuggestedReplenishment. */
  datatype Replenishment = Replenishment(boxes: int, total: real, newExpiry: int)

  /** `a` is no larger than `b`, where Unbounded is larger than every count. */
  predicate AtMost(a: Amount, b: Amount) {
    b.Unbounded? || (a.Finite? && a.value <= b.value)
  }

  /**
   * Whole days from the baseline to `target`, never negative: Math.max of
   * zero and the floor of the span in days.
   */
  function Elapsed(m: Medicine, target: int): (e: int)
    ensures e >= 0
    ensures target < Baseline(m) + DayMillis ==> e == 0
    ensures target >= Baseline(m) ==>
      e * DayMillis <= target - Baseline(m) < (e + 1) * DayMillis
  {
    var daysPassed := (target - Baseline(m)) / DayMillis;
    if daysPassed > 0 then daysPassed else 0
  }

  /** Units taken over `days` days: dailyUsage * days. */
  function UsageOver(m: Medicine, days: int): real {
    DailyUsage(m.doses) * days as real
  }

  /** Units left at `target`: total units minus what was taken over the elapsed days (may be negative). */
  function RemainingUnits(m: Medicine, target: int): real {
    TotalUnits(m) - UsageOver(m, Elapsed(m, target))
  }

  /**
   * calculateRemainingDays: whole days and whole units of supply left at
   * `target`; both unbounded exactly when nothing is taken per day.
   */
  function RemainingDays(m: Medicine, target: int): (r: Remaining)
    requires ValidDoses(m.doses)
    ensures DailyUsage(m.doses) == 0.0 <==> r.days.Unbounded?
    ensures DailyUsage(m.doses) == 0.0 <==> r.quantity.Unbounded?
    ensures r.days.Finite? ==> r.days.value >= 0
    ensures r.quantity.Finite? ==> r.quantity.value >= 0
  {
    var usage := DailyUsage(m.doses);
    if usage == 0.0 then Remaining(Unbounded, Unbounded)
    else
      var remaining := RemainingUnits(m, target);
      Remaining(
        Finite(if remaining > 0.0 then (remaining / usage).Floor else 0),
        Finite(if remaining > 0.0 then remaining.Floor else 0))
  }

  /**
   * Where supply is left, `days` is the largest whole number of days it
   * covers and `quantity` is the units rounded down; where none is left,
   * both are zero.
   */
  lemma RemainingDaysBracket(m: Medicine, target: int)
    requires ValidDoses(m.doses) && DailyUsage(m.doses) > 0.0
    ensures var r, rem, u := RemainingDays(m, target), RemainingUnits(m, target), DailyUsage(m.doses);
      && r.days.Finite? && r.quantity.Finite?
      && (rem <= 0.0 ==> r.days.value == 0 && r.quantity.value == 0)
      && (rem > 0.0 ==>
            && r.days.value as real * u <= rem < (r.days.value + 1) as real * u
            && r.quantity.value as real <= rem < r.quantity.value as real + 1.0)
  {
    var rem, u := RemainingUnits(m, target), DailyUsage(m.doses);
    FloorDivBracket(rem, u);
  }

  lemma ElapsedMonotone(m: Medicine, t1: int, t2: int)
    requires t1 <= t2
    ensures Elapsed(m, t1) <= Elapsed(m, t2)
  {
    DivIntMonotone(t1 - Baseline(m), t2 - Baseline(m), DayMillis);
  }

  /** A later target date never leaves more days or more units. */
  lemma {:induction false} LaterTargetNeverIncreases(m: Medicine, t1: int, t2: int)
    requires ValidDoses(m.doses) && t1 <= t2
    ensures AtMost(RemainingDays(m, t2).days, RemainingDays(m, t1).days)
    ensures AtMost(RemainingDays(m, t2).quantity, RemainingDays(m, t1).quantity)
  {
    var u := DailyUsage(m.doses);
    if u != 0.0 {
      ElapsedMonotone(m, t1, t2);
      MulMonotone(Elapsed(m, t1) as real, Elapsed(m, t2) as real, u);
      var r1, r2 := RemainingUnits(m, t1), RemainingUnits(m, t2);
      assert r2 <= r1;
      if r2 > 0.0 {
        DivMonotone(r2, r1, u);
      }
    }
  }

  /** More packs in stock, everything else equal, never leaves fewer days or units. */
  lemma {:induction false} MoreStockNeverDecreases(m: Medicine, stock: real, target: int)
    requires ValidDoses(m.doses) && m.specification >= 0.0 && m.stock <= stock
    ensures AtMost(RemainingDays(m, target).days, RemainingDays(m.(stock := stock), target).days)
    ensures AtMost(RemainingDays(m, target).quantity, RemainingDays(m.(stock := stock), target).quantity)
  {
    var m' := m.(stock := stock);
    var u := DailyUsage(m.doses);
    if u != 0.0 {
      MulMonotone(m.stock, stock, m.specification);
      assert Elapsed(m', target) == Elapsed(m, target);
      var r1, r2 := RemainingUnits(m, target), RemainingUnits(m', target);
      assert r1 <= r2;
      if r1 > 0.0 {
        DivMonotone(r1, r2, u);
      }
    }
  }

  /**
   * A target before the end of the baseline's first day consumes nothing: a
   * saved record then has its whole stock left.
   */
  lemma NothingConsumedBeforeFirstDay(m: Medicine, target: int)
    requires ValidMedicine(m) && DailyUsage(m.doses) > 0.0
    requires target < Baseline(m) + DayMillis
    ensures RemainingDays(m, target).quantity == Finite(TotalUnits(m).Floor)
    ensures RemainingDays(m, target).days == Finite((TotalUnits(m) / DailyUsage(m.doses)).Floor)
  {
    DivIntMonotone(target - Baseline(m), DayMillis - 1, DayMillis);
    assert Elapsed(m, target) == 0;
    assert RemainingUnits(m, target) == TotalUnits(m);
    MulMonotone(0.1, m.stock, m.specification);
    MulMonotone(1.0, m.specification, 0.1);
  }

  /** Whole days from the baseline to `now`, not clamped: negative before the baseline. */
  function DaysPassed(m: Medicine, now: int): int {
    (now - Baseline(m)) / DayMillis
  }

  /** floor((total - usage * daysPassed) / usage), before the clamp at zero. */
  function RawRemainingDays(m: Medicine, now: int): int
    requires DailyUsage(m.doses) > 0.0
  {
    ((TotalUnits(m) - UsageOver(m, DaysPassed(m, now))) / DailyUsage(m.doses)).Floor
  }

  /**
   * calculateMedicineExpiry: days left as of `now` and the depletion instant
   * (baseline + daysPassed + remainingDays days). calculateMedicineExpiry
   * divides by the daily usage without a guard.
   */
  function MedicineExpiry(m: Medicine, now: int): (e: Expiry)
    requires DailyUsage(m.doses) > 0.0
    ensures e.remainingDays >= 0
  {
    var remainingDays := RawRemainingDays(m, now);
    Expiry(
      if remainingDays > 0 then remainingDays else 0,
      Baseline(m) + (DaysPassed(m, now) + remainingDays) * DayMillis)
  }

  /**
   * The expiry instant is the baseline plus the whole days the full stock
   * covers; it does not depend on `now`.
   */
  lemma ExpiryDateFromBaseline(m: Medicine, now: int)
    requires DailyUsage(m.doses) > 0.0
    ensures MedicineExpiry(m, now).expiryDate
         == Baseline(m) + (TotalUnits(m) / DailyUsage(m.doses)).Floor * DayMillis
  {
    FloorShift(TotalUnits(m), UsageOver(m, DaysPassed(m, now)), DailyUsage(m.doses), DaysPassed(m, now));
    assert DaysPassed(m, now) + RawRemainingDays(m, now) == (TotalUnits(m) / DailyUsage(m.doses)).Floor;
  }

  /**
   * At any `now`, also before the baseline where daysPassed is negative and
   * not clamped, the "as of now" days are the whole days the full stock
   * covers minus the days passed, clamped at zero.
   */
  lemma ExpiryRemainingDaysAtAnyTime(m: Medicine, now: int)
    requires DailyUsage(m.doses) > 0.0
    ensures MedicineExpiry(m, now).remainingDays
         == if (TotalUnits(m) / DailyUsage(m.doses)).Floor - DaysPassed(m, now) > 0
            then (TotalUnits(m) / DailyUsage(m.doses)).Floor - DaysPassed(m, now)
            else 0
  {
    FloorShift(TotalUnits(m), UsageOver(m, DaysPassed(m, now)), DailyUsage(m.doses), DaysPassed(m, now));
    assert RawRemainingDays(m, now) == (TotalUnits(m) / DailyUsage(m.doses)).Floor - DaysPassed(m, now);
  }

  /** Two calls at different times give the same expiry instant. */
  lemma ExpiryDateIndependentOfNow(m: Medicine, now1: int, now2: int)
    requires DailyUsage(m.doses) > 0.0
    ensures MedicineExpiry(m, now1).expiryDate == MedicineExpiry(m, now2).expiryDate
  {
    ExpiryDateFromBaseline(m, now1);
    ExpiryDateFromBaseline(m, now2);
  }

  /**
   * Once `now` is at or past the baseline, the "as of now" days agree with
   * calculateRemainingDays at `now`.
   */
  lemma ExpiryAgreesWithRemainingDays(m: Medicine, now: int)
    requires ValidDoses(m.doses) && DailyUsage(m.doses) > 0.0 && Baseline(m) <= now
    ensures RemainingDays(m, now).days == Finite(MedicineExpiry(m, now).remainingDays)
  {
    DivIntMonotone(0, now - Baseline(m), DayMillis);
    assert Elapsed(m, now) == DaysPassed(m, now);
    assert RemainingUnits(m, now) == TotalUnits(m) - UsageOver(m, DaysPassed(m, now));
    FloorDivSign(RemainingUnits(m, now), DailyUsage(m.doses));
  }

  /** Units in `boxes` packs. */
  function PackUnits(m: Medicine, boxes: int): real {
    boxes as real * m.specification
  }

  lemma PackUnitsMonotone(m: Medicine, a: int, b: int)
    requires a <= b && m.specification >= 0.0
    ensures PackUnits(m, a) <= PackUnits(m, b)
  {
    MulMonotone(a as real, b as real, m.specification);
  }

  /**
   * calculateSuggestedReplenishment: whole packs to buy so that the units
   * left at `target` last `daysOffset` more days, the resulting total, and
   * the new depletion instant.
   */
  function SuggestedReplenishment(m: Medicine, target: int, daysOffset: nat): (r: Replenishment)
    requires ValidDoses(m.doses) && m.specification > 0.0
    ensures DailyUsage(m.doses) == 0.0 ==> r == Replenishment(0, 0.0, target)
    ensures DailyUsage(m.doses) > 0.0 ==>
      && r.boxes >= 0
      && r.total >= UsageOver(m, daysOffset)
      && r.newExpiry >= target + daysOffset * DayMillis
    ensures DailyUsage(m.doses) > 0.0 ==>
      r.total == RemainingDays(m, target).quantity.value as real + PackUnits(m, r.boxes)
    ensures DailyUsage(m.doses) > 0.0 ==>
      r.newExpiry == target + (r.total / DailyUsage(m.doses)).Floor * DayMillis
    ensures DailyUsage(m.doses) > 0.0 ==>
      RemainingDays(m, target).quantity.value as real + PackUnits(m, r.boxes) >= UsageOver(m, daysOffset)
    ensures DailyUsage(m.doses) > 0.0 && r.boxes > 0 ==>
      RemainingDays(m, target).quantity.value as real + PackUnits(m, r.boxes - 1) < UsageOver(m, daysOffset)
  {
    var usage := DailyUsage(m.doses);
    if usage == 0.0 then Replenishment(0, 0.0, target)
    else
      var remainingAtTarget := RemainingDays(m, target).quantity.value;
      var requiredForOffset := UsageOver(m, daysOffset);
      var shortfall := requiredForOffset - remainingAtTarget as real;
      var needed := if shortfall > 0.0 then shortfall else 0.0;
      var boxes := Ceil(needed / m.specification);
      var total := remainingAtTarget as real + PackUnits(m, boxes);
      var days := (total / usage).Floor;
      ReplenishmentFacts(remainingAtTarget as real, requiredForOffset, needed, m.specification,
        boxes, PackUnits(m, boxes), PackUnits(m, boxes - 1), total, usage, daysOffset);
      MulIntMonotone(daysOffset, days, DayMillis);
      Replenishment(boxes, total, target + days * DayMillis)
  }

  /** The arithmetic behind SuggestedReplenishment's contract. */
  lemma ReplenishmentFacts(
    have: real, required: real, needed: real, spec: real, boxes: int,
    packs: real, fewerPacks: real, total: real, usage: real, days: nat)
    requires spec > 0.0 && usage > 0.0 && required == usage * days as real
    requires needed == (if required - have > 0.0 then required - have else 0.0)
    requires boxes as real - 1.0 < needed / spec <= boxes as real
    requires packs == boxes as real * spec && fewerPacks == (boxes - 1) as real * spec
    requires total == have + packs
    ensures boxes >= 0
    ensures total >= required
    ensures boxes > 0 ==> have + fewerPacks < required
    ensures (total / usage).Floor >= days
  {
    assert (needed / spec) * spec == needed;
    MulMonotone(needed / spec, boxes as real, spec);
    if boxes > 0 {
      assert (boxes - 1) as real == boxes as real - 1.0;
      assert needed / spec > 0.0;
      assert needed != 0.0;
      assert needed == required - have;
      MulStrict((boxes - 1) as real, needed / spec, spec);
      assert fewerPacks < needed;
    }
    DivMonotone(required, total, usage);
    assert required / usage == days as real;
  }

  /**
   * No smaller number of packs reaches the requirement: any whole count of
   * packs below the suggestion leaves the `daysOffset` days uncovered.
   */
  lemma ReplenishmentMinimal(m: Medicine, target: int, daysOffset: nat, packs: int)
    requires ValidDoses(m.doses) && m.specification > 0.0 && DailyUsage(m.doses) > 0.0
    requires packs >= 0
    ensures packs < SuggestedReplenishment(m, target, daysOffset).boxes ==>
      RemainingDays(m, target).quantity.value as real + PackUnits(m, packs) < UsageOver(m, daysOffset)
  {
    var boxes := SuggestedReplenishment(m, target, daysOffset).boxes;
    if packs < boxes {
      PackUnitsMonotone(m, packs, boxes - 1);
    }
  }
}
