/**
 * Worked cases of the projections on literal records and timestamps: a
 * 20-unit pack held twice with six units a day, seen at, after and before
 * its baseline, a shortfall covered by two packs, and the baseline moving
 * from creation to update time.
 */
module Scenarios {
  import opened MedicineTypes
  import opened Projection

  /** An arbitrary creation instant. */
  const T0: int := 1700000000000

  /** Two packs of 20 units, two units at each time of day, never updated. */
  function TwoPacks(): (m: Medicine)
    ensures TotalUnits(m) == 40.0 && DailyUsage(m.doses) == 6.0 && Baseline(m) == T0
  {
    Medicine(T0, "A", 20.0, 2.0, Doses(2.0, 2.0, 2.0), Oral, None)
  }

  /** At the baseline: 40 units, enough for 6 whole days. */
  lemma TwoPacksAtBaseline()
    ensures RemainingDays(TwoPacks(), T0) == Remaining(Finite(6), Finite(40))
  {
    var m := TwoPacks();
    assert Elapsed(m, T0) == 0;
    assert UsageOver(m, 0) == 0.0;
    assert RemainingUnits(m, T0) == 40.0;
    assert 6.0 <= 40.0 / 6.0 < 7.0;
  }

  /** Three days later: 18 units consumed, 22 left, enough for 3 whole days. */
  lemma TwoPacksAfterThreeDays()
    ensures RemainingDays(TwoPacks(), T0 + 3 * DayMillis) == Remaining(Finite(3), Finite(22))
  {
    var m := TwoPacks();
    var t := T0 + 3 * DayMillis;
    assert Elapsed(m, t) == 3;
    assert UsageOver(m, 3) == 18.0;
    assert RemainingUnits(m, t) == 22.0;
    assert 3.0 <= 22.0 / 6.0 < 4.0;
  }

  /**
   * Ten days before the baseline the two projections part: the expiry view
   * counts the ten days still to come as extra days left (6 + 10), while
   * the day count consumes nothing before the baseline and says 6.
   */
  lemma TwoPacksBeforeBaseline()
    ensures MedicineExpiry(TwoPacks(), T0 - 10 * DayMillis) == Expiry(16, T0 + 6 * DayMillis)
    ensures RemainingDays(TwoPacks(), T0 - 10 * DayMillis).days == Finite(6)
  {
    var m := TwoPacks();
    var t := T0 - 10 * DayMillis;
    assert DaysPassed(m, t) == -10;
    assert 6.0 <= 40.0 / 6.0 < 7.0;
    ExpiryRemainingDaysAtAnyTime(m, t);
    ExpiryDateFromBaseline(m, t);
    assert Elapsed(m, t) == 0;
    assert UsageOver(m, 0) == 0.0;
    assert RemainingUnits(m, t) == 40.0;
  }

  /** Ten-unit packs, half a pack (5 units) left, five units a day, measured from `T0`. */
  function HalfPack(): (m: Medicine)
    ensures TotalUnits(m) == 5.0 && DailyUsage(m.doses) == 5.0 && Baseline(m) == T0
  {
    Medicine(T0, "B", 10.0, 0.5, Doses(5.0, 0.0, 0.0), Oral, Some(T0))
  }

  /**
   * Covering 4 days needs 20 units; 15 are missing, so 2 packs are suggested,
   * giving 25 units, which last 5 days from the target date.
   */
  lemma HalfPackReplenishment()
    ensures SuggestedReplenishment(HalfPack(), T0, 4) == Replenishment(2, 25.0, T0 + 5 * DayMillis)
  {
    var m := HalfPack();
    assert RemainingUnits(m, T0) == 5.0;
    assert 5.0 / 5.0 == 1.0;
    assert RemainingDays(m, T0).quantity == Finite(5);
    assert UsageOver(m, 4) == 20.0;
    assert 1.0 < 15.0 / 10.0 <= 2.0;
    assert PackUnits(m, 2) == 20.0;
    assert 25.0 / 5.0 == 5.0;
  }

  /** A non-zero update time replaces the creation time as the baseline. */
  lemma BaselineFollowsUpdate(m: Medicine, t1: int)
    requires m.updatedAt == None && t1 != 0
    ensures Baseline(m) == m.id
    ensures Baseline(m.(updatedAt := Some(t1))) == t1
    ensures Baseline(m.(updatedAt := Some(0))) == m.id
  {
  }
}
