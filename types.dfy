/**
 * The medicine record kept by the store, and the few derived quantities
 * (daily usage, baseline timestamp) that every projection starts from.
 * Timestamps are integer milliseconds since the epoch; quantities are exact reals.
 */
module MedicineTypes {

  datatype Option<T> = None | Some(value: T)

  /** Route of administration: oral, injection, suppository. */
  datatype Administration = Oral | Injection | Suppository

  /** Units taken at each time of day. */
  datatype Doses = Doses(morning: real, noon: real, night: real)

  datatype TimeSlot = Morning | Noon | Night

  /**
   * One medicine. `id` is the creation timestamp; `specification` is the number
   * of units in one pack; `stock` is the number of packs held (fractional);
   * `updatedAt` may be absent.
   */
  datatype Medicine = Medicine(
    id: int,
    name: string,
    specification: real,
    stock: real,
    doses: Doses,
    administration: Administration,
    updatedAt: Option<int>)

  /** Milliseconds in one day (24 * 60 * 60 * 1000). */
  const DayMillis: int := 86400000

  function DoseAt(d: Doses, slot: TimeSlot): real {
    match slot
    case Morning => d.morning
    case Noon => d.noon
    case Night => d.night
  }

  /** Morning + noon + night. */
  function DailyUsage(d: Doses): real {
    d.morning + d.noon + d.night
  }

  /** The form's constraint on doses: none is negative. */
  predicate ValidDoses(d: Doses) {
    d.morning >= 0.0 && d.noon >= 0.0 && d.night >= 0.0
  }

  /** Every record in the list has valid doses. */
  predicate AllValidDoses(meds: seq<Medicine>) {
    forall m :: m in meds ==> ValidDoses(m.doses)
  }

  /** The form's constraints on a saved record. */
  predicate ValidMedicine(m: Medicine) {
    |m.name| >= 1 && m.specification >= 1.0 && m.stock >= 0.1 && ValidDoses(m.doses)
  }

  /**
   * `updatedAt || id`: the update time when it is present and non-zero,
   * otherwise the creation time.
   */
  function Baseline(m: Medicine): (b: int)
    ensures b == m.id || m.updatedAt == Some(b)
    ensures (m.updatedAt.Some? && m.updatedAt.value != 0) ==> b == m.updatedAt.value
    ensures (m.updatedAt == None || m.updatedAt == Some(0)) ==> b == m.id
  {
    match m.updatedAt
    case Some(u) => if u != 0 then u else m.id
    case None => m.id
  }

  /** Units the record holds at its baseline: stock packs times pack size. */
  function TotalUnits(m: Medicine): real {
    m.stock * m.specification
  }

  /**
   * `a` can be obtained from `b` by deleting elements: the elements of `a`
   * occur in `b` in the same order.
   */
  predicate IsSubsequence<T(==)>(a: seq<T>, b: seq<T>)
    decreases |b|
  {
    if a == [] then true
    else if b == [] then false
    else if a[0] == b[0] then IsSubsequence(a[1..], b[1..])
    else IsSubsequence(a, b[1..])
  }

  lemma {:induction false} SubsequenceDropHead<T>(a: seq<T>, b: seq<T>)
    requires a != [] && IsSubsequence(a, b)
    ensures IsSubsequence(a[1..], b)
    decreases |b|, 0
  {
    if a[0] == b[0] {
      SubsequenceExtend(a[1..], b[1..], b[0]);
    } else {
      SubsequenceDropHead(a, b[1..]);
      SubsequenceExtend(a[1..], b[1..], b[0]);
    }
  }

  /** A subsequence of `b` is a subsequence of `[x] + b`. */
  lemma {:induction false} SubsequenceExtend<T>(a: seq<T>, b: seq<T>, x: T)
    requires IsSubsequence(a, b)
    ensures IsSubsequence(a, [x] + b)
    decreases |b|, 1
  {
    var xb := [x] + b;
    assert xb[1..] == b;
    if a != [] && a[0] == x {
      SubsequenceDropHead(a, b);
    }
  }

  /** Keeping the head of both sequences preserves the subsequence relation. */
  lemma SubsequenceCons<T>(a: seq<T>, b: seq<T>, x: T)
    requires IsSubsequence(a, b)
    ensures IsSubsequence([x] + a, [x] + b)
  {
    var xa, xb := [x] + a, [x] + b;
    assert xa[1..] == a && xb[1..] == b;
  }
}
