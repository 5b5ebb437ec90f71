/**
 * The medicine list store of medicineStore.ts: one `medicines` field that
 * addMedicine, updateMedicine and deleteMedicine each replace with a new
 * list built by append, by an id-keyed map and by an id-keyed filter.
 */
module MedicineStore {
  import opened MedicineTypes

  /** The ids of `meds`, in list order. */
  function Ids(meds: seq<Medicine>): (r: seq<int>)
    ensures |r| == |meds|
  {
    if meds == [] then [] else [meds[0].id] + Ids(meds[1..])
  }

  /** No entry of `meds` carries `id`. */
  predicate Absent(meds: seq<Medicine>, id: int) {
    forall m :: m in meds ==> m.id != id
  }

  /** The map of updateMedicine: every entry with `id` becomes `med` with its id forced to `id`. */
  function Updated(meds: seq<Medicine>, id: int, med: Medicine): (r: seq<Medicine>)
    ensures |r| == |meds|
    ensures forall i :: 0 <= i < |meds| && meds[i].id != id ==> r[i] == meds[i]
    ensures forall i :: 0 <= i < |meds| && meds[i].id == id ==> r[i] == med.(id := id)
  {
    if meds == [] then []
    else [if meds[0].id == id then med.(id := id) else meds[0]] + Updated(meds[1..], id, med)
  }

  /** The filter of deleteMedicine: every entry with `id` is dropped. */
  function Removed(meds: seq<Medicine>, id: int): (r: seq<Medicine>)
    ensures |r| <= |meds|
    ensures forall m :: m in r <==> m in meds && m.id != id
  {
    if meds == [] then []
    else if meds[0].id == id then Removed(meds[1..], id)
    else [meds[0]] + Removed(meds[1..], id)
  }

  /** Updating keeps the sequence of ids. */
  lemma {:induction false} UpdatedKeepsIds(meds: seq<Medicine>, id: int, med: Medicine)
    ensures Ids(Updated(meds, id, med)) == Ids(meds)
    decreases |meds|
  {
    if meds != [] {
      var r := Updated(meds, id, med);
      assert r[1..] == Updated(meds[1..], id, med);
      UpdatedKeepsIds(meds[1..], id, med);
    }
  }

  /** Updating an id that no entry carries changes nothing. */
  lemma {:induction false} UpdatedAbsentUnchanged(meds: seq<Medicine>, id: int, med: Medicine)
    requires Absent(meds, id)
    ensures Updated(meds, id, med) == meds
    decreases |meds|
  {
    if meds != [] {
      assert meds[0] in meds;
      assert Absent(meds[1..], id) by {
        forall m | m in meds[1..] ensures m.id != id {
          assert m in meds;
        }
      }
      UpdatedAbsentUnchanged(meds[1..], id, med);
      assert meds == [meds[0]] + meds[1..];
    }
  }

  /** Repeating the same update changes nothing more. */
  lemma {:induction false} UpdatedIdempotent(meds: seq<Medicine>, id: int, med: Medicine)
    ensures Updated(Updated(meds, id, med), id, med) == Updated(meds, id, med)
    decreases |meds|
  {
    if meds != [] {
      var r := Updated(meds, id, med);
      assert r[1..] == Updated(meds[1..], id, med);
      UpdatedIdempotent(meds[1..], id, med);
      assert Updated(r, id, med)[1..] == Updated(r[1..], id, med);
    }
  }

  /** Removal keeps the other entries in their relative order. */
  lemma {:induction false} RemovedIsSubsequence(meds: seq<Medicine>, id: int)
    ensures IsSubsequence(Removed(meds, id), meds)
    decreases |meds|
  {
    if meds != [] {
      RemovedIsSubsequence(meds[1..], id);
      if meds[0].id == id {
        SubsequenceExtend(Removed(meds[1..], id), meds[1..], meds[0]);
      } else {
        SubsequenceCons(Removed(meds[1..], id), meds[1..], meds[0]);
      }
      assert [meds[0]] + meds[1..] == meds;
    }
  }

  /** Removing an id that no entry carries changes nothing. */
  lemma {:induction false} RemovedAbsentUnchanged(meds: seq<Medicine>, id: int)
    requires Absent(meds, id)
    ensures Removed(meds, id) == meds
    decreases |meds|
  {
    if meds != [] {
      assert meds[0] in meds;
      assert Absent(meds[1..], id) by {
        forall m | m in meds[1..] ensures m.id != id {
          assert m in meds;
        }
      }
      RemovedAbsentUnchanged(meds[1..], id);
      assert meds == [meds[0]] + meds[1..];
    }
  }

  /** Deleting twice is deleting once. */
  lemma RemovedIdempotent(meds: seq<Medicine>, id: int)
    ensures Removed(Removed(meds, id), id) == Removed(meds, id)
  {
    RemovedAbsentUnchanged(Removed(meds, id), id);
  }

  /** Removal distributes over concatenation. */
  lemma {:induction false} RemovedAppend(a: seq<Medicine>, b: seq<Medicine>, id: int)
    ensures Removed(a + b, id) == Removed(a, id) + Removed(b, id)
    decreases |a|
  {
    if a == [] {
      assert a + b == b;
    } else {
      assert (a + b)[0] == a[0];
      assert (a + b)[1..] == a[1..] + b;
      RemovedAppend(a[1..], b, id);
    }
  }

  /** Adding a record with a fresh id and then deleting that id restores the list. */
  lemma AddThenDeleteRestores(meds: seq<Medicine>, med: Medicine)
    requires Absent(meds, med.id)
    ensures Removed(meds + [med], med.id) == meds
  {
    RemovedAppend(meds, [med], med.id);
    RemovedAbsentUnchanged(meds, med.id);
    assert Removed([med], med.id) == [];
  }

  /** The zustand store's state: the list of medicines, replaced by each action. */
  class Store {
    var medicines: seq<Medicine>

    /** The store starts empty. */
    constructor()
      ensures medicines == []
    {
      medicines := [];
    }

    /** addMedicine: `med` is appended; earlier entries and their order stay as they were. */
    method AddMedicine(med: Medicine)
      modifies this
      ensures medicines == old(medicines) + [med]
      ensures medicines[..|old(medicines)|] == old(medicines)
      ensures medicines[|medicines| - 1] == med
    {
      medicines := medicines + [med];
    }

    /**
     * updateMedicine: same length and positions; entries with another id
     * unchanged, entries with `id` replaced by `med` carrying `id`.
     */
    method UpdateMedicine(id: int, med: Medicine)
      modifies this
      ensures medicines == Updated(old(medicines), id, med)
      ensures |medicines| == |old(medicines)|
      ensures Ids(medicines) == Ids(old(medicines))
      ensures forall i :: 0 <= i < |medicines| && old(medicines)[i].id != id ==>
        medicines[i] == old(medicines)[i]
      ensures forall i :: 0 <= i < |medicines| && old(medicines)[i].id == id ==>
        medicines[i] == med.(id := id)
      ensures Absent(old(medicines), id) ==> medicines == old(medicines)
    {
      UpdatedKeepsIds(medicines, id, med);
      if Absent(medicines, id) {
        UpdatedAbsentUnchanged(medicines, id, med);
      }
      medicines := Updated(medicines, id, med);
    }

    /**
     * deleteMedicine: no entry with `id` remains, the others keep their
     * relative order, and deleting an absent id changes nothing.
     */
    method DeleteMedicine(id: int)
      modifies this
      ensures medicines == Removed(old(medicines), id)
      ensures Absent(medicines, id)
      ensures forall m :: m in old(medicines) && m.id != id ==> m in medicines
      ensures IsSubsequence(medicines, old(medicines))
      ensures Absent(old(medicines), id) ==> medicines == old(medicines)
    {
      RemovedIsSubsequence(medicines, id);
      if Absent(medicines, id) {
        RemovedAbsentUnchanged(medicines, id);
      }
      medicines := Removed(medicines, id);
    }
  }
}
