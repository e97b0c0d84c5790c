/** The transaction list: the stored record, finding a record by its id,
    replacing it in place, appending one and deleting a set of ids. */
module Store {
  import opened Wrappers

  /** One stored transaction. A key the stored dictionary lacks is None;
      amounts are in cents. */
  datatype Transaction = Transaction(
    id: Option<string>,
    company: Option<string>,
    monthYear: Option<string>,
    ttype: Option<string>,
    invoiceNo: string,
    counterparty: string,
    base: Option<int>,
    vat: Option<int>,
    total: Option<int>)

  /** No id is carried by two records (records without an id are ignored). */
  predicate UniqueIds(txs: seq<Transaction>) {
    forall i, j :: 0 <= i < j < |txs| && txs[i].id.Some? ==> txs[i].id != txs[j].id
  }

  /** The search loop of `_add_or_update_entry` and `_edit_entry`: the first
      index whose record carries `id`, or |txs| when there is none. */
  method FindIndexById(txs: seq<Transaction>, id: string) returns (i: nat)
    ensures i <= |txs|
    ensures i < |txs| ==> txs[i].id == Some(id)
    ensures forall j :: 0 <= j < i ==> txs[j].id != Some(id)
  {
    i := 0;
    while i < |txs|
      invariant i <= |txs|
      invariant forall j :: 0 <= j < i ==> txs[j].id != Some(id)
    {
      if txs[i].id == Some(id) {
        return;
      }
      i := i + 1;
    }
  }

  /** Writing a record back at the index of the record it replaces, with the
      same id, keeps the ids unique. */
  lemma ReplaceKeepsUnique(txs: seq<Transaction>, i: nat, t: Transaction)
    requires i < |txs| && UniqueIds(txs) && t.id == txs[i].id
    ensures UniqueIds(txs[i := t])
    ensures forall j :: 0 <= j < |txs| ==> txs[i := t][j].id == txs[j].id
  {
    forall j | 0 <= j < |txs|
      ensures txs[i := t][j].id == txs[j].id
    {
    }
  }

  /** Appending a record whose id no stored record carries keeps the ids unique. */
  lemma AppendFreshKeepsUnique(txs: seq<Transaction>, t: Transaction)
    requires UniqueIds(txs)
    requires forall j :: 0 <= j < |txs| ==> txs[j].id != t.id
    ensures UniqueIds(txs + [t])
  {
    forall i, j | 0 <= i < j < |txs + [t]| && (txs + [t])[i].id.Some?
      ensures (txs + [t])[i].id != (txs + [t])[j].id
    {
      if j < |txs| {
        assert (txs + [t])[i] == txs[i] && (txs + [t])[j] == txs[j];
      } else {
        assert (txs + [t])[i] == txs[i] && (txs + [t])[j] == t;
      }
    }
  }

  /** A record survives deletion unless its id is in the set. */
  predicate Kept(t: Transaction, ids: set<string>) {
    t.id.None? || t.id.value !in ids
  }

  /** The list filtered down to the records whose id is not in `ids`, in order. */
  function Delete(txs: seq<Transaction>, ids: set<string>): (r: seq<Transaction>)
    ensures |r| <= |txs|
    ensures forall t :: t in r ==> t in txs && Kept(t, ids)
  {
    if txs == [] then []
    else
      var init := txs[..|txs| - 1];
      var last := txs[|txs| - 1];
      assert forall t :: t in init ==> t in txs;
      Delete(init, ids) + (if Kept(last, ids) then [last] else [])
  }

  /** The number of records whose id is in the set. */
  function RemovedCount(txs: seq<Transaction>, ids: set<string>): nat {
    if txs == [] then 0
    else RemovedCount(txs[..|txs| - 1], ids) + (if Kept(txs[|txs| - 1], ids) then 0 else 1)
  }

  /** Exactly the records kept survive. */
  lemma {:induction false} DeleteMembership(txs: seq<Transaction>, ids: set<string>, t: Transaction)
    ensures t in Delete(txs, ids) <==> t in txs && Kept(t, ids)
  {
    if txs != [] {
      var init := txs[..|txs| - 1];
      DeleteMembership(init, ids, t);
      assert txs == init + [txs[|txs| - 1]];
    }
  }

  /** Deletion works record by record, so the survivors keep their order. */
  lemma {:induction false} DeleteAppend(a: seq<Transaction>, b: seq<Transaction>, ids: set<string>)
    ensures Delete(a + b, ids) == Delete(a, ids) + Delete(b, ids)
    decreases |b|
  {
    if b == [] {
      assert a + b == a;
    } else {
      var init := b[..|b| - 1];
      var last := b[|b| - 1];
      var tail := if Kept(last, ids) then [last] else [];
      DeleteAppend(a, init, ids);
      assert (a + b)[..|a + b| - 1] == a + init;
      assert (a + b)[|a + b| - 1] == last;
      calc {
        Delete(a + b, ids);
        Delete(a + init, ids) + tail;
        (Delete(a, ids) + Delete(init, ids)) + tail;
        Delete(a, ids) + (Delete(init, ids) + tail);
        Delete(a, ids) + Delete(b, ids);
      }
    }
  }

  /** The reported count, the old length minus the new one, is the number of
      records whose id was in the set. */
  lemma {:induction false} DeleteCount(txs: seq<Transaction>, ids: set<string>)
    ensures |txs| - |Delete(txs, ids)| == RemovedCount(txs, ids)
  {
    if txs != [] {
      DeleteCount(txs[..|txs| - 1], ids);
    }
  }

  /** When no record's id is in the set, deletion changes nothing. */
  lemma {:induction false} DeleteNothing(txs: seq<Transaction>, ids: set<string>)
    requires forall j :: 0 <= j < |txs| ==> Kept(txs[j], ids)
    ensures Delete(txs, ids) == txs
  {
    if txs != [] {
      var init := txs[..|txs| - 1];
      DeleteNothing(init, ids);
      assert txs == init + [txs[|txs| - 1]];
    }
  }

  /** A deletion that removes nothing leaves the list as it was. */
  lemma DeleteNothingRemoved(txs: seq<Transaction>, ids: set<string>)
    requires RemovedCount(txs, ids) == 0
    ensures Delete(txs, ids) == txs
  {
    RemovedCountZero(txs, ids);
    DeleteNothing(txs, ids);
  }

  /** No record counted as removed means every record is kept. */
  lemma {:induction false} RemovedCountZero(txs: seq<Transaction>, ids: set<string>)
    requires RemovedCount(txs, ids) == 0
    ensures forall j :: 0 <= j < |txs| ==> Kept(txs[j], ids)
  {
    if txs != [] {
      var init := txs[..|txs| - 1];
      RemovedCountZero(init, ids);
      assert forall j :: 0 <= j < |init| ==> txs[j] == init[j];
    }
  }

  /** The loop gathering the first tag of every selected row that has tags. */
  method CollectIds(selection: seq<seq<string>>) returns (ids: set<string>)
    ensures forall x :: x in ids <==>
      exists i :: 0 <= i < |selection| && selection[i] != [] && selection[i][0] == x
  {
    ids := {};
    for n := 0 to |selection|
      invariant forall x :: x in ids <==>
        exists i :: 0 <= i < n && selection[i] != [] && selection[i][0] == x
    {
      if selection[n] != [] {
        ids := ids + {selection[n][0]};
      }
    }
  }
}
