/** The entry window's state and actions: the amount fields with their
    write traces, the calculation flag, the edit mode, the transaction list,
    the known counterparties and the carry-forward store. */
module App {
  import opened Wrappers
  import opened Text
  import opened Decimals
  import opened Periods
  import opened Reconcile
  import opened Store
  import opened Ledger

  /** What `_edit_entry` did with the selection. */
  datatype EditOutcome = NothingSelected | MissingTag | NotFound(id: string) | Editing(id: string, index: nat)

  /** What `_add_or_update_entry` did. */
  datatype SaveOutcome = Rejected(error: ValidationError) | UnknownId(id: string) | Updated(index: nat) | Added

  /** What `_delete_selected_entry` did. */
  datatype DeleteOutcome = NoSelection | NotConfirmed | NoIds | NoneFound | Deleted(count: nat)

  /** The carry-forward store `carry` once the balances of period `key`
      were recomputed from the list `txs`. */
  function Recomputed(carry: Carry, txs: seq<Transaction>, key: string, prevKey: string): Carry {
    CarryAfter(carry, PeriodTotals(txs, key), Companies, key, prevKey)
  }

  /** Refreshing the ledger of a period twice with the same list leaves the
      store as one refresh does. */
  lemma RecomputedIdempotent(carry: Carry, txs: seq<Transaction>, year: int, month: string)
    requires HasPrevKey(year, month)
    ensures var key := MonthYearStr(year, month);
      var prevKey := PrevMonthYearStr(year, month);
      Recomputed(Recomputed(carry, txs, key, prevKey), txs, key, prevKey) == Recomputed(carry, txs, key, prevKey)
  {
    PrevKeyDiffers(year, month);
    CarryAfterIdempotent(carry, PeriodTotals(txs, MonthYearStr(year, month)),
                         MonthYearStr(year, month), PrevMonthYearStr(year, month));
  }

  /** A second refresh of a period with the same list shows each company
      the same ledger view as the first: the view reads the store only at
      the previous month's key, which the refresh does not write. */
  lemma RecomputedShowsSameView(carry: Carry, txs: seq<Transaction>, year: int, month: string, c: string)
    requires HasPrevKey(year, month) && c in Companies
    ensures var key := MonthYearStr(year, month);
      var prevKey := PrevMonthYearStr(year, month);
      ViewOf(Recomputed(carry, txs, key, prevKey), PeriodTotals(txs, key), c, prevKey) ==
      ViewOf(carry, PeriodTotals(txs, key), c, prevKey)
  {
    var key := MonthYearStr(year, month);
    var prevKey := PrevMonthYearStr(year, month);
    PrevKeyDiffers(year, month);
    CompaniesDistinct();
    CarryAfterEntry(carry, PeriodTotals(txs, key), Companies, key, prevKey, c, prevKey);
  }

  /** After a refresh of period `key`, a month whose previous key is `key`
      reads as its carried surplus the refreshed period's balance when that
      was a surplus (negative), and 0 when it was due or zero. */
  lemma SurplusCarriedForward(carry: Carry, txs: seq<Transaction>, key: string, prevKey: string, c: string)
    requires c in Companies
    ensures var bal := Balance(carry, PeriodTotals(txs, key), c, prevKey);
      PrevSurplus(Recomputed(carry, txs, key, prevKey), c, key) == if bal < 0 then bal else 0
  {
    CompaniesDistinct();
    CarryAfterEntry(carry, PeriodTotals(txs, key), Companies, key, prevKey, c, key);
  }

  /** The ids tagged on the selected rows (rows without tags have none). */
  function TaggedIds(selection: seq<seq<string>>): set<string> {
    set i | 0 <= i < |selection| && selection[i] != [] :: selection[i][0]
  }

  class VatEntryApp {
    var rate: Dec
    var calculating: bool
    var editingId: Option<string>
    var transactions: seq<Transaction>
    var carry: Carry
    var knownCounterparties: set<string>

    var company: string
    var year: int
    var month: string
    var ttype: string
    var invoice: string
    var counterparty: string
    var baseText: string
    var vatText: string
    var totalText: string

    /** The window as `__init__` leaves it for the current year and month,
        before any data is loaded. */
    constructor (currentYear: int, currentMonth: string)
      ensures rate == DefaultVatRate && !calculating && editingId == None
      ensures transactions == [] && carry == map[] && knownCounterparties == {}
      ensures company == Companies[0] && year == currentYear && month == currentMonth && ttype == TransactionTypes[0]
      ensures invoice == "" && counterparty == "" && Fields() == AmountFields("", "", "")
    {
      rate := DefaultVatRate;
      calculating := false;
      editingId := None;
      transactions := [];
      carry := map[];
      knownCounterparties := {};
      company := Companies[0];
      year := currentYear;
      month := currentMonth;
      ttype := TransactionTypes[0];
      invoice := "";
      counterparty := "";
      baseText := "";
      vatText := "";
      totalText := "";
    }

    /** The three amount fields. */
    function Fields(): AmountFields
      reads this
    {
      AmountFields(baseText, vatText, totalText)
    }

    /** `v_pa_tvsh_var.set(s)`: the write fires `_calculate_from_base`. */
    method SetBaseText(s: string, hasFocus: bool)
      modifies this`calculating, this`baseText, this`vatText, this`totalText
      decreases if calculating then 0 else 1, 2
      ensures calculating == old(calculating)
      ensures old(calculating) ==> Fields() == old(Fields()).(base := s)
      ensures !old(calculating) ==> Fields() == AfterBaseEdit(old(Fields()).(base := s), rate, hasFocus)
    {
      baseText := s;
      CalculateFromBase(hasFocus);
    }

    /** `tvsh_var.set(s)`: the write fires `_calculate_from_vat`. */
    method SetVatText(s: string, hasFocus: bool)
      modifies this`calculating, this`baseText, this`vatText, this`totalText
      decreases if calculating then 0 else 1, 2
      ensures calculating == old(calculating)
      ensures old(calculating) ==> Fields() == old(Fields()).(vat := s)
      ensures !old(calculating) ==> Fields() == AfterVatEdit(old(Fields()).(vat := s), rate, hasFocus)
    {
      vatText := s;
      CalculateFromVat(hasFocus);
    }

    /** `v_me_tvsh_var.set(s)`: the write fires `_calculate_from_total`. */
    method SetTotalText(s: string, hasFocus: bool)
      modifies this`calculating, this`baseText, this`vatText, this`totalText
      decreases if calculating then 0 else 1, 2
      ensures calculating == old(calculating)
      ensures old(calculating) ==> Fields() == old(Fields()).(total := s)
      ensures !old(calculating) ==> Fields() == AfterTotalEdit(old(Fields()).(total := s), rate, hasFocus)
    {
      totalText := s;
      CalculateFromTotal(hasFocus);
    }

    /** `_calculate_from_base`: entered while the flag is set it does nothing;
        otherwise it derives VAT and total (or clears them) and resets the
        flag. `hasFocus` is the answer of the focus check. */
    method CalculateFromBase(hasFocus: bool)
      modifies this`calculating, this`baseText, this`vatText, this`totalText
      decreases if calculating then 0 else 1, 1
      ensures calculating == old(calculating)
      ensures old(calculating) ==> Fields() == old(Fields())
      ensures !old(calculating) ==> Fields() == AfterBaseEdit(old(Fields()), rate, hasFocus)
    {
      if calculating {
        return;
      }
      calculating := true;
      var b := ParseDecimal(baseText);
      if b.Some? && b.value.coeff >= 0 {
        var vat := VatFromBase(b.value, rate);
        var total := TotalFromBase(b.value, vat);
        SetVatText(FormatCents(vat), hasFocus);
        SetTotalText(FormatCents(total), hasFocus);
      } else if !hasFocus {
        SetVatText("", hasFocus);
        SetTotalText("", hasFocus);
      }
      calculating := false;
    }

    /** `_calculate_from_vat`: derives base and total from a non-negative VAT
        at a positive rate, or clears them. */
    method CalculateFromVat(hasFocus: bool)
      modifies this`calculating, this`baseText, this`vatText, this`totalText
      decreases if calculating then 0 else 1, 1
      ensures calculating == old(calculating)
      ensures old(calculating) ==> Fields() == old(Fields())
      ensures !old(calculating) ==> Fields() == AfterVatEdit(old(Fields()), rate, hasFocus)
    {
      if calculating {
        return;
      }
      calculating := true;
      var v := ParseDecimal(vatText);
      if v.Some? && v.value.coeff >= 0 && rate.coeff > 0 {
        var base := BaseFromVat(v.value, rate);
        var total := TotalFromVat(base, v.value);
        SetBaseText(FormatCents(base), hasFocus);
        SetTotalText(FormatCents(total), hasFocus);
      } else if !hasFocus {
        SetBaseText("", hasFocus);
        SetTotalText("", hasFocus);
      }
      calculating := false;
    }

    /** `_calculate_from_total`: derives base and, as the remainder, VAT from
        a non-negative total, or clears them. */
    method CalculateFromTotal(hasFocus: bool)
      modifies this`calculating, this`baseText, this`vatText, this`totalText
      decreases if calculating then 0 else 1, 1
      ensures calculating == old(calculating)
      ensures old(calculating) ==> Fields() == old(Fields())
      ensures !old(calculating) ==> Fields() == AfterTotalEdit(old(Fields()), rate, hasFocus)
    {
      if calculating {
        return;
      }
      calculating := true;
      var t := ParseDecimal(totalText);
      if t.Some? && t.value.coeff >= 0 && OnePlusRate(rate) > 0 {
        var base := BaseFromTotal(t.value, rate);
        var vat := VatFromTotal(t.value, base);
        SetBaseText(FormatCents(base), hasFocus);
        SetVatText(FormatCents(vat), hasFocus);
      } else if !hasFocus {
        SetBaseText("", hasFocus);
        SetVatText("", hasFocus);
      }
      calculating := false;
    }

    /** `_clear_entry_fields`: empties invoice, counterparty and the three
        amounts with the flag set, so nothing is derived, then resets the flag. */
    method ClearEntryFields()
      modifies this`calculating, this`invoice, this`counterparty, this`baseText, this`vatText, this`totalText
      ensures !calculating && invoice == "" && counterparty == ""
      ensures Fields() == AmountFields("", "", "")
    {
      calculating := true;
      invoice := "";
      counterparty := "";
      WriteAmountsQuietly("", "", "");
      calculating := false;
    }

    /** Writes total, base and VAT, in that order, while the flag is set, so
        that no write derives the other fields. */
    method WriteAmountsQuietly(base: string, vat: string, total: string)
      requires calculating
      modifies this`calculating, this`baseText, this`vatText, this`totalText
      ensures calculating && Fields() == AmountFields(base, vat, total)
    {
      SetTotalText(total, false);
      SetBaseText(base, false);
      SetVatText(vat, false);
    }

    /** `_cancel_edit`: leaves edit mode and clears the entry fields. */
    method CancelEdit()
      modifies this`editingId, this`calculating, this`invoice, this`counterparty, this`baseText, this`vatText, this`totalText
      ensures editingId == None && !calculating && invoice == "" && counterparty == ""
      ensures Fields() == AmountFields("", "", "")
    {
      editingId := None;
      ClearEntryFields();
    }

    /** The key of the period the form shows. */
    function Key(): string
      reads this`year, this`month
      requires HasPrevKey(year, month)
    {
      MonthYearStr(year, month)
    }

    /** The key of the month before the period the form shows. */
    function PrevKey(): string
      reads this`year, this`month
      requires HasPrevKey(year, month)
    {
      PrevMonthYearStr(year, month)
    }

    /** The carry-forward store once the shown period's balances were
        recomputed from the current list. */
    function LedgerAfter(): Carry
      reads this`carry, this`transactions, this`year, this`month
      requires HasPrevKey(year, month)
    {
      Recomputed(carry, transactions, Key(), PrevKey())
    }

    /** The body of `_update_live_data_display` for the period `key` whose
        previous month is `prevKey`: sums the period's transactions, shows each
        company's balance and rewrites the carry-forward entries of the period. */
    method ShowLedger(key: string, prevKey: string) returns (views: seq<CompanyView>)
      modifies this`carry
      ensures carry == Recomputed(old(carry), transactions, key, prevKey)
      ensures |views| == |Companies|
      ensures forall i :: 0 <= i < |Companies| ==>
        views[i] == ViewOf(old(carry), PeriodTotals(transactions, key), Companies[i], prevKey)
    {
      var totals := MonthlyTotals(transactions, key);
      ghost var spec := PeriodTotals(transactions, key);
      assert SameLookups(totals, spec);
      CarryAfterSameLookups(carry, totals, spec, Companies, key, prevKey);
      forall i | 0 <= i < |Companies|
        ensures ViewOf(carry, totals, Companies[i], prevKey) == ViewOf(carry, spec, Companies[i], prevKey)
      {
        ViewOfSameLookups(carry, totals, spec, Companies[i], prevKey);
      }
      carry, views := CarryForward(carry, totals, key, prevKey);
    }

    /** `_update_live_data_display` for a period whose keys can be formed. */
    method UpdateLiveDataDisplay() returns (views: seq<CompanyView>)
      requires HasPrevKey(year, month)
      modifies this`carry
      ensures carry == old(LedgerAfter())
      ensures |views| == |Companies|
      ensures forall i :: 0 <= i < |Companies| ==>
        views[i] == ViewOf(old(carry), old(PeriodTotals(transactions, Key())), Companies[i], old(PrevKey()))
    {
      views := ShowLedger(Key(), PrevKey());
    }

    /** The form shows record `t`: its period (or the previous one `y0`/`m0`
        when its key does not parse), its company, type, texts and amounts. */
    predicate ShowsRecord(t: Transaction, y0: int, m0: string)
      reads this
    {
      (year, month) == EditPeriod(t.monthYear.GetOr(""), y0, m0) &&
      company == t.company.GetOr(Companies[0]) && ttype == t.ttype.GetOr(TransactionTypes[0]) &&
      invoice == t.invoiceNo && counterparty == t.counterparty &&
      Fields() == AmountFields(FormatCents(t.base.GetOr(0)), FormatCents(t.vat.GetOr(0)), FormatCents(t.total.GetOr(0)))
    }

    /** The population step of `_edit_entry`, run with the flag set so that
        no amount write derives the others. */
    method LoadRecord(t: Transaction)
      requires calculating
      modifies this`year, this`month, this`company, this`ttype, this`invoice, this`counterparty
      modifies this`calculating, this`baseText, this`vatText, this`totalText
      ensures calculating && ShowsRecord(t, old(year), old(month))
    {
      var period := EditPeriod(t.monthYear.GetOr(""), year, month);
      year, month := period.0, period.1;
      company := t.company.GetOr(Companies[0]);
      ttype := t.ttype.GetOr(TransactionTypes[0]);
      invoice := t.invoiceNo;
      counterparty := t.counterparty;
      WriteAmountsQuietly(FormatCents(t.base.GetOr(0)), FormatCents(t.vat.GetOr(0)), FormatCents(t.total.GetOr(0)));
    }

    /** `_edit_entry`: takes the first selected row's id tag, finds its record
        and loads it into the form with the flag set, entering edit mode. */
    method EditEntry(selection: seq<seq<string>>) returns (outcome: EditOutcome)
      modifies this`year, this`month, this`company, this`ttype, this`invoice, this`counterparty
      modifies this`calculating, this`baseText, this`vatText, this`totalText, this`editingId
      ensures outcome == NothingSelected <==> selection == []
      ensures outcome == MissingTag <==> selection != [] && selection[0] == []
      ensures outcome.NotFound? <==>
        (selection != [] && selection[0] != [] &&
         forall j :: 0 <= j < |transactions| ==> transactions[j].id != Some(selection[0][0]))
      ensures outcome.NotFound? ==> outcome.id == selection[0][0]
      ensures !outcome.Editing? ==>
        (editingId == old(editingId) && year == old(year) && month == old(month) &&
         company == old(company) && ttype == old(ttype) && invoice == old(invoice) &&
         counterparty == old(counterparty) && Fields() == old(Fields()) && calculating == old(calculating))
      ensures outcome.Editing? ==>
        (selection != [] && selection[0] != [] && outcome.id == selection[0][0] &&
         outcome.index < |transactions| && transactions[outcome.index].id == Some(outcome.id) &&
         (forall j :: 0 <= j < outcome.index ==> transactions[j].id != Some(outcome.id)) &&
         editingId == Some(outcome.id) && ShowsRecord(transactions[outcome.index], old(year), old(month)) &&
         !calculating)
    {
      if selection == [] {
        return NothingSelected;
      }
      var tags := selection[0];
      if tags == [] {
        return MissingTag;
      }
      var id := tags[0];
      var i := FindIndexById(transactions, id);
      if i == |transactions| {
        return NotFound(id);
      }
      calculating := true;
      editingId := Some(id);
      LoadRecord(transactions[i]);
      calculating := false;
      outcome := Editing(id, i);
    }

    /** The record `_add_or_update_entry` builds from validated amounts: the
        invoice number and counterparty stripped, no id yet. */
    static function NewEntry(a: Amounts, company: string, key: string, ttype: string,
                             invoice: string, counterparty: string): (t: Transaction)
      ensures t.id.None? && t.company == Some(company) && t.monthYear == Some(key) && t.ttype == Some(ttype)
      ensures t.invoiceNo == Strip(invoice) && t.counterparty == Strip(counterparty)
      ensures (t.base, t.vat, t.total) == (Some(a.base), Some(a.vat), Some(a.total))
    {
      Transaction(None, Some(company), Some(key), Some(ttype), Strip(invoice), Strip(counterparty),
                  Some(a.base), Some(a.vat), Some(a.total))
    }

    /** The list after the store step of `_add_or_update_entry` with outcome
        `outcome`: in edit mode (a non-empty editing id) the first record with
        that id was replaced in place by `entry`, keeping the id, or nothing
        changed when no record has it; otherwise `entry` was appended with
        `freshId`. */
    twostate predicate StoredAs(entry: Transaction, freshId: string, outcome: SaveOutcome)
      reads this
    {
      var editing := old(editingId);
      var before := old(transactions);
      !outcome.Rejected? &&
      (outcome.Added? <==> editing.None? || editing == Some("")) &&
      (outcome.Added? ==> transactions == before + [entry.(id := Some(freshId))]) &&
      (outcome.UnknownId? <==>
         (editing.Some? && editing.value != "" && forall j :: 0 <= j < |before| ==> before[j].id != editing)) &&
      (outcome.UnknownId? ==> outcome.id == editing.value && transactions == before) &&
      (outcome.Updated? ==>
         editing.Some? && outcome.index < |before| && before[outcome.index].id == editing &&
         (forall j :: 0 <= j < outcome.index ==> before[j].id != editing) &&
         transactions == before[outcome.index := entry.(id := editing)])
    }

    /** A store step keeps the ids unique when the fresh id is not in use. */
    twostate lemma StoreKeepsUniqueIds(entry: Transaction, freshId: string, outcome: SaveOutcome)
      requires UniqueIds(old(transactions))
      requires forall j :: 0 <= j < |old(transactions)| ==> old(transactions)[j].id != Some(freshId)
      requires StoredAs(entry, freshId, outcome)
      ensures UniqueIds(transactions)
    {
      if outcome.Added? {
        AppendFreshKeepsUnique(old(transactions), entry.(id := Some(freshId)));
      } else if outcome.Updated? {
        ReplaceKeepsUnique(old(transactions), outcome.index, entry.(id := old(editingId)));
      }
    }

    /** The state after a successful save: the stripped counterparty `cp`
        remembered when non-empty, the carry-forward store replaced by
        `ledger`, edit mode left after an update and the entry fields
        cleared. */
    twostate predicate Committed(cp: string, leaveEdit: bool, ledger: Carry)
      reads this
    {
      knownCounterparties == (if cp != "" then old(knownCounterparties) + {cp} else old(knownCounterparties)) &&
      carry == ledger &&
      editingId == (if leaveEdit then None else old(editingId)) &&
      invoice == "" && counterparty == "" && Fields() == AmountFields("", "", "") && !calculating
    }

    /** The state after `entry` (whose key is its period's) was saved with
        outcome `outcome`: stored as `StoredAs` says; then either nothing else
        changed (the edited record is gone) or the save was committed with the
        entry's counterparty and the ledger of its period recomputed. */
    twostate predicate SavedAs(entry: Transaction, prevKey: string, freshId: string, outcome: SaveOutcome)
      requires entry.monthYear.Some?
      reads this
    {
      StoredAs(entry, freshId, outcome) &&
      (outcome.UnknownId? ==> EntryStateKept()) &&
      (!outcome.UnknownId? ==>
         Committed(entry.counterparty, outcome.Updated?,
                   Recomputed(old(carry), transactions, entry.monthYear.value, prevKey)))
    }

    /** Nothing but possibly the list changed: the failure paths of
        `_add_or_update_entry`. */
    twostate predicate EntryStateKept()
      reads this
    {
      carry == old(carry) && knownCounterparties == old(knownCounterparties) && editingId == old(editingId) &&
      invoice == old(invoice) && counterparty == old(counterparty) && Fields() == old(Fields()) &&
      calculating == old(calculating)
    }

    /** The store step of `_add_or_update_entry`. */
    method StoreEntry(entry: Transaction, freshId: string) returns (outcome: SaveOutcome)
      modifies this`transactions
      ensures StoredAs(entry, freshId, outcome)
    {
      if editingId.Some? && editingId.value != "" {
        var id := editingId.value;
        var i := FindIndexById(transactions, id);
        if i == |transactions| {
          return UnknownId(id);
        }
        transactions := transactions[i := entry.(id := Some(id))];
        outcome := Updated(i);
      } else {
        transactions := transactions + [entry.(id := Some(freshId))];
        outcome := Added;
      }
    }

    /** The part of `_add_or_update_entry` after validation: stores `entry`
        and, unless the edited record is gone, commits with the entry's
        counterparty for the entry's period (whose previous month is
        `prevKey`). */
    method SaveEntry(entry: Transaction, prevKey: string, freshId: string) returns (outcome: SaveOutcome)
      requires entry.monthYear.Some?
      modifies this`transactions, this`editingId, this`knownCounterparties, this`carry
      modifies this`calculating, this`invoice, this`counterparty, this`baseText, this`vatText, this`totalText
      ensures SavedAs(entry, prevKey, freshId, outcome)
    {
      outcome := StoreEntry(entry, freshId);
      if outcome.UnknownId? {
        return;
      }
      Commit(entry.counterparty, outcome.Updated?, entry.monthYear.value, prevKey);
    }

    /** The steps of `_add_or_update_entry` after the list was changed:
        leaving edit mode after an update, remembering a non-empty
        counterparty `cp`, recomputing the ledger of period `key` and clearing
        the entry fields. */
    method Commit(cp: string, leaveEdit: bool, key: string, prevKey: string)
      modifies this`editingId, this`knownCounterparties, this`carry
      modifies this`calculating, this`invoice, this`counterparty, this`baseText, this`vatText, this`totalText
      ensures Committed(cp, leaveEdit, Recomputed(old(carry), transactions, key, prevKey))
    {
      if leaveEdit {
        CancelEdit();
      }
      ghost var editing := editingId;
      assert editing == if leaveEdit then None else old(editingId);
      if cp != "" {
        knownCounterparties := knownCounterparties + {cp};
      }
      RefreshAndClear(key, prevKey);
      assert editingId == editing;
    }

    /** Recomputes the ledger of period `key`, then clears the entry fields. */
    method RefreshAndClear(key: string, prevKey: string)
      modifies this`carry, this`calculating, this`invoice, this`counterparty, this`baseText, this`vatText, this`totalText
      ensures carry == Recomputed(old(carry), transactions, key, prevKey)
      ensures invoice == "" && counterparty == "" && Fields() == AmountFields("", "", "") && !calculating
    {
      var _ := ShowLedger(key, prevKey);
      ClearEntryFields();
    }

    /** `_validate_inputs` followed by the record `_add_or_update_entry`
        builds: the first validation error, or the entry for the shown period
        with the validated amounts and the stripped texts. */
    function FormEntry(): (r: Result<Transaction, ValidationError>)
      reads this
      requires HasPrevKey(year, month)
      ensures r.Err? <==> ValidateFields(Fields()).Err?
      ensures r.Err? ==> r.error == ValidateFields(Fields()).error
      ensures r.Ok? ==>
        var a := ValidateFields(Fields()).value;
        r.value.id.None? && r.value.monthYear == Some(Key()) &&
        r.value.company == Some(company) && r.value.ttype == Some(ttype) &&
        r.value.invoiceNo == Strip(invoice) && r.value.counterparty == Strip(counterparty) &&
        (r.value.base, r.value.vat, r.value.total) == (Some(a.base), Some(a.vat), Some(a.total))
    {
      match ValidateFields(Fields())
      case Err(e) => Err(e)
      case Ok(a) => Ok(NewEntry(a, company, Key(), ttype, invoice, counterparty))
    }

    /** `_add_or_update_entry`: rejects the form with the first validation
        error, changing nothing; otherwise stores the entry built from the
        form and, unless the edited record is gone, commits for the shown
        period. `freshId` stands for the timestamp id of a new record. */
    method AddOrUpdateEntry(freshId: string) returns (outcome: SaveOutcome)
      requires HasPrevKey(year, month)
      modifies this`transactions, this`editingId, this`knownCounterparties, this`carry
      modifies this`calculating, this`invoice, this`counterparty, this`baseText, this`vatText, this`totalText
      ensures old(FormEntry()).Err? <==> outcome.Rejected?
      ensures outcome.Rejected? ==>
        outcome.error == old(FormEntry()).error && transactions == old(transactions) && EntryStateKept()
      ensures !outcome.Rejected? ==> SavedAs(old(FormEntry()).value, old(PrevKey()), freshId, outcome)
    {
      var r := FormEntry();
      if r.Err? {
        return Rejected(r.error);
      }
      outcome := SaveEntry(r.value, PrevKey(), freshId);
    }

    /** The list and the store after removing the records whose id is in
        `ids`: when some were, the outcome reports how many, the list keeps
        the others in order and the ledger of period `key` is recomputed;
        otherwise nothing changed. */
    twostate predicate RemovedAs(ids: set<string>, key: string, prevKey: string, outcome: DeleteOutcome)
      reads this
    {
      var removed := RemovedCount(old(transactions), ids);
      (outcome.Deleted? <==> removed > 0) && (outcome.NoneFound? <==> removed == 0) &&
      (outcome.Deleted? ==>
         outcome.count == removed && transactions == Delete(old(transactions), ids) &&
         carry == Recomputed(old(carry), transactions, key, prevKey)) &&
      (outcome.NoneFound? ==> transactions == old(transactions) && carry == old(carry))
    }

    /** The filter and the count of `_delete_selected_entry`, then the
        ledger of period `key` when something was removed. */
    method RemoveIds(ids: set<string>, key: string, prevKey: string) returns (outcome: DeleteOutcome)
      modifies this`transactions, this`carry
      ensures RemovedAs(ids, key, prevKey, outcome)
    {
      var initialCount := |transactions|;
      var kept := Delete(transactions, ids);
      DeleteCount(transactions, ids);
      var deletedCount := initialCount - |kept|;
      if deletedCount > 0 {
        transactions := kept;
        var _ := ShowLedger(key, prevKey);
        outcome := Deleted(deletedCount);
      } else {
        DeleteNothingRemoved(transactions, ids);
        outcome := NoneFound;
      }
    }

    /** `_delete_selected_entry`: after confirmation, removes every record
        whose id is the tag of a selected row and, when something was
        removed, recomputes the ledger of the shown period. */
    method DeleteSelectedEntry(selection: seq<seq<string>>, confirmed: bool) returns (outcome: DeleteOutcome)
      requires HasPrevKey(year, month)
      modifies this`transactions, this`carry
      ensures selection == [] <==> outcome == NoSelection
      ensures outcome == NotConfirmed <==> selection != [] && !confirmed
      ensures outcome == NoIds <==> selection != [] && confirmed && TaggedIds(selection) == {}
      ensures outcome.Deleted? || outcome.NoneFound? ==>
        selection != [] && confirmed && TaggedIds(selection) != {} &&
        RemovedAs(TaggedIds(selection), Key(), PrevKey(), outcome)
      ensures !outcome.Deleted? ==> transactions == old(transactions) && carry == old(carry)
    {
      if selection == [] {
        return NoSelection;
      }
      if !confirmed {
        return NotConfirmed;
      }
      var ids := CollectIds(selection);
      assert ids == TaggedIds(selection);
      if ids == {} {
        return NoIds;
      }
      outcome := RemoveIds(ids, Key(), PrevKey());
    }
  }
}
