/** The live ledger of a period: per company and transaction type sums of
    the period's transactions, each company's balance against the surplus
    carried from the month before, and the carry-forward store that keeps a
    negative balance (a surplus) for the month after. */
module Ledger {
  import opened Wrappers
  import opened Store

  const Companies: seq<string> := ["SOL", "HELO"]
  const TransactionTypes: seq<string> := ["Sales", "Imports", "Local"]

  /** Base, VAT and total summed over some transactions, in cents. */
  datatype Sums = Sums(base: int, vat: int, total: int) {
    function Plus(o: Sums): Sums {
      Sums(base + o.base, vat + o.vat, total + o.total)
    }
  }

  const Zero := Sums(0, 0, 0)

  /** A transaction's amounts; a missing amount counts as 0. */
  function AmountsOf(t: Transaction): Sums {
    Sums(t.base.GetOr(0), t.vat.GetOr(0), t.total.GetOr(0))
  }

  /** The transaction belongs to period `key`, company `c` and type `ty`. */
  predicate Matches(t: Transaction, key: string, c: string, ty: string) {
    t.monthYear == Some(key) && t.company == Some(c) && t.ttype == Some(ty)
  }

  /** The sums of the transactions of period `key`, company `c` and type `ty`. */
  function TypeTotals(txs: seq<Transaction>, key: string, c: string, ty: string): Sums {
    if txs == [] then Zero
    else
      var rest := TypeTotals(txs[..|txs| - 1], key, c, ty);
      var t := txs[|txs| - 1];
      if Matches(t, key, c, ty) then rest.Plus(AmountsOf(t)) else rest
  }

  /** The sums of a concatenation add up: each transaction contributes on its own. */
  lemma {:induction false} TypeTotalsAppend(a: seq<Transaction>, b: seq<Transaction>, key: string, c: string, ty: string)
    ensures TypeTotals(a + b, key, c, ty) == TypeTotals(a, key, c, ty).Plus(TypeTotals(b, key, c, ty))
    decreases |b|
  {
    if b == [] {
      assert a + b == a;
    } else {
      var init := b[..|b| - 1];
      TypeTotalsAppend(a, init, key, c, ty);
      assert (a + b)[..|a + b| - 1] == a + init;
      assert (a + b)[|a + b| - 1] == b[|b| - 1];
    }
  }

  /** A transaction of another period, company or type leaves the sums alone. */
  lemma TypeTotalsIgnores(txs: seq<Transaction>, t: Transaction, key: string, c: string, ty: string)
    requires !Matches(t, key, c, ty)
    ensures TypeTotals(txs + [t], key, c, ty) == TypeTotals(txs, key, c, ty)
  {
    assert (txs + [t])[..|txs|] == txs;
  }

  /** The sums of company `c` and type `ty`, zero for what was never summed. */
  function Lookup(totals: map<(string, string), Sums>, c: string, ty: string): Sums {
    if (c, ty) in totals then totals[(c, ty)] else Zero
  }

  /** The loop building `monthly_totals`: only transactions of the period whose
      company and type are known values are summed. */
  method MonthlyTotals(txs: seq<Transaction>, key: string) returns (totals: map<(string, string), Sums>)
    ensures forall p :: p in totals ==> p.0 in Companies && p.1 in TransactionTypes
    ensures forall c, ty :: c in Companies && ty in TransactionTypes ==>
      Lookup(totals, c, ty) == TypeTotals(txs, key, c, ty)
  {
    totals := map[];
    for i := 0 to |txs|
      invariant forall p :: p in totals ==> p.0 in Companies && p.1 in TransactionTypes
      invariant forall c, ty :: c in Companies && ty in TransactionTypes ==>
        Lookup(totals, c, ty) == TypeTotals(txs[..i], key, c, ty)
    {
      var t := txs[i];
      assert txs[..i + 1][..i] == txs[..i];
      assert txs[..i + 1][i] == t;
      if t.monthYear == Some(key) && t.company.Some? && t.ttype.Some? {
        var comp := t.company.value;
        var ty := t.ttype.value;
        if comp in Companies && ty in TransactionTypes {
          totals := totals[(comp, ty) := Lookup(totals, comp, ty).Plus(AmountsOf(t))];
        }
      }
    }
    assert txs[..|txs|] == txs;
  }

  /** The period's sums as a map over every known company and type. */
  function PeriodTotals(txs: seq<Transaction>, key: string): (totals: map<(string, string), Sums>)
    ensures forall c, ty :: c in Companies && ty in TransactionTypes ==>
      Lookup(totals, c, ty) == TypeTotals(txs, key, c, ty)
  {
    var pairs := set c, ty | c in Companies && ty in TransactionTypes :: (c, ty);
    map p | p in pairs :: TypeTotals(txs, key, p.0, p.1)
  }

  /** Two sum maps that agree on every known company and type. */
  predicate SameLookups(t1: map<(string, string), Sums>, t2: map<(string, string), Sums>) {
    forall c, ty :: c in Companies && ty in TransactionTypes ==> Lookup(t1, c, ty) == Lookup(t2, c, ty)
  }

  /** `carry_forward_data`: company -> period key -> stored surplus, in cents. */
  type Carry = map<string, map<string, int>>

  /** The stored surplus of company `c` for period `k`, if any. */
  function Entry(carry: Carry, c: string, k: string): Option<int> {
    if c in carry && k in carry[c] then Some(carry[c][k]) else None
  }

  /** Two stores with the same companies and the same entries are equal. */
  lemma CarryExt(a: Carry, b: Carry)
    requires a.Keys == b.Keys
    requires forall c, k :: Entry(a, c, k) == Entry(b, c, k)
    ensures a == b
  {
    forall c | c in a
      ensures a[c] == b[c]
    {
      forall k
        ensures k in a[c] <==> k in b[c]
        ensures k in a[c] ==> a[c][k] == b[c][k]
      {
        assert Entry(a, c, k) == Entry(b, c, k);
      }
    }
  }

  /** The stored surplus carried from the month before (0 if none). */
  function PrevSurplus(carry: Carry, c: string, prevKey: string): int {
    Entry(carry, c, prevKey).GetOr(0)
  }

  /** Sales VAT minus imports VAT minus local VAT. */
  function NetVat(totals: map<(string, string), Sums>, c: string): int {
    Lookup(totals, c, "Sales").vat - Lookup(totals, c, "Imports").vat - Lookup(totals, c, "Local").vat
  }

  /** The company's balance for the period: carried surplus plus net VAT. */
  function Balance(carry: Carry, totals: map<(string, string), Sums>, c: string, prevKey: string): int {
    PrevSurplus(carry, c, prevKey) + NetVat(totals, c)
  }

  /** The entry the period should carry forward for a balance: the balance
      itself when it is a surplus (negative), nothing otherwise. */
  function CarriedEntry(balance: int): (e: Option<int>)
    ensures e.Some? <==> balance < 0
    ensures e.Some? ==> e.value == balance
  {
    if balance < 0 then Some(balance) else None
  }

  /** One company's turn of the loop over companies. */
  function CarryStep(carry: Carry, totals: map<(string, string), Sums>, c: string, key: string, prevKey: string): Carry {
    var bal := Balance(carry, totals, c, prevKey);
    var inner := if c in carry then carry[c] else map[];
    carry[c := if bal < 0 then inner[key := bal] else inner - {key}]
  }

  /** The loop over the companies `cs`, in order. */
  function CarryAfter(carry: Carry, totals: map<(string, string), Sums>, cs: seq<string>, key: string, prevKey: string): Carry
  {
    if cs == [] then carry
    else CarryStep(CarryAfter(carry, totals, cs[..|cs| - 1], key, prevKey), totals, cs[|cs| - 1], key, prevKey)
  }

  predicate Distinct(cs: seq<string>) {
    forall i, j :: 0 <= i < j < |cs| ==> cs[i] != cs[j]
  }

  /** After the loop over distinct companies `cs`, every company of `cs` has
      at the period key exactly the entry its balance calls for, where the
      balance is computed from the store as it was before the loop; every
      other entry is as before. */
  lemma {:induction false} CarryAfterEntry(carry: Carry, totals: map<(string, string), Sums>, cs: seq<string>,
                                           key: string, prevKey: string, c: string, k: string)
    requires Distinct(cs)
    ensures Entry(CarryAfter(carry, totals, cs, key, prevKey), c, k) ==
      if c in cs && k == key then CarriedEntry(Balance(carry, totals, c, prevKey)) else Entry(carry, c, k)
  {
    if cs != [] {
      var init := cs[..|cs| - 1];
      var last := cs[|cs| - 1];
      var before := CarryAfter(carry, totals, init, key, prevKey);
      assert Distinct(init);
      assert last !in init;
      assert cs == init + [last];
      assert c in cs <==> c in init || c == last;
      CarryAfterEntry(carry, totals, init, key, prevKey, c, k);
      CarryAfterEntry(carry, totals, init, key, prevKey, last, prevKey);
      assert PrevSurplus(before, last, prevKey) == PrevSurplus(carry, last, prevKey);
      assert Balance(before, totals, last, prevKey) == Balance(carry, totals, last, prevKey);
      CarryStepEntry(before, totals, last, key, prevKey, c, k);
    }
  }

  /** The loop leaves every company of the store in it and adds those of `cs`. */
  lemma {:induction false} CarryAfterKeys(carry: Carry, totals: map<(string, string), Sums>, cs: seq<string>,
                                          key: string, prevKey: string)
    ensures CarryAfter(carry, totals, cs, key, prevKey).Keys == carry.Keys + set x | x in cs
  {
    if cs != [] {
      var init := cs[..|cs| - 1];
      var last := cs[|cs| - 1];
      assert cs == init + [last];
      assert (set x | x in cs) == (set x | x in init) + {last};
      CarryAfterKeys(carry, totals, init, key, prevKey);
      CarryStepEntry(CarryAfter(carry, totals, init, key, prevKey), totals, last, key, prevKey, last, key);
    }
  }

  /** One company's step gives that company, at the period key, the entry its
      balance calls for, and leaves every other entry alone. */
  lemma CarryStepEntry(carry: Carry, totals: map<(string, string), Sums>, c0: string, key: string, prevKey: string,
                       c: string, k: string)
    ensures Entry(CarryStep(carry, totals, c0, key, prevKey), c, k) ==
      if c == c0 && k == key then CarriedEntry(Balance(carry, totals, c0, prevKey)) else Entry(carry, c, k)
    ensures CarryStep(carry, totals, c0, key, prevKey).Keys == carry.Keys + {c0}
  {
  }


  lemma NetVatSameLookups(t1: map<(string, string), Sums>, t2: map<(string, string), Sums>, c: string)
    requires SameLookups(t1, t2) && c in Companies
    ensures NetVat(t1, c) == NetVat(t2, c)
  {
    assert "Sales" in TransactionTypes && "Imports" in TransactionTypes && "Local" in TransactionTypes;
  }

  /** The store update reads the sums only through known companies and types. */
  lemma {:induction false} CarryAfterSameLookups(carry: Carry, t1: map<(string, string), Sums>, t2: map<(string, string), Sums>,
                                                 cs: seq<string>, key: string, prevKey: string)
    requires SameLookups(t1, t2)
    requires forall c :: c in cs ==> c in Companies
    ensures CarryAfter(carry, t1, cs, key, prevKey) == CarryAfter(carry, t2, cs, key, prevKey)
  {
    if cs != [] {
      var init := cs[..|cs| - 1];
      var last := cs[|cs| - 1];
      assert cs == init + [last];
      CarryAfterSameLookups(carry, t1, t2, init, key, prevKey);
      CarryStepSameLookups(CarryAfter(carry, t1, init, key, prevKey), t1, t2, last, key, prevKey);
    }
  }

  /** One company's step reads the totals only through their lookups. */
  lemma CarryStepSameLookups(carry: Carry, t1: map<(string, string), Sums>, t2: map<(string, string), Sums>,
                             c: string, key: string, prevKey: string)
    requires SameLookups(t1, t2) && c in Companies
    ensures CarryStep(carry, t1, c, key, prevKey) == CarryStep(carry, t2, c, key, prevKey)
  {
    NetVatSameLookups(t1, t2, c);
    assert Balance(carry, t1, c, prevKey) == Balance(carry, t2, c, prevKey);
  }

  lemma CompaniesDistinct()
    ensures Distinct(Companies)
  {
  }

  /** Running the update twice on the same data leaves the store as one run
      does, because the surplus read (the month before) is never the one
      written (this month). */
  lemma CarryAfterIdempotent(carry: Carry, totals: map<(string, string), Sums>, key: string, prevKey: string)
    requires key != prevKey
    ensures var once := CarryAfter(carry, totals, Companies, key, prevKey);
      CarryAfter(once, totals, Companies, key, prevKey) == once
  {
    var once := CarryAfter(carry, totals, Companies, key, prevKey);
    var twice := CarryAfter(once, totals, Companies, key, prevKey);
    CompaniesDistinct();
    forall c, k
      ensures Entry(twice, c, k) == Entry(once, c, k)
    {
      CarryAfterEntry(once, totals, Companies, key, prevKey, c, k);
      CarryAfterEntry(carry, totals, Companies, key, prevKey, c, k);
      CarryAfterEntry(carry, totals, Companies, key, prevKey, c, prevKey);
    }
    CarryAfterKeys(once, totals, Companies, key, prevKey);
    CarryAfterKeys(carry, totals, Companies, key, prevKey);
    CarryExt(twice, once);
  }

  /** The display's classification of a balance: negative is a surplus,
      positive is due. */
  datatype BalanceStatus = Surplus | Due | Settled

  function StatusOf(balance: int): (s: BalanceStatus)
    ensures s == Surplus <==> balance < 0
    ensures s == Due <==> balance > 0
  {
    if balance < 0 then Surplus else if balance > 0 then Due else Settled
  }

  /** What the live panel shows for one company. */
  datatype CompanyView = CompanyView(
    company: string,
    byType: seq<Sums>,
    prevSurplus: int,
    balance: int,
    status: BalanceStatus)

  /** The sums shown for each transaction type, in `TRANSACTION_TYPES` order. */
  function TypeRow(totals: map<(string, string), Sums>, c: string): (row: seq<Sums>)
    ensures |row| == |TransactionTypes|
    ensures forall i :: 0 <= i < |row| ==> row[i] == Lookup(totals, c, TransactionTypes[i])
  {
    seq(|TransactionTypes|, i requires 0 <= i < |TransactionTypes| => Lookup(totals, c, TransactionTypes[i]))
  }

  function ViewOf(carry: Carry, totals: map<(string, string), Sums>, c: string, prevKey: string): CompanyView {
    var bal := Balance(carry, totals, c, prevKey);
    CompanyView(c, TypeRow(totals, c), PrevSurplus(carry, c, prevKey), bal, StatusOf(bal))
  }

  lemma ViewOfSameLookups(carry: Carry, t1: map<(string, string), Sums>, t2: map<(string, string), Sums>, c: string, prevKey: string)
    requires SameLookups(t1, t2) && c in Companies
    ensures ViewOf(carry, t1, c, prevKey) == ViewOf(carry, t2, c, prevKey)
  {
    assert TypeRow(t1, c) == TypeRow(t2, c);
    NetVatSameLookups(t1, t2, c);
  }

  /** One company's turn: its view, and its entry for the period written
      (a surplus) or deleted (a balance due or zero). */
  method CompanyStep(carry: Carry, totals: map<(string, string), Sums>, company: string, key: string, prevKey: string)
    returns (newCarry: Carry, view: CompanyView)
    ensures newCarry == CarryStep(carry, totals, company, key, prevKey)
    ensures view == ViewOf(carry, totals, company, prevKey)
  {
    var prevSurplus := if company in carry && prevKey in carry[company] then carry[company][prevKey] else 0;
    var balance := prevSurplus + NetVat(totals, company);
    view := CompanyView(company, TypeRow(totals, company), prevSurplus, balance, StatusOf(balance));
    ghost var inner := if company in carry then carry[company] else map[];
    assert balance == Balance(carry, totals, company, prevKey);
    newCarry := carry;
    if company !in newCarry {
      newCarry := newCarry[company := map[]];
    }
    assert newCarry == carry[company := inner];
    if balance < 0 {
      newCarry := newCarry[company := newCarry[company][key := balance]];
    } else if key in newCarry[company] {
      newCarry := newCarry[company := newCarry[company] - {key}];
    } else {
      assert inner - {key} == inner;
    }
  }

  /** The loop over `COMPANIES` in `_update_live_data_display`: it computes
      each company's view and writes or deletes its carry-forward entry. */
  method CarryForward(carry: Carry, totals: map<(string, string), Sums>, key: string, prevKey: string)
    returns (newCarry: Carry, views: seq<CompanyView>)
    ensures newCarry == CarryAfter(carry, totals, Companies, key, prevKey)
    ensures |views| == |Companies|
    ensures forall i :: 0 <= i < |Companies| ==> views[i] == ViewOf(carry, totals, Companies[i], prevKey)
  {
    CompaniesDistinct();
    newCarry := carry;
    views := [];
    for i := 0 to |Companies|
      invariant newCarry == CarryAfter(carry, totals, Companies[..i], key, prevKey)
      invariant |views| == i
      invariant forall j :: 0 <= j < i ==> views[j] == ViewOf(carry, totals, Companies[j], prevKey)
    {
      var company := Companies[i];
      assert Companies[..i + 1][..i] == Companies[..i];
      assert company !in Companies[..i];
      CarryAfterEntry(carry, totals, Companies[..i], key, prevKey, company, prevKey);
      var view;
      ghost var before := newCarry;
      newCarry, view := CompanyStep(newCarry, totals, company, key, prevKey);
      assert ViewOf(before, totals, company, prevKey) == ViewOf(carry, totals, company, prevKey);
      views := views + [view];
    }
    assert Companies[..|Companies|] == Companies;
  }
}
