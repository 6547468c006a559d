/** The general-ledger report over a sequence of posted entries: grand, currency and account totals,
    and balances that roll forward. Amounts are integer cents, dates are day numbers. */
module GeneralLedger {
  import opened Common

  function Coalesce<T>(first: Option<T>, second: T): T {
    match first case Some(v) => v case None => second
  }

  // ---------- Entries and queries ----------

  datatype GlAccount = GlAccount(code: string, name: string, kind: string, normalBalance: string)

  datatype Category = Category(name: Option<string>, kind: Option<string>, normalBalance: Option<string>)

  /** A posted line with the rows it joins. A mapping and its GL account exist together (foreign
      key), so `gl` stands for both. */
  datatype Entry = Entry(entity: string, currency: string, journal: int, date: int, debit: int, credit: int,
                         accountCode: string, gl: Option<GlAccount>, category: Category)

  /** `accountCode` and `search` are None when blank; a search is any predicate on entries. */
  datatype Query = Query(entity: string, currency: string, from: int, to: int,
                         accountCode: Option<string>, search: Option<Entry -> bool>)

  datatype RangeCheck = Valid | Reversed | TooLong

  function ValidateRange(from: int, to: int): RangeCheck {
    if from > to then Reversed else if to - from > 366 then TooLong else Valid
  }

  function AccountCode(e: Entry): string {
    match e.gl case Some(gl) => gl.code case None => "UNMAPPED:" + e.accountCode
  }

  /** The GROUP BY key of the account query. */
  datatype Key = Key(currency: string, code: string, name: string, kind: string, normalBalance: string)

  function KeyOf(e: Entry): Key {
    Key(e.currency, AccountCode(e),
        match e.gl case Some(gl) => gl.name case None => Coalesce(e.category.name, e.accountCode),
        match e.gl case Some(gl) => gl.kind case None => Coalesce(e.category.kind, "UNKNOWN"),
        match e.gl case Some(gl) => gl.normalBalance case None => Coalesce(e.category.normalBalance, "DEBIT"))
  }

  predicate InScope(e: Entry, q: Query) {
    e.entity == q.entity && (q.currency == "ALL" || e.currency == q.currency) &&
    (q.accountCode.Some? ==> AccountCode(e) == q.accountCode.value)
  }

  /** The WHERE clause of the line, total and currency queries. */
  predicate Selected(e: Entry, q: Query) {
    InScope(e, q) && q.from <= e.date <= q.to && (q.search.Some? ==> q.search.value(e))
  }

  /** The WHERE clause of the account query: everything up to the end, whatever the search. */
  predicate InBooks(e: Entry, q: Query) {
    InScope(e, q) && e.date <= q.to
  }

  // ---------- Sums ----------

  function Sum(entries: seq<Entry>, amount: Entry -> int): int {
    if entries == [] then 0 else amount(entries[0]) + Sum(entries[1..], amount)
  }

  function SumOver<K>(keys: seq<K>, amount: K -> int): int {
    if keys == [] then 0 else amount(keys[0]) + SumOver(keys[1..], amount)
  }

  function Where(p: Entry -> bool, amount: Entry -> int): Entry -> int {
    e => if p(e) then amount(e) else 0
  }

  /** Distinct keys of the entries satisfying `p`, in first-appearance order from the end. */
  function Groups<K(==)>(entries: seq<Entry>, p: Entry -> bool, key: Entry -> K): seq<K> {
    if entries == [] then []
    else
      var rest := Groups(entries[1..], p, key);
      if p(entries[0]) && key(entries[0]) !in rest then [key(entries[0])] + rest else rest
  }

  // ---------- The report ----------

  datatype Totals = Totals(debit: int, credit: int, difference: int, balanced: bool)

  function MakeTotals(debit: int, credit: int): Totals {
    Totals(debit, credit, debit - credit, debit == credit)
  }

  function Debit(e: Entry): int { e.debit }
  function Credit(e: Entry): int { e.credit }
  function Net(e: Entry): int { e.debit - e.credit }

  function OfJournal(j: int): Entry -> bool { (e: Entry) => e.journal == j }

  /** The totals of the journal view. */
  function JournalTotals(entries: seq<Entry>, j: int): Totals {
    MakeTotals(Sum(entries, Where(OfJournal(j), Debit)), Sum(entries, Where(OfJournal(j), Credit)))
  }

  function Chosen(q: Query): Entry -> bool { e => Selected(e, q) }
  function Booked(q: Query): Entry -> bool { e => InBooks(e, q) }

  function GrandTotals(entries: seq<Entry>, q: Query): Totals {
    MakeTotals(Sum(entries, Where(Chosen(q), Debit)), Sum(entries, Where(Chosen(q), Credit)))
  }

  function ChosenIn(q: Query, currency: string): Entry -> bool {
    (e: Entry) => Selected(e, q) && e.currency == currency }

  function CurrencyOf(e: Entry): string { e.currency }

  function Currencies(entries: seq<Entry>, q: Query): seq<string> { Groups(entries, Chosen(q), CurrencyOf) }

  function CurrencyTotals(entries: seq<Entry>, q: Query, currency: string): Totals {
    MakeTotals(Sum(entries, Where(ChosenIn(q, currency), Debit)), Sum(entries, Where(ChosenIn(q, currency), Credit)))
  }

  datatype AccountRow = AccountRow(key: Key, opening: int, debit: int, credit: int, closing: int)

  function Signed(normalBalance: string, debit: int, credit: int): int {
    if normalBalance == "DEBIT" then debit - credit else credit - debit
  }

  function SignedBy(normalBalance: string): Entry -> int { (e: Entry) => Signed(normalBalance, e.debit, e.credit) }

  function Before(q: Query, k: Key): Entry -> bool { e => InBooks(e, q) && KeyOf(e) == k && e.date < q.from }
  function Within(q: Query, k: Key): Entry -> bool { e => InBooks(e, q) && KeyOf(e) == k && e.date >= q.from }

  function AccountOf(entries: seq<Entry>, q: Query, k: Key): AccountRow {
    var opening := Sum(entries, Where(Before(q, k), SignedBy(k.normalBalance)));
    var debit := Sum(entries, Where(Within(q, k), Debit));
    var credit := Sum(entries, Where(Within(q, k), Credit));
    AccountRow(k, opening, debit, credit,
               if k.normalBalance == "DEBIT" then opening + debit - credit else opening + credit - debit)
  }

  function AccountKeys(entries: seq<Entry>, q: Query): seq<Key> { Groups(entries, Booked(q), KeyOf) }

  function Accounts(entries: seq<Entry>, q: Query): (r: seq<AccountRow>)
    ensures |r| == |AccountKeys(entries, q)|
    ensures forall i :: 0 <= i < |r| ==> r[i] == AccountOf(entries, q, AccountKeys(entries, q)[i])
  {
    var keys := AccountKeys(entries, q);
    seq(|keys|, i requires 0 <= i < |keys| => AccountOf(entries, q, keys[i]))
  }

  /** The report's row for an account, or zeros when the report does not list it. */
  function RowFor(rows: seq<AccountRow>, k: Key): AccountRow {
    if rows == [] then AccountRow(k, 0, 0, 0, 0)
    else if rows[0].key == k then rows[0] else RowFor(rows[1..], k)
  }

  // ---------- Sums: laws ----------

  lemma {:induction false} SumEqual(entries: seq<Entry>, f: Entry -> int, g: Entry -> int)
    requires forall e :: e in entries ==> f(e) == g(e)
    ensures Sum(entries, f) == Sum(entries, g)
  {
    if entries != [] { SumEqual(entries[1..], f, g); }
  }

  lemma {:induction false} SumAdds(entries: seq<Entry>, f: Entry -> int, g: Entry -> int, h: Entry -> int)
    requires forall e :: e in entries ==> h(e) == f(e) + g(e)
    ensures Sum(entries, h) == Sum(entries, f) + Sum(entries, g)
  {
    if entries != [] { SumAdds(entries[1..], f, g, h); }
  }

  ghost predicate NoRepeats<K>(keys: seq<K>) {
    forall i, j :: 0 <= i < j < |keys| ==> keys[i] != keys[j]
  }

  lemma {:induction false} GroupsCover<K>(entries: seq<Entry>, p: Entry -> bool, key: Entry -> K)
    ensures NoRepeats(Groups(entries, p, key))
    ensures forall k :: k in Groups(entries, p, key) <==> exists e :: e in entries && p(e) && key(e) == k
  {
    if entries != [] {
      GroupsCover(entries[1..], p, key);
      assert entries == [entries[0]] + entries[1..];
    }
  }

  lemma {:induction false} SumOverAdds<K>(keys: seq<K>, f: K -> int, g: K -> int, h: K -> int)
    requires forall k :: k in keys ==> h(k) == f(k) + g(k)
    ensures SumOver(keys, h) == SumOver(keys, f) + SumOver(keys, g)
  {
    if keys != [] { SumOverAdds(keys[1..], f, g, h); }
  }

  lemma {:induction false} SumOverPoint<K>(keys: seq<K>, x: K, f: K -> int)
    requires NoRepeats(keys) && forall k :: k in keys && k != x ==> f(k) == 0
    ensures SumOver(keys, f) == if x in keys then f(x) else 0
  {
    if keys != [] {
      forall i, j | 0 <= i < j < |keys[1..]| ensures keys[1..][i] != keys[1..][j] {
        assert keys[i + 1] != keys[j + 1];
      }
      SumOverPoint(keys[1..], x, f);
      assert forall k :: k in keys[1..] ==> exists i :: 1 <= i < |keys| && keys[i] == k;
    }
  }

  function InGroup<K(==)>(p: Entry -> bool, key: Entry -> K, k: K): Entry -> bool { e => p(e) && key(e) == k }

  /** The sum of the entries satisfying `p` in each group. */
  function GroupSum<K(==)>(entries: seq<Entry>, p: Entry -> bool, key: Entry -> K, amount: Entry -> int): K -> int {
    k => Sum(entries, Where(InGroup(p, key, k), amount))
  }

  /** Sums by group add up to the sum over the whole. */
  lemma {:induction false} SumByGroup<K>(entries: seq<Entry>, p: Entry -> bool, key: Entry -> K,
                                          amount: Entry -> int, keys: seq<K>)
    requires NoRepeats(keys) && forall e :: e in entries && p(e) ==> key(e) in keys
    ensures SumOver(keys, GroupSum(entries, p, key, amount)) == Sum(entries, Where(p, amount))
  {
    if entries == [] {
      SumOverZero(keys, GroupSum(entries, p, key, amount));
    } else {
      var first, rest := entries[0], entries[1..];
      SumByGroup(rest, p, key, amount, keys);
      var point: K -> int := k => if p(first) && key(first) == k then amount(first) else 0;
      SumOverPoint(keys, key(first), point);
      SumOverAdds(keys, point, GroupSum(rest, p, key, amount), GroupSum(entries, p, key, amount));
    }
  }

  lemma {:induction false} SumOverZero<K>(keys: seq<K>, f: K -> int)
    requires forall k :: k in keys ==> f(k) == 0
    ensures SumOver(keys, f) == 0
  {
    if keys != [] { SumOverZero(keys[1..], f); }
  }

  lemma {:induction false} SumOverEqual<K>(keys: seq<K>, f: K -> int, g: K -> int)
    requires forall k :: k in keys ==> f(k) == g(k)
    ensures SumOver(keys, f) == SumOver(keys, g)
  {
    if keys != [] { SumOverEqual(keys[1..], f, g); }
  }

  // ---------- Roll-forward ----------

  /** A listed account has its row, an unlisted one has only zero sums: the report can be read as a
      total function of the account. */
  lemma RowIsAccount(entries: seq<Entry>, q: Query, k: Key)
    ensures RowFor(Accounts(entries, q), k) == AccountOf(entries, q, k)
  {
    var keys := AccountKeys(entries, q);
    GroupsCover(entries, Booked(q), KeyOf);
    RowLookup(Accounts(entries, q), k);
    assert forall e :: e in entries && Booked(q)(e) ==> KeyOf(e) in keys;
    if k !in keys {
      assert forall e :: e in entries && InBooks(e, q) ==> KeyOf(e) != k;
      SumZero(entries, Where(Before(q, k), SignedBy(k.normalBalance)));
      SumZero(entries, Where(Within(q, k), Debit));
      SumZero(entries, Where(Within(q, k), Credit));
      forall i | 0 <= i < |Accounts(entries, q)| ensures Accounts(entries, q)[i].key != k {
        assert keys[i] in keys;
      }
    } else {
      var i :| 0 <= i < |keys| && keys[i] == k;
      assert Accounts(entries, q)[i].key == k;
    }
  }

  lemma {:induction false} SumZero(entries: seq<Entry>, f: Entry -> int)
    requires forall e :: e in entries ==> f(e) == 0
    ensures Sum(entries, f) == 0
  {
    if entries != [] { SumZero(entries[1..], f); }
  }

  lemma {:induction false} RowLookup(rows: seq<AccountRow>, k: Key)
    ensures (exists i :: 0 <= i < |rows| && rows[i].key == k) ==> RowFor(rows, k) in rows && RowFor(rows, k).key == k
    ensures (forall i :: 0 <= i < |rows| ==> rows[i].key != k) ==> RowFor(rows, k) == AccountRow(k, 0, 0, 0, 0)
  {
    if rows != [] { RowLookup(rows[1..], k); }
  }

  function UpTo(q: Query, k: Key): Entry -> bool { e => InBooks(e, q) && KeyOf(e) == k }

  /** A closing balance is the signed sum of everything up to the end of the period. */
  lemma ClosingIsCumulative(entries: seq<Entry>, q: Query, k: Key)
    ensures AccountOf(entries, q, k).closing == Sum(entries, Where(UpTo(q, k), SignedBy(k.normalBalance)))
  {
    var signed := SignedBy(k.normalBalance);
    SumAdds(entries, Where(Before(q, k), signed), Where(Within(q, k), signed), Where(UpTo(q, k), signed));
    SignedSum(entries, Within(q, k), k.normalBalance);
  }

  lemma {:induction false} SignedSum(entries: seq<Entry>, p: Entry -> bool, normalBalance: string)
    ensures Sum(entries, Where(p, SignedBy(normalBalance)))
         == Signed(normalBalance, Sum(entries, Where(p, Debit)), Sum(entries, Where(p, Credit)))
  {
    if entries != [] { SignedSum(entries[1..], p, normalBalance); }
  }

  /** For every account, listed or not and of either side, the closing balance of a period is the
      opening balance of the period that follows it. */
  lemma RollForward(entries: seq<Entry>, q: Query, to: int, k: Key)
    requires q.to < to
    ensures RowFor(Accounts(entries, q), k).closing
         == RowFor(Accounts(entries, q.(from := q.to + 1, to := to)), k).opening
  {
    var next := q.(from := q.to + 1, to := to);
    RowIsAccount(entries, q, k);
    RowIsAccount(entries, next, k);
    ClosingIsCumulative(entries, q, k);
    SumEqual(entries, Where(UpTo(q, k), SignedBy(k.normalBalance)), Where(Before(next, k), SignedBy(k.normalBalance)));
  }

  /** The movements of two adjoining periods add to those of the whole, and when the whole is accepted
      so are its parts. */
  lemma SplitPeriod(entries: seq<Entry>, q: Query, middle: int, k: Key)
    requires q.from <= middle + 1 && middle <= q.to
    ensures var whole := RowFor(Accounts(entries, q), k);
            var first := RowFor(Accounts(entries, q.(to := middle)), k);
            var second := RowFor(Accounts(entries, q.(from := middle + 1)), k);
            && whole.debit == first.debit + second.debit && whole.credit == first.credit + second.credit
            && whole.opening == first.opening && whole.closing == second.closing
    ensures ValidateRange(q.from, q.to).Valid? <==> q.from <= q.to <= q.from + 366
    ensures ValidateRange(q.from, q.to).Valid? && q.from <= middle < q.to ==>
              ValidateRange(q.from, middle).Valid? && ValidateRange(middle + 1, q.to).Valid?
  {
    hide AccountOf, Accounts, RowFor;
    RowIsAccount(entries, q, k);
    RowIsAccount(entries, q.(to := middle), k);
    RowIsAccount(entries, q.(from := middle + 1), k);
    SplitMovements(entries, q, middle, k);
    SplitBalances(entries, q, middle, k);
  }

  lemma SplitMovements(entries: seq<Entry>, q: Query, middle: int, k: Key)
    requires q.from <= middle + 1 && middle <= q.to
    ensures var whole := AccountOf(entries, q, k);
            var first := AccountOf(entries, q.(to := middle), k);
            var second := AccountOf(entries, q.(from := middle + 1), k);
            whole.debit == first.debit + second.debit && whole.credit == first.credit + second.credit
  {
    hide KeyOf;
    var a, b := q.(to := middle), q.(from := middle + 1);
    SumAdds(entries, Where(Within(a, k), Debit), Where(Within(b, k), Debit), Where(Within(q, k), Debit));
    SumAdds(entries, Where(Within(a, k), Credit), Where(Within(b, k), Credit), Where(Within(q, k), Credit));
  }

  lemma SplitBalances(entries: seq<Entry>, q: Query, middle: int, k: Key)
    requires q.from <= middle + 1 && middle <= q.to
    ensures AccountOf(entries, q, k).opening == AccountOf(entries, q.(to := middle), k).opening
    ensures AccountOf(entries, q, k).closing == AccountOf(entries, q.(from := middle + 1), k).closing
  {
    hide KeyOf;
    var a, b := q.(to := middle), q.(from := middle + 1);
    var signed := SignedBy(k.normalBalance);
    SumEqual(entries, Where(Before(a, k), signed), Where(Before(q, k), signed));
    ClosingIsCumulative(entries, q, k);
    ClosingIsCumulative(entries, b, k);
    SumEqual(entries, Where(UpTo(b, k), signed), Where(UpTo(q, k), signed));
  }

  // ---------- Conservation ----------

  function SumRows(rows: seq<AccountRow>, amount: AccountRow -> int): int {
    if rows == [] then 0 else amount(rows[0]) + SumRows(rows[1..], amount)
  }

  lemma {:induction false} SumRowsOverKeys(keys: seq<Key>, rows: seq<AccountRow>, amount: AccountRow -> int,
                                        byKey: Key -> int)
    requires |rows| == |keys| && forall i :: 0 <= i < |keys| ==> amount(rows[i]) == byKey(keys[i])
    ensures SumRows(rows, amount) == SumOver(keys, byKey)
  {
    if keys != [] { SumRowsOverKeys(keys[1..], rows[1..], amount, byKey); }
  }

  function InPeriod(q: Query): Entry -> bool { e => InScope(e, q) && q.from <= e.date <= q.to }

  /** The account rows' movements in one column add up to the period's entries, searched or not. */
  lemma AccountMovementsAddUp(entries: seq<Entry>, q: Query)
    ensures SumRows(Accounts(entries, q), (r: AccountRow) => r.debit) == Sum(entries, Where(InPeriod(q), Debit))
    ensures SumRows(Accounts(entries, q), (r: AccountRow) => r.credit) == Sum(entries, Where(InPeriod(q), Credit))
  {
    ColumnAddsUp(entries, q, Debit, (r: AccountRow) => r.debit);
    ColumnAddsUp(entries, q, Credit, (r: AccountRow) => r.credit);
  }

  lemma ColumnAddsUp(entries: seq<Entry>, q: Query, amount: Entry -> int, column: AccountRow -> int)
    requires forall k :: column(AccountOf(entries, q, k)) == Sum(entries, Where(Within(q, k), amount))
    ensures SumRows(Accounts(entries, q), column) == Sum(entries, Where(InPeriod(q), amount))
  {
    var keys := AccountKeys(entries, q);
    GroupsCover(entries, Booked(q), KeyOf);
    forall e | e in entries && InPeriod(q)(e) ensures KeyOf(e) in keys { assert Booked(q)(e); }
    SumByGroup(entries, InPeriod(q), KeyOf, amount, keys);
    var byKey := GroupSum(entries, InPeriod(q), KeyOf, amount);
    forall i | 0 <= i < |keys| ensures column(Accounts(entries, q)[i]) == byKey(keys[i]) {
      var k := keys[i];
      SumEqual(entries, Where(Within(q, k), amount), Where(InGroup(InPeriod(q), KeyOf, k), amount));
    }
    SumRowsOverKeys(keys, Accounts(entries, q), column, byKey);
  }

  /** The grand totals are the sums of the currency totals. */
  lemma CurrencyTotalsAddUp(entries: seq<Entry>, q: Query)
    ensures var cs := Currencies(entries, q);
            && NoRepeats(cs)
            && SumOver(cs, c => CurrencyTotals(entries, q, c).debit) == GrandTotals(entries, q).debit
            && SumOver(cs, c => CurrencyTotals(entries, q, c).credit) == GrandTotals(entries, q).credit
  {
    CurrencyColumnAddsUp(entries, q, Debit, c => CurrencyTotals(entries, q, c).debit);
    CurrencyColumnAddsUp(entries, q, Credit, c => CurrencyTotals(entries, q, c).credit);
  }

  lemma CurrencyColumnAddsUp(entries: seq<Entry>, q: Query, amount: Entry -> int, column: string -> int)
    requires forall c :: column(c) == Sum(entries, Where(ChosenIn(q, c), amount))
    ensures NoRepeats(Currencies(entries, q))
    ensures SumOver(Currencies(entries, q), column) == Sum(entries, Where(Chosen(q), amount))
  {
    var cs := Currencies(entries, q);
    GroupsCover(entries, Chosen(q), CurrencyOf);
    SumByGroup(entries, Chosen(q), CurrencyOf, amount, cs);
    var byCurrency := GroupSum(entries, Chosen(q), CurrencyOf, amount);
    forall c ensures column(c) == byCurrency(c) {
      SumEqual(entries, Where(ChosenIn(q, c), amount), Where(InGroup(Chosen(q), CurrencyOf, c), amount));
    }
    SumOverEqual(cs, column, byCurrency);
  }

  function LeftOutBySearch(q: Query): Entry -> bool { e => InPeriod(q)(e) && q.search.Some? && !q.search.value(e) }

  /** Grand totals against account movements, exactly: they differ by the period's entries that the
      search leaves out, which the account query does not apply. */
  lemma GrandTotalsMatchAccounts(entries: seq<Entry>, q: Query)
    ensures SumRows(Accounts(entries, q), (r: AccountRow) => r.debit)
         == GrandTotals(entries, q).debit + Sum(entries, Where(LeftOutBySearch(q), Debit))
    ensures SumRows(Accounts(entries, q), (r: AccountRow) => r.credit)
         == GrandTotals(entries, q).credit + Sum(entries, Where(LeftOutBySearch(q), Credit))
    ensures q.search.None? ==>
      && SumRows(Accounts(entries, q), (r: AccountRow) => r.debit) == GrandTotals(entries, q).debit
      && SumRows(Accounts(entries, q), (r: AccountRow) => r.credit) == GrandTotals(entries, q).credit
  {
    AccountMovementsAddUp(entries, q);
    SumAdds(entries, Where(Chosen(q), Debit), Where(LeftOutBySearch(q), Debit), Where(InPeriod(q), Debit));
    SumAdds(entries, Where(Chosen(q), Credit), Where(LeftOutBySearch(q), Credit), Where(InPeriod(q), Credit));
    if q.search.None? {
      SumZero(entries, Where(LeftOutBySearch(q), Debit));
      SumZero(entries, Where(LeftOutBySearch(q), Credit));
    }
  }

  /** A total's difference is its net and it is flagged balanced exactly when that is zero. */
  lemma DifferenceIsNet(entries: seq<Entry>, q: Query, currency: string, journal: int)
    ensures var t := GrandTotals(entries, q);
            t.difference == Sum(entries, Where(Chosen(q), Net)) && (t.balanced <==> t.debit == t.credit)
    ensures var t := CurrencyTotals(entries, q, currency);
            t.difference == Sum(entries, Where(ChosenIn(q, currency), Net)) && (t.balanced <==> t.debit == t.credit)
    ensures var t := JournalTotals(entries, journal);
            t.difference == Sum(entries, Where(OfJournal(journal), Net)) && (t.balanced <==> t.debit == t.credit)
  {
    NetIsDifference(entries, Chosen(q));
    NetIsDifference(entries, ChosenIn(q, currency));
    NetIsDifference(entries, OfJournal(journal));
  }

  // ---------- Accounts by their own data ----------

  /** A ledger code names one account, and none looks like the code of an unmapped entry. */
  ghost predicate CodesNameAccounts(entries: seq<Entry>) {
    && (forall a, b :: a in entries && b in entries && a.gl.Some? && b.gl.Some? ==>
          (a.gl.value.code == b.gl.value.code ==> a.gl == b.gl))
    && (forall e :: e in entries && e.gl.Some? ==> !("UNMAPPED:" <= e.gl.value.code))
  }

  /** The entries of one account, currency and entity in the books, by the entries' own data. */
  function Posted(entity: string, currency: string, to: int, same: Entry -> bool): Entry -> bool {
    (e: Entry) => e.entity == entity && e.currency == currency && e.date <= to && same(e)
  }

  function OnSide(debitSide: bool): Entry -> int {
    (e: Entry) => if debitSide then e.debit - e.credit else e.credit - e.debit
  }

  /** The row sums these entries: before the period into the opening, in it into the movements, and all of
      them into the closing, on the account's side. */
  ghost predicate Balances(row: AccountRow, entries: seq<Entry>, q: Query, same: Entry -> bool, debitSide: bool) {
    var posted := Posted(q.entity, row.key.currency, q.to, same);
    && row.opening == Sum(entries, Where((e: Entry) => posted(e) && e.date < q.from, OnSide(debitSide)))
    && row.debit == Sum(entries, Where((e: Entry) => posted(e) && e.date >= q.from, Debit))
    && row.credit == Sum(entries, Where((e: Entry) => posted(e) && e.date >= q.from, Credit))
    && row.closing == Sum(entries, Where(posted, OnSide(debitSide)))
  }

  function MappedTo(a: GlAccount): Entry -> bool { (e: Entry) => e.gl == Some(a) }

  /** Unmapped entries of one account code and shown name, type and side. */
  function UnmappedLike(x: Entry): Entry -> bool {
    (e: Entry) => e.gl.None? && e.accountCode == x.accountCode
      && (if e.category.name.Some? then e.category.name.value else e.accountCode)
         == (if x.category.name.Some? then x.category.name.value else x.accountCode)
      && (if e.category.kind.Some? then e.category.kind.value else "UNKNOWN")
         == (if x.category.kind.Some? then x.category.kind.value else "UNKNOWN")
      && (if e.category.normalBalance.Some? then e.category.normalBalance.value else "DEBIT")
         == (if x.category.normalBalance.Some? then x.category.normalBalance.value else "DEBIT")
  }

  /** The account's own code, as a filter must name it. */
  predicate Asked(q: Query, currency: string, code: string) {
    (q.currency == "ALL" || q.currency == currency) && (q.accountCode.None? || q.accountCode.value == code)
  }

  /** Every ledger account with an entry in the books has exactly one row in its currency. The row shows
      the account's name, type and side, and sums exactly its entries on that side. */
  lemma LedgerAccountHasItsRow(entries: seq<Entry>, q: Query, x: Entry)
    requires CodesNameAccounts(entries) && x in entries && x.gl.Some?
    requires x.entity == q.entity && x.date <= q.to && Asked(q, x.currency, x.gl.value.code)
    ensures exists i :: 0 <= i < |Accounts(entries, q)|
              && Accounts(entries, q)[i].key
                 == Key(x.currency, x.gl.value.code, x.gl.value.name, x.gl.value.kind, x.gl.value.normalBalance)
              && Balances(Accounts(entries, q)[i], entries, q, MappedTo(x.gl.value),
                          x.gl.value.normalBalance == "DEBIT")
              && forall j :: 0 <= j < |Accounts(entries, q)| && j != i ==>
                   Accounts(entries, q)[j].key.currency != x.currency
                   || Accounts(entries, q)[j].key.code != x.gl.value.code
  {
    var k := Key(x.currency, x.gl.value.code, x.gl.value.name, x.gl.value.kind, x.gl.value.normalBalance);
    forall e | e in entries ensures KeyOf(e) == k <==> e.currency == x.currency && e.gl == x.gl {}
    var i := RowOfEntry(entries, q, x, k);
    RowBalances(entries, q, k, MappedTo(x.gl.value));
    forall j | 0 <= j < |Accounts(entries, q)| && j != i
      ensures Accounts(entries, q)[j].key.currency != x.currency || Accounts(entries, q)[j].key.code != x.gl.value.code
    {
      var y := EntryOfRow(entries, q, j);
      assert Accounts(entries, q)[j].key != k;
    }
  }

  /** Likewise the unmapped entries of one account code and shown name, type and side: the name is the
      category's or else the code, the type the category's or UNKNOWN, the side the category's or DEBIT. */
  lemma UnmappedAccountHasItsRow(entries: seq<Entry>, q: Query, x: Entry)
    requires CodesNameAccounts(entries) && x in entries && x.gl.None?
    requires x.entity == q.entity && x.date <= q.to && Asked(q, x.currency, "UNMAPPED:" + x.accountCode)
    ensures exists i :: 0 <= i < |Accounts(entries, q)|
              && Accounts(entries, q)[i].key
                 == Key(x.currency, "UNMAPPED:" + x.accountCode,
                        if x.category.name.Some? then x.category.name.value else x.accountCode,
                        if x.category.kind.Some? then x.category.kind.value else "UNKNOWN",
                        if x.category.normalBalance.Some? then x.category.normalBalance.value else "DEBIT")
              && Balances(Accounts(entries, q)[i], entries, q, UnmappedLike(x),
                          x.category.normalBalance.None? || x.category.normalBalance.value == "DEBIT")
  {
    var k := Key(x.currency, "UNMAPPED:" + x.accountCode,
                 if x.category.name.Some? then x.category.name.value else x.accountCode,
                 if x.category.kind.Some? then x.category.kind.value else "UNKNOWN",
                 if x.category.normalBalance.Some? then x.category.normalBalance.value else "DEBIT");
    forall e | e in entries ensures KeyOf(e) == k <==> e.currency == x.currency && UnmappedLike(x)(e) {
      if e.gl.None? { SamePrefix("UNMAPPED:", e.accountCode, x.accountCode); }
    }
    var i := RowOfEntry(entries, q, x, k);
    RowBalances(entries, q, k, UnmappedLike(x));
  }

  lemma SamePrefix(prefix: string, a: string, b: string)
    ensures prefix + a == prefix + b <==> a == b
  {
    assert (prefix + a)[|prefix|..] == a && (prefix + b)[|prefix|..] == b;
  }

  lemma RowOfEntry(entries: seq<Entry>, q: Query, x: Entry, k: Key) returns (i: nat)
    requires x in entries && InBooks(x, q) && KeyOf(x) == k
    ensures i < |Accounts(entries, q)| && Accounts(entries, q)[i] == AccountOf(entries, q, k)
    ensures forall j :: 0 <= j < |Accounts(entries, q)| && j != i ==> Accounts(entries, q)[j].key != k
  {
    var keys := AccountKeys(entries, q);
    GroupsCover(entries, Booked(q), KeyOf);
    assert Booked(q)(x) && KeyOf(x) == k;
    assert k in keys;
    i :| 0 <= i < |keys| && keys[i] == k;
  }

  lemma EntryOfRow(entries: seq<Entry>, q: Query, j: nat) returns (y: Entry)
    requires j < |Accounts(entries, q)|
    ensures y in entries && KeyOf(y) == Accounts(entries, q)[j].key
  {
    GroupsCover(entries, Booked(q), KeyOf);
    assert AccountKeys(entries, q)[j] in AccountKeys(entries, q);
    y :| y in entries && Booked(q)(y) && KeyOf(y) == AccountKeys(entries, q)[j];
  }

  lemma RowBalances(entries: seq<Entry>, q: Query, k: Key, same: Entry -> bool)
    requires Asked(q, k.currency, k.code)
    requires forall e :: e in entries ==> (KeyOf(e) == k <==> e.currency == k.currency && same(e))
    ensures Balances(AccountOf(entries, q, k), entries, q, same, k.normalBalance == "DEBIT")
  {
    hide KeyOf;
    var posted := Posted(q.entity, k.currency, q.to, same);
    var side := OnSide(k.normalBalance == "DEBIT");
    forall e | e in entries ensures InBooks(e, q) && KeyOf(e) == k <==> posted(e) { KeyHoldsScope(e, q, k); }
    ClosingIsCumulative(entries, q, k);
    SumEqual(entries, Where(UpTo(q, k), SignedBy(k.normalBalance)), Where(posted, side));
    SumEqual(entries, Where(Before(q, k), SignedBy(k.normalBalance)),
             Where((e: Entry) => posted(e) && e.date < q.from, side));
    SumEqual(entries, Where(Within(q, k), Debit), Where((e: Entry) => posted(e) && e.date >= q.from, Debit));
    SumEqual(entries, Where(Within(q, k), Credit), Where((e: Entry) => posted(e) && e.date >= q.from, Credit));
  }

  lemma KeyHoldsScope(e: Entry, q: Query, k: Key)
    requires Asked(q, k.currency, k.code)
    ensures KeyOf(e) == k ==> (InBooks(e, q) <==> e.entity == q.entity && e.date <= q.to)
  {
  }

  // ---------- Balanced journals ----------

  function JournalOf(e: Entry): int { e.journal }

  /** Every journal with a chosen line is shown as balanced by its own view. */
  ghost predicate ChosenBalance(entries: seq<Entry>, p: Entry -> bool) {
    forall e :: e in entries && p(e) ==> JournalTotals(entries, e.journal).balanced
  }

  /** A journal's lines are all chosen or all left out. */
  ghost predicate WholeJournals(entries: seq<Entry>, p: Entry -> bool) {
    forall a, b :: a in entries && b in entries && a.journal == b.journal ==> p(a) == p(b)
  }

  /** Whole balanced journals balance together; those not chosen need not. */
  lemma WholeJournalsBalance(entries: seq<Entry>, p: Entry -> bool)
    requires ChosenBalance(entries, p) && WholeJournals(entries, p)
    ensures Sum(entries, Where(p, Net)) == 0
    ensures Sum(entries, Where(p, Debit)) == Sum(entries, Where(p, Credit))
  {
    var journals := Groups(entries, p, JournalOf);
    GroupsCover(entries, p, JournalOf);
    SumByGroup(entries, p, JournalOf, Net, journals);
    var byJournal := GroupSum(entries, p, JournalOf, Net);
    forall j | j in journals ensures byJournal(j) == 0 {
      var a :| a in entries && p(a) && JournalOf(a) == j;
      SumEqual(entries, Where(InGroup(p, JournalOf, j), Net), Where(OfJournal(j), Net));
      NetIsDifference(entries, OfJournal(j));
    }
    SumOverZero(journals, byJournal);
    NetIsDifference(entries, p);
  }

  lemma {:induction false} NetIsDifference(entries: seq<Entry>, p: Entry -> bool)
    ensures Sum(entries, Where(p, Net)) == Sum(entries, Where(p, Debit)) - Sum(entries, Where(p, Credit))
  {
    if entries != [] { NetIsDifference(entries[1..], p); }
  }

  /** When the query, filters and search included, selects whole balanced journals, the report's
      difference is zero; and so is a currency's, when its lines are whole journals. */
  lemma ReportBalances(entries: seq<Entry>, q: Query)
    requires WholeJournals(entries, Chosen(q)) && ChosenBalance(entries, Chosen(q))
    ensures GrandTotals(entries, q).difference == 0 && GrandTotals(entries, q).balanced
    ensures forall c :: WholeJournals(entries, ChosenIn(q, c)) ==>
              CurrencyTotals(entries, q, c).difference == 0 && CurrencyTotals(entries, q, c).balanced
  {
    WholeJournalsBalance(entries, Chosen(q));
    forall c | WholeJournals(entries, ChosenIn(q, c))
      ensures CurrencyTotals(entries, q, c).difference == 0 && CurrencyTotals(entries, q, c).balanced
    {
      assert forall e :: ChosenIn(q, c)(e) ==> Chosen(q)(e);
      WholeJournalsBalance(entries, ChosenIn(q, c));
    }
  }

  /** A journal posts in one entity, one currency and on one date. */
  ghost predicate JournalsAreUniform(entries: seq<Entry>) {
    forall a, b :: a in entries && b in entries && a.journal == b.journal ==>
      a.entity == b.entity && a.currency == b.currency && a.date == b.date
  }

  /** Journals that post in one entity and currency and on one date are selected whole unless a filter or
      search splits them: every report without those balances when the journals in it do. */
  lemma UnfilteredReportBalances(entries: seq<Entry>, q: Query)
    requires JournalsAreUniform(entries) && q.accountCode.None? && q.search.None?
    requires ChosenBalance(entries, Chosen(q))
    ensures GrandTotals(entries, q).balanced && forall c :: CurrencyTotals(entries, q, c).balanced
  {
    ReportBalances(entries, q);
    forall c ensures CurrencyTotals(entries, q, c).balanced {
      assert WholeJournals(entries, ChosenIn(q, c));
    }
  }

  function DebitClosing(r: AccountRow): int { if r.key.normalBalance == "DEBIT" then r.closing else 0 }
  function CreditClosing(r: AccountRow): int { if r.key.normalBalance == "DEBIT" then 0 else r.closing }
  function NetClosing(r: AccountRow): int { if r.key.normalBalance == "DEBIT" then r.closing else -r.closing }

  lemma {:induction false} NetClosings(rows: seq<AccountRow>)
    ensures SumRows(rows, NetClosing) == SumRows(rows, DebitClosing) - SumRows(rows, CreditClosing)
  {
    if rows != [] { NetClosings(rows[1..]); }
  }

  /** When the books up to the period's end hold whole balanced journals, the closing balances of
      debit-normal accounts add up to those of credit-normal accounts; a search does not matter. */
  lemma ClosingsBalance(entries: seq<Entry>, q: Query)
    requires WholeJournals(entries, Booked(q)) && ChosenBalance(entries, Booked(q))
    ensures SumRows(Accounts(entries, q), DebitClosing) == SumRows(Accounts(entries, q), CreditClosing)
  {
    var keys := AccountKeys(entries, q);
    GroupsCover(entries, Booked(q), KeyOf);
    assert forall e :: e in entries && Booked(q)(e) ==> KeyOf(e) in keys;
    SumByGroup(entries, Booked(q), KeyOf, Net, keys);
    var byKey := GroupSum(entries, Booked(q), KeyOf, Net);
    forall i | 0 <= i < |keys| ensures NetClosing(Accounts(entries, q)[i]) == byKey(keys[i]) {
      ClosingIsNet(entries, q, keys[i]);
    }
    SumRowsOverKeys(keys, Accounts(entries, q), NetClosing, byKey);
    WholeJournalsBalance(entries, Booked(q));
    NetClosings(Accounts(entries, q));
  }

  lemma UnfilteredClosingsBalance(entries: seq<Entry>, q: Query)
    requires JournalsAreUniform(entries) && q.accountCode.None? && ChosenBalance(entries, Booked(q))
    ensures SumRows(Accounts(entries, q), DebitClosing) == SumRows(Accounts(entries, q), CreditClosing)
  {
    ClosingsBalance(entries, q);
  }

  lemma ClosingIsNet(entries: seq<Entry>, q: Query, k: Key)
    ensures NetClosing(AccountOf(entries, q, k)) == GroupSum(entries, Booked(q), KeyOf, Net)(k)
  {
    ClosingIsCumulative(entries, q, k);
    SignedSum(entries, UpTo(q, k), k.normalBalance);
    NetIsDifference(entries, UpTo(q, k));
    SumEqual(entries, Where(UpTo(q, k), Net), Where(InGroup(Booked(q), KeyOf, k), Net));
  }
}
