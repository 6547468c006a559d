/** Effective-dated accounting configurations: one row ends where the next begins. Dates are day
    numbers; a transaction runs alone and changes nothing when it fails. */
module AccountingConfig {
  import opened Common

  datatype Row = Row(entity: string, currency: string, from: int, to: Option<int>, active: bool, wallet: int)

  datatype Wallet = Wallet(system: bool, code: int, currency: string, status: int, amount: int)

  datatype Error = BadRequest | NotFound | Conflict | ConstraintViolated

  datatype Result<+T> = Ok(value: T) | Err(error: Error)

  predicate IsOpen(r: Row, entity: string, currency: string) {
    r.entity == entity && r.currency == currency && r.active && r.to.None?
  }

  /** The UPDATE of `create`: open rows of the currency end the day before. */
  function EndOpenRows(table: seq<Row>, entity: string, currency: string, from: int): (r: seq<Row>)
    ensures |r| == |table|
  {
    if table == [] then []
    else [if IsOpen(table[0], entity, currency) then table[0].(to := Some(from - 1)) else table[0]]
         + EndOpenRows(table[1..], entity, currency, from)
  }

  /** CHECK (effective_to >= effective_from) on the rows the UPDATE would change. */
  predicate EndsBeforeStart(table: seq<Row>, entity: string, currency: string, from: int) {
    exists i :: 0 <= i < |table| && IsOpen(table[i], entity, currency) && from - 1 < table[i].from
  }

  function InsertRow(table: seq<Row>, entity: string, currency: string, from: int, wallet: int): seq<Row> {
    table + [Row(entity, currency, from, None, true, wallet)]
  }

  /** A configuration in force from today on, or later: `provisionCurrency` refuses the currency. */
  predicate Configured(table: seq<Row>, entity: string, currency: string, today: int) {
    exists i :: 0 <= i < |table| && table[i].entity == entity && table[i].currency == currency && table[i].active
                && (table[i].to.None? || table[i].to.value >= today)
  }

  predicate InForce(r: Row, d: int) {
    r.active && r.from <= d && (r.to.None? || d <= r.to.value)
  }

  predicate InForceFor(table: seq<Row>, entity: string, currency: string, d: int) {
    exists i :: 0 <= i < |table| && table[i].entity == entity && table[i].currency == currency && InForce(table[i], d)
  }

  function ActiveCurrencies(table: seq<Row>, entity: string, today: int): seq<string> {
    if table == [] then []
    else (if table[0].entity == entity && InForce(table[0], today) then [table[0].currency] else [])
         + ActiveCurrencies(table[1..], entity, today)
  }

  // ---------- Wallets ----------

  const CODES := [105, 110, 113, 114, 115, 116, 117]

  function Matches(wallets: map<int, Wallet>, code: int, currency: string): set<int> {
    set id | id in wallets && wallets[id].system && wallets[id].code == code
             && wallets[id].currency == currency && wallets[id].status == 0
  }

  lemma OneElement(s: set<int>, x: int)
    requires x in s && |s| <= 1
    ensures s == {x}
  {
    assert |s - {x}| == 0;
  }

  predicate ActiveSystemWallet(w: Wallet, code: int, currency: string) {
    w.system && w.code == code && w.currency == currency && w.status == 0
  }

  /** The one active system wallet of a code and currency. */
  ghost predicate OnlySystemWallet(wallets: map<int, Wallet>, code: int, currency: string, id: int) {
    && id in wallets && ActiveSystemWallet(wallets[id], code, currency)
    && forall x :: x in wallets && ActiveSystemWallet(wallets[x], code, currency) ==> x == id
  }

  ghost predicate HasSystemWallet(wallets: map<int, Wallet>, code: int, currency: string) {
    exists id :: OnlySystemWallet(wallets, code, currency, id)
  }

  ghost predicate HasSystemWallets(wallets: map<int, Wallet>, currency: string) {
    && HasSystemWallet(wallets, 105, currency) && HasSystemWallet(wallets, 110, currency)
    && HasSystemWallet(wallets, 113, currency) && HasSystemWallet(wallets, 114, currency)
    && HasSystemWallet(wallets, 115, currency) && HasSystemWallet(wallets, 116, currency)
    && HasSystemWallet(wallets, 117, currency)
  }

  lemma MatchesAreSystemWallets(wallets: map<int, Wallet>, code: int, currency: string, id: int)
    ensures id in Matches(wallets, code, currency) <==> id in wallets && ActiveSystemWallet(wallets[id], code, currency)
  {
  }

  lemma SoleMatch(wallets: map<int, Wallet>, code: int, currency: string, id: int)
    requires Matches(wallets, code, currency) == {id}
    ensures OnlySystemWallet(wallets, code, currency, id) && HasSystemWallet(wallets, code, currency)
  {
    hide Matches, ActiveSystemWallet;
    MatchesAreSystemWallets(wallets, code, currency, id);
    forall x | x in wallets && ActiveSystemWallet(wallets[x], code, currency) ensures x == id {
      MatchesAreSystemWallets(wallets, code, currency, x);
    }
  }

  lemma SoleMatches(wallets: map<int, Wallet>, currency: string, ids: seq<int>)
    requires |ids| == |CODES| && forall k :: 0 <= k < |CODES| ==> Matches(wallets, CODES[k], currency) == {ids[k]}
    ensures OnlySystemWallet(wallets, 110, currency, ids[1]) && HasSystemWallets(wallets, currency)
  {
    hide Matches, OnlySystemWallet, HasSystemWallet;
    forall k | 0 <= k < |CODES|
      ensures OnlySystemWallet(wallets, CODES[k], currency, ids[k]) && HasSystemWallet(wallets, CODES[k], currency)
    {
      SoleMatch(wallets, CODES[k], currency, ids[k]);
    }
    assert CODES[0] == 105 && CODES[1] == 110 && CODES[2] == 113 && CODES[3] == 114;
    assert CODES[4] == 115 && CODES[5] == 116 && CODES[6] == 117;
  }

  /** The guards of provisioning on the tables' own data: no row of the currency reaches today, the base
      currency has a row in force, and a code has no two active system wallets. */
  lemma ProvisioningGuards(table: seq<Row>, wallets: map<int, Wallet>, entity: string, c: string, today: int, code: int)
    ensures !Configured(table, entity, c, today)
            <==> forall r :: r in table && r.entity == entity && r.currency == c && r.active ==>
                   r.to.Some? && r.to.value < today
    ensures InForceFor(table, entity, c, today)
            <==> exists r :: r in table && r.entity == entity && r.currency == c && r.active && r.from <= today
                             && (r.to.Some? ==> today <= r.to.value)
    ensures |Matches(wallets, code, c)| <= 1
            <==> forall a, b :: (a in wallets && ActiveSystemWallet(wallets[a], code, c)
                                 && b in wallets && ActiveSystemWallet(wallets[b], code, c)) ==> a == b
    ensures code in CODES <==> code in {105, 110, 113, 114, 115, 116, 117}
  {
    hide Matches, ActiveSystemWallet;
    var ids := Matches(wallets, code, c);
    forall x ensures x in ids <==> x in wallets && ActiveSystemWallet(wallets[x], code, c) {
      MatchesAreSystemWallets(wallets, code, c, x);
    }
    HasElement(ids);
    if ids != {} {
      var x :| x in ids;
      if forall y :: y in ids ==> y == x { assert ids == {x}; }
      if |ids| <= 1 { OneElement(ids, x); }
    }
  }

  // ---------- The service ----------

  class AccountingConfigService {
    var table: seq<Row>
    var wallets: map<int, Wallet>
    var nextWallet: int  // the wallet number sequence

    /** Every currency's rows tile time. It holds of an empty table and is kept by both methods. */
    ghost predicate Valid()
      reads this
    {
      AllTiled(table)
    }

    constructor (table: seq<Row>, wallets: map<int, Wallet>, nextWallet: int)
      ensures table == [] ==> Valid()
      ensures this.table == table && this.wallets == wallets && this.nextWallet == nextWallet
    {
      this.table, this.wallets, this.nextWallet := table, wallets, nextWallet;
    }

    /** `maker` and `checker` are trimmed and in lower case, `currency` in upper case. */
    method Create(entity: string, currency: string, from: int, wallet: int, maker: string, checker: string,
                  timezoneValid: bool) returns (r: Result<Row>)
      modifies this`table
      ensures old(Valid()) ==> Valid()
      ensures table == if r.Ok? then AfterOp(old(table), CreateOp(entity, currency, from, wallet)) else old(table)
      ensures table == if !r.Ok? then old(table)
                       else InsertRow(EndOpenRows(old(table), entity, currency, from), entity, currency, from, wallet)
      ensures r.Ok? <==> maker != checker && timezoneValid && wallet in wallets
                         && wallets[wallet].currency == currency && wallets[wallet].status == 0
                         && !EndsBeforeStart(old(table), entity, currency, from)
      ensures r.Ok? ==> |table| == |old(table)| + 1 && r.value == table[|table| - 1]
                        && r.value == Row(entity, currency, from, None, true, wallet)
      ensures r == Err(NotFound) <==> maker != checker && timezoneValid && wallet !in wallets
      ensures r == Err(ConstraintViolated) ==>
        exists i :: 0 <= i < |old(table)| && IsOpen(old(table)[i], entity, currency) && from <= old(table)[i].from
      ensures r.Ok? ==>
        forall i :: 0 <= i < |old(table)| && IsOpen(old(table)[i], entity, currency) ==> old(table)[i].from < from
    {
      if maker == checker || !timezoneValid {
        return Err(BadRequest);
      }
      if wallet !in wallets {
        return Err(NotFound);
      }
      if wallets[wallet].currency != currency || wallets[wallet].status != 0 {
        return Err(BadRequest);
      }
      if EndsBeforeStart(table, entity, currency, from) {
        return Err(ConstraintViolated);
      }
      hide AllTiled;
      OpKeepsTiling(table, CreateOp(entity, currency, from, wallet));
      table := EndOpenRows(table, entity, currency, from);
      table := InsertRow(table, entity, currency, from, wallet);
      r := Ok(table[|table| - 1]);
    }

    /** Finds or creates the seven system wallets of a currency, then inserts its configuration on
        the safeguarding wallet. Every required code ends with exactly one active system wallet, no
        existing wallet changes, and new ones are empty. */
    method ProvisionCurrency(entity: string, currency: string, base: string, from: int, today: int,
                             maker: string, checker: string, operators: set<string>, walletTypes: set<int>,
                             inputValid: bool) returns (r: Result<seq<int>>)
      requires forall id :: id in wallets ==> id < nextWallet
      modifies this
      ensures forall id :: id in wallets ==> id < nextWallet
      ensures old(Valid()) ==> Valid()
      ensures r.Err? ==> table == old(table) && wallets == old(wallets)
      ensures r.Ok? <==>
        && maker != checker && {maker, checker} <= operators && inputValid
        && !Configured(old(table), entity, currency, today)
        && (base == currency || InForceFor(old(table), entity, base, today))
        && (forall k :: 0 <= k < |CODES| ==> CODES[k] in walletTypes)
        && (forall k :: 0 <= k < |CODES| ==> |Matches(old(wallets), CODES[k], currency)| <= 1)
      ensures r.Ok? ==>
        && |r.value| == |CODES|
        && (forall k :: 0 <= k < |CODES| ==> Matches(wallets, CODES[k], currency) == {r.value[k]})
        && (forall id :: id in old(wallets) ==> id in wallets && wallets[id] == old(wallets)[id])
        && (forall id :: id in wallets && id !in old(wallets) ==> wallets[id].amount == 0 && id in r.value)
        && table == InsertRow(old(table), entity, currency, from, r.value[1])
        && table == AfterOp(old(table), ProvisionOp(entity, currency, from, r.value[1], today))
      ensures r.Ok? ==>
        && |table| == |old(table)| + 1
        && table[|table| - 1] == Row(entity, currency, from, None, true, table[|table| - 1].wallet)
        && OnlySystemWallet(wallets, 110, currency, table[|table| - 1].wallet)
        && HasSystemWallets(wallets, currency)
    {
      if maker == checker || !inputValid {
        return Err(BadRequest);
      }
      if Configured(table, entity, currency, today) {
        return Err(Conflict);
      }
      if maker !in operators || checker !in operators {
        return Err(BadRequest);
      }
      if !InForceFor(table, entity, base, today) && base != currency {
        return Err(BadRequest);
      }
      if !(forall k :: 0 <= k < |CODES| ==> CODES[k] in walletTypes) {
        return Err(BadRequest);
      }
      hide AllTiled, Matches, OnlySystemWallet, HasSystemWallets;
      var found, w, next := FindWallets(wallets, nextWallet, currency);
      nextWallet := next;
      if found.None? {
        return Err(Conflict);
      }
      OpKeepsTiling(table, ProvisionOp(entity, currency, from, found.value[1], today));
      SoleMatches(w, currency, found.value);
      wallets := w;
      table := InsertRow(table, entity, currency, from, found.value[1]);
      r := Ok(found.value);
    }
  }

  /** The loop over the required codes: their wallets in order, or None at the first code that has
      several. */
  method FindWallets(wallets: map<int, Wallet>, nextWallet: int, currency: string)
    returns (found: Option<seq<int>>, w: map<int, Wallet>, next: int)
    requires forall id :: id in wallets ==> id < nextWallet
    ensures nextWallet <= next && forall id :: id in w ==> id < next
    ensures found.Some? <==> forall k :: 0 <= k < |CODES| ==> |Matches(wallets, CODES[k], currency)| <= 1
    ensures found.Some? ==>
      && |found.value| == |CODES|
      && (forall k :: 0 <= k < |CODES| ==> Matches(w, CODES[k], currency) == {found.value[k]})
      && (forall id :: id in wallets ==> id in w && w[id] == wallets[id])
      && (forall id :: id in w && id !in wallets ==> w[id].amount == 0 && id in found.value)
  {
    hide Matches;
    w, next := wallets, nextWallet;
    var ids: seq<int> := [];
    var k := 0;
    while k < |CODES|
      invariant 0 <= k <= |CODES| && |ids| == k
      invariant nextWallet <= next && forall id :: id in w ==> id < next
      invariant forall j :: 0 <= j < k ==>
        |Matches(wallets, CODES[j], currency)| <= 1 && Matches(w, CODES[j], currency) == {ids[j]}
      invariant forall j :: k <= j < |CODES| ==> Matches(w, CODES[j], currency) == Matches(wallets, CODES[j], currency)
      invariant forall id :: id in wallets ==> id in w && w[id] == wallets[id]
      invariant forall id :: id in w && id !in wallets ==> w[id].amount == 0 && id in ids
    {
      var id: Option<int>;
      ghost var before := w;
      id, w, next := FindOrCreate(w, next, CODES[k], currency);
      if id.None? {
        return None, w, next;
      }
      forall j | 0 <= j < |CODES| && j != k
        ensures Matches(w, CODES[j], currency) == Matches(before, CODES[j], currency)
      {
        assert CODES[j] != CODES[k];
      }
      ids := ids + [id.value];
      k := k + 1;
    }
    found := Some(ids);
  }

  /** The one active system wallet of a code and currency, created empty if there is none; None when
      there are several. */
  method FindOrCreate(w: map<int, Wallet>, next: int, code: int, currency: string)
    returns (id: Option<int>, w': map<int, Wallet>, next': int)
    requires forall i :: i in w ==> i < next
    ensures next <= next' && forall i :: i in w' ==> i < next'
    ensures id.None? <==> |Matches(w, code, currency)| > 1
    ensures id.Some? ==> Matches(w', code, currency) == {id.value}
    ensures forall c :: c != code ==> Matches(w', c, currency) == Matches(w, c, currency)
    ensures forall i :: i in w ==> i in w' && w'[i] == w[i]
    ensures forall i :: i in w' && i !in w ==> w'[i].amount == 0 && id == Some(i)
  {
    var matches := Matches(w, code, currency);
    if |matches| > 1 {
      return None, w, next;
    }
    HasElement(matches);
    if matches != {} {
      var found :| found in matches;
      OneElement(matches, found);
      return Some(found), w, next;
    }
    NewWalletMatches(w, next, code, currency);
    return Some(next), w[next := Wallet(true, code, currency, 0, 0)], next + 1;
  }

  lemma NewWalletMatches(w: map<int, Wallet>, id: int, code: int, currency: string)
    requires id !in w
    ensures forall c :: Matches(w[id := Wallet(true, code, currency, 0, 0)], c, currency)
                     == Matches(w, c, currency) + if c == code then {id} else {}
  {
  }

  // ---------- Tiling ----------

  predicate OfKey(r: Row, entity: string, currency: string) {
    r.entity == entity && r.currency == currency && r.active
  }

  /** The active rows of one currency, in insertion order. */
  function KeyRows(table: seq<Row>, entity: string, currency: string): seq<Row> {
    if table == [] then []
    else if OfKey(table[0], entity, currency) then [table[0]] + KeyRows(table[1..], entity, currency)
    else KeyRows(table[1..], entity, currency)
  }

  /** Each row ends the day before the next one starts, and only the last is open. */
  predicate Tiled(rows: seq<Row>) {
    (forall i, j :: 0 <= i < |rows| && 0 <= j < |rows| && j == i + 1 ==>
      rows[i].to == Some(rows[j].from - 1) && rows[i].from < rows[j].from) &&
    (rows != [] ==> rows[|rows| - 1].to.None?)
  }

  ghost predicate AllTiled(table: seq<Row>) {
    forall e, c :: Tiled(KeyRows(table, e, c))
  }

  datatype Op =
    | CreateOp(entity: string, currency: string, from: int, wallet: int)
    | ProvisionOp(entity: string, currency: string, from: int, wallet: int, today: int)

  /** The table after an operation whose other conditions hold; one that fails changes nothing. */
  function AfterOp(table: seq<Row>, op: Op): seq<Row> {
    match op
    case CreateOp(e, c, from, wallet) =>
      if EndsBeforeStart(table, e, c, from)
      then table else InsertRow(EndOpenRows(table, e, c, from), e, c, from, wallet)
    case ProvisionOp(e, c, from, wallet, today) =>
      if Configured(table, e, c, today) then table else InsertRow(table, e, c, from, wallet)
  }

  function AfterOps(ops: seq<Op>): seq<Row> {
    if ops == [] then [] else AfterOp(AfterOps(ops[..|ops| - 1]), ops[|ops| - 1])
  }

  lemma {:induction false} KeyRowsAppend(a: seq<Row>, b: seq<Row>, entity: string, currency: string)
    ensures KeyRows(a + b, entity, currency) == KeyRows(a, entity, currency) + KeyRows(b, entity, currency)
  {
    if a == [] { assert a + b == b; }
    else { KeyRowsAppend(a[1..], b, entity, currency); assert (a + b)[1..] == a[1..] + b; }
  }

  lemma {:induction false} KeyRowsAreRows(table: seq<Row>, entity: string, currency: string)
    ensures forall r :: r in KeyRows(table, entity, currency) <==>
                        r in table && r.entity == entity && r.currency == currency && r.active
  {
    if table != [] { KeyRowsAreRows(table[1..], entity, currency); assert table == [table[0]] + table[1..]; }
  }

  /** Ending the open rows of one currency ends the open rows among its key rows and leaves the key
      rows of every other currency alone. */
  lemma {:induction false} EndOpenByKey(table: seq<Row>, e: string, c: string, from: int,
                                        entity: string, currency: string)
    ensures KeyRows(EndOpenRows(table, e, c, from), entity, currency)
         == if entity == e && currency == c then EndOpenRows(KeyRows(table, e, c), e, c, from)
            else KeyRows(table, entity, currency)
  {
    if table != [] {
      EndOpenByKey(table[1..], e, c, from, entity, currency);
      var ended := EndOpenRows(table, e, c, from);
      assert ended[1..] == EndOpenRows(table[1..], e, c, from);
      var first := table[0];
      assert ended[0] == if IsOpen(first, e, c) then first.(to := Some(from - 1)) else first;
      assert OfKey(ended[0], entity, currency) <==> OfKey(first, entity, currency);
      if OfKey(first, entity, currency) {
        var rest := KeyRows(table[1..], entity, currency);
        assert ([first] + rest)[1..] == rest;
        assert KeyRows(ended, entity, currency) == [ended[0]] + KeyRows(ended[1..], entity, currency);
      }
    }
  }

  lemma {:induction false} EndOpenAt(rows: seq<Row>, e: string, c: string, from: int, i: nat)
    requires i < |rows|
    ensures EndOpenRows(rows, e, c, from)[i]
         == if IsOpen(rows[i], e, c) then rows[i].(to := Some(from - 1)) else rows[i]
  {
    if i > 0 { EndOpenAt(rows[1..], e, c, from, i - 1); }
  }

  lemma TiledStep(rows: seq<Row>, i: nat)
    requires Tiled(rows) && i < |rows| - 1
    ensures rows[i].to == Some(rows[i + 1].from - 1) && rows[i].from < rows[i + 1].from
  {
  }

  lemma EndAndInsertTiles(rows: seq<Row>, e: string, c: string, from: int, wallet: int)
    requires Tiled(rows)
             && (forall i :: 0 <= i < |rows| ==> rows[i].entity == e && rows[i].currency == c && rows[i].active)
    requires rows != [] ==> rows[|rows| - 1].from < from
    ensures Tiled(EndOpenRows(rows, e, c, from) + [Row(e, c, from, None, true, wallet)])
  {
    hide EndOpenRows;
    var ended := EndOpenRows(rows, e, c, from);
    var n := |rows|;
    forall i | 0 <= i < n ensures ended[i] == if i == n - 1 then rows[i].(to := Some(from - 1)) else rows[i] {
      EndOpenAt(rows, e, c, from, i);
      if i < n - 1 { TiledStep(rows, i); }
    }
    var all := ended + [Row(e, c, from, None, true, wallet)];
    forall i | 0 <= i < n ensures all[i].to == Some(all[i + 1].from - 1) && all[i].from < all[i + 1].from {
      if i < n - 1 { TiledStep(rows, i); }
    }
  }

  lemma KeyOfNewRow(r: Row, entity: string, currency: string)
    requires r.active
    ensures KeyRows([r], entity, currency) == if r.entity == entity && r.currency == currency then [r] else []
  {
    assert [r][1..] == [] && KeyRows([], entity, currency) == [];
  }

  lemma CreateKeepsTiling(table: seq<Row>, op: Op, entity: string, currency: string)
    requires op.CreateOp? && Tiled(KeyRows(table, entity, currency))
    ensures Tiled(KeyRows(AfterOp(table, op), entity, currency))
  {
    hide KeyRows, EndOpenRows, Tiled;
    var e, c, from := op.entity, op.currency, op.from;
    if !EndsBeforeStart(table, e, c, from) {
      var rows := KeyRows(table, entity, currency);
      var last := Row(e, c, from, None, true, op.wallet);
      KeyRowsAppend(EndOpenRows(table, e, c, from), [last], entity, currency);
      EndOpenByKey(table, e, c, from, entity, currency);
      KeyOfNewRow(last, entity, currency);
      if e == entity && c == currency {
        LastStartsBefore(table, entity, currency, from);
        EndAndInsertTiles(rows, e, c, from, op.wallet);
      } else {
        assert rows + [] == rows;
      }
    }
  }

  lemma LastStartsBefore(table: seq<Row>, e: string, c: string, from: int)
    requires Tiled(KeyRows(table, e, c)) && !EndsBeforeStart(table, e, c, from)
    ensures var rows := KeyRows(table, e, c);
            && (forall i :: 0 <= i < |rows| ==> rows[i].entity == e && rows[i].currency == c && rows[i].active)
            && (rows != [] ==> rows[|rows| - 1].from < from)
  {
    var rows := KeyRows(table, e, c);
    KeyRowsAreRows(table, e, c);
    forall i | 0 <= i < |rows| ensures rows[i].entity == e && rows[i].currency == c && rows[i].active {
      assert rows[i] in rows;
    }
    if rows != [] {
      assert rows[|rows| - 1] in rows;
    }
  }

  lemma ProvisionKeepsTiling(table: seq<Row>, op: Op, entity: string, currency: string)
    requires op.ProvisionOp? && Tiled(KeyRows(table, entity, currency))
    ensures Tiled(KeyRows(AfterOp(table, op), entity, currency))
  {
    hide KeyRows;
    if !Configured(table, op.entity, op.currency, op.today) {
      var rows := KeyRows(table, entity, currency);
      var last := Row(op.entity, op.currency, op.from, None, true, op.wallet);
      KeyRowsAppend(table, [last], entity, currency);
      KeyOfNewRow(last, entity, currency);
      KeyRowsAreRows(table, entity, currency);
      if rows != [] { assert rows[|rows| - 1] in rows; }
    }
  }

  lemma OpKeepsTiling(table: seq<Row>, op: Op)
    ensures AllTiled(table) ==> AllTiled(AfterOp(table, op))
  {
    hide KeyRows, Tiled, AfterOp;
    if AllTiled(table) {
      forall e, c ensures Tiled(KeyRows(AfterOp(table, op), e, c)) {
        if op.CreateOp? { CreateKeepsTiling(table, op, e, c); } else { ProvisionKeepsTiling(table, op, e, c); }
      }
    }
  }

  /** Whatever configurations are created and provisioned, in any order and with any failures, the
      rows of every currency tile time: no create has to be trusted to start late enough, since one
      that does not breaks the row's CHECK and changes nothing. */
  lemma {:induction false} ConfigurationsTile(ops: seq<Op>, entity: string, currency: string)
    ensures Tiled(KeyRows(AfterOps(ops), entity, currency))
  {
    if ops != [] {
      var front := ops[..|ops| - 1];
      forall e, c ensures Tiled(KeyRows(AfterOps(front), e, c)) { ConfigurationsTile(front, e, c); }
      assert AllTiled(AfterOps(front));
      OpKeepsTiling(AfterOps(front), ops[|ops| - 1]);
    }
  }

  /** How many of the rows are in force on day `d`. */
  function Covering(rows: seq<Row>, d: int): nat {
    if rows == [] then 0 else (if InForce(rows[0], d) then 1 else 0) + Covering(rows[1..], d)
  }

  /** Tiled rows cover every day from the first start on exactly once, and no earlier day. */
  lemma {:induction false} TiledCoversOnce(rows: seq<Row>, d: int)
    requires Tiled(rows) && forall i :: 0 <= i < |rows| ==> rows[i].active
    ensures Covering(rows, d) == if rows != [] && rows[0].from <= d then 1 else 0
  {
    if |rows| > 1 {
      assert rows[1..][0] == rows[1];
      TiledCoversOnce(rows[1..], d);
    } else if |rows| == 1 {
      assert rows[1..] == [];
    }
  }

  lemma {:induction false} ActiveCountsCovering(table: seq<Row>, entity: string, today: int, c: string)
    ensures multiset(ActiveCurrencies(table, entity, today))[c] == Covering(KeyRows(table, entity, c), today)
  {
    if table != [] {
      ActiveCountsCovering(table[1..], entity, today, c);
      var first := table[0];
      var rows := KeyRows(table, entity, c);
      if OfKey(first, entity, c) {
        assert rows[1..] == KeyRows(table[1..], entity, c);
      }
      var listed := if first.entity == entity && InForce(first, today) then [first.currency] else [];
      var rest := ActiveCurrencies(table[1..], entity, today);
      assert ActiveCurrencies(table, entity, today) == listed + rest;
      assert multiset(listed + rest) == multiset(listed) + multiset(rest);
      assert multiset(listed)[c] == if listed != [] && first.currency == c then 1 else 0;
    }
  }

  /** Over tiled rows, `activeCurrencies` lists a currency exactly once from its first start on, and not
      before. */
  lemma ActiveCurrenciesListsOnce(table: seq<Row>, entity: string, today: int, c: string)
    requires Tiled(KeyRows(table, entity, c))
    ensures var rows := KeyRows(table, entity, c);
            multiset(ActiveCurrencies(table, entity, today))[c] == if rows != [] && rows[0].from <= today then 1 else 0
  {
    KeyRowsAreRows(table, entity, c);
    var rows := KeyRows(table, entity, c);
    forall i | 0 <= i < |rows| ensures rows[i].active { assert rows[i] in rows; }
    TiledCoversOnce(rows, today);
    ActiveCountsCovering(table, entity, today, c);
  }

  /** So it never lists a currency twice, whatever was created and provisioned before. */
  lemma NeverListedTwice(ops: seq<Op>, entity: string, today: int, c: string)
    ensures multiset(ActiveCurrencies(AfterOps(ops), entity, today))[c] <= 1
  {
    ConfigurationsTile(ops, entity, c);
    ActiveCurrenciesListsOnce(AfterOps(ops), entity, today, c);
  }
}
