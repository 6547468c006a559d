/** The sanctions list: rows keyed by (source, record id), replaced or merged in one transaction. */
module SanctionsStore {
  import opened Common
  import opened NameKeys

  datatype Names = Names(normalized: Text, original: Text)

  datatype Record = Record(source: string, id: string, names: Names)

  /** `kyc.sanction_records`, unique on (source, source_record_id). */
  type Store = map<(string, string), Names>

  // ---------- Records ----------

  /** `record`: None when the name cannot be normalized. */
  function MakeRecord(name: Text, source: string, id: string): Option<Record> {
    var names := Names(StoredKey(name), OriginalName(name));
    if names.normalized == [] then None
    else Some(Record(source, if |id| <= 150 then id else id[..150], names))
  }

  /** A parsed CSV row, its values trimmed; a row needs both a name and a record id. */
  datatype CsvRow = CsvRow(name: Text, id: string)

  function RowRecord(row: CsvRow, source: string): Option<Record> {
    if row.name == [] || row.id == "" then None else MakeRecord(row.name, source, row.id)
  }

  /** All rows as records, or None as soon as one row is refused. */
  function RowRecords(rows: seq<CsvRow>, source: string): (r: Option<seq<Record>>)
    ensures r.Some? ==> |r.value| == |rows| && forall i :: 0 <= i < |rows| ==> r.value[i].source == source
  {
    if rows == [] then Some([])
    else match (RowRecord(rows[0], source), RowRecords(rows[1..], source))
      case (Some(record), Some(rest)) => Some([record] + rest)
      case _ => None
  }

  /** `new Map(records.map(r => [r.sourceRecordId, r])).values()`: a repeated id keeps its first place
      and its last record. */
  function Deduplicate(records: seq<Record>): seq<Record> {
    if records == [] then []
    else Place(Deduplicate(records[..|records| - 1]), records[|records| - 1])
  }

  function Place(records: seq<Record>, record: Record): seq<Record> {
    if records == [] then [record]
    else if records[0].id == record.id then [record] + records[1..]
    else [records[0]] + Place(records[1..], record)
  }

  // ---------- One transaction ----------

  function KeyOf(r: Record): (string, string) { (r.source, r.id) }

  /** INSERT ... ON CONFLICT DO UPDATE, row by row. */
  function Upsert(store: Store, records: seq<Record>): Store {
    if records == [] then store
    else Upsert(store, records[..|records| - 1])[KeyOf(records[|records| - 1]) := records[|records| - 1].names]
  }

  function Without(store: Store, sources: set<string>): Store {
    map k | k in store && k.0 !in sources :: store[k]
  }

  predicate HasDuplicates(records: seq<Record>) {
    exists i, j :: 0 <= i < j < |records| && KeyOf(records[i]) == KeyOf(records[j])
  }

  /** A committed operation: the rows it wrote and the sources it first emptied. */
  datatype Commit = Commit(records: seq<Record>, emptied: set<string>)

  function Apply(store: Store, c: Commit): Store { Upsert(Without(store, c.emptied), c.records) }

  function ApplyAll(store: Store, commits: seq<Commit>): Store {
    if commits == [] then store else Apply(ApplyAll(store, commits[..|commits| - 1]), commits[|commits| - 1])
  }

  // ---------- The service ----------

  datatype SyncRun = SyncRun(mode: string, source: string, status: string, received: nat, applied: nat)

  /** What an operation meets: is the advisory lock free, does a statement of the transaction throw,
      does marking the run COMPLETED throw. */
  datatype Env = Env(lockFree: bool, transactionThrows: bool, completeThrows: bool)

  datatype OpResult = BadRequest | Locked | Failed | Completed(received: nat, applied: nat)

  predicate ManualSource(source: string) {
    9 <= |source| <= 39 && source[..7] == "MANUAL_" &&
    (forall i :: 7 <= i < |source| ==> source[i] == '_' || 'A' <= source[i] <= 'Z' || '0' <= source[i] <= '9')
  }

  class SanctionsService {
    var records: Store
    var runs: seq<SyncRun>
    ghost var commits: seq<Commit>  // the operations whose transaction committed, in order
    ghost const initial: Store

    constructor (records: Store)
      ensures Valid() && this.records == records && initial == records && commits == [] && runs == []
    {
      this.records, initial, runs, commits := records, records, [], [];
      new;
    }

    /** The table is always the fold of the committed operations. */
    ghost predicate Valid()
      reads this
    {
      records == ApplyAll(initial, commits)
    }

    /** The transaction: None and no change when a statement throws or when the incoming rows repeat
        a key, which ON CONFLICT DO UPDATE refuses. */
    method Replace(incoming: seq<Record>, replaceSources: set<string>, transactionThrows: bool)
      returns (applied: Option<nat>)
      requires Valid()
      modifies this`records, this`commits
      ensures Valid()
      ensures applied == if transactionThrows || HasDuplicates(incoming) then None else Some(|incoming|)
      ensures commits == old(commits) + if applied.Some? then [Commit(incoming, replaceSources)] else []
      ensures records == if applied.Some? then Apply(old(records), Commit(incoming, replaceSources)) else old(records)
    {
      var table := map k | k in records && k.0 !in replaceSources :: records[k];
      var touched: set<(string, string)> := {};
      var repeated := false;
      var i := 0;
      while i < |incoming|
        invariant 0 <= i <= |incoming|
        invariant table == Upsert(Without(records, replaceSources), incoming[..i])
        invariant touched == set j | 0 <= j < i :: KeyOf(incoming[j])
        invariant repeated <==> HasDuplicates(incoming[..i])
        invariant records == old(records) && commits == old(commits)
      {
        var r := incoming[i];
        DuplicateExtends(incoming, i);
        assert incoming[..i + 1][..i] == incoming[..i];
        if KeyOf(r) in touched { repeated := true; }
        touched := touched + {KeyOf(r)};
        table := table[KeyOf(r) := r.names];
        i := i + 1;
      }
      assert incoming[..i] == incoming;
      if transactionThrows || repeated {
        return None;
      }
      records := table;
      commits := commits + [Commit(incoming, replaceSources)];
      assert commits[..|commits| - 1] == old(commits);
      applied := Some(|incoming|);
    }

    method UploadManual(source: string, replaceMode: bool, rows: seq<CsvRow>, env: Env) returns (r: OpResult)
      requires Valid()
      modifies this
      ensures Valid()
      ensures var parsed := RowRecords(rows, source);
              var mode := if replaceMode then "MANUAL_REPLACE" else "MANUAL_MERGE";
              if !ManualSource(source) || rows == [] || |rows| > 100000 || parsed.None? then
                r == BadRequest && commits == old(commits) && runs == old(runs)
              else if !env.lockFree then
                r == Locked && commits == old(commits) && runs == old(runs)
              else
                var unique := Deduplicate(parsed.value);
                && commits == old(commits) + (if env.transactionThrows then []
                                              else [Commit(unique, if replaceMode then {source} else {})])
                && (if env.transactionThrows || env.completeThrows
                    then r == Failed && runs == old(runs) + [SyncRun(mode, source, "FAILED", 0, 0)]
                    else r == Completed(|rows|, |unique|)
                         && runs == old(runs) + [SyncRun(mode, source, "COMPLETED", |rows|, |unique|)])
      ensures r == BadRequest <==> || !ManualSource(source) || rows == [] || |rows| > 100000
                                   || exists i :: 0 <= i < |rows| && Unusable(rows[i])
      ensures if r.Completed? || (r.Failed? && !env.transactionThrows)
              then && Uploaded(SourceRows(old(records), source), SourceRows(records, source), rows, replaceMode)
                   && forall other :: other != source ==> SourceRows(records, other) == SourceRows(old(records), other)
              else records == old(records)
    {
      hide Uploaded, SourceRows, Unusable, Apply, RowRecords, Deduplicate, ManualSource, HasDuplicates;
      RecordsHoldNames(rows, source);
      if !ManualSource(source) || rows == [] || |rows| > 100000 {
        return BadRequest;
      }
      var parsed := RowRecords(rows, source);
      if parsed.None? {
        return BadRequest;
      }
      var unique := Deduplicate(parsed.value);
      DeduplicateIsUnique(parsed.value, source);
      UploadStoresLastRows(records, rows, source, replaceMode);
      forall other | other != source
        ensures SourceRows(Apply(records, Commit(unique, if replaceMode then {source} else {})), other)
             == SourceRows(records, other)
      {
        ManualUploadTouchesOneSource(records, parsed.value, source, replaceMode, other);
      }
      r := RunOperation(if replaceMode then "MANUAL_REPLACE" else "MANUAL_MERGE", source, unique,
                        if replaceMode then {source} else {}, |rows|, env);
    }

    /** `ofac` and `un` are None when a download or its parsing throws. */
    method SyncOfficial(ofac: Option<seq<Record>>, un: Option<seq<Record>>, env: Env) returns (r: OpResult)
      requires Valid()
      modifies this
      ensures Valid()
      ensures if !env.lockFree then r == Locked && commits == old(commits) && runs == old(runs)
              else if ofac.None? || un.None? || |ofac.value| < 10000 || |un.value| < 500 then
                r == Failed && commits == old(commits)
                && runs == old(runs) + [SyncRun("OFFICIAL", "OFAC+UNSCR", "FAILED", 0, 0)]
              else
                var all := ofac.value + un.value;
                var committed := !env.transactionThrows && !HasDuplicates(all);
                && commits == old(commits) + (if committed then [Commit(all, {"OFAC", "UNSCR"})] else [])
                && (if committed && !env.completeThrows
                    then r == Completed(|all|, |all|)
                         && runs == old(runs) + [SyncRun("OFFICIAL", "OFAC+UNSCR", "COMPLETED", |all|, |all|)]
                    else r == Failed && runs == old(runs) + [SyncRun("OFFICIAL", "OFAC+UNSCR", "FAILED", 0, 0)])
    {
      if !env.lockFree {
        return Locked;
      }
      if ofac.None? || un.None? || |ofac.value| < 10000 || |un.value| < 500 {
        runs := runs + [SyncRun("OFFICIAL", "OFAC+UNSCR", "FAILED", 0, 0)];
        return Failed;
      }
      var all := ofac.value + un.value;
      r := RunOperation("OFFICIAL", "OFAC+UNSCR", all, {"OFAC", "UNSCR"}, |all|, env);
    }

    /** Runs a replacement under the lock. A run can end FAILED although its rows were committed:
        when marking it COMPLETED throws. */
    method RunOperation(mode: string, source: string, incoming: seq<Record>, emptied: set<string>,
                        received: nat, env: Env)
      returns (r: OpResult)
      requires Valid()
      modifies this
      ensures Valid()
      ensures !env.lockFree ==> r == Locked && commits == old(commits) && runs == old(runs) && records == old(records)
      ensures env.lockFree ==>
        var committed := !env.transactionThrows && !HasDuplicates(incoming);
        && records == (if committed then Apply(old(records), Commit(incoming, emptied)) else old(records))
        && commits == old(commits) + (if committed then [Commit(incoming, emptied)] else [])
        && (if committed && !env.completeThrows
            then r == Completed(received, |incoming|)
                 && runs == old(runs) + [SyncRun(mode, source, "COMPLETED", received, |incoming|)]
            else r == Failed && runs == old(runs) + [SyncRun(mode, source, "FAILED", 0, 0)])
    {
      hide HasDuplicates, Apply, ApplyAll;
      if !env.lockFree {
        return Locked;
      }
      runs := runs + [SyncRun(mode, source, "RUNNING", 0, 0)];
      var applied := Replace(incoming, emptied, env.transactionThrows);
      if applied.Some? && !env.completeThrows {
        runs := runs[|runs| - 1 := SyncRun(mode, source, "COMPLETED", received, applied.value)];
        r := Completed(received, applied.value);
      } else {
        runs := runs[|runs| - 1 := SyncRun(mode, source, "FAILED", 0, 0)];
        r := Failed;
      }
    }
  }

  /** A manual source is MANUAL_ and 2 to 32 capitals, digits and underscores. */
  lemma ManualSourceExactlyWhen(source: string)
    ensures ManualSource(source)
            <==> exists name :: source == "MANUAL_" + name && 2 <= |name| <= 32
                   && forall c :: c in name ==> c == '_' || 'A' <= c <= 'Z' || '0' <= c <= '9'
  {
    if ManualSource(source) {
      var name := source[7..];
      assert source == source[..7] + name;
      forall c | c in name ensures c == '_' || 'A' <= c <= 'Z' || '0' <= c <= '9' {
        var i :| 0 <= i < |name| && name[i] == c;
        assert source[i + 7] == c;
      }
    }
    if name :| source == "MANUAL_" + name && 2 <= |name| <= 32
               && forall c :: c in name ==> c == '_' || 'A' <= c <= 'Z' || '0' <= c <= '9' {
      assert source[..7] == "MANUAL_";
      forall i | 7 <= i < |source| ensures source[i] == '_' || 'A' <= source[i] <= 'Z' || '0' <= source[i] <= '9' {
        assert source[i] == name[i - 7] && name[i - 7] in name;
      }
    }
  }

  lemma DuplicateExtends(records: seq<Record>, i: nat)
    requires i < |records|
    ensures HasDuplicates(records[..i + 1])
            <==> HasDuplicates(records[..i]) || exists j :: 0 <= j < i && KeyOf(records[j]) == KeyOf(records[i])
  {
    var a, b := records[..i], records[..i + 1];
    if HasDuplicates(a) {
      var x, y :| 0 <= x < y < |a| && KeyOf(a[x]) == KeyOf(a[y]);
      assert KeyOf(b[x]) == KeyOf(b[y]);
    }
    if j :| 0 <= j < i && KeyOf(records[j]) == KeyOf(records[i]) {
      assert KeyOf(b[j]) == KeyOf(b[i]);
    }
    if HasDuplicates(b) {
      var x, y :| 0 <= x < y < |b| && KeyOf(b[x]) == KeyOf(b[y]);
      if y < i { assert KeyOf(a[x]) == KeyOf(a[y]); } else { assert KeyOf(records[x]) == KeyOf(records[i]); }
    }
  }

  // ---------- Deduplication ----------

  /** The last names given for each id, in one source. */
  function LastNames(records: seq<Record>, source: string): map<string, Names> {
    if records == [] then map[]
    else
      var last := records[|records| - 1];
      var front := LastNames(records[..|records| - 1], source);
      if last.source == source then front[last.id := last.names] else front
  }

  predicate OneSource(records: seq<Record>, source: string) {
    forall i :: 0 <= i < |records| ==> records[i].source == source
  }

  /** Reading the same rows from the front: a later row for the same id wins. */
  lemma {:induction false} LastNamesFromFront(first: Record, rest: seq<Record>, source: string)
    requires first.source == source
    ensures var n := LastNames(rest, source);
            LastNames([first] + rest, source) == if first.id in n then n else n[first.id := first.names]
  {
    var all := [first] + rest;
    if rest == [] {
      assert all == [first] && all[..0] == [];
    } else {
      LastNamesFromFront(first, rest[..|rest| - 1], source);
      assert all[..|all| - 1] == [first] + rest[..|rest| - 1];
    }
  }

  /** One source, and no id twice. */
  predicate Unique(records: seq<Record>, source: string) {
    records == [] ||
    (records[0].source == source && records[0].id !in LastNames(records[1..], source) && Unique(records[1..], source))
  }

  lemma {:induction false} PlaceUpdates(records: seq<Record>, record: Record, source: string)
    requires Unique(records, source) && record.source == source
    ensures Unique(Place(records, record), source)
    ensures LastNames(Place(records, record), source) == LastNames(records, source)[record.id := record.names]
  {
    assert LastNames([], source) == map[];
    hide LastNames;
    if records == [] {
      UniqueCons(record, [], source);
      assert [record] + [] == [record];
    } else {
      var first, rest := records[0], records[1..];
      assert records == [first] + rest;
      if first.id == record.id {
        hide Unique;
        UniqueCons(first, rest, source);
        UniqueCons(record, rest, source);
      } else {
        PlaceUpdates(rest, record, source);
        hide Unique;
        PlaceBehind(first, rest, record, source);
      }
    }
  }

  lemma PlaceBehind(first: Record, rest: seq<Record>, record: Record, source: string)
    requires first.source == source && first.id != record.id
    requires Unique(rest, source) && first.id !in LastNames(rest, source)
    requires Unique(Place(rest, record), source)
    requires LastNames(Place(rest, record), source) == LastNames(rest, source)[record.id := record.names]
    ensures Unique([first] + Place(rest, record), source)
    ensures LastNames([first] + Place(rest, record), source)
         == LastNames([first] + rest, source)[record.id := record.names]
  {
    hide LastNames, Unique;
    UniqueCons(first, rest, source);
    UniqueCons(first, Place(rest, record), source);
  }

  lemma UniqueCons(first: Record, rest: seq<Record>, source: string)
    requires first.source == source && Unique(rest, source) && first.id !in LastNames(rest, source)
    ensures Unique([first] + rest, source)
    ensures LastNames([first] + rest, source) == LastNames(rest, source)[first.id := first.names]
  {
    hide LastNames;
    LastNamesFromFront(first, rest, source);
    assert ([first] + rest)[1..] == rest;
  }

  /** Deduplication leaves exactly the last record of each id. */
  lemma {:induction false} DeduplicateKeepsLast(records: seq<Record>, source: string)
    requires OneSource(records, source)
    ensures Unique(Deduplicate(records), source)
    ensures LastNames(Deduplicate(records), source) == LastNames(records, source)
  {
    if records != [] {
      DeduplicateKeepsLast(records[..|records| - 1], source);
      PlaceUpdates(Deduplicate(records[..|records| - 1]), records[|records| - 1], source);
    }
  }

  lemma {:induction false} UniqueHasNoDuplicates(records: seq<Record>, source: string)
    requires Unique(records, source)
    ensures !HasDuplicates(records) && OneSource(records, source) && |LastNames(records, source)| == |records|
    ensures forall i :: 0 <= i < |records| ==> records[i].id in LastNames(records, source)
  {
    if records != [] {
      var rest := records[1..];
      UniqueHasNoDuplicates(rest, source);
      LastNamesFromFront(records[0], rest, source);
      assert records == [records[0]] + rest;
      forall i, j | 0 <= i < j < |records| ensures KeyOf(records[i]) != KeyOf(records[j]) {
        if i > 0 { assert KeyOf(rest[i - 1]) != KeyOf(rest[j - 1]); }
        else { assert rest[j - 1].id in LastNames(rest, source); }
      }
    }
  }

  lemma DeduplicateIsUnique(records: seq<Record>, source: string)
    requires OneSource(records, source)
    ensures !HasDuplicates(Deduplicate(records)) && OneSource(Deduplicate(records), source)
    ensures |Deduplicate(records)| == |LastNames(records, source)|
  {
    DeduplicateKeepsLast(records, source);
    UniqueHasNoDuplicates(Deduplicate(records), source);
  }

  // ---------- Each source on its own ----------

  function Ids(store: Store, source: string): set<string> {
    set k | k in store && k.0 == source :: k.1
  }

  /** One source's rows by record id. */
  function SourceRows(store: Store, source: string): map<string, Names> {
    map id | id in Ids(store, source) :: store[(source, id)]
  }

  /** One source's rows after the committed operations, computed from that source's records alone. */
  function FoldSource(rows: map<string, Names>, commits: seq<Commit>, source: string): map<string, Names> {
    if commits == [] then rows
    else
      var c := commits[|commits| - 1];
      (if source in c.emptied then map[] else FoldSource(rows, commits[..|commits| - 1], source))
      + LastNames(c.records, source)
  }

  lemma {:induction false} UpsertBySource(store: Store, records: seq<Record>, source: string)
    ensures SourceRows(Upsert(store, records), source) == SourceRows(store, source) + LastNames(records, source)
  {
    if records != [] {
      hide SourceRows;
      var front, last := records[..|records| - 1], records[|records| - 1];
      UpsertBySource(store, front, source);
      PutBySource(Upsert(store, front), last, source);
    }
  }

  lemma PutBySource(store: Store, r: Record, source: string)
    ensures SourceRows(store[KeyOf(r) := r.names], source)
         == if r.source == source then SourceRows(store, source)[r.id := r.names] else SourceRows(store, source)
  {
    var after := store[KeyOf(r) := r.names];
    forall id ensures id in Ids(after, source) <==> (source, id) in after {}
    forall id ensures id in Ids(store, source) <==> (source, id) in store {}
  }

  lemma WithoutBySource(store: Store, sources: set<string>, source: string)
    ensures SourceRows(Without(store, sources), source)
         == if source in sources then map[] else SourceRows(store, source)
  {
    var after := Without(store, sources);
    forall id ensures id in Ids(after, source) <==> (source, id) in after {}
    forall id ensures id in Ids(store, source) <==> (source, id) in store {}
  }

  /** After any committed operations, each source's rows are the fold of those operations on that
      source alone. */
  lemma {:induction false} StoreIsFoldPerSource(store: Store, commits: seq<Commit>, source: string)
    ensures SourceRows(ApplyAll(store, commits), source) == FoldSource(SourceRows(store, source), commits, source)
  {
    if commits != [] {
      var front, c := commits[..|commits| - 1], commits[|commits| - 1];
      StoreIsFoldPerSource(store, front, source);
      WithoutBySource(ApplyAll(store, front), c.emptied, source);
      UpsertBySource(Without(ApplyAll(store, front), c.emptied), c.records, source);
    }
  }

  /** A manual upload of parsed rows: REPLACE installs exactly the last row of each record id, MERGE
      overrides by id. */
  lemma ManualUploadEffect(store: Store, parsed: seq<Record>, source: string, replaceMode: bool)
    requires OneSource(parsed, source)
    ensures var after := Apply(store, Commit(Deduplicate(parsed), if replaceMode then {source} else {}));
            SourceRows(after, source)
            == (if replaceMode then map[] else SourceRows(store, source)) + LastNames(parsed, source)
  {
    hide Upsert, Without, SourceRows, LastNames, Deduplicate, OneSource;
    var emptied := if replaceMode then {source} else {};
    DeduplicateKeepsLast(parsed, source);
    WithoutBySource(store, emptied, source);
    UpsertBySource(Without(store, emptied), Deduplicate(parsed), source);
  }

  /** A manual upload changes no other source. */
  lemma ManualUploadTouchesOneSource(store: Store, parsed: seq<Record>, source: string, replaceMode: bool,
                                    other: string)
    requires OneSource(parsed, source) && other != source
    ensures var after := Apply(store, Commit(Deduplicate(parsed), if replaceMode then {source} else {}));
            SourceRows(after, other) == SourceRows(store, other)
  {
    hide Upsert, Without, SourceRows, LastNames, Deduplicate, OneSource;
    var emptied := if replaceMode then {source} else {};
    DeduplicateIsUnique(parsed, source);
    WithoutBySource(store, emptied, other);
    UpsertBySource(Without(store, emptied), Deduplicate(parsed), other);
    OtherSourceEmpty(Deduplicate(parsed), source, other);
  }

  lemma {:induction false} OtherSourceEmpty(records: seq<Record>, source: string, other: string)
    requires OneSource(records, source) && source != other
    ensures LastNames(records, other) == map[]
  {
    if records != [] { OtherSourceEmpty(records[..|records| - 1], source, other); }
  }

  /** An official synchronisation replaces OFAC and UNSCR by the last record of each id and touches
      no other source, so no manual list. */
  lemma OfficialSyncEffect(store: Store, ofac: seq<Record>, un: seq<Record>, source: string)
    requires OneSource(ofac, "OFAC") && OneSource(un, "UNSCR")
    ensures SourceRows(Apply(store, Commit(ofac + un, {"OFAC", "UNSCR"})), source)
         == if source == "OFAC" then LastNames(ofac, source)
            else if source == "UNSCR" then LastNames(un, source)
            else SourceRows(store, source)
    ensures ManualSource(source) ==>
              SourceRows(Apply(store, Commit(ofac + un, {"OFAC", "UNSCR"})), source) == SourceRows(store, source)
  {
    if ManualSource(source) { ManualIsNotOfficial(source); }
    hide Upsert, Without, SourceRows, LastNames, OneSource, Apply;
    OfficialBySource(store, ofac, un, source);
    if source != "OFAC" { OtherSourceEmpty(ofac, "OFAC", source); }
    if source != "UNSCR" { OtherSourceEmpty(un, "UNSCR", source); }
  }

  lemma ManualIsNotOfficial(manual: string)
    requires ManualSource(manual)
    ensures manual != "OFAC" && manual != "UNSCR"
  {
    assert |manual| >= 9;
  }

  lemma OfficialBySource(store: Store, ofac: seq<Record>, un: seq<Record>, source: string)
    ensures SourceRows(Apply(store, Commit(ofac + un, {"OFAC", "UNSCR"})), source)
         == (if source in {"OFAC", "UNSCR"} then map[] else SourceRows(store, source))
            + (LastNames(ofac, source) + LastNames(un, source))
  {
    hide Upsert, Without, SourceRows, LastNames;
    WithoutBySource(store, {"OFAC", "UNSCR"}, source);
    UpsertBySource(Without(store, {"OFAC", "UNSCR"}), ofac + un, source);
    LastNamesAppend(ofac, un, source);
  }

  lemma {:induction false} LastNamesAppend(a: seq<Record>, b: seq<Record>, source: string)
    ensures LastNames(a + b, source) == LastNames(a, source) + LastNames(b, source)
  {
    if b == [] {
      assert a + b == a;
    } else {
      LastNamesAppend(a, b[..|b| - 1], source);
      assert (a + b)[..|a + b| - 1] == a + b[..|b| - 1];
    }
  }

  // ---------- What an upload stores ----------

  function First<T>(s: seq<T>, n: nat): seq<T> { if |s| <= n then s else s[..n] }

  /** The row is refused: no name, no id, or a name that leaves an empty key. */
  predicate Unusable(row: CsvRow) {
    row.name == [] || row.id == "" || ScreeningKey(First(Tidy(row.name), 1000)) == []
  }

  /** The stored names of an uploaded row: the tidied name, and the key it is screened under. */
  predicate HoldsNames(names: Names, row: CsvRow) {
    && names.original == First(Tidy(row.name), 1000)
    && names.normalized == ScreeningKey(First(Tidy(row.name), 1000))
    && (|Tidy(row.name)| <= 1000 ==> names.normalized == ScreeningKey(row.name))
  }

  /** Row `i` is the last one with its id, of which 150 characters count. */
  predicate IsLastOfId(rows: seq<CsvRow>, i: int) {
    0 <= i < |rows| && forall j :: i < j < |rows| ==> First(rows[j].id, 150) != First(rows[i].id, 150)
  }

  /** After an upload the source holds the last row of each id; a replacing one leaves nothing else, a
      merging one what it does not mention. */
  ghost predicate Uploaded(before: map<string, Names>, after: map<string, Names>,
                           rows: seq<CsvRow>, replaceMode: bool) {
    && (forall i :: IsLastOfId(rows, i) ==>
          First(rows[i].id, 150) in after && HoldsNames(after[First(rows[i].id, 150)], rows[i]))
    && (forall id :: (forall i :: 0 <= i < |rows| ==> First(rows[i].id, 150) != id) ==>
          (id in after <==> id in before && !replaceMode) && (id in after ==> after[id] == before[id]))
  }

  lemma RecordHoldsNames(row: CsvRow, source: string)
    ensures RowRecord(row, source).None? <==> Unusable(row)
    ensures RowRecord(row, source).Some? ==>
              var r := RowRecord(row, source).value;
              r.source == source && r.id == First(row.id, 150) && HoldsNames(r.names, row)
  {
    hide ScreeningKey, Tidy;
    KeysAgreeExactlyWhen(row.name);
  }

  lemma {:induction false} RecordsHoldNames(rows: seq<CsvRow>, source: string)
    ensures RowRecords(rows, source).None? <==> exists i :: 0 <= i < |rows| && Unusable(rows[i])
    ensures RowRecords(rows, source).Some? ==>
              var rs := RowRecords(rows, source).value;
              |rs| == |rows| && forall i :: 0 <= i < |rows| ==>
                rs[i].source == source && rs[i].id == First(rows[i].id, 150) && HoldsNames(rs[i].names, rows[i])
  {
    hide RowRecord, Unusable, HoldsNames;
    if rows != [] {
      RecordHoldsNames(rows[0], source);
      RecordsHoldNames(rows[1..], source);
      if i :| 0 <= i < |rows[1..]| && Unusable(rows[1..][i]) { assert Unusable(rows[i + 1]); }
      if i :| 0 <= i < |rows| && Unusable(rows[i]) {
        if i > 0 { assert Unusable(rows[1..][i - 1]); }
      }
    }
  }

  lemma {:induction false} LastNamesHold(records: seq<Record>, source: string, i: nat)
    requires OneSource(records, source) && i < |records|
    requires forall j :: i < j < |records| ==> records[j].id != records[i].id
    ensures records[i].id in LastNames(records, source)
    ensures LastNames(records, source)[records[i].id] == records[i].names
  {
    if i < |records| - 1 {
      assert records[|records| - 1].id != records[i].id;
      LastNamesHold(records[..|records| - 1], source, i);
    }
  }

  lemma {:induction false} UnnamedIsAbsent(records: seq<Record>, source: string, id: string)
    requires forall i :: 0 <= i < |records| ==> records[i].id != id
    ensures id !in LastNames(records, source)
  {
    if records != [] {
      assert records[|records| - 1].id != id;
      UnnamedIsAbsent(records[..|records| - 1], source, id);
    }
  }

  /** A committed upload leaves the source's rows as `Uploaded` says. */
  lemma UploadStoresLastRows(store: Store, rows: seq<CsvRow>, source: string, replaceMode: bool)
    requires RowRecords(rows, source).Some?
    ensures var after := Apply(store, Commit(Deduplicate(RowRecords(rows, source).value),
                                      if replaceMode then {source} else {}));
            Uploaded(SourceRows(store, source), SourceRows(after, source), rows, replaceMode)
  {
    hide Apply, Deduplicate, SourceRows, HoldsNames, Unusable, First, LastNames, RowRecords;
    var parsed := RowRecords(rows, source).value;
    RecordsHoldNames(rows, source);
    ManualUploadEffect(store, parsed, source, replaceMode);
    var (before, after) := (SourceRows(store, source),
      SourceRows(Apply(store, Commit(Deduplicate(parsed), if replaceMode then {source} else {})), source));
    forall i | IsLastOfId(rows, i)
      ensures First(rows[i].id, 150) in after && HoldsNames(after[First(rows[i].id, 150)], rows[i])
    {
      LastNamesHold(parsed, source, i);
    }
    forall id | forall i :: 0 <= i < |rows| ==> First(rows[i].id, 150) != id
      ensures (id in after <==> id in before && !replaceMode) && (id in after ==> after[id] == before[id])
    {
      UnnamedIsAbsent(parsed, source, id);
    }
  }
}
