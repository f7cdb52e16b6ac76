/** What the cache promises: its readers see a plain map, and a flush makes the table agree. */
module PvalProperties {
  import opened Options
  import opened PvalKey
  import opened PvalSpec
  import opened Seqs

  datatype Op =
    | SetOp(row: Row, value: string, instant: bool, ok: bool)
    | DeleteOp(row: Row, instant: bool, ok: bool)
    | FlushOp(order: seq<string>, failing: set<string>)

  function Step(s: Store, op: Op): Store {
    match op
    case SetOp(row, value, instant, ok) => WithPval(s, row, value, instant, ok)
    case DeleteOp(row, instant, ok) => WithoutPval(s, row, instant, ok)
    case FlushOp(order, failing) => Flush(s, order, failing)
  }

  function Run(s: Store, ops: seq<Op>): Store
    decreases |ops|
  {
    if ops == [] then s else Run(Step(s, ops[0]), ops[1..])
  }

  // ----- A plain map is seen -----

  /** What getPval finds. */
  function Visible(s: Store): map<string, string> {
    map k | k in s.cache && !s.cache[k].needsDelete :: s.cache[k].value
  }

  function PlainStep(p: map<string, string>, op: Op): map<string, string> {
    match op
    case SetOp(row, value, instant, ok) => if instant && !ok then p else p[FullKey(row) := value]
    case DeleteOp(row, _, _) => p - {FullKey(row)}
    case FlushOp(_, _) => p
  }

  function PlainRun(p: map<string, string>, ops: seq<Op>): map<string, string>
    decreases |ops|
  {
    if ops == [] then p else PlainRun(PlainStep(p, ops[0]), ops[1..])
  }

  lemma {:induction false} FlushIsInvisible(s: Store, order: seq<string>, failing: set<string>)
    ensures Visible(Flush(s, order, failing)) == Visible(s)
    decreases |order|
  {
    if order != [] {
      var next := FlushEntry(s, order[0], order[0] !in failing);
      assert Visible(next) == Visible(s);
      FlushIsInvisible(next, order[1..], failing);
    }
  }

  lemma StepIsPlain(s: Store, op: Op)
    ensures Visible(Step(s, op)) == PlainStep(Visible(s), op)
  {
    if op.FlushOp? { FlushIsInvisible(s, op.order, op.failing); }
  }

  /** Over any sequence of sets, deletes and flushes, deferred or instant, failing or not, a
      reader sees the plain map under the same operations. */
  lemma {:induction false} ReadsAPlainMap(s: Store, ops: seq<Op>, r: Row)
    ensures var p := PlainRun(Visible(s), ops);
            Get(Run(s, ops), r) == if FullKey(r) in p then p[FullKey(r)] else ""
    decreases |ops|
  {
    if ops == [] {
      assert Get(s, r) == if FullKey(r) in Visible(s) then Visible(s)[FullKey(r)] else "";
    } else {
      StepIsPlain(s, ops[0]);
      ReadsAPlainMap(Step(s, ops[0]), ops[1..], r);
    }
  }

  /** Between well-formed owners no operation on one value touches another. */
  lemma NoInterference(s: Store, op: Op, r: Row)
    requires !op.FlushOp? && op.row != r
    requires Clean(r.ownerType) && Clean(r.ownerId) && Clean(op.row.ownerType) && Clean(op.row.ownerId)
    ensures Get(Step(s, op), r) == Get(s, r)
  {
    if FullKey(op.row) == FullKey(r) { FullKeyIsInjective(op.row, r); }
  }

  // ----- A flush synchronises the table -----

  /** A row the table can hold and the flush can find again. */
  predicate Good(r: Row) {
    Clean(r.ownerType) && Clean(r.ownerId) && |r.key| <= MAX_KEY_LENGTH
  }

  ghost predicate GoodKey(k: string) {
    Good(Parsed(k)) && FullKey(Parsed(k)) == k
  }

  lemma GoodRowParses(r: Row)
    requires Good(r)
    ensures Parsed(FullKey(r)) == r && GoodKey(FullKey(r)) && Truncated(r) == r
  {
    SplitIsExact(r.ownerType, r.ownerId, r.key);
  }

  function Look<K, V>(m: map<K, V>, k: K): Option<V> {
    if k in m then Some(m[k]) else None
  }

  /** Every key and row is good, every row is cached, and an entry that is not dirty agrees with
      its row. */
  ghost predicate Consistent(s: Store) {
    && (forall k :: k in s.cache ==> GoodKey(k))
    && (forall r :: r in s.table ==> Good(r) && FullKey(r) in s.cache)
    && (forall k :: k in s.cache && QueryFor(k, s.cache[k]).None? ==> Look(s.table, Parsed(k)) == Some(s.cache[k].value))
  }

  predicate Succeeds(op: Op) {
    match op
    case SetOp(row, _, instant, ok) => Good(row) && (instant ==> ok)
    case DeleteOp(row, instant, ok) => Good(row) && (instant ==> ok)
    case FlushOp(_, failing) => failing == {}
  }

  /** The table holds exactly what getPval finds. */
  ghost predicate InSync(s: Store) {
    && (forall r :: r in s.table ==> Good(r) && Look(Visible(s), FullKey(r)) == Some(s.table[r]))
    && (forall k :: k in Visible(s) ==> GoodKey(k) && Parsed(k) in s.table)
  }

  /** Different good rows have different keys, and different good keys different rows. */
  lemma RowsAndKeysApart()
    ensures forall r :: Good(r) ==> Parsed(FullKey(r)) == r && GoodKey(FullKey(r)) && Truncated(r) == r
  {
    forall r | Good(r) ensures Parsed(FullKey(r)) == r && GoodKey(FullKey(r)) && Truncated(r) == r {
      GoodRowParses(r);
    }
  }

  lemma FlushEntryConsistent(s: Store, k: string)
    requires Consistent(s)
    ensures Consistent(FlushEntry(s, k, true))
  {
    hide Good, Parsed, FullKey, Truncated;
    RowsAndKeysApart();
  }

  lemma SetConsistent(s: Store, row: Row, value: string, instant: bool)
    requires Consistent(s) && Good(row)
    ensures Consistent(WithPval(s, row, value, instant, true))
  {
    hide Good, Parsed, FullKey, Truncated;
    RowsAndKeysApart();
  }

  lemma DeleteConsistent(s: Store, row: Row, instant: bool)
    requires Consistent(s) && Good(row)
    ensures Consistent(WithoutPval(s, row, instant, true))
  {
    hide Good, Parsed, FullKey, Truncated;
    RowsAndKeysApart();
  }

  lemma StepConsistent(s: Store, op: Op)
    requires Consistent(s) && Succeeds(op)
    ensures Consistent(Step(s, op))
  {
    hide Consistent, Good;
    match op
    case SetOp(row, value, instant, ok) =>
      SetConsistent(s, row, value, instant);
      assert !instant ==> WithPval(s, row, value, instant, ok) == WithPval(s, row, value, instant, true);
    case DeleteOp(row, instant, ok) =>
      DeleteConsistent(s, row, instant);
      assert !instant ==> WithoutPval(s, row, instant, ok) == WithoutPval(s, row, instant, true);
    case FlushOp(order, failing) =>
      FlushConsistent(s, order);
  }

  lemma {:induction false} FlushConsistent(s: Store, order: seq<string>)
    requires Consistent(s)
    ensures Consistent(Flush(s, order, {}))
    decreases |order|
  {
    if order != [] {
      FlushEntryConsistent(s, order[0]);
      FlushConsistent(FlushEntry(s, order[0], true), order[1..]);
    }
  }

  /** Nothing waits to be written. */
  ghost predicate AllSaved(s: Store) {
    forall k :: k in s.cache ==> QueryFor(k, s.cache[k]).None?
  }

  /** What a flush leaves of a key. */
  lemma {:induction false} FlushedEntry(s: Store, order: seq<string>, failing: set<string>, k: string)
    ensures var after := Flush(s, order, failing);
            && (k in after.cache ==> k in s.cache && after.cache[k].value == s.cache[k].value)
            && (k in after.cache && k in order ==> QueryFor(k, after.cache[k]).None?)
            && (k in after.cache && k !in order ==> after.cache[k] == s.cache[k])
            && (k in s.cache && QueryFor(k, s.cache[k]).None? ==> k in after.cache && after.cache[k] == s.cache[k])
    decreases |order|
  {
    if order != [] {
      FlushedEntry(FlushEntry(s, order[0], order[0] !in failing), order[1..], failing, k);
    }
  }

  /** A flush never leaves anything for the next one, not even what it failed to write. */
  lemma FlushSavesAll(s: Store, order: seq<string>, failing: set<string>, again: seq<string>)
    requires ToSet(order) == s.cache.Keys
    ensures AllSaved(Flush(s, order, failing))
    ensures FlushQueries(Flush(s, order, failing), again) == []
  {
    forall k | k in Flush(s, order, failing).cache ensures QueryFor(k, Flush(s, order, failing).cache[k]).None? {
      FlushedEntry(s, order, failing, k);
      assert k in ToSet(order);
    }
    SavedSendsNothing(Flush(s, order, failing), again);
  }

  lemma {:induction false} SavedSendsNothing(s: Store, order: seq<string>)
    requires AllSaved(s)
    ensures FlushQueries(s, order) == []
  {
    if order != [] { SavedSendsNothing(s, order[1..]); }
  }

  lemma SavedIsInSync(s: Store)
    requires Consistent(s) && AllSaved(s)
    ensures InSync(s)
  {
    hide Good, Parsed, FullKey, Truncated;
    RowsAndKeysApart();
  }

  lemma InSyncIsConsistent(s: Store)
    requires InSync(s) && AllSaved(s)
    ensures Consistent(s)
  {
    hide Good, Parsed, FullKey, Truncated;
    RowsAndKeysApart();
  }

  lemma {:induction false} RunConsistent(s: Store, ops: seq<Op>)
    requires Consistent(s) && forall i :: 0 <= i < |ops| ==> Succeeds(ops[i])
    ensures Consistent(Run(s, ops))
    decreases |ops|
  {
    if ops != [] {
      StepConsistent(s, ops[0]);
      hide Consistent, Succeeds, Step;
      RunConsistent(Step(s, ops[0]), ops[1..]);
    }
  }

  /** From a freshly booted cache, after any operations whose queries succeed on well-formed keys
      of at most 64 characters, a flush leaves the table equal to what readers see, and a second
      flush has nothing to send. */
  lemma FlushSynchronises(s: Store, ops: seq<Op>, order: seq<string>, again: seq<string>)
    requires InSync(s) && AllSaved(s) && forall i :: 0 <= i < |ops| ==> Succeeds(ops[i])
    requires ToSet(order) == Run(s, ops).cache.Keys
    ensures var after := Flush(Run(s, ops), order, {});
            InSync(after) && Visible(after) == PlainRun(Visible(s), ops) && FlushQueries(after, again) == []
  {
    hide InSync, Consistent, AllSaved, Succeeds, FlushQueries, Flush, Visible, PlainRun, Run;
    InSyncIsConsistent(s);
    RunConsistent(s, ops);
    FlushConsistent(Run(s, ops), order);
    FlushSavesAll(Run(s, ops), order, {}, again);
    SavedIsInSync(Flush(Run(s, ops), order, {}));
    FlushIsInvisible(Run(s, ops), order, {});
    RunIsPlain(s, ops);
  }

  lemma {:induction false} RunIsPlain(s: Store, ops: seq<Op>)
    ensures Visible(Run(s, ops)) == PlainRun(Visible(s), ops)
    decreases |ops|
  {
    if ops != [] {
      StepIsPlain(s, ops[0]);
      RunIsPlain(Step(s, ops[0]), ops[1..]);
    }
  }

  // ----- When it does not -----

  /** The table row of a key holds what readers see for it. */
  ghost predicate AgreesAt(s: Store, k: string) {
    Look(s.table, Parsed(k)) == Look(Visible(s), k)
  }

  lemma OtherKeysRow(s: Store, j: string, ok: bool, k: string)
    requires GoodKey(j) && GoodKey(k) && j != k
    ensures var after := FlushEntry(s, j, ok);
            Look(after.table, Parsed(k)) == Look(s.table, Parsed(k)) && Look(after.cache, k) == Look(s.cache, k)
  {
  }

  /** The entry of the key sends a query in a flush, and the query succeeds. */
  predicate Written(s: Store, k: string, failing: set<string>) {
    k in s.cache && QueryFor(k, s.cache[k]).Some? && k !in failing
  }

  lemma OwnRow(s: Store, k: string, failing: set<string>)
    requires GoodKey(k)
    ensures AgreesAt(FlushEntry(s, k, k !in failing), k) <==> AgreesAt(s, k) || Written(s, k, failing)
  {
  }

  lemma {:induction false} FlushOfOthers(s: Store, order: seq<string>, failing: set<string>, k: string)
    requires k !in order && GoodKey(k) && forall j :: j in order ==> GoodKey(j)
    ensures Look(Flush(s, order, failing).table, Parsed(k)) == Look(s.table, Parsed(k))
    ensures Look(Visible(Flush(s, order, failing)), k) == Look(Visible(s), k)
    decreases |order|
  {
    FlushIsInvisible(s, order, failing);
    if order != [] {
      var next := FlushEntry(s, order[0], order[0] !in failing);
      hide GoodKey, Parsed, FlushEntry;
      OtherKeysRow(s, order[0], order[0] !in failing, k);
      FlushOfOthers(next, order[1..], failing, k);
    }
  }

  /** After a flush a key agrees with its row if it did before or was written now. */
  lemma {:induction false} FlushedRow(s: Store, order: seq<string>, failing: set<string>, k: string)
    requires Distinct(order) && k in order && k in s.cache
    requires forall j :: j in order ==> GoodKey(j)
    ensures AgreesAt(Flush(s, order, failing), k) <==> AgreesAt(s, k) || Written(s, k, failing)
    decreases |order|
  {
    var j := order[0];
    var next := FlushEntry(s, j, j !in failing);
    assert order == [j] + order[1..];
    DistinctCons(j, order[1..]);
    FlushIsInvisible(s, [j], failing);
    assert Flush(s, [j], failing) == next;
    hide GoodKey, Parsed, FlushEntry, Distinct, Visible;
    if j == k {
      OwnRow(s, k, failing);
      FlushOfOthers(next, order[1..], failing, k);
    } else {
      OtherKeysRow(s, j, j !in failing, k);
      assert k in next.cache && next.cache[k] == s.cache[k];
      FlushedRow(next, order[1..], failing, k);
    }
  }

  lemma {:induction false} FlushedTable(s: Store, order: seq<string>, failing: set<string>, r: Row)
    requires forall j :: j in order ==> GoodKey(j)
    requires r in Flush(s, order, failing).table
    ensures r in s.table || (Good(r) && FullKey(r) in order)
    decreases |order|
  {
    if order != [] {
      var j := order[0];
      FlushedTable(FlushEntry(s, j, j !in failing), order[1..], failing, r);
      assert j in order;
      GoodRowParses(Parsed(j));
    }
  }

  /** Every cached key and every row of the table is good: what remains when queries fail. */
  ghost predicate Tidy(s: Store) {
    (forall k :: k in s.cache ==> GoodKey(k)) && (forall r :: r in s.table ==> Good(r))
  }

  /** A flush whose queries may fail leaves the table equal to what readers see exactly when every
      good key, cached or not, agrees with its row already or is written now. */
  lemma FlushInSyncExactly(s: Store, order: seq<string>, failing: set<string>)
    requires Tidy(s) && Distinct(order) && ToSet(order) == s.cache.Keys
    ensures InSync(Flush(s, order, failing)) <==>
            forall k :: GoodKey(k) ==> AgreesAt(s, k) || Written(s, k, failing)
  {
    var after := Flush(s, order, failing);
    FlushIsInvisible(s, order, failing);
    hide Good, Parsed, FullKey, Truncated;
    forall j | j in order ensures GoodKey(j) { assert j in ToSet(order); }
    forall k | GoodKey(k) ensures AgreesAt(after, k) <==> AgreesAt(s, k) || Written(s, k, failing) {
      if k in s.cache {
        assert k in ToSet(order);
        FlushedRow(s, order, failing, k);
      } else {
        assert k !in ToSet(order);
        FlushOfOthers(s, order, failing, k);
      }
    }
    forall r | r in after.table ensures Good(r) { FlushedTable(s, order, failing, r); }
    hide Flush, Distinct, ToSet;
    SyncIsAgreement(s, after);
  }

  lemma SyncIsAgreement(s: Store, after: Store)
    requires Visible(after) == Visible(s)
    requires forall r :: r in after.table ==> Good(r)
    requires forall k :: k in s.cache ==> GoodKey(k)
    ensures InSync(after) <==> forall k :: GoodKey(k) ==> AgreesAt(after, k)
  {
    hide Good, Parsed, FullKey, Truncated;
    RowsAndKeysApart();
    if InSync(after) {
      forall k | GoodKey(k) ensures AgreesAt(after, k) {
        if Parsed(k) in after.table { assert FullKey(Parsed(k)) == k; }
      }
    }
    if forall k :: GoodKey(k) ==> AgreesAt(after, k) {
      forall r | r in after.table ensures Look(Visible(after), FullKey(r)) == Some(after.table[r]) {
        assert AgreesAt(after, FullKey(r));
      }
    }
  }

  /** Operations on good rows, failing or not, keep keys and rows good. */
  predicate OnGoodRows(op: Op) {
    op.FlushOp? || Good(op.row)
  }

  lemma StepTidy(s: Store, op: Op)
    requires Tidy(s) && OnGoodRows(op)
    ensures Tidy(Step(s, op))
  {
    if op.FlushOp? {
      FlushTidy(s, op.order, op.failing);
    } else {
      hide Good, Parsed, FullKey, Truncated;
      RowsAndKeysApart();
    }
  }

  lemma {:induction false} FlushTidy(s: Store, order: seq<string>, failing: set<string>)
    requires Tidy(s)
    ensures Tidy(Flush(s, order, failing))
    decreases |order|
  {
    if order != [] {
      hide Good, Parsed, FullKey, Truncated;
      RowsAndKeysApart();
      FlushTidy(FlushEntry(s, order[0], order[0] !in failing), order[1..], failing);
    }
  }

  lemma {:induction false} RunTidy(s: Store, ops: seq<Op>)
    requires Tidy(s) && forall i :: 0 <= i < |ops| ==> OnGoodRows(ops[i])
    ensures Tidy(Run(s, ops))
    decreases |ops|
  {
    if ops != [] {
      StepTidy(s, ops[0]);
      hide Tidy, OnGoodRows, Step;
      RunTidy(Step(s, ops[0]), ops[1..]);
    }
  }

  /** An instant delete drops its entry even when its query fails. The row is then found by no flush
      and stays: table and readers agree after the next flush exactly when the delete succeeded. */
  lemma FailedDeleteComesBack(r: Row, value: string, ok: bool)
    requires Good(r)
    ensures var s := Run(Store(map[], map[]), [SetOp(r, value, true, true)] + ([DeleteOp(r, true, ok)] + []));
            && Get(s, r) == "" && s.cache == map[] && s.table == (if ok then map[] else map[r := value])
            && (InSync(Flush(s, [], {})) <==> ok)
  {
    GoodRowParses(r);
    var k := FullKey(r);
    hide FullKey, Parsed, Truncated;
    var s0 := Store(map[k := Entry(value, false, false)], map[r := value]);
    var s1 := Store(map[], if ok then map[] else map[r := value]);
    assert s0.cache - {k} == map[] && s0.table - {r} == map[];
    assert Step(Store(map[], map[]), SetOp(r, value, true, true)) == s0;
    assert Step(s0, DeleteOp(r, true, ok)) == s1;
    RunOne(Store(map[], map[]), SetOp(r, value, true, true), [DeleteOp(r, true, ok)] + []);
    RunOne(s0, DeleteOp(r, true, ok), []);
    assert !ok ==> r in s1.table;
  }

  lemma {:induction false} FlushOne(s: Store, k: string, failing: set<string>)
    ensures Flush(s, [k], failing) == FlushEntry(s, k, k !in failing)
  {
  }

  lemma {:induction false} RunOne(s: Store, op: Op, rest: seq<Op>)
    ensures Run(s, [op] + rest) == Run(Step(s, op), rest)
  {
  }

  /** A flush would write row r for key j. */
  predicate Saves(s: Store, j: string, r: Row) {
    j in s.cache && QueryFor(j, s.cache[j]).Some? && QueryFor(j, s.cache[j]).value.Replace?
    && QueryFor(j, s.cache[j]).value.row == r
  }

  /** Only keys in `held` wait to write row r. */
  ghost predicate Quiet(s: Store, r: Row, held: set<string>) {
    forall j :: Saves(s, j, r) ==> j in held
  }

  /** Row r was not written: it holds what it held, or was deleted. */
  predicate NotWritten(before: map<Row, string>, after: map<Row, string>, r: Row) {
    r in after ==> r in before && after[r] == before[r]
  }

  /** The operation writes row r, at once or with a later flush. */
  predicate SetsRow(op: Op, r: Row) {
    op.SetOp? && (Truncated(op.row) == r || Truncated(Parsed(FullKey(op.row))) == r)
  }

  lemma {:induction false} FlushKeepsQuiet(s: Store, order: seq<string>, failing: set<string>, r: Row, held: set<string>)
    requires Quiet(s, r, held) && held <= failing
    ensures Quiet(Flush(s, order, failing), r, held) && NotWritten(s.table, Flush(s, order, failing).table, r)
    decreases |order|
  {
    if order != [] {
      var next := FlushEntry(s, order[0], order[0] !in failing);
      hide Parsed, Truncated;
      assert Saves(s, order[0], r) ==> order[0] in failing;
      forall j | Saves(next, j, r) ensures j in held { assert Saves(s, j, r); }
      FlushKeepsQuiet(next, order[1..], failing, r, held);
    }
  }

  lemma StepKeepsQuiet(s: Store, op: Op, r: Row)
    requires Quiet(s, r, {}) && !SetsRow(op, r)
    ensures Quiet(Step(s, op), r, {}) && NotWritten(s.table, Step(s, op).table, r)
  {
    if op.FlushOp? {
      FlushKeepsQuiet(s, op.order, op.failing, r, {});
    } else {
      hide Parsed, Truncated, FullKey;
      forall j ensures !Saves(Step(s, op), j, r) {
        assert !Saves(s, j, r);
      }
    }
  }

  lemma {:induction false} RunKeepsQuiet(s: Store, ops: seq<Op>, r: Row)
    requires Quiet(s, r, {}) && forall i :: 0 <= i < |ops| ==> !SetsRow(ops[i], r)
    ensures Quiet(Run(s, ops), r, {}) && NotWritten(s.table, Run(s, ops).table, r)
    decreases |ops|
  {
    if ops != [] {
      StepKeepsQuiet(s, ops[0], r);
      hide Quiet, SetsRow, Step;
      RunKeepsQuiet(Step(s, ops[0]), ops[1..], r);
    }
  }

  /** Without a set or a delete of its key a value stays as readers see it. */
  lemma {:induction false} ValueStays(p: map<string, string>, ops: seq<Op>, k: string)
    requires k in p && forall i :: 0 <= i < |ops| ==> ops[i].FlushOp? || FullKey(ops[i].row) != k
    ensures k in PlainRun(p, ops) && PlainRun(p, ops)[k] == p[k]
    decreases |ops|
  {
    if ops != [] {
      assert ops[0].FlushOp? || FullKey(ops[0].row) != k;
      hide FullKey;
      ValueStays(PlainStep(p, ops[0]), ops[1..], k);
    }
  }

  /** A saved value that a flush fails to write is lost: no later run that does not set it anew writes its
      row, which stays missing or keeps its older value, although readers see the new one until it is
      deleted. */
  lemma FailedSaveIsLost(s: Store, r: Row, value: string, order: seq<string>, failing: set<string>, ops: seq<Op>)
    requires Good(r) && Quiet(s, r, {FullKey(r)}) && FullKey(r) in order && FullKey(r) in failing
    requires forall i :: 0 <= i < |ops| ==> !SetsRow(ops[i], r)
    ensures var after := Run(Flush(WithPval(s, r, value, false, true), order, failing), ops);
            && NotWritten(s.table, after.table, r)
            && ((forall i :: 0 <= i < |ops| && ops[i].DeleteOp? ==> FullKey(ops[i].row) != FullKey(r)) ==>
                  Get(after, r) == value)
  {
    GoodRowParses(r);
    var k := FullKey(r);
    var dirty := WithPval(s, r, value, false, true);
    var flushed := Flush(dirty, order, failing);
    forall i | 0 <= i < |ops| && ops[i].SetOp? ensures FullKey(ops[i].row) != k { assert !SetsRow(ops[i], r); }
    hide Parsed, Truncated, FullKey, SetsRow;
    forall j | Saves(dirty, j, r) ensures j in {k} { assert j != k ==> Saves(s, j, r); }
    FlushKeepsQuiet(dirty, order, failing, r, {k});
    FlushedEntry(dirty, order, failing, k);
    assert Quiet(flushed, r, {});
    RunKeepsQuiet(flushed, ops, r);
    FlushIsInvisible(dirty, order, failing);
    if forall i :: 0 <= i < |ops| && ops[i].DeleteOp? ==> FullKey(ops[i].row) != k {
      assert k in Visible(flushed) && Visible(flushed)[k] == value;
      ValueStays(Visible(flushed), ops, k);
      ReadsAPlainMap(flushed, ops, r);
    }
  }

  /** Saving a value and later deleting it, both deferred and flushed, clears its row exactly
      when the key is at most 64 characters long: a longer key is cut when saved but not when
      deleted. */
  lemma LongKeysStay(r: Row, value: string)
    requires Clean(r.ownerType) && Clean(r.ownerId)
    ensures var k := FullKey(r);
            var s := Run(Store(map[], map[]), [SetOp(r, value, false, true)] + ([FlushOp([k], {})] +
                                              ([DeleteOp(r, false, true)] + ([FlushOp([k], {})] + []))));
            s.cache == map[] && (s.table == map[] <==> |r.key| <= MAX_KEY_LENGTH)
  {
    var k := FullKey(r);
    assert Parsed(k) == r by { SplitIsExact(r.ownerType, r.ownerId, r.key); }
    var cut := Truncated(r);
    assert cut == r <==> |r.key| <= MAX_KEY_LENGTH;
    hide FullKey, Parsed, Flush, Truncated;
    var s0 := Store(map[k := Entry(value, true, false)], map[]);
    var s1 := Store(map[k := Entry(value, false, false)], map[cut := value]);
    var s2 := Store(map[k := Entry(value, false, true)], map[cut := value]);
    var s3 := Store(map[], map[cut := value] - {r});
    FlushOne(s0, k, {});
    FlushOne(s2, k, {});
    assert FlushEntry(s0, k, true) == s1;
    assert s2.cache - {k} == map[];
    assert FlushEntry(s2, k, true) == s3;
    var last := [FlushOp([k], {})] + [];
    RunOne(Store(map[], map[]), SetOp(r, value, false, true), [FlushOp([k], {})] + ([DeleteOp(r, false, true)] + last));
    RunOne(s0, FlushOp([k], {}), [DeleteOp(r, false, true)] + last);
    RunOne(s1, DeleteOp(r, false, true), last);
    RunOne(s2, FlushOp([k], {}), []);
    assert cut in s3.table <==> cut != r;
  }

  // ----- What each operation does to the cache and to the table -----

  /** A value is kept under its three texts joined by "~=~", and in the row with a key of at most
      64 characters. A deferred set or delete marks the entry; an instant one writes at once, and a
      set that fails changes nothing, while a delete that fails still forgets the entry. */
  lemma CacheMeans(s: Store, t: string, o: string, key: string, value: string, ok: bool)
    ensures var full, r := t + "~=~" + o + "~=~" + key, Row(t, o, key);
            var row := Row(t, o, if |key| <= 64 then key else key[..64]);
            && Get(s, r) == (if full in s.cache && !s.cache[full].needsDelete then s.cache[full].value else "")
            && WithPval(s, r, value, false, ok) == Store(s.cache[full := Entry(value, true, false)], s.table)
            && WithPval(s, r, value, true, true) == Store(s.cache[full := Entry(value, false, false)], s.table[row := value])
            && WithPval(s, r, value, true, false) == s
            && (full !in s.cache ==> WithoutPval(s, r, true, ok) == WithoutPval(s, r, false, ok) == s)
            && (full in s.cache ==>
                  && WithoutPval(s, r, false, ok) ==
                     Store(s.cache[full := Entry(s.cache[full].value, s.cache[full].needsSave, true)], s.table)
                  && WithoutPval(s, r, true, ok) == Store(s.cache - {full}, if ok then s.table - {row} else s.table))
  {
  }

  /** An entry marked for deletion makes a flush delete its row, with the key at full length; one to be
      saved makes it replace its row, with the key cut to 64 characters; any other makes it do nothing. */
  lemma QueryMeans(t: string, o: string, key: string, e: Entry)
    requires Clean(t) && Clean(o)
    ensures var q := QueryFor(t + "~=~" + o + "~=~" + key, e);
            && (e.needsDelete ==> q == Some(Delete(Row(t, o, key))))
            && (!e.needsDelete && e.needsSave ==>
                  q == Some(Replace(Row(t, o, if |key| <= 64 then key else key[..64]), e.value)))
            && (!e.needsDelete && !e.needsSave ==> q == None)
  {
    hide Clean, Split;
    SplitIsExact(t, o, key);
  }

  /** After a flush the entries that were marked for deletion are gone and the others are clean. */
  lemma {:induction false} FlushedCache(s: Store, order: seq<string>, failing: set<string>)
    ensures var n := Flush(s, order, failing);
            && (forall k :: k in n.cache <==> k in s.cache && !(k in order && s.cache[k].needsDelete))
            && (forall k :: k in n.cache ==>
                  n.cache[k] == if k in order then Entry(s.cache[k].value, false, false) else s.cache[k])
    decreases |order|
  {
    if order != [] {
      var k := order[0];
      var next := FlushEntry(s, k, k !in failing);
      assert k in s.cache && s.cache[k].needsDelete ==> next.cache == s.cache - {k};
      assert k in s.cache && !s.cache[k].needsDelete ==> next.cache == s.cache[k := s.cache[k].(needsSave := false)];
      hide QueryFor;
      FlushedCache(next, order[1..], failing);
      assert order == [k] + order[1..];
    }
  }

  /** The table after queries that succeed, one by one. */
  function AfterQueries(table: map<Row, string>, queries: seq<Query>): map<Row, string>
    decreases |queries|
  {
    if queries == [] then table else
      var q := queries[0];
      AfterQueries(if q.Replace? then table[q.row := q.value] else table - {q.row}, queries[1..])
  }

  /** The keys outside a set, in order. */
  function Outside(order: seq<string>, failing: set<string>): seq<string> {
    if order == [] then [] else (if order[0] in failing then [] else [order[0]]) + Outside(order[1..], failing)
  }

  lemma {:induction false} OutsideIsPart(order: seq<string>, failing: set<string>)
    ensures forall k :: k in Outside(order, failing) <==> k in order && k !in failing
  {
    if order != [] { OutsideIsPart(order[1..], failing); }
  }

  lemma {:induction false} SameQueries(s: Store, n: Store, order: seq<string>)
    requires forall k :: k in order ==> Look(s.cache, k) == Look(n.cache, k)
    ensures FlushQueries(s, order) == FlushQueries(n, order)
    decreases |order|
  {
    if order != [] {
      hide QueryFor;
      var k := order[0];
      assert k in order && Look(s.cache, k) == Look(n.cache, k);
      SameQueries(s, n, order[1..]);
    }
  }

  /** A flush changes the table by the queries it sends and nothing else: those that do not fail,
      in the order of the entries. */
  lemma {:induction false} FlushedByQueries(s: Store, order: seq<string>, failing: set<string>)
    requires Distinct(order)
    ensures Flush(s, order, failing).table == AfterQueries(s.table, FlushQueries(s, Outside(order, failing)))
    decreases |order|
  {
    hide QueryFor;
    if order != [] {
      var k, rest := order[0], order[1..];
      assert order == [k] + rest;
      DistinctCons(k, rest);
      var next := FlushEntry(s, k, k !in failing);
      FlushedByQueries(next, rest, failing);
      var kept := Outside(rest, failing);
      OutsideIsPart(rest, failing);
      SameQueries(s, next, kept);
      if k in failing {
        assert Outside(order, failing) == [] + kept == kept && next.table == s.table;
      } else {
        assert Outside(order, failing) == [k] + kept && ([k] + kept)[1..] == kept;
        if k in s.cache && QueryFor(k, s.cache[k]).Some? {
          var q := QueryFor(k, s.cache[k]).value;
          assert FlushQueries(s, [k] + kept) == [q] + FlushQueries(s, kept);
          assert ([q] + FlushQueries(s, kept))[1..] == FlushQueries(s, kept);
        } else {
          assert FlushQueries(s, [k] + kept) == [] + FlushQueries(s, kept) == FlushQueries(s, kept);
        }
      }
    }
  }
}
