/** Whole sessions on one connection: CREATE TABLE, DROP TABLE, BEGIN, statements, COMMIT and ROLLBACK
    keep types, UNIQUE columns and foreign keys. */
module DmlSessions {
  import opened Values
  import opened Schema
  import opened Ast
  import opened Eval
  import opened Tables
  import opened WalCodec
  import opened EngineModel
  import CP = Checkpoints
  import TM = TxnModel
  import SS = Sessions
  import opened Accessor
  import P = Plans
  import Q = Query
  import opened Shortcut
  import opened Dml
  import opened Ddl

  datatype Step =
    | Create(name: string, specs: seq<ColumnSpec>)
    | Drop(name: string)
    | BeginTxn(id: uint64)
    | CommitTxn
    | Rollback
    | Stmt(s: Statement, now: int)

  function AccOf(s: SS.Session): Acc { if s.txn.Some? then Buffered(s.e, s.txn.value) else Direct(s.e) }

  /** One message. Inside a transaction every error ends it; DDL is such an error. */
  ghost function Next(run: Q.Runner, s: SS.Session, m: Step): SS.Session {
    match m
    case Create(name, specs) =>
      if s.txn.Some? || !Define(s.e, name, specs).Ok? then SS.Session(s.e, None)
      else SS.Session(AddTable(s.e, name, Define(s.e, name, specs).value), None)
    case Drop(name) =>
      if s.txn.Some? || name !in s.e.ids then SS.Session(s.e, None) else SS.Session(RemoveTable(s.e, name), None)
    case BeginTxn(id) => if s.txn.Some? then s else SS.Session(s.e, Some(TM.TxnState(id, [], map[], false)))
    case CommitTxn =>
      if s.txn.None? then s
      else if TM.CommitOk(s.e, s.txn.value) then SS.Session(TM.Committed(s.e, s.txn.value), None)
      else SS.Session(s.e, None)
    case Rollback => SS.Session(s.e, None)
    case Stmt(stmt, now) => After(Dml.Exec(run, AccOf(s), now, stmt))
  }

  function After(r: Effect): SS.Session {
    if r.acc.Buffered? && r.res.Ok? then SS.Session(r.acc.e, Some(r.acc.t)) else SS.Session(r.acc.e, None)
  }

  ghost function RunSession(run: Q.Runner, s: SS.Session, steps: seq<Step>): SS.Session
    decreases |steps|
  {
    if steps == [] then s else RunSession(run, Next(run, s, steps[0]), steps[1..])
  }

  /** The committed tables are in order, and so is what an open transaction sees. */
  ghost predicate SessionInv(s: SS.Session) {
    Inv(Direct(s.e)) && TM.Named(s.e) && (s.txn.Some? ==> Inv(AccOf(s)))
  }

  // --- what does not depend on the rows ---------------------------------------------------------------------

  /** The catalog stays; under a transaction the tables do too. */
  ghost predicate SameBase(a: Acc, b: Acc) {
    && a.Direct? == b.Direct? && a.e.ids == b.e.ids && a.e.tabs.Keys == b.e.tabs.Keys && a.e.nextTable == b.e.nextTable
    && (a.Buffered? ==> SameEngine(a.e, b.e))
  }

  lemma SameBaseChain(a: Acc, b: Acc, c: Acc)
    ensures SameBase(a, a)
    ensures SameBase(a, b) && SameBase(b, c) ==> SameBase(a, c)
  {
    CP.SameIsEquivalence(a.e, b.e, c.e);
  }

  lemma CallKeepsBase(acc: Acc, c: TM.Call)
    ensures SameBase(Perform(acc, c).acc, acc)
  {
    if acc.Buffered? { TM.CallKeepsEngine(acc.e, acc.t, c); }
  }

  lemma {:induction false} InsertKeepsBase(
    acc: Acc, name: string, cols: seq<Column>, targets: seq<nat>, rows: seq<seq<Expr>>, now: int, n: nat)
    requires forall i :: 0 <= i < |targets| ==> targets[i] < |cols|
    ensures SameBase(InsertAll(acc, name, cols, targets, rows, now, n).acc, acc)
    decreases |rows|
  {
    SameBaseChain(acc, acc, acc);
    if rows != [] {
      var p := PrepareRow(cols, targets, rows[0], now);
      if p.Ok? { CallKeepsBase(acc, InsertCall(name, p.value)); }
      var r := InsertOne(acc, name, cols, targets, rows[0], now);
      if r.res.Ok? {
        InsertKeepsBase(r.acc, name, cols, targets, rows[1..], now, n + 1);
        SameBaseChain(InsertAll(acc, name, cols, targets, rows, now, n).acc, r.acc, acc);
      }
    }
  }

  lemma UpdateOneKeepsBase(acc: Acc, now: int, name: string, cols: seq<Column>, sets: seq<SetCol>, cand: P.Stored)
    requires |cand.row| == |cols| && forall i :: 0 <= i < |sets| ==> sets[i].idx < |cols|
    ensures SameBase(UpdateOne(acc, now, name, cols, sets, cand).acc, acc)
  {
    SameBaseChain(acc, acc, acc);
    var o := Assigned(Ctx(TableScope(name, cols), now, None), cols, sets, cand.row, cand.row);
    if o.Ok? {
      var remove := TM.Remove(name, cand.id);
      CallKeepsBase(acc, TM.Update(name, cand.id, o.value));
      CallKeepsBase(acc, remove);
      if Moves(cols, cand.row, o.value) {
        var mid, put := Perform(acc, remove).acc, TM.Insert(name, o.value[PkIndex(cols, 0).value].i, -1, o.value);
        CallKeepsBase(mid, put);
        SameBaseChain(Perform(mid, put).acc, mid, acc);
      }
    }
  }

  lemma {:induction false} UpdateKeepsBase(
    acc: Acc, now: int, name: string, cols: seq<Column>, sets: seq<SetCol>, cands: seq<P.Stored>, n: nat)
    requires Fitting(cols, cands) && forall i :: 0 <= i < |sets| ==> sets[i].idx < |cols|
    ensures SameBase(UpdateAll(acc, now, name, cols, sets, cands, n).acc, acc)
    decreases |cands|
  {
    SameBaseChain(acc, acc, acc);
    if cands != [] {
      UpdateOneKeepsBase(acc, now, name, cols, sets, cands[0]);
      var r := UpdateOne(acc, now, name, cols, sets, cands[0]);
      if r.res.Ok? {
        UpdateKeepsBase(r.acc, now, name, cols, sets, cands[1..], n + 1);
        SameBaseChain(UpdateAll(acc, now, name, cols, sets, cands, n).acc, r.acc, acc);
      }
    }
  }

  lemma {:induction false} DeleteKeepsBase(acc: Acc, name: string, cands: seq<P.Stored>, n: nat)
    ensures SameBase(DeleteAll(acc, name, cands, n).acc, acc)
    decreases |cands|
  {
    SameBaseChain(acc, acc, acc);
    if cands != [] {
      CallKeepsBase(acc, TM.Remove(name, cands[0].id));
      var r := DeleteOne(acc, name, cands[0].id);
      if r.res.Ok? {
        DeleteKeepsBase(r.acc, name, cands[1..], n + 1);
        SameBaseChain(DeleteAll(acc, name, cands, n).acc, r.acc, acc);
      }
    }
  }

  lemma ExecUpdateKeepsBase(run: Q.Runner, acc: Acc, now: int, name: string, sets: seq<Assignment>, where: Option<Expr>)
    ensures SameBase(ExecUpdate(run, acc, now, name, sets, where).acc, acc)
  {
    SameBaseChain(acc, acc, acc);
    if name in DbOf(acc) {
      var p := PlanUpdate(run, acc, now, name, sets, where);
      if p.Ok? { UpdateKeepsBase(acc, now, name, DbOf(acc)[name].cols, p.value.sets, p.value.cands, 0); }
    }
  }

  lemma ExecKeepsBase(run: Q.Runner, acc: Acc, now: int, s: Statement)
    ensures SameBase(Dml.Exec(run, acc, now, s).acc, acc)
  {
    SameBaseChain(acc, acc, acc);
    match s
    case InsertRows(name, names, rows) =>
      if name in DbOf(acc) {
        var cols := DbOf(acc)[name].cols;
        var targets := TargetsOf(cols, names);
        if targets.Ok? { InsertKeepsBase(acc, name, cols, targets.value, rows, now, 0); }
      }
    case UpdateRows(name, sets, where) => ExecUpdateKeepsBase(run, acc, now, name, sets, where);
    case DeleteRows(name, where) =>
      if name in DbOf(acc) {
        var cands := Affected(run, acc, now, name, where);
        if cands.Ok? { DeleteKeepsBase(acc, name, cands.value, 0); }
      }
  }

  // --- accessors with the same view --------------------------------------------------------------------------

  ghost predicate SameView(a: Acc, b: Acc) {
    a.e.ids == b.e.ids && forall n :: ColsAt(a, n) == ColsAt(b, n) && RowsAt(a, n) == RowsAt(b, n)
  }

  lemma SameViewKeepsInv(a: Acc, b: Acc)
    requires Inv(a) && SameView(a, b) && Sound(b)
    ensures Inv(b)
  {
    SameViewKeepsFk(a, b);
    assert TypedAll(b) by {
      forall n, id | ColsAt(b, n).Some? && id in RowsAt(b, n) ensures TypedRow(ColsAt(b, n).value, RowsAt(b, n)[id]) {
        assert id in RowsAt(a, n) && TypedRow(ColsAt(a, n).value, RowsAt(a, n)[id]);
      }
    }
    forall n | ColsAt(b, n).Some?
      ensures UniqueRows(ColsAt(b, n).value, RowsAt(b, n)) && NoAutoReference(ColsAt(b, n).value)
    {
      assert ColsAt(a, n).Some?;
    }
    forall n | n in b.e.ids && ColsAt(b, n).Some? ensures n != "" && DefOk(n, ColsAt(b, n).value) {
      assert ColsAt(a, n).Some?;
    }
  }

  lemma SameEngineSameView(a: EngineState, b: EngineState)
    requires SameEngine(a, b)
    ensures SameView(Direct(a), Direct(b))
  {
  }

  /** BEGIN: the new transaction sees the committed rows. */
  lemma BeginKeepsInv(e: EngineState, id: uint64)
    requires Inv(Direct(e))
    ensures Inv(Buffered(e, TM.TxnState(id, [], map[], false)))
  {
    SameViewKeepsInv(Direct(e), Buffered(e, TM.TxnState(id, [], map[], false)));
  }

  /** COMMIT: what the transaction saw becomes the committed state. */
  lemma CommitKeepsInv(e: EngineState, t: TM.TxnState)
    requires Inv(Direct(e)) && TM.Named(e) && Inv(Buffered(e, t)) && TM.CommitOk(e, t)
    ensures Inv(Direct(TM.Committed(e, t))) && TM.Named(TM.Committed(e, t))
  {
    var after := TM.Committed(e, t);
    TM.CommitKeepsCatalog(e, t);
    SameCatalogNamed(e, after);
    forall n
      ensures ColsAt(Direct(after), n) == ColsAt(Buffered(e, t), n) &&
              RowsAt(Direct(after), n) == RowsAt(Buffered(e, t), n)
    {
      CommittedView(e, t, n);
    }
    TM.CommitIsHealthy(e, t);
    SameViewKeepsInv(Buffered(e, t), Direct(after));
  }

  lemma SameCatalogNamed(a: EngineState, b: EngineState)
    requires TM.Named(a) && CatalogOf(b) == CatalogOf(a)
    ensures TM.Named(b)
  {
    SameCatalog(a, b);
    assert a.ids == b.ids && a.nextTable == b.nextTable;
  }

  lemma CommittedView(e: EngineState, t: TM.TxnState, n: string)
    requires Healthy(e) && TM.Named(e) && TM.CommitOk(e, t)
    requires CatalogOf(TM.Committed(e, t)) == CatalogOf(e)
    ensures ColsAt(Direct(TM.Committed(e, t)), n) == ColsAt(Buffered(e, t), n)
    ensures RowsAt(Direct(TM.Committed(e, t)), n) == RowsAt(Buffered(e, t), n)
  {
    var after := TM.Committed(e, t);
    assert after.ids == e.ids && after.tabs.Keys == CatalogOf(after).defs.Keys == e.tabs.Keys;
    if n in e.ids {
      TM.CommitInstallsOverlay(e, t, n);
      assert CatalogOf(after).defs[e.ids[n]] == CatalogOf(e).defs[e.ids[n]];
    } else if TM.OpsOn(t.ops, n) != [] {
      TM.OpsOnMentioned(t.ops, n);
    }
  }

  /** b is a with one more, empty table. */
  ghost predicate Extends(a: Acc, b: Acc, name: string, cols: seq<Column>) {
    && name !in a.e.ids && b.e.ids.Keys == a.e.ids.Keys + {name}
    && ColsAt(b, name) == Some(cols) && RowsAt(b, name) == map[]
    && forall n :: RowsAt(b, n) == RowsAt(a, n) && (n != name ==> ColsAt(b, n) == ColsAt(a, n))
  }

  lemma CreateExtends(e: EngineState, name: string, cols: seq<Column>)
    requires TM.Named(e) && name !in e.ids
    ensures Extends(Direct(e), Direct(AddTable(e, name, cols)), name, cols)
    ensures TM.Named(AddTable(e, name, cols))
  {
    var e' := AddTable(e, name, cols);
    forall t | t in e'.tabs ensures exists n :: n in e'.ids && e'.ids[n] == t {
      if t == e.nextTable {
        assert e'.ids[name] == t;
      } else {
        var n :| n in e.ids && e.ids[n] == t;
        assert e'.ids[n] == t;
      }
    }
  }

  lemma ExtendKeepsFk(a: Acc, b: Acc, name: string, cols: seq<Column>)
    requires FkOk(a) && Extends(a, b, name, cols)
    ensures FkOk(b)
  {
    forall n, id | n in b.e.ids && ColsAt(b, n).Some? && id in RowsAt(b, n)
      ensures FkRowOk(b, ColsAt(b, n).value, RowsAt(b, n)[id])
    {
      assert FkRowOk(a, ColsAt(a, n).value, RowsAt(a, n)[id]);
    }
  }

  lemma ExtendKeepsRest(a: Acc, b: Acc, name: string, cols: seq<Column>)
    requires CatalogOk(a) && NoAutoReferences(a) && TypedAll(a) && UniqueAll(a) && Extends(a, b, name, cols)
    requires name != "" && DefOk(name, cols) && NoAutoReference(cols)
    ensures CatalogOk(b) && NoAutoReferences(b) && TypedAll(b) && UniqueAll(b)
  {
    forall n | ColsAt(b, n).Some?
      ensures NoAutoReference(ColsAt(b, n).value) && UniqueRows(ColsAt(b, n).value, RowsAt(b, n))
    {
      if n != name { assert ColsAt(a, n).Some?; }
    }
    forall n, id | ColsAt(b, n).Some? && id in RowsAt(b, n) ensures TypedRow(ColsAt(b, n).value, RowsAt(b, n)[id]) {
      assert id in RowsAt(a, n) && ColsAt(a, n).Some?;
    }
  }

  /** CREATE TABLE: the new table is empty. */
  lemma CreateKeepsInv(e: EngineState, name: string, cols: seq<Column>)
    requires Inv(Direct(e)) && TM.Named(e) && name !in e.ids && name != "" && DefOk(name, cols) && NoAutoReference(cols)
    ensures Inv(Direct(AddTable(e, name, cols))) && TM.Named(AddTable(e, name, cols))
  {
    var a, b := Direct(e), Direct(AddTable(e, name, cols));
    CreateExtends(e, name, cols);
    EmptyTableIsValid(cols);
    ExtendKeepsFk(a, b, name, cols);
    ExtendKeepsRest(a, b, name, cols);
  }

  lemma CreatedKeepsInv(e: EngineState, name: string, specs: seq<ColumnSpec>)
    requires Inv(Direct(e)) && TM.Named(e) && Define(e, name, specs).Ok? && NoSelfNumberingRefs(specs)
    ensures
      var e' := AddTable(e, name, Define(e, name, specs).value);
      Inv(Direct(e')) && TM.Named(e')
  {
    var cols, resolved := Define(e, name, specs).value, ResolveColumns(e, name, specs).value;
    DefinedIsOk(e, name, specs);
    forall i | 0 <= i < |cols| && cols[i].primary && cols[i].autoInc ensures cols[i].fkTable == "" {
      assert ResolveColumn(e, name, specs[i]) == Ok(resolved[i]);
    }
    CreateKeepsInv(e, name, cols);
  }

  lemma DropKeepsNamed(e: EngineState, name: string)
    requires TM.Named(e) && name in e.ids
    ensures TM.Named(RemoveTable(e, name))
  {
    var e' := RemoveTable(e, name);
    forall t | t in e'.tabs ensures exists n :: n in e'.ids && e'.ids[n] == t {
      var n :| n in e.ids && e.ids[n] == t;
      assert n in e'.ids;
    }
  }

  /** DROP TABLE of a table nothing refers to. */
  lemma DropKeepsInv(e: EngineState, name: string)
    requires Inv(Direct(e)) && TM.Named(e) && name in e.ids && !InUse(Direct(e), name)
    ensures Inv(Direct(RemoveTable(e, name))) && TM.Named(RemoveTable(e, name))
  {
    var a, b := Direct(e), Direct(RemoveTable(e, name));
    DropKeepsNamed(e, name);
    assert name != "";
    DropKeepsFkIff(e, name);
    forall n { DropShows(e, name, n); }
    DropKeepsRest(a, b, name);
  }

  lemma DropKeepsRest(a: Acc, b: Acc, name: string)
    requires CatalogOk(a) && NoAutoReferences(a) && TypedAll(a) && UniqueAll(a) && b.e.ids == a.e.ids - {name}
    requires forall n :: ColsAt(b, n) == (if n == name then None else ColsAt(a, n))
    requires forall n :: RowsAt(b, n) == (if n == name then map[] else RowsAt(a, n))
    ensures CatalogOk(b) && NoAutoReferences(b) && TypedAll(b) && UniqueAll(b)
  {
    forall n | ColsAt(b, n).Some?
      ensures NoAutoReference(ColsAt(b, n).value) && UniqueRows(ColsAt(b, n).value, RowsAt(b, n))
    {
      assert n != name && ColsAt(a, n).Some?;
    }
    forall n, id | ColsAt(b, n).Some? && id in RowsAt(b, n) ensures TypedRow(ColsAt(b, n).value, RowsAt(b, n)[id]) {
      assert n != name && id in RowsAt(a, n);
    }
  }

  // --- sessions ---------------------------------------------------------------------------------------------------

  predicate NoSelfNumberingRefs(specs: seq<ColumnSpec>) {
    forall i :: 0 <= i < |specs| && specs[i].primary && specs[i].autoInc ==> specs[i].refTable == ""
  }

  /** The step avoids the two ways a foreign key can come to nothing: a reference on a column that
      numbers itself, and dropping a table that is referred to. */
  ghost predicate Careful(s: SS.Session, m: Step) {
    && (m.Create? ==> NoSelfNumberingRefs(m.specs))
    && (m.Drop? ==> !InUse(Direct(s.e), m.name))
  }

  ghost predicate AllCareful(run: Q.Runner, s: SS.Session, steps: seq<Step>)
    decreases |steps|
  {
    steps == [] || (Careful(s, steps[0]) && AllCareful(run, Next(run, s, steps[0]), steps[1..]))
  }

  lemma SameBaseNamed(a: Acc, b: Acc)
    requires SameBase(b, a) && TM.Named(a.e)
    ensures TM.Named(b.e)
  {
  }

  /** Statements of an open transaction leave the committed tables in order. */
  lemma SameBaseKeepsInv(a: Acc, b: Acc)
    requires a.Buffered? && SameBase(b, a) && Inv(Direct(a.e))
    ensures Inv(Direct(b.e))
  {
    CP.SameHealth(b.e, a.e);
    CP.SameIsEquivalence(b.e, a.e, a.e);
    SameEngineSameView(a.e, b.e);
    SameViewKeepsInv(Direct(a.e), Direct(b.e));
  }

  lemma OutcomeKeepsInv(s: SS.Session, r: Effect)
    requires SessionInv(s) && Inv(r.acc) && SameBase(r.acc, AccOf(s))
    ensures SessionInv(After(r))
  {
    SameBaseNamed(AccOf(s), r.acc);
    if s.txn.Some? { SameBaseKeepsInv(AccOf(s), r.acc); }
  }

  lemma StatementKeepsInv(run: Q.Runner, s: SS.Session, m: Step)
    requires SessionInv(s) && m.Stmt?
    ensures SessionInv(Next(run, s, m))
  {
    var acc := AccOf(s);
    assert Inv(acc);
    ExecKeepsInv(run, acc, m.now, m.s);
    ExecKeepsBase(run, acc, m.now, m.s);
    OutcomeKeepsInv(s, Dml.Exec(run, acc, m.now, m.s));
  }

  lemma StepKeepsInv(run: Q.Runner, s: SS.Session, m: Step)
    requires SessionInv(s) && Careful(s, m)
    ensures SessionInv(Next(run, s, m))
  {
    match m
    case Create(name, specs) => if s.txn.None? && Define(s.e, name, specs).Ok? { CreatedKeepsInv(s.e, name, specs); }
    case Drop(name) => if s.txn.None? && name in s.e.ids { DropKeepsInv(s.e, name); }
    case BeginTxn(id) => if s.txn.None? { BeginKeepsInv(s.e, id); }
    case CommitTxn => if s.txn.Some? && TM.CommitOk(s.e, s.txn.value) { CommitKeepsInv(s.e, s.txn.value); }
    case Rollback =>
    case Stmt(_, _) => StatementKeepsInv(run, s, m);
  }

  lemma {:induction false} SessionKeepsInv(run: Q.Runner, s: SS.Session, steps: seq<Step>)
    requires SessionInv(s) && AllCareful(run, s, steps)
    ensures SessionInv(RunSession(run, s, steps))
    decreases |steps|
  {
    if steps != [] {
      StepKeepsInv(run, s, steps[0]);
      SessionKeepsInv(run, Next(run, s, steps[0]), steps[1..]);
    }
  }

  /** From an empty database on, after any number of table creations and drops, statements and
      transactions, ended by COMMIT, ROLLBACK or an error: the committed tables and what an open
      transaction sees of them are well-typed, without duplicates in UNIQUE columns, and every foreign key
      names a row. */
  lemma EverySessionIsConsistent(run: Q.Runner, steps: seq<Step>)
    requires AllCareful(run, SS.Session(EmptyEngine, None), steps)
    ensures SessionInv(RunSession(run, SS.Session(EmptyEngine, None), steps))
  {
    SessionKeepsInv(run, SS.Session(EmptyEngine, None), steps);
  }

  // --- transactions that do not commit --------------------------------------------------------------------------

  /** ROLLBACK, DDL and a refused COMMIT end the transaction at once. */
  predicate Ending(s: SS.Session, m: Step)
    requires s.txn.Some?
  {
    m.Rollback? || m.Create? || m.Drop? || (m.CommitTxn? && !TM.CommitOk(s.e, s.txn.value))
  }

  /** ... and a statement does exactly if it fails. Nothing but a COMMIT touches a table. */
  lemma TransactionEnds(run: Q.Runner, s: SS.Session, m: Step)
    requires s.txn.Some?
    ensures Ending(s, m) ==> Next(run, s, m) == SS.Session(s.e, None)
    ensures m.Stmt? ==> (Next(run, s, m).txn.None? <==> !Dml.Exec(run, AccOf(s), m.now, m.s).res.Ok?)
    ensures m.BeginTxn? ==> Next(run, s, m) == s
    ensures !(m.CommitTxn? && TM.CommitOk(s.e, s.txn.value)) ==> SameEngine(Next(run, s, m).e, s.e)
  {
    TM.SameAsItself(s.e);
    if m.Stmt? { ExecKeepsBase(run, AccOf(s), m.now, m.s); }
  }

  /** No step commits or ends the open transaction. */
  ghost predicate StaysOpen(run: Q.Runner, s: SS.Session, steps: seq<Step>)
    decreases |steps|
  {
    s.txn.Some? && (steps == [] || StaysOpen(run, Next(run, s, steps[0]), steps[1..]))
  }

  lemma {:induction false} OpenKeepsEngine(run: Q.Runner, s: SS.Session, steps: seq<Step>)
    requires StaysOpen(run, s, steps)
    ensures SameEngine(RunSession(run, s, steps).e, s.e) && RunSession(run, s, steps).txn.Some?
    decreases |steps|
  {
    TM.SameAsItself(s.e);
    if steps != [] {
      var s' := Next(run, s, steps[0]);
      TransactionEnds(run, s, steps[0]);
      OpenKeepsEngine(run, s', steps[1..]);
      CP.SameIsEquivalence(RunSession(run, s, steps).e, s'.e, s.e);
    }
  }

  lemma {:induction false} RunSessionAppend(run: Q.Runner, s: SS.Session, a: seq<Step>, b: seq<Step>)
    ensures RunSession(run, s, a + b) == RunSession(run, RunSession(run, s, a), b)
    decreases |a|
  {
    if a == [] {
      assert a + b == b;
    } else {
      assert (a + b)[0] == a[0] && (a + b)[1..] == a[1..] + b;
      RunSessionAppend(run, Next(run, s, a[0]), a[1..], b);
    }
  }

  /** The messages of an abandoned transaction, and a COMMIT that comes too late. */
  function Abandoned(id: uint64, steps: seq<Step>, last: Step): seq<Step> {
    [BeginTxn(id)] + (steps + [last, CommitTxn])
  }

  /** BEGIN, statements, and then a ROLLBACK, DDL, a refused COMMIT or a statement that fails: the
      transaction is over, every table is as before the BEGIN, and a further COMMIT changes nothing. */
  lemma AbandonedLeavesNoTrace(run: Q.Runner, s: SS.Session, id: uint64, steps: seq<Step>, last: Step)
    requires s.txn.None?
    requires var open := SS.Session(s.e, Some(TM.TxnState(id, [], map[], false)));
      && StaysOpen(run, open, steps)
      && var now := RunSession(run, open, steps);
         now.txn.Some? && (Ending(now, last) || (last.Stmt? && !Dml.Exec(run, AccOf(now), last.now, last.s).res.Ok?))
    ensures
      var after := RunSession(run, s, Abandoned(id, steps, last));
      after.txn.None? && SameEngine(after.e, s.e)
  {
    var open := SS.Session(s.e, Some(TM.TxnState(id, [], map[], false)));
    var now, tail, all := RunSession(run, open, steps), [last, CommitTxn], Abandoned(id, steps, last);
    assert all[0] == BeginTxn(id) && all[1..] == steps + tail;
    RunSessionAppend(run, open, steps, tail);
    OpenKeepsEngine(run, open, steps);
    TransactionEnds(run, now, last);
    var over := Next(run, now, last);
    assert tail[1..] == [CommitTxn] && Next(run, over, CommitTxn) == over;
    assert RunSession(run, over, [CommitTxn]) == over;
    CP.SameIsEquivalence(over.e, now.e, s.e);
  }
}
