/**
 The history's tables are a view of the command store: its rows are the stored commands under the row
 ids SQLite gives them, and its results name what the stored results name. Along every run of the
 store they satisfy what paging asks of them.
 */
module HistoryOfStore {
  import opened Common
  import opened CommandResult
  import opened ResultMerge
  import opened Sequences
  import F = Fingerprint
  import H = CommandHistory
  import HistoryCursor
  import Runs = ResultRuns
  import Store = CommandStore

  /** What the stored values say when a reader decodes them. */
  datatype Naming = Naming(payload: F.Json -> H.Payload, request: Evidence -> string, resource: Evidence -> H.Resource)

  function RowOf(id: RequestId, rowid: int, c: Store.CommandRow, n: Naming): (r: H.Row) {
    H.Row(rowid, id, c.admittedAt, n.payload(c.payload))
  }

  ghost predicate Shows(commands: map<RequestId, Store.CommandRow>, table: seq<H.Row>, n: Naming) {
    && (forall r | r in table ::
          r.requestId in commands && r == RowOf(r.requestId, r.rowid, commands[r.requestId], n))
    && (forall id | id in commands :: exists r | r in table :: r.requestId == id)
  }

  /** The rows are exactly the stored commands. */
  ghost predicate Projects(s: Store.State, table: seq<H.Row>, n: Naming) {
    Shows(s.commands, table, n)
  }

  function ResultOf(result: CommandResult, n: Naming): (r: H.ResultRef) {
    H.ResultRef(n.request(result.route), n.resource(result.resource))
  }

  function ResultsOf(s: Store.State, n: Naming): (results: map<string, H.ResultRef>) {
    map id | id in s.results :: ResultOf(s.results[id].result, n)
  }

  function SnapshotOf(s: Store.State, table: seq<H.Row>, n: Naming): (t: H.Snapshot) {
    H.Snapshot(table, ResultsOf(s, n))
  }

  // The rows -----------------------------------------------------------------------------------------

  function Remaining(s: Store.State, now: Time): (p: H.Row -> bool) {
    (r: H.Row) => r.requestId !in Store.PrunableIds(s, now)
  }

  predicate AdmitsNew(s: Store.State, e: Store.Event) {
    e.Admitting? && e.command.requestId !in s.commands
  }

  /** The rows after one step of the store; `rowid` is the row id an inserted command gets. */
  function NextTable(s: Store.State, table: seq<H.Row>, e: Store.Event, rowid: int, n: Naming): (r: seq<H.Row>) {
    if AdmitsNew(s, e) then
      table + [H.Row(rowid, e.command.requestId, e.command.admittedAt, n.payload(e.command.payload))]
    else if e.Pruning? then Filter(table, Remaining(s, e.now))
    else table
  }

  /** A new command has a free row id, names its own request and has a timestamp that encoding accepts. */
  ghost predicate Insertable(s: Store.State, table: seq<H.Row>, e: Store.Event, rowid: int, n: Naming) {
    AdmitsNew(s, e) ==>
      && 0 < rowid <= I64_MAX && (forall r | r in table :: r.rowid != rowid)
      && n.payload(e.command.payload).requestId == e.command.requestId
      && HistoryCursor.I64(e.command.admittedAt) && e.command.admittedAt + RETENTION_SECONDS <= I64_MAX
  }

  /** Inserting a command is the history's admission. */
  lemma InsertingAdmits(s: Store.State, table: seq<H.Row>, e: Store.Event, rowid: int, n: Naming)
    requires Projects(s, table, n) && AdmitsNew(s, e) && Insertable(s, table, e, rowid, n)
    ensures H.Admit(table, rowid, e.command.admittedAt, n.payload(e.command.payload))
            == Ok(NextTable(s, table, e, rowid, n))
  {
    assert forall r | r in table :: r.requestId in s.commands;
  }

  /** A result step changes at most the unresolved column of the commands. */
  lemma ApplyKeepsCommands(s: Store.State, id: RequestId, op: Runs.Op)
    ensures Store.Apply(s, id, op).commands.Keys == s.commands.Keys
    ensures forall x | x in s.commands :: Store.SameCommandRow(s.commands[x], Store.Apply(s, id, op).commands[x])
  {
  }

  lemma SameRowsProject(s: Store.State, after: Store.State, table: seq<H.Row>, n: Naming)
    requires Projects(s, table, n) && after.commands.Keys == s.commands.Keys
    requires forall x | x in s.commands :: Store.SameCommandRow(s.commands[x], after.commands[x])
    ensures Projects(after, table, n)
  {
  }

  lemma InsertShows(commands: map<RequestId, Store.CommandRow>, table: seq<H.Row>, id: RequestId, c: Store.CommandRow,
                    rowid: int, n: Naming)
    requires Shows(commands, table, n) && id !in commands
    ensures Shows(commands[id := c], table + [RowOf(id, rowid, c, n)], n)
  {
    var next := table + [RowOf(id, rowid, c, n)];
    assert next[|table|] in next && next[|table|].requestId == id;
    forall other | other in commands ensures exists r | r in next :: r.requestId == other {
      var r :| r in table && r.requestId == other;
      assert r in next;
    }
  }

  lemma InsertProjects(s: Store.State, table: seq<H.Row>, e: Store.Event, rowid: int, n: Naming)
    requires Projects(s, table, n) && AdmitsNew(s, e)
    ensures Projects(Store.Step(s, e), NextTable(s, table, e, rowid, n), n)
  {
    var c := e.command;
    InsertShows(s.commands, table, c.requestId,
                Store.CommandRow(c.fingerprint, c.admittedAt, c.retainUntil, true, c.payload), rowid, n);
  }

  lemma PruneProjects(s: Store.State, table: seq<H.Row>, now: Time, n: Naming)
    requires Projects(s, table, n)
    ensures Projects(Store.Prune(s, now), Filter(table, Remaining(s, now)), n)
  {
    var after, next := Store.Prune(s, now), Filter(table, Remaining(s, now));
    forall id | id in after.commands ensures exists r | r in next :: r.requestId == id {
      var r :| r in table && r.requestId == id;
      assert r in next;
    }
  }

  /** Each step of the store takes the rows that show it to rows that show what it became. */
  lemma StepProjects(s: Store.State, table: seq<H.Row>, e: Store.Event, rowid: int, n: Naming)
    requires Projects(s, table, n) && H.WellFormed(table) && Insertable(s, table, e, rowid, n)
    ensures Projects(Store.Step(s, e), NextTable(s, table, e, rowid, n), n)
    ensures H.WellFormed(NextTable(s, table, e, rowid, n))
  {
    if AdmitsNew(s, e) {
      InsertingAdmits(s, table, e, rowid, n);
      H.AdmissionStaysWellFormed(table, rowid, e.command.admittedAt, n.payload(e.command.payload));
      InsertProjects(s, table, e, rowid, n);
    } else if e.Pruning? {
      PruneProjects(s, table, e.now, n);
      H.PruningStaysWellFormed(table, Remaining(s, e.now));
    } else {
      if e.Applying? {
        ApplyKeepsCommands(s, e.id, e.op);
      }
      SameRowsProject(s, Store.Step(s, e), table, n);
    }
  }

  // The results --------------------------------------------------------------------------------------

  /** Every stored result belongs to a stored command and names its request and resource. */
  ghost predicate Named(s: Store.State, n: Naming) {
    forall id | id in s.results ::
      && id in s.commands
      && ResultOf(s.results[id].result, n) == H.ResultRef(id, n.payload(s.commands[id].payload).resource)
  }

  /** A write that stores a first result names the command it is for; later writers cannot change that. */
  ghost predicate NamesCommand(s: Store.State, e: Store.Event, n: Naming) {
    e.Applying? && e.op.Write? && e.id !in s.results && WriteValue(None, e.op.incoming, e.op.accepted).Ok? ==>
      && e.id in s.commands
      && ResultOf(e.op.incoming, n) == H.ResultRef(e.id, n.payload(s.commands[e.id].payload).resource)
  }

  lemma FirstWriteNames(incoming: CommandResult, accepted: bool)
    requires WriteValue(None, incoming, accepted).Ok?
    ensures var r := WriteValue(None, incoming, accepted).value.result;
            r.route == incoming.route && r.resource == incoming.resource
  {
    Runs.FinishParts(FirstWrite(incoming));
  }

  lemma StepKeepsName(row: Option<Row>, op: Runs.Op)
    ensures row.Some? ==>
              && Runs.Step(row, op).Some?
              && Runs.Step(row, op).value.result.route == row.value.result.route
              && Runs.Step(row, op).value.result.resource == row.value.result.resource
    ensures row.None? && op.Write? && WriteValue(None, op.incoming, op.accepted).Ok? ==>
              && Runs.Step(row, op).Some?
              && Runs.Step(row, op).value.result.route == op.incoming.route
              && Runs.Step(row, op).value.result.resource == op.incoming.resource
    ensures row.None? && !(op.Write? && WriteValue(None, op.incoming, op.accepted).Ok?) ==> Runs.Step(row, op).None?
  {
    if row.Some? {
      Runs.StepSettles(row.value, op);
    } else if op.Write? && WriteValue(None, op.incoming, op.accepted).Ok? {
      FirstWriteNames(op.incoming, op.accepted);
    }
  }

  lemma ApplyKeepsNames(s: Store.State, e: Store.Event, n: Naming)
    requires e.Applying? && Named(s, n) && NamesCommand(s, e, n)
    ensures Named(Store.Apply(s, e.id, e.op), n)
  {
    StepKeepsName(Store.RowOf(s, e.id), e.op);
    ApplyKeepsCommands(s, e.id, e.op);
  }

  lemma InterruptKeepsNames(s: Store.State, n: Naming)
    requires Named(s, n)
    ensures Named(Store.InterruptAll(s), n)
  {
  }

  lemma StepKeepsNames(s: Store.State, e: Store.Event, n: Naming)
    requires Named(s, n) && NamesCommand(s, e, n)
    ensures Named(Store.Step(s, e), n)
  {
    match e
    case Admitting(_) =>
    case Applying(_, _) => ApplyKeepsNames(s, e, n);
    case Interrupting => InterruptKeepsNames(s, n);
    case Pruning(_) =>
  }

  lemma NamedResultsMatch(s: Store.State, table: seq<H.Row>, n: Naming)
    requires Projects(s, table, n) && H.WellFormed(table) && Named(s, n)
    ensures H.ResultsMatch(SnapshotOf(s, table, n))
  {
    forall r | r in table ensures H.Matched(ResultsOf(s, n), r) {
      assert H.Stored(r);
    }
  }

  // Runs ---------------------------------------------------------------------------------------------

  /** The rows after a run, when the inserted commands get these row ids. */
  function TableAfter(s: Store.State, table: seq<H.Row>, events: seq<Store.Event>, rowids: seq<int>,
      n: Naming): (r: seq<H.Row>)
    requires |rowids| == |events|
    decreases |events|
  {
    if events == [] then table
    else
      TableAfter(Store.Step(s, events[0]), NextTable(s, table, events[0], rowids[0], n), events[1..], rowids[1..], n)
  }

  ghost predicate ProperRun(s: Store.State, table: seq<H.Row>, events: seq<Store.Event>, rowids: seq<int>, n: Naming)
    requires |rowids| == |events|
    decreases |events|
  {
    events == []
    || (&& Insertable(s, table, events[0], rowids[0], n) && NamesCommand(s, events[0], n)
        && ProperRun(Store.Step(s, events[0]), NextTable(s, table, events[0], rowids[0], n),
                     events[1..], rowids[1..], n))
  }

  /**
   After every run of the store the history's rows are the stored commands, well formed, and every
   result matches its command, so a walk over such snapshots fails only for an expired cursor.
   */
  lemma {:induction false} HistoryShowsStore(s: Store.State, table: seq<H.Row>, events: seq<Store.Event>,
      rowids: seq<int>, n: Naming)
    requires |rowids| == |events| && ProperRun(s, table, events, rowids, n)
    requires Projects(s, table, n) && H.WellFormed(table) && Named(s, n)
    ensures var after, rows := Store.Run(s, events), TableAfter(s, table, events, rowids, n);
            && Projects(after, rows, n) && H.WellFormed(rows) && Named(after, n)
            && H.ResultsMatch(SnapshotOf(after, rows, n))
    decreases |events|
  {
    if events == [] {
      NamedResultsMatch(s, table, n);
    } else {
      StepProjects(s, table, events[0], rowids[0], n);
      StepKeepsNames(s, events[0], n);
      HistoryShowsStore(Store.Step(s, events[0]), NextTable(s, table, events[0], rowids[0], n),
                        events[1..], rowids[1..], n);
    }
  }
}
