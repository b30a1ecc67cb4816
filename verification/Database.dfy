/** The database backing store: `persist` and `cleanUp` interleaved statement by statement.

    Transactions are read-committed. An updated row stays locked until its transaction ends;
    the `Configurations` table has a unique index on `Active`, so an insert of an active row
    fails while another one is visible and waits while another one is in flight. */
module Database {

  /** SHA-256, taken to be free of collisions. Rows older than the column for it have none. */
  datatype Digest = Sha256(of: string) | NoDigest

  type Id = nat
  type Caller = nat

  datatype Row = Row(value: string, sha: Digest, createAt: int, active: bool)

  /** Where a `persist` call stands; `call` numbers the calls. */
  datatype Pc =
    | Idle
    | Called(call: nat, value: string)
    | Checked(call: nat, value: string)
    | Deactivated(call: nat, value: string, victims: set<Id>)
    | Inserted(call: nat, value: string, victims: set<Id>, id: Id, createAt: int)
    | Done(call: nat, value: string, success: bool)
  {
    /** The rows this transaction has updated and keeps locked. */
    function Victims(): set<Id> {
      if Deactivated? || Inserted? then victims else {}
    }
  }

  datatype State = State(rows: map<Id, Row>, callers: map<Caller, Pc>, calls: nat)

  datatype Action =
    | Call(caller: Caller, value: string)
    | Select(caller: Caller)
    | Update(caller: Caller, victims: set<Id>)
    | Insert(caller: Caller, id: Id, createAt: int)
    | Commit(caller: Caller, acknowledged: bool)
    | GiveUp(caller: Caller)
    | CleanUp(threshold: int)

  function Active(rows: map<Id, Row>): set<Id> {
    set id | id in rows && rows[id].active
  }

  ghost predicate ValueActive(s: State, value: string) {
    exists id :: id in Active(s.rows) && s.rows[id].value == value
  }

  predicate LockedByOthers(s: State, caller: Caller, id: Id) {
    exists c :: c in s.callers && c != caller && id in s.callers[c].Victims()
  }

  predicate ShaActive(s: State, sha: Digest) {
    exists id :: id in Active(s.rows) && s.rows[id].sha == sha
  }

  predicate OthersInserted(s: State, caller: Caller) {
    exists c :: c in s.callers && c != caller && s.callers[c].Inserted?
  }

  /** When a step can happen (a statement that has to wait is not enabled). */
  ghost predicate Enabled(s: State, action: Action) {
    match action
    case Call(c, _) => c in s.callers && (s.callers[c].Idle? || s.callers[c].Done?)
    case Select(c) => c in s.callers && s.callers[c].Called?
    case Update(c, victims) =>
      // Rows activated after the statement began may be missed.
      && c in s.callers && s.callers[c].Checked? && victims <= Active(s.rows)
      && forall id :: id in victims ==> !LockedByOthers(s, c, id)
    case Insert(c, id, _) =>
      && c in s.callers && s.callers[c].Deactivated? && id !in s.rows
      && !OthersInserted(s, c)
    case Commit(c, _) => c in s.callers && s.callers[c].Inserted?
    case GiveUp(c) => c in s.callers && !s.callers[c].Idle? && !s.callers[c].Done?
    case CleanUp(threshold) =>
      forall c, id :: c in s.callers && id in s.callers[c].Victims() && id in s.rows ==>
        s.rows[id].createAt >= threshold
  }

  function Act(s: State, action: Action): State
    requires Enabled(s, action)
  {
    match action
    case Call(c, value) => s.(callers := s.callers[c := Called(s.calls, value)], calls := s.calls + 1)
    case Select(c) =>
      // The active row already holds this digest: nothing to write.
      var pc := s.callers[c];
      s.(callers := s.callers[c := if ShaActive(s, Sha256(pc.value)) then Done(pc.call, pc.value, true)
                                   else Checked(pc.call, pc.value)])
    case Update(c, victims) =>
      var pc := s.callers[c];
      s.(callers := s.callers[c := Deactivated(pc.call, pc.value, victims)])
    case Insert(c, id, createAt) =>
      // The unique index: an active row this transaction has not deactivated is a violation.
      var pc := s.callers[c];
      s.(callers := s.callers[c := if Active(s.rows) <= pc.victims
                                   then Inserted(pc.call, pc.value, pc.victims, id, createAt)
                                   else Done(pc.call, pc.value, false)])
    case Commit(c, acknowledged) =>
      var pc := s.callers[c];
      s.(rows := Deactivate(s.rows, pc.victims)[pc.id := Row(pc.value, Sha256(pc.value), pc.createAt, true)],
         callers := s.callers[c := Done(pc.call, pc.value, acknowledged)])
    case GiveUp(c) =>
      // Any statement may fail; an open transaction is rolled back.
      s.(callers := s.callers[c := Done(s.callers[c].call, s.callers[c].value, false)])
    case CleanUp(threshold) => s.(rows := s.rows - (set id | id in s.rows && s.rows[id].createAt < threshold))
  }

  function Deactivate(rows: map<Id, Row>, victims: set<Id>): map<Id, Row> {
    map id | id in rows :: if id in victims then rows[id].(active := false) else rows[id]
  }

  // -------------------------------------------------------------------------
  // Safety
  // -------------------------------------------------------------------------

  ghost predicate AtMostOneActive(rows: map<Id, Row>) {
    forall a, b :: a in Active(rows) && b in Active(rows) ==> a == b
  }

  ghost predicate ShasMatch(rows: map<Id, Row>) {
    forall id :: id in rows ==> rows[id].sha in {Sha256(rows[id].value), NoDigest}
  }

  /** The rows without a digest. */
  function Undigested(rows: map<Id, Row>): set<Id> {
    set id | id in rows && rows[id].sha == NoDigest
  }

  /** Locked rows are active committed rows, each locked by one transaction; while an insert
      is in flight it is the only one, it has locked every active row, and its row is not yet in
      the table. */
  ghost predicate LocksOk(s: State) {
    && (forall c :: c in s.callers ==> s.callers[c].Victims() <= Active(s.rows))
    && (forall c, d :: c in s.callers && d in s.callers && c != d ==>
          s.callers[c].Victims() !! s.callers[d].Victims())
    && (forall c :: c in s.callers && s.callers[c].Inserted? ==>
          Active(s.rows) <= s.callers[c].victims && !OthersInserted(s, c) && s.callers[c].id !in s.rows)
  }

  ghost predicate Safe(s: State) {
    AtMostOneActive(s.rows) && ShasMatch(s.rows) && LocksOk(s)
  }

  lemma NoLockAfterCommit(s: State, c: Caller, d: Caller)
    requires LocksOk(s) && c in s.callers && d in s.callers && c != d && s.callers[c].Inserted?
    ensures s.callers[d].Victims() == {} && !s.callers[d].Inserted?
  {
    assert s.callers[d].Victims() <= Active(s.rows) <= s.callers[c].Victims();
    if s.callers[d].Inserted? { assert OthersInserted(s, c); }
  }

  lemma ActIsSafe(s: State, action: Action)
    requires Safe(s) && Enabled(s, action)
    ensures Safe(Act(s, action))
    ensures Undigested(Act(s, action).rows) <= Undigested(s.rows)
  {
    match action
    case Commit(c, _) => CommitIsSafe(s, action);
    case Insert(c, _, _) => InsertIsSafe(s, action);
    case Update(c, _) => UpdateIsSafe(s, action);
    case CleanUp(_) => CleanUpIsSafe(s, action);
    case Call(c, _) => OthersUntouched(s, Act(s, action), c);
    case Select(c) => OthersUntouched(s, Act(s, action), c);
    case GiveUp(c) => OthersUntouched(s, Act(s, action), c);
  }

  /** A step that changes no row and leaves its caller without locks. */
  lemma OthersUntouched(s: State, after: State, c: Caller)
    requires Safe(s) && c in s.callers && after.rows == s.rows
    requires after.callers.Keys == s.callers.Keys && after.callers == s.callers[c := after.callers[c]]
    requires after.callers[c].Victims() == {} && !after.callers[c].Inserted?
    ensures Safe(after)
  {
    forall d | d in after.callers && after.callers[d].Inserted? ensures !OthersInserted(after, d) {
      assert !OthersInserted(s, d);
    }
  }

  lemma UpdateIsSafe(s: State, action: Action)
    requires Safe(s) && action.Update? && Enabled(s, action)
    ensures Safe(Act(s, action))
  {
    var c, after := action.caller, Act(s, action);
    forall d | d in s.callers && d != c ensures s.callers[d].Victims() !! action.victims {
      forall id | id in action.victims ensures id !in s.callers[d].Victims() {
        assert !LockedByOthers(s, c, id);
      }
    }
    forall d | d in after.callers && after.callers[d].Inserted? ensures !OthersInserted(after, d) {
      assert !OthersInserted(s, d);
    }
  }

  lemma InsertIsSafe(s: State, action: Action)
    requires Safe(s) && action.Insert? && Enabled(s, action)
    ensures Safe(Act(s, action))
  {
    var c, after := action.caller, Act(s, action);
    forall d | d in after.callers && after.callers[d].Inserted? ensures !OthersInserted(after, d) {
      if d != c {
        assert OthersInserted(s, c);
      }
    }
    assert s.callers[c].Victims() == s.callers[c].victims;
  }

  lemma CommitIsSafe(s: State, action: Action)
    requires Safe(s) && action.Commit? && Enabled(s, action)
    ensures Safe(Act(s, action))
    ensures Active(Act(s, action).rows) == {s.callers[action.caller].id}
  {
    var c, after := action.caller, Act(s, action);
    var pc := s.callers[c];
    forall id | id in Active(after.rows) ensures id == pc.id {
      assert id == pc.id || id in Active(s.rows);
    }
    assert pc.id in Active(after.rows);
    forall d | d in s.callers && d != c ensures after.callers[d].Victims() == {} && !after.callers[d].Inserted? {
      NoLockAfterCommit(s, c, d);
    }
  }

  lemma CleanUpIsSafe(s: State, action: Action)
    requires Safe(s) && action.CleanUp? && Enabled(s, action)
    ensures Safe(Act(s, action))
  {
    var after := Act(s, action);
    assert Active(after.rows) <= Active(s.rows);
    forall c | c in s.callers ensures s.callers[c].Victims() <= Active(after.rows) {
      assert s.callers[c].Victims() <= Active(s.rows);
    }
    forall d | d in after.callers && after.callers[d].Inserted? ensures !OthersInserted(after, d) {
      assert !OthersInserted(s, d);
    }
  }

  // -------------------------------------------------------------------------
  // What one step leaves alone
  // -------------------------------------------------------------------------

  /** A committed row never changes, except that it may be deactivated for good. */
  predicate Kept(before: Row, now: Row) {
    now == before || now == before.(active := false)
  }

  /** A row goes only when `cleanUp` finds it too old; it is deactivated only by a commit. */
  lemma ActKeepsRows(s: State, action: Action, id: Id)
    requires Safe(s) && Enabled(s, action) && id in s.rows
    ensures var after := Act(s, action).rows;
      && (id !in after <==> action.CleanUp? && s.rows[id].createAt < action.threshold)
      && (id in after ==> Kept(s.rows[id], after[id]) && (after[id] != s.rows[id] ==> action.Commit?))
  {
    if action.Commit? {
      assert s.callers[action.caller].id !in s.rows;
    }
  }

  /** A row appears only when a transaction commits: the one it has inserted. */
  lemma NewRowsAreCommitted(s: State, action: Action, id: Id)
    requires Safe(s) && Enabled(s, action)
    ensures var after := Act(s, action).rows;
      && (id in after && id !in s.rows <==> action.Commit? && id == s.callers[action.caller].id)
      && (id in after && id !in s.rows ==>
            var pc := s.callers[action.caller];
            after[id] == Row(pc.value, Sha256(pc.value), pc.createAt, true))
  {
    if action.Commit? {
      assert s.callers[action.caller].id !in s.rows;
    }
  }

  /** A step is of one caller; only a new call, which gets a number of its own, changes the value
      it is about; what was updated and inserted is remembered. */
  lemma ActKeepsCallers(s: State, action: Action, c: Caller)
    requires Enabled(s, action) && c in s.callers
    ensures Act(s, action).callers.Keys == s.callers.Keys
    ensures Act(s, action).calls == if action.Call? then s.calls + 1 else s.calls
    ensures var before, now := s.callers[c], Act(s, action).callers[c];
      && (now != before ==> !action.CleanUp? && action.caller == c && !now.Idle?)
      && (action.Call? && action.caller == c ==> now == Called(s.calls, action.value))
      && (now != before && !action.Call? ==>
            !before.Idle? && !before.Done? && now.call == before.call && now.value == before.value)
      && (action.Update? && action.caller == c ==> now.Deactivated? && now.victims == action.victims)
      && (action.Insert? && action.caller == c && now.Inserted? ==>
            now.id == action.id && now.createAt == action.createAt && now.victims == before.victims)
  {}

  /** A call ends well if its value is found active, or if its transaction commits and the
      acknowledgement arrives; any other end is a failure. Only a commit changes rows meanwhile. */
  lemma HowCallsEnd(s: State, action: Action, c: Caller)
    requires Enabled(s, action) && c in s.callers && !s.callers[c].Done? && Act(s, action).callers[c].Done?
    ensures Act(s, action).callers[c].success <==>
      || (action.Select? && ShaActive(s, Sha256(s.callers[c].value)))
      || (action.Commit? && action.acknowledged)
    ensures !action.Commit? ==> Act(s, action).rows == s.rows
  {}

  // -------------------------------------------------------------------------
  // Every interleaving
  // -------------------------------------------------------------------------

  ghost predicate Start(s: State) {
    AtMostOneActive(s.rows) && ShasMatch(s.rows) && forall c :: c in s.callers ==> s.callers[c].Idle?
  }

  ghost predicate Steps(a: State, b: State) {
    exists action :: Enabled(a, action) && b == Act(a, action)
  }

  ghost predicate Execution(trace: seq<State>) {
    |trace| > 0 && Start(trace[0]) && forall i :: 0 <= i < |trace| - 1 ==> Steps(trace[i], trace[i + 1])
  }

  /** In every state of every interleaving at most one row is active, and every row's digest is
      that of its value, unless it had none from the start. */
  lemma {:induction false} AlwaysSafe(trace: seq<State>, i: nat)
    requires Execution(trace) && i < |trace|
    ensures Safe(trace[i])
    ensures Undigested(trace[i].rows) <= Undigested(trace[0].rows)
  {
    if i > 0 {
      AlwaysSafe(trace, i - 1);
      assert Steps(trace[i - 1], trace[i]);
      var action :| Enabled(trace[i - 1], action) && trace[i] == Act(trace[i - 1], action);
      ActIsSafe(trace[i - 1], action);
    }
  }

  /** During call `call` of caller `c` (up to the moment it returns) the value was active. */
  ghost predicate WasActive(trace: seq<State>, upTo: nat, c: Caller, call: nat, value: string) {
    exists k :: 0 <= k <= upTo < |trace| && ActiveIn(trace[k], c, call, value)
  }

  ghost predicate ActiveIn(s: State, c: Caller, call: nat, value: string) {
    c in s.callers && !s.callers[c].Idle? && s.callers[c].call == call && s.callers[c].value == value
    && ValueActive(s, value)
  }

  /** A step into success either found the value active, or leaves it active. */
  lemma SuccessMeansActive(a: State, action: Action, c: Caller)
    requires Safe(a) && Enabled(a, action) && c in a.callers
    requires var b := Act(a, action); b.callers[c].Done? && b.callers[c].success && a.callers[c] != b.callers[c]
    ensures var pc := Act(a, action).callers[c];
      ActiveIn(a, c, pc.call, pc.value) || ActiveIn(Act(a, action), c, pc.call, pc.value)
  {
    var pc := Act(a, action).callers[c];
    if action.Select? {
      var id :| id in Active(a.rows) && a.rows[id].sha == Sha256(pc.value);
      assert a.rows[id].value == pc.value;
      assert ValueActive(a, pc.value);
    } else {
      assert action.Commit?;
      CommitIsSafe(a, action);
      assert a.callers[c].id in Active(Act(a, action).rows);
      assert ValueActive(Act(a, action), pc.value);
    }
  }

  /** Every `persist` that returned success had its own value active at some instant of the
      call, also when it skipped the write, whatever ran in between. */
  lemma {:induction false} SuccessfulPersistWasActive(trace: seq<State>, i: nat, c: Caller)
    requires Execution(trace) && i < |trace|
    requires c in trace[i].callers && trace[i].callers[c].Done? && trace[i].callers[c].success
    ensures WasActive(trace, i, c, trace[i].callers[c].call, trace[i].callers[c].value)
  {
    if i > 0 {
      AlwaysSafe(trace, i - 1);
      assert Steps(trace[i - 1], trace[i]);
      var action :| Enabled(trace[i - 1], action) && trace[i] == Act(trace[i - 1], action);
      var pc := trace[i].callers[c];
      if trace[i - 1].callers[c] == pc {
        SuccessfulPersistWasActive(trace, i - 1, c);
        var k :| 0 <= k <= i - 1 < |trace| && ActiveIn(trace[k], c, pc.call, pc.value);
        assert ActiveIn(trace[k], c, pc.call, pc.value);
      } else {
        SuccessMeansActive(trace[i - 1], action, c);
        assert trace[i] == Act(trace[i - 1], action);
      }
    }
  }

  // -------------------------------------------------------------------------
  // The history of configurations
  // -------------------------------------------------------------------------

  /** In this step `cleanUp` deletes the row, which is older than the threshold. */
  ghost predicate CleansUp(a: State, b: State, id: Id, createAt: int) {
    exists threshold :: Enabled(a, CleanUp(threshold)) && b == Act(a, CleanUp(threshold)) && createAt < threshold
      && id in a.rows && id !in b.rows
  }

  /** Once committed, a row stays, with its value, digest and creation time, until `cleanUp` runs
      with a threshold beyond that time. */
  lemma {:induction false} HistoryIsKept(trace: seq<State>, i: nat, j: nat, id: Id)
    requires Execution(trace) && i <= j < |trace| && id in trace[i].rows
    ensures || (id in trace[j].rows && Kept(trace[i].rows[id], trace[j].rows[id]))
            || (exists k :: i <= k < j && CleansUp(trace[k], trace[k + 1], id, trace[i].rows[id].createAt))
    decreases j
  {
    if i < j {
      HistoryIsKept(trace, i, j - 1, id);
      if id in trace[j - 1].rows && Kept(trace[i].rows[id], trace[j - 1].rows[id]) {
        AlwaysSafe(trace, j - 1);
        assert Steps(trace[j - 1], trace[j]);
        var action :| Enabled(trace[j - 1], action) && trace[j] == Act(trace[j - 1], action);
        ActKeepsRows(trace[j - 1], action, id);
        assert id !in trace[j].rows ==> action == CleanUp(action.threshold);
        assert id !in trace[j].rows ==>
          CleansUp(trace[j - 1], trace[(j - 1) + 1], id, trace[i].rows[id].createAt);
      }
    }
  }

  /** In this step caller `c` starts a call. */
  predicate Starts(a: State, b: State, c: Caller, call: nat, value: string) {
    c in a.callers && a.calls == call && c in b.callers && b.callers[c] == Called(call, value)
    && a.callers[c] != b.callers[c]
  }

  /** In this step caller `c` finds that its value is not the active one. */
  predicate PassesCheck(a: State, b: State, c: Caller, call: nat, value: string) {
    c in a.callers && a.callers[c] == Called(call, value) && !ShaActive(a, Sha256(value))
    && c in b.callers && b.callers[c] == Checked(call, value)
  }

  /** In this step caller `c` inserts the row, all active rows being locked by it, and no other
      insert being in flight. */
  ghost predicate Inserts(a: State, b: State, c: Caller, pc: Pc) {
    && pc.Inserted? && Enabled(a, Insert(c, pc.id, pc.createAt)) && b == Act(a, Insert(c, pc.id, pc.createAt))
    && a.callers[c] == Deactivated(pc.call, pc.value, pc.victims) && b.callers[c] == pc
    && Active(a.rows) <= pc.victims && !OthersInserted(a, c) && pc.id !in a.rows
  }

  /** In this step some transaction commits this row. */
  ghost predicate Commits(a: State, b: State, id: Id) {
    exists c :: CommitsOf(a, b, c, id)
  }

  predicate CommitsOf(a: State, b: State, c: Caller, id: Id) {
    && c in a.callers && a.callers[c].Inserted? && a.callers[c].id == id && id !in a.rows && id in b.rows
    && var pc := a.callers[c];
       b.rows[id] == Row(pc.value, Sha256(pc.value), pc.createAt, true)
  }

  /** Whoever is inside a call has started it, with that value; whoever is past the check has
      found another value active; whoever has inserted a row has done so with its creation time. */
  lemma {:induction false} HowItGotThere(trace: seq<State>, i: nat, c: Caller)
    requires Execution(trace) && i < |trace| && c in trace[i].callers && !trace[i].callers[c].Idle?
    ensures var pc := trace[i].callers[c];
      && (exists k :: 0 <= k < i && Starts(trace[k], trace[k + 1], c, pc.call, pc.value))
      && (pc.Checked? || pc.Deactivated? || pc.Inserted? ==>
            exists k :: 0 <= k < i && PassesCheck(trace[k], trace[k + 1], c, pc.call, pc.value))
      && (pc.Inserted? ==> exists k :: 0 <= k < i && Inserts(trace[k], trace[k + 1], c, pc))
  {
    assert i > 0;
    var a, b := trace[i - 1], trace[i];
    assert Steps(a, b) && b == trace[(i - 1) + 1];
    var action :| Enabled(a, action) && b == Act(a, action);
    ActKeepsCallers(a, action, c);
    if !a.callers[c].Idle? && !(action.Call? && action.caller == c) {
      HowItGotThere(trace, i - 1, c);
    }
    var pc := b.callers[c];
    if a.callers[c] != pc {
      assert action.Call? ==> Starts(a, b, c, pc.call, pc.value);
      assert action.Select? && pc.Checked? ==> PassesCheck(a, b, c, pc.call, pc.value);
      assert action.Insert? && pc.Inserted? ==> Inserts(a, b, c, pc);
    }
  }

  /** Every row was there from the start or was committed by the transaction of a call, and has
      been kept since. */
  lemma {:induction false} RowsComeFromCommits(trace: seq<State>, i: nat, id: Id)
    requires Execution(trace) && i < |trace| && id in trace[i].rows
    ensures || (id in trace[0].rows && Kept(trace[0].rows[id], trace[i].rows[id]))
            || (exists k :: 0 <= k < i && Commits(trace[k], trace[k + 1], id)
                            && Kept(trace[k + 1].rows[id], trace[i].rows[id]))
  {
    if i > 0 {
      AlwaysSafe(trace, i - 1);
      assert Steps(trace[i - 1], trace[i]);
      var action :| Enabled(trace[i - 1], action) && trace[i] == Act(trace[i - 1], action);
      NewRowsAreCommitted(trace[i - 1], action, id);
      if id in trace[i - 1].rows {
        ActKeepsRows(trace[i - 1], action, id);
        RowsComeFromCommits(trace, i - 1, id);
      } else {
        assert CommitsOf(trace[i - 1], trace[i], action.caller, id);
        assert Commits(trace[i - 1], trace[(i - 1) + 1], id);
      }
    }
  }
}
