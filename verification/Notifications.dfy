/** Concurrent calls on one store, with the lock released while listeners run.

    A call holds the lock from its start until it has published, so up to there it is one
    step. It then lets go of the lock to walk the listener registry, and any number of other
    calls, registrations and removals can happen between two listener invocations. */
module Notifications {
  import opened ConfigTree
  import opened StoreSpec
  import opened StoreTheorems
  import opened StoreRuns
  import opened StoreLaws

  type ThreadId = nat
  type ListenerId = string

  /** One published configuration: what it replaced, what it is, whether listeners are told. */
  datatype Commit = Commit(before: Table, after: Table, announced: bool)

  /** One invocation of one listener, on behalf of a commit. */
  datatype Delivery = Delivery(commit: nat, listener: ListenerId, before: Table, after: Table)

  /** A walk over the registry (`sync.Map.Range`): the keys it started with, all of which it
      visits; those visited; and the listeners it found there and invoked. The walk does not
      know `seen`, the listeners registered at some time since it began, and `steady`, those
      registered ever since. */
  datatype Walk = Walk(
    keys: set<ListenerId>,
    visited: set<ListenerId>,
    called: set<ListenerId>,
    seen: set<ListenerId>,
    steady: set<ListenerId>)

  /** Where a thread is: outside, or ranging over the listeners with the lock released. */
  datatype Pc =
    | Outside
    | Ranging(commit: nat, before: Table, after: Table, walk: Walk)

  datatype System = System(
    store: State,
    listeners: set<ListenerId>,
    threads: map<ThreadId, Pc>,
    commits: seq<Commit>,
    deliveries: seq<Delivery>)

  datatype Action =
    | Call(thread: ThreadId, op: Op)
    | Visit(thread: ThreadId, listener: ListenerId, present: bool)
    | Return(thread: ThreadId)
    | AddListener(listener: ListenerId)
    | RemoveListener(listener: ListenerId)

  ghost predicate Enabled(w: Setup, sys: System, action: Action)
    requires Sound(w, sys.store)
  {
    match action
    case Call(t, op) => t in sys.threads && sys.threads[t].Outside? && TypedOp(w, op)
    case Visit(t, l, present) =>
      // What is found at a key may stem from any time since the walk began.
      && t in sys.threads && sys.threads[t].Ranging? && l !in sys.threads[t].walk.visited
      && (if present then l in sys.threads[t].walk.seen else l !in sys.threads[t].walk.steady)
    case Return(t) =>
      t in sys.threads && sys.threads[t].Ranging? && sys.threads[t].walk.keys <= sys.threads[t].walk.visited
    case AddListener(l) => l !in sys.listeners
    case RemoveListener(l) => true
  }

  /** A call publishes when it is a `Set` or a `Load` that succeeds. */
  predicate Publishes(op: Op, r: Step) {
    (op.OpSet? || op.OpLoad?) && r.error.None?
  }

  function Arrived(pc: Pc, l: ListenerId): Pc {
    if pc.Ranging? then pc.(walk := pc.walk.(seen := pc.walk.seen + {l})) else pc
  }

  function Gone(pc: Pc, l: ListenerId): Pc {
    if pc.Ranging? then pc.(walk := pc.walk.(steady := pc.walk.steady - {l})) else pc
  }

  ghost function Act(w: Setup, sys: System, action: Action): System
    requires Sound(w, sys.store) && Enabled(w, sys, action)
  {
    match action
    case Call(t, op) => AfterCall(sys, t, op, DoOp(w, sys.store, op))
    case Visit(t, l, present) => AfterVisit(sys, t, l, present)
    case Return(t) => AfterReturn(sys, t)
    case AddListener(l) => AfterAdd(sys, l)
    case RemoveListener(l) => AfterRemove(sys, l)
  }

  function AfterVisit(sys: System, t: ThreadId, l: ListenerId, present: bool): System
    requires t in sys.threads && sys.threads[t].Ranging?
  {
    var pc := sys.threads[t];
    var visited := pc.walk.(visited := pc.walk.visited + {l});
    if present then
      sys.(threads := sys.threads[t := pc.(walk := visited.(called := visited.called + {l}))],
           deliveries := sys.deliveries + [Delivery(pc.commit, l, pc.before, pc.after)])
    else
      sys.(threads := sys.threads[t := pc.(walk := visited)])
  }

  function AfterAdd(sys: System, l: ListenerId): System {
    sys.(listeners := sys.listeners + {l}, threads := map t | t in sys.threads :: Arrived(sys.threads[t], l))
  }

  function AfterReturn(sys: System, t: ThreadId): System {
    sys.(threads := sys.threads[t := Outside])
  }

  function AfterRemove(sys: System, l: ListenerId): System {
    sys.(listeners := sys.listeners - {l}, threads := map t | t in sys.threads :: Gone(sys.threads[t], l))
  }

  function AfterCall(sys: System, t: ThreadId, op: Op, r: Step): System
    requires t in sys.threads
  {
    sys.(
      store := r.state,
      commits := if Publishes(op, r)
                 then sys.commits + [Commit(sys.store.config, r.state.config, r.notice.Some?)]
                 else sys.commits,
      threads := if Publishes(op, r) && r.notice.Some?
                 then sys.threads[t := Ranging(|sys.commits|, r.notice.value.0, r.notice.value.1,
                                               WalkFrom(sys.listeners))]
                 else sys.threads)
  }

  function WalkFrom(listeners: set<ListenerId>): Walk {
    Walk(listeners, {}, {}, listeners, listeners)
  }

  // -------------------------------------------------------------------------
  // The invariant
  // -------------------------------------------------------------------------

  /** Each commit starts where the previous one ended; the last one is current. */
  ghost predicate Chained(origin: Table, commits: seq<Commit>, current: Table) {
    && (commits == [] ==> current == origin)
    && (commits != [] ==> commits[0].before == origin && commits[|commits| - 1].after == current)
    && (forall i :: 0 <= i < |commits| - 1 ==> commits[i].after == commits[i + 1].before)
  }

  /** A commit nobody hears about changed nothing but flags. */
  ghost predicate SilentCommitsAreEqual(commits: seq<Commit>) {
    forall i :: 0 <= i < |commits| && !commits[i].announced ==> Main(commits[i].before) == Main(commits[i].after)
  }

  /** `before` and `after` are the two sides of announced commit `i`. */
  ghost predicate TellsTruth(commits: seq<Commit>, i: nat, before: Table, after: Table) {
    i < |commits| && commits[i] == Commit(before, after, true)
  }

  ghost predicate Told(deliveries: seq<Delivery>, commit: nat, l: ListenerId) {
    exists k :: 0 <= k < |deliveries| && deliveries[k].commit == commit && deliveries[k].listener == l
  }

  /** No listener hears of one commit twice. */
  ghost predicate OncePerCommit(deliveries: seq<Delivery>) {
    forall j, k :: 0 <= j < k < |deliveries| ==>
      deliveries[j].commit != deliveries[k].commit || deliveries[j].listener != deliveries[k].listener
  }

  /** Only listeners registered at some time are called; of those registered all along, all
      that were visited. */
  ghost predicate WalkOk(walk: Walk) {
    && walk.called <= walk.visited && walk.called <= walk.seen
    && walk.steady <= walk.keys && walk.steady * walk.visited <= walk.called
  }

  ghost predicate ThreadOk(sys: System, t: ThreadId)
    requires t in sys.threads
  {
    var pc := sys.threads[t];
    pc.Ranging? ==>
      && TellsTruth(sys.commits, pc.commit, pc.before, pc.after)
      && WalkOk(pc.walk)
      && (forall l :: l in pc.walk.called <==> Told(sys.deliveries, pc.commit, l))
  }

  /** The commits and deliveries recorded so far are in order. */
  ghost predicate Books(origin: Table, sys: System) {
    && Chained(origin, sys.commits, sys.store.config)
    && SilentCommitsAreEqual(sys.commits)
    && (forall k :: 0 <= k < |sys.deliveries| ==>
          var d := sys.deliveries[k]; TellsTruth(sys.commits, d.commit, d.before, d.after))
    && OncePerCommit(sys.deliveries)
    && (forall t :: t in sys.threads ==> ThreadOk(sys, t))
    && (forall t, u :: t in sys.threads && u in sys.threads && t != u ==>
          !SameCommit(sys.threads[t], sys.threads[u]))
  }

  predicate SameCommit(a: Pc, b: Pc) {
    a.Ranging? && b.Ranging? && a.commit == b.commit
  }

  ghost predicate SysInv(w: Setup, origin: Table, sys: System) {
    Sound(w, sys.store) && Books(origin, sys)
  }

  /** What a step says about the configuration it publishes. */
  ghost predicate Candid(s: State, op: Op, r: Step) {
    && (!Publishes(op, r) ==> r.state.config == s.config)
    && (Publishes(op, r) && r.notice.Some? ==> r.notice.value == (s.config, r.state.config))
    && (Publishes(op, r) && r.notice.None? ==> Main(s.config) == Main(r.state.config))
  }

  /** A call either leaves `config` alone or publishes, and tells of exactly that change. */
  lemma CallsAreCandid(w: Setup, s: State, op: Op)
    requires Sound(w, s) && TypedOp(w, op)
    ensures Candid(s, op, DoOp(w, s, op))
  {
    match op
    case OpSet(input, outcome) => SetPublishes(w, s, input, outcome);
    case OpLoad(outcome) => LoadPublishes(w, s, outcome);
    case OpReadOnlyFlags(_) =>
    case OpExternal(_) =>
  }

  lemma UnchangedMain(s: State, cfg: Table)
    requires !Changed(s, cfg)
    ensures Main(s.config) == Main(cfg)
  {}

  lemma SetPublishes(w: Setup, s: State, input: Table, outcome: Outcome)
    requires Sound(w, s) && TypedLeaves(w, input)
    ensures var r := SetStep(w, s, input, outcome);
      && (r.error.Some? ==> r.state == s)
      && (r.error.None? && r.notice.Some? ==> r.notice.value == (s.config, r.state.config))
      && (r.error.None? && r.notice.None? ==> Main(s.config) == Main(r.state.config))
  {
    if SetStep(w, s, input, outcome).error.Some? {
      FailedSetDoesNothing(w, s, input, outcome);
    } else {
      SetSuccess(w, s, input, outcome);
      var cfg := Prepared(w, s.config, input);
      MixedFull(w, cfg, s.config);
      if !Changed(s, cfg) { UnchangedMain(s, cfg); }
    }
  }

  lemma LoadPublishes(w: Setup, s: State, outcome: Outcome)
    requires Sound(w, s)
    ensures var r := LoadStep(w, s, outcome);
      && (r.error.Some? ==> r.state.config == s.config)
      && (r.error.None? && r.notice.Some? ==> r.notice.value == (s.config, r.state.config))
      && (r.error.None? && r.notice.None? ==> Main(s.config) == Main(r.state.config))
  {
    if LoadStep(w, s, outcome).error.Some? {
      FailedLoadKeepsViews(w, s, outcome);
    } else {
      LoadSuccess(w, s, outcome);
      FinishPublishes(w, s, Effective(w, Reloaded(w, s)), Reloaded(w, s), outcome);
    }
  }

  lemma FinishPublishes(w: Setup, s: State, cfg: Table, noEnv: Table, outcome: Outcome)
    requires LoadFinish(w, s, cfg, noEnv, outcome).error.None?
    ensures var r := LoadFinish(w, s, cfg, noEnv, outcome);
      && (r.notice.Some? ==> r.notice.value == (s.config, r.state.config))
      && (r.notice.None? ==> Main(s.config) == Main(r.state.config))
  {
    if !Changed(s, cfg) { UnchangedMain(s, cfg); }
  }

  lemma ActKeepsInvariant(w: Setup, origin: Table, sys: System, action: Action)
    requires SysInv(w, origin, sys) && Enabled(w, sys, action)
    ensures SysInv(w, origin, Act(w, sys, action))
    ensures ReportedAreWritten(w) && Inv(w, sys.store) ==> Inv(w, Act(w, sys, action).store)
  {
    hide Books, Candid, DoOp, TypedLeaves, Full, SetupOk, Main, Effective;
    match action
    case Call(t, op) =>
      OpKeepsSound(w, sys.store, op);
      if ReportedAreWritten(w) && Inv(w, sys.store) { OpKeepsInvariant(w, sys.store, op); }
      CallsAreCandid(w, sys.store, op);
      BooksAfterCall(origin, sys, t, op, DoOp(w, sys.store, op));
    case Visit(t, l, present) =>
      if present {
        BooksAfterDelivery(origin, sys, t, l);
      } else {
        MissesKeepWalk(origin, sys, t, l);
        BooksAfterRegistry(origin, sys, AfterVisit(sys, t, l, false));
      }
    case Return(t) => BooksAfterRegistry(origin, sys, AfterReturn(sys, t));
    case AddListener(l) =>
      ArrivalsKeepWalks(origin, sys, l);
      BooksAfterRegistry(origin, sys, AfterAdd(sys, l));
    case RemoveListener(l) =>
      RemovalsKeepWalks(origin, sys, l);
      BooksAfterRegistry(origin, sys, AfterRemove(sys, l));
  }

  lemma MissesKeepWalk(origin: Table, sys: System, t: ThreadId, l: ListenerId)
    requires Books(origin, sys) && t in sys.threads && sys.threads[t].Ranging? && l !in sys.threads[t].walk.steady
    ensures forall u :: u in sys.threads ==> Continues(sys.threads[u], AfterVisit(sys, t, l, false).threads[u])
  {
    forall u | u in sys.threads ensures Continues(sys.threads[u], AfterVisit(sys, t, l, false).threads[u]) {
      assert ThreadOk(sys, u);
    }
  }

  lemma ArrivalsKeepWalks(origin: Table, sys: System, l: ListenerId)
    requires Books(origin, sys)
    ensures forall u :: u in sys.threads ==> Continues(sys.threads[u], AfterAdd(sys, l).threads[u])
  {
    forall u | u in sys.threads ensures Continues(sys.threads[u], AfterAdd(sys, l).threads[u]) {
      assert ThreadOk(sys, u);
    }
  }

  lemma RemovalsKeepWalks(origin: Table, sys: System, l: ListenerId)
    requires Books(origin, sys)
    ensures forall u :: u in sys.threads ==> Continues(sys.threads[u], AfterRemove(sys, l).threads[u])
  {
    forall u | u in sys.threads ensures Continues(sys.threads[u], AfterRemove(sys, l).threads[u]) {
      assert ThreadOk(sys, u);
    }
  }

  /** `b` goes on with what `a` was announcing, having called nobody else, or has stopped. */
  ghost predicate Continues(a: Pc, b: Pc) {
    b.Ranging? ==>
      a.Ranging? && b == a.(walk := b.walk) && WalkOk(b.walk) && b.walk.called == a.walk.called
  }

  /** Steps that record nothing and move no thread to another commit. */
  lemma BooksAfterRegistry(origin: Table, sys: System, after: System)
    requires Books(origin, sys)
    requires after.store == sys.store && after.commits == sys.commits && after.deliveries == sys.deliveries
    requires after.threads.Keys == sys.threads.Keys
    requires forall t :: t in sys.threads ==>
      after.threads[t] == sys.threads[t] || Continues(sys.threads[t], after.threads[t])
    ensures Books(origin, after)
  {
    forall t | t in after.threads ensures ThreadOk(after, t) {
      assert ThreadOk(sys, t);
    }
    forall t, u | t in after.threads && u in after.threads && t != u
      ensures !SameCommit(after.threads[t], after.threads[u])
    {
      assert !SameCommit(sys.threads[t], sys.threads[u]);
    }
  }

  lemma BooksAfterCall(origin: Table, sys: System, t: ThreadId, op: Op, r: Step)
    requires Books(origin, sys) && t in sys.threads && sys.threads[t].Outside?
    requires Candid(sys.store, op, r)
    ensures Books(origin, AfterCall(sys, t, op, r))
  {
    var after := AfterCall(sys, t, op, r);
    forall k | 0 <= k < |sys.deliveries| ensures sys.deliveries[k].commit < |sys.commits| {
      assert TellsTruth(sys.commits, sys.deliveries[k].commit, sys.deliveries[k].before, sys.deliveries[k].after);
    }
    forall u | u in after.threads ensures ThreadOk(after, u) {
      assert ThreadOk(sys, u);
    }
    forall u, v | u in after.threads && v in after.threads && u != v
      ensures !SameCommit(after.threads[u], after.threads[v])
    {
      assert ThreadOk(sys, u) && ThreadOk(sys, v) && !SameCommit(sys.threads[u], sys.threads[v]);
    }
  }

  lemma BooksAfterDelivery(origin: Table, sys: System, t: ThreadId, l: ListenerId)
    requires Books(origin, sys) && t in sys.threads && sys.threads[t].Ranging?
    requires l !in sys.threads[t].walk.visited && l in sys.threads[t].walk.seen
    ensures Books(origin, AfterVisit(sys, t, l, true))
  {
    var after := AfterVisit(sys, t, l, true);
    var pc := sys.threads[t];
    assert ThreadOk(sys, t);
    assert !Told(sys.deliveries, pc.commit, l);
    forall c, m ensures Told(after.deliveries, c, m) <==> Told(sys.deliveries, c, m) || (c == pc.commit && m == l) {
      ToldOneMore(sys.deliveries, Delivery(pc.commit, l, pc.before, pc.after), c, m);
    }
    forall u | u in after.threads ensures ThreadOk(after, u) {
      assert ThreadOk(sys, u);
      assert u != t ==> !SameCommit(sys.threads[t], sys.threads[u]);
    }
    forall u, v | u in after.threads && v in after.threads && u != v
      ensures !SameCommit(after.threads[u], after.threads[v])
    {
      assert !SameCommit(sys.threads[u], sys.threads[v]);
    }
  }

  lemma ToldOneMore(deliveries: seq<Delivery>, d: Delivery, commit: nat, l: ListenerId)
    ensures Told(deliveries + [d], commit, l) <==>
      Told(deliveries, commit, l) || (d.commit == commit && d.listener == l)
  {
    var all := deliveries + [d];
    if Told(deliveries, commit, l) {
      var k :| 0 <= k < |deliveries| && deliveries[k].commit == commit && deliveries[k].listener == l;
      assert all[k] == deliveries[k];
    }
    assert all[|deliveries|] == d;
  }

  // -------------------------------------------------------------------------
  // Every interleaving
  // -------------------------------------------------------------------------

  ghost predicate Start(w: Setup, sys: System) {
    && Sound(w, sys.store) && sys.commits == [] && sys.deliveries == []
    && forall t :: t in sys.threads ==> sys.threads[t].Outside?
  }

  /** `trace` is an execution: any thread may act next. */
  ghost predicate Execution(w: Setup, trace: seq<System>) {
    && |trace| > 0 && Start(w, trace[0])
    && forall i :: 0 <= i < |trace| - 1 ==> Steps(w, trace[i], trace[i + 1])
  }

  lemma StartIsInvariant(w: Setup, sys: System)
    requires Start(w, sys)
    ensures SysInv(w, sys.store.config, sys)
  {
    hide Inv;
  }

  ghost predicate Steps(w: Setup, a: System, b: System) {
    Sound(w, a.store) && exists action :: Enabled(w, a, action) && b == Act(w, a, action)
  }

  /** Whatever the environment; and where everything reported is written, the two views agree
      throughout if they do at the start. */
  lemma {:induction false} ExecutionKeepsInvariant(w: Setup, trace: seq<System>, i: nat)
    requires Execution(w, trace) && i < |trace|
    ensures SysInv(w, trace[0].store.config, trace[i])
    ensures ReportedAreWritten(w) && Inv(w, trace[0].store) ==> Inv(w, trace[i].store)
  {
    hide Inv, Sound, Books, Start, Steps, SysInv;
    StartIsInvariant(w, trace[0]);
    if i > 0 {
      ExecutionKeepsInvariant(w, trace, i - 1);
      StepKeepsInvariant(w, trace[0].store.config, trace[i - 1], trace[i]);
    }
  }

  lemma StepKeepsInvariant(w: Setup, origin: Table, a: System, b: System)
    requires SysInv(w, origin, a) && Steps(w, a, b)
    ensures SysInv(w, origin, b)
    ensures ReportedAreWritten(w) && Inv(w, a.store) ==> Inv(w, b.store)
  {
    var action :| Enabled(w, a, action) && b == Act(w, a, action);
    ActKeepsInvariant(w, origin, a, action);
  }

  /** The configuration a reader of the announcements believes in, taking them in commit order. */
  function Replay(origin: Table, commits: seq<Commit>): Table {
    if commits == [] then origin
    else
      var last := commits[|commits| - 1];
      if last.announced then last.after else Replay(origin, commits[..|commits| - 1])
  }

  lemma {:induction false} ReplayRebuilds(origin: Table, commits: seq<Commit>, current: Table)
    requires Chained(origin, commits, current) && SilentCommitsAreEqual(commits)
    ensures Main(Replay(origin, commits)) == Main(current)
    decreases |commits|
  {
    if commits != [] {
      var front := commits[..|commits| - 1];
      var last := commits[|commits| - 1];
      assert Chained(origin, front, last.before);
      ReplayRebuilds(origin, front, last.before);
    }
  }

  /** In every reachable state of every interleaving: each notification shows both sides of
      one announced commit, no listener hears of a commit twice, silent commits changed only
      flags, and replaying the announcements in commit order gives the current configuration
      apart from flags. */
  lemma NotificationsAreFaithful(w: Setup, trace: seq<System>, i: nat)
    requires Execution(w, trace) && i < |trace|
    ensures var sys := trace[i];
      && Sound(w, sys.store)
      && (forall k :: 0 <= k < |sys.deliveries| ==>
            var d := sys.deliveries[k]; TellsTruth(sys.commits, d.commit, d.before, d.after))
      && OncePerCommit(sys.deliveries)
      && Chained(trace[0].store.config, sys.commits, sys.store.config)
      && SilentCommitsAreEqual(sys.commits)
      && Main(Replay(trace[0].store.config, sys.commits)) == Main(sys.store.config)
      && (ReportedAreWritten(w) && Inv(w, trace[0].store) ==> Inv(w, sys.store))
  {
    ExecutionKeepsInvariant(w, trace, i);
    ReplayRebuilds(trace[0].store.config, trace[i].commits, trace[i].store.config);
  }

  lemma WalksTellFairly(origin: Table, sys: System, t: ThreadId, l: ListenerId)
    requires Books(origin, sys) && t in sys.threads && sys.threads[t].Ranging?
    ensures var pc := sys.threads[t];
      && (Told(sys.deliveries, pc.commit, l) ==> l in pc.walk.seen)
      && (pc.walk.keys <= pc.walk.visited && l in pc.walk.steady ==> Told(sys.deliveries, pc.commit, l))
  {
    assert ThreadOk(sys, t);
  }

  /** While a thread walks the registry it tells nobody of its commit who was not registered at
      some time since the walk began; and when it is done, it has told every listener that was
      registered all along, whatever was added and removed meanwhile. */
  lemma NobodyIsForgotten(w: Setup, trace: seq<System>, i: nat, t: ThreadId, l: ListenerId)
    requires Execution(w, trace) && i < |trace|
    requires t in trace[i].threads && trace[i].threads[t].Ranging?
    ensures var sys, pc := trace[i], trace[i].threads[t];
      && Sound(w, sys.store)
      && (Told(sys.deliveries, pc.commit, l) ==> l in pc.walk.seen)
      && (Enabled(w, sys, Return(t)) && l in pc.walk.steady ==> Told(sys.deliveries, pc.commit, l))
  {
    hide Inv, Sound, Execution, Told, Books, Chained;
    ExecutionKeepsInvariant(w, trace, i);
    WalksTellFairly(trace[0].store.config, trace[i], t, l);
  }

  // -------------------------------------------------------------------------
  // Records, and what a walk is measured against
  // -------------------------------------------------------------------------

  /** What is recorded stays recorded; listeners come and go only where they are added or removed. */
  lemma ActAppends(w: Setup, sys: System, action: Action)
    requires Sound(w, sys.store) && Enabled(w, sys, action)
    ensures var after := Act(w, sys, action);
      && after.threads.Keys == sys.threads.Keys
      && sys.commits <= after.commits && sys.deliveries <= after.deliveries
      && (after.deliveries != sys.deliveries ==> action.Visit? && action.present)
      && (after.commits != sys.commits ==> action.Call?)
      && after.listeners ==
         match action
         case AddListener(l) => sys.listeners + {l}
         case RemoveListener(l) => sys.listeners - {l}
         case _ => sys.listeners
  {
    hide Sound, DoOp;
  }

  /** So the history of commits and notifications only grows. */
  lemma {:induction false} HistoryGrows(w: Setup, trace: seq<System>, i: nat, j: nat)
    requires Execution(w, trace) && i <= j < |trace|
    ensures trace[j].threads.Keys == trace[i].threads.Keys
    ensures trace[i].commits <= trace[j].commits && trace[i].deliveries <= trace[j].deliveries
    decreases j
  {
    hide Sound, Act, Enabled, Start;
    if i < j {
      HistoryGrows(w, trace, i, j - 1);
      assert Steps(w, trace[j - 1], trace[j]);
      var action :| Enabled(w, trace[j - 1], action) && trace[j] == Act(w, trace[j - 1], action);
      ActAppends(w, trace[j - 1], action);
    }
  }

  /** The thread is walking the registry for this commit, all the way from state `j` to state `i`. */
  ghost predicate WalksFor(trace: seq<System>, j: nat, i: nat, t: ThreadId, commit: nat)
    requires j <= i < |trace|
  {
    forall k :: j <= k <= i ==>
      t in trace[k].threads && trace[k].threads[t].Ranging? && trace[k].threads[t].commit == commit
  }

  ghost predicate AtSomeTime(trace: seq<System>, j: nat, i: nat, l: ListenerId)
    requires j <= i < |trace|
  {
    exists k :: j <= k <= i && l in trace[k].listeners
  }

  ghost predicate AllAlong(trace: seq<System>, j: nat, i: nat, l: ListenerId)
    requires j <= i < |trace|
  {
    forall k :: j <= k <= i ==> l in trace[k].listeners
  }

  /** What a step makes of a walk that goes on. */
  lemma WalkStep(w: Setup, sys: System, action: Action, t: ThreadId)
    requires Sound(w, sys.store) && Enabled(w, sys, action) && t in sys.threads && sys.threads[t].Ranging?
    requires sys.listeners <= sys.threads[t].walk.seen && sys.threads[t].walk.steady <= sys.listeners
    requires t in Act(w, sys, action).threads && Act(w, sys, action).threads[t].Ranging?
    ensures var before, after := sys.threads[t], Act(w, sys, action);
      var now := after.threads[t];
      && now.commit == before.commit && now.walk.keys == before.walk.keys
      && now.walk.seen == before.walk.seen + after.listeners
      && now.walk.steady == before.walk.steady * after.listeners
  {
    hide Sound, DoOp;
  }

  /** A walk begins when its thread publishes, with the listeners there are then. */
  lemma WalkBegins(w: Setup, sys: System, action: Action, t: ThreadId)
    requires Sound(w, sys.store) && Enabled(w, sys, action) && t in sys.threads && sys.threads[t].Outside?
    requires t in Act(w, sys, action).threads && Act(w, sys, action).threads[t].Ranging?
    ensures var after := Act(w, sys, action);
      && after.threads[t].walk == WalkFrom(after.listeners) && after.threads[t].commit == |sys.commits|
      && |after.commits| == |sys.commits| + 1
  {
    hide Sound, DoOp;
  }

  /** What a walk is measured against is right: it begins with the listeners registered then, and
      `seen` and `steady` are those registered at some time and all along since it began. */
  lemma {:induction false} WalksAreMeasured(w: Setup, trace: seq<System>, i: nat, t: ThreadId) returns (j: nat)
    requires Execution(w, trace) && i < |trace| && t in trace[i].threads && trace[i].threads[t].Ranging?
    ensures 0 < j <= i && WalksFor(trace, j, i, t, trace[i].threads[t].commit)
    ensures trace[i].threads[t].commit == |trace[j - 1].commits| < |trace[j].commits|
    ensures var walk := trace[i].threads[t].walk;
      && walk.keys == trace[j].listeners
      && (forall l :: l in walk.seen <==> AtSomeTime(trace, j, i, l))
      && (forall l :: l in walk.steady <==> AllAlong(trace, j, i, l))
  {
    hide Sound, Act, Enabled;
    assert i > 0;
    var a, b := trace[i - 1], trace[i];
    assert Steps(w, a, b);
    var action :| Enabled(w, a, action) && b == Act(w, a, action);
    ActAppends(w, a, action);
    var walk := b.threads[t].walk;
    if a.threads[t].Outside? {
      WalkBegins(w, a, action, t);
      j := i;
    } else {
      j := WalksAreMeasured(w, trace, i - 1, t);
      RegisteredNow(trace, j, i - 1);
      WalkStep(w, a, action, t);
      forall l ensures l in walk.seen <==> AtSomeTime(trace, j, i, l) {
        OneMoreState(trace, j, i, l);
      }
      forall l ensures l in walk.steady <==> AllAlong(trace, j, i, l) {
        OneMoreState(trace, j, i, l);
      }
    }
  }

  lemma RegisteredNow(trace: seq<System>, j: nat, i: nat)
    requires j <= i < |trace|
    ensures forall l :: l in trace[i].listeners ==> AtSomeTime(trace, j, i, l)
    ensures forall l :: AllAlong(trace, j, i, l) ==> l in trace[i].listeners
  {}

  lemma OneMoreState(trace: seq<System>, j: nat, i: nat, l: ListenerId)
    requires j < i < |trace|
    ensures AtSomeTime(trace, j, i, l) <==> AtSomeTime(trace, j, i - 1, l) || l in trace[i].listeners
    ensures AllAlong(trace, j, i, l) <==> AllAlong(trace, j, i - 1, l) && l in trace[i].listeners
  {
    if AtSomeTime(trace, j, i - 1, l) {
      var k :| j <= k <= i - 1 && l in trace[k].listeners;
    }
  }
}
