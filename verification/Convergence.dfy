/** Query targets over any number of instances: in every reachable state a
    target holds its query's current results, or an event that will refresh
    it is still on its way. */
module Convergence {
  import opened Bytes
  import opened Results
  import opened Values
  import opened Queries
  import opened Commits
  import opened Watching
  import L = Listening
  import C = Coverage

  /** A query target: what it shows of a store, and which paths its pre-filter
      lets through. */
  datatype View = View(run: Table -> Members, covers: Utf8 -> bool)

  /** Where the pre-filter does not look, nothing the view shows can change. */
  ghost predicate Sound(view: View) {
    forall a: Table, b: Table :: SameCovered(view, a, b) ==> view.run(a) == view.run(b)
  }

  ghost predicate SameCovered(view: View, a: Table, b: Table) {
    forall p :: view.covers(p) ==> Find(a, p) == Find(b, p)
  }

  datatype Watch = Watch(view: View, members: Members)

  /** What a session is busy with: an event, or a resync, and the targets it
      has not come to yet. Each target re-runs its query at its own moment. */
  datatype Work = Idle | Working(all: bool, paths: set<Utf8>, left: set<TargetId>)

  datatype Session = Session(
    instance: nat,
    targets: map<TargetId, Watch>,
    queue: seq<set<Utf8>>,
    lagged: bool,
    work: Work)

  datatype Notice = Notice(instance: nat, paths: set<Utf8>)

  /** The store with its ordered log of commit notices; per instance, how far
      its tail has read and which of its own commits it has not published yet
      (the lock is dropped first, so in any order); and the sessions. */
  datatype State = State(
    rows: Table,
    log: seq<Notice>,
    tails: map<nat, nat>,
    unpublished: map<nat, seq<set<Utf8>>>,
    sessions: map<nat, Session>)

  datatype Step =
    | Boot(instance: nat)
    | Connect(session: nat, instance: nat)
    | Commit(instance: nat, rows: Table, paths: set<Utf8>)
    | Publish(instance: nat, index: nat)
    | Tail(instance: nat)
    | Lag(session: nat, lost: nat)
    | Receive(session: nat)
    | Resync(session: nat)
    | Examine(session: nat, target: TargetId)
    | Finish(session: nat)
    | Add(session: nat, target: TargetId, view: View)
    | Drop(session: nat, target: TargetId)

  predicate Covers(view: View, paths: set<Utf8>) {
    exists p :: p in paths && view.covers(p)
  }

  predicate Idles(s: State, session: nat) {
    session in s.sessions && s.sessions[session].work.Idle?
  }

  ghost predicate Enabled(s: State, step: Step) {
    match step
    case Boot(k) => k !in s.tails
    case Connect(n, k) => n !in s.sessions && k in s.tails && k in s.unpublished
    // A commit's notice names every document it changed.
    case Commit(k, rows, paths) => k in s.tails && k in s.unpublished && forall p :: p !in paths ==> Find(rows, p) == Find(s.rows, p)
    case Publish(k, i) => k in s.unpublished && i < |s.unpublished[k]|
    case Tail(k) => k in s.tails && s.tails[k] < |s.log|
    case Lag(n, lost) => n in s.sessions && 0 < lost <= |s.sessions[n].queue|
    case Receive(n) => Idles(s, n) && !s.sessions[n].lagged && s.sessions[n].queue != []
    case Resync(n) => Idles(s, n) && s.sessions[n].lagged
    case Examine(n, t) => n in s.sessions && s.sessions[n].work.Working? && t in s.sessions[n].work.left
    case Finish(n) => n in s.sessions && s.sessions[n].work.Working? && s.sessions[n].work.left == {}
    case Add(n, t, view) => Idles(s, n) && t !in s.sessions[n].targets && Sound(view)
    case Drop(n, t) => Idles(s, n)
  }

  /** The hub hands an event to every session of its instance. */
  function Delivered(sessions: map<nat, Session>, k: nat, paths: set<Utf8>): map<nat, Session> {
    map n | n in sessions ::
      if sessions[n].instance == k then sessions[n].(queue := sessions[n].queue + [paths]) else sessions[n]
  }

  /** Re-running a target's query, if the work at hand concerns it. */
  function Examined(rows: Table, work: Work, w: Watch): Watch
    requires work.Working?
  {
    if work.all || Covers(w.view, work.paths) then w.(members := w.view.run(rows)) else w
  }

  ghost function Next(s: State, step: Step): State
    requires Enabled(s, step)
  {
    match step
    case Boot(k) => s.(tails := s.tails[k := |s.log|], unpublished := s.unpublished[k := []])
    case Connect(n, k) => s.(sessions := s.sessions[n := Session(k, map[], [], false, Idle)])
    case Commit(k, rows, paths) =>
      s.(rows := rows, log := s.log + [Notice(k, paths)],
         unpublished := s.unpublished[k := s.unpublished[k] + [paths]])
    case Publish(k, i) =>
      var pending := s.unpublished[k];
      s.(unpublished := s.unpublished[k := pending[..i] + pending[i + 1..]],
         sessions := Delivered(s.sessions, k, pending[i]))
    case Tail(k) =>
      var notice := s.log[s.tails[k]];
      // Own commits already went out in-process.
      s.(tails := s.tails[k := s.tails[k] + 1],
         sessions := if notice.instance == k then s.sessions else Delivered(s.sessions, k, notice.paths))
    case Lag(n, lost) =>
      var x := s.sessions[n];
      s.(sessions := s.sessions[n := x.(queue := x.queue[lost..], lagged := true)])
    case Receive(n) =>
      var x := s.sessions[n];
      s.(sessions := s.sessions[n := x.(queue := x.queue[1..], work := Working(false, x.queue[0], x.targets.Keys))])
    case Resync(n) =>
      var x := s.sessions[n];
      s.(sessions := s.sessions[n := x.(lagged := false, work := Working(true, {}, x.targets.Keys))])
    case Examine(n, t) =>
      var x := s.sessions[n];
      var targets := if t in x.targets then x.targets[t := Examined(s.rows, x.work, x.targets[t])] else x.targets;
      s.(sessions := s.sessions[n := x.(targets := targets, work := x.work.(left := x.work.left - {t}))])
    case Finish(n) => s.(sessions := s.sessions[n := s.sessions[n].(work := Idle)])
    case Add(n, t, view) =>
      var x := s.sessions[n];
      s.(sessions := s.sessions[n := x.(targets := x.targets[t := Watch(view, view.run(s.rows))])])
    case Drop(n, t) =>
      var x := s.sessions[n];
      s.(sessions := s.sessions[n := x.(targets := x.targets - {t})])
  }

  // ---- what a stale target is waiting for ----

  predicate InWork(work: Work, t: TargetId, view: View) {
    work.Working? && t in work.left && (work.all || Covers(view, work.paths))
  }

  predicate InQueue(queue: seq<set<Utf8>>, view: View) {
    exists i :: 0 <= i < |queue| && Covers(view, queue[i])
  }

  predicate InLog(log: seq<Notice>, from: nat, k: nat, view: View) {
    exists i :: from <= i < |log| && log[i].instance != k && Covers(view, log[i].paths)
  }

  /** Published nowhere yet, or only in the shared log. */
  predicate OnItsWay(s: State, k: nat, view: View)
    requires k in s.tails && k in s.unpublished
  {
    InQueue(s.unpublished[k], view) || InLog(s.log, s.tails[k], k, view)
  }

  predicate Awaited(s: State, x: Session, t: TargetId, view: View)
    requires x.instance in s.tails && x.instance in s.unpublished
  {
    InWork(x.work, t, view) || x.lagged || InQueue(x.queue, view) || OnItsWay(s, x.instance, view)
  }

  predicate Current(s: State, w: Watch) {
    w.members == w.view.run(s.rows)
  }

  ghost predicate Kept(s: State, x: Session) {
    && x.instance in s.tails && x.instance in s.unpublished
    && forall t :: t in x.targets ==>
         Sound(x.targets[t].view) && (Current(s, x.targets[t]) || Awaited(s, x, t, x.targets[t].view))
  }

  ghost predicate Invariant(s: State) {
    forall n :: n in s.sessions ==> Kept(s, s.sessions[n])
  }

  // ---- each step keeps it ----

  lemma QueueGrows(queue: seq<set<Utf8>>, paths: set<Utf8>, view: View)
    ensures InQueue(queue + [paths], view) <==> InQueue(queue, view) || Covers(view, paths)
  {
    var more := queue + [paths];
    if Covers(view, paths) {
      assert more[|queue|] == paths;
    }
    if InQueue(queue, view) {
      var i :| 0 <= i < |queue| && Covers(view, queue[i]);
      assert more[i] == queue[i];
    }
  }

  lemma QueueLoses(queue: seq<set<Utf8>>, i: nat, view: View)
    requires i < |queue| && InQueue(queue, view)
    ensures InQueue(queue[..i] + queue[i + 1..], view) || Covers(view, queue[i])
  {
    var j :| 0 <= j < |queue| && Covers(view, queue[j]);
    var rest := queue[..i] + queue[i + 1..];
    if j < i {
      assert rest[j] == queue[j];
    } else if j > i {
      assert rest[j - 1] == queue[j];
    }
  }

  lemma LogGrows(log: seq<Notice>, notice: Notice, from: nat, k: nat, view: View)
    requires from <= |log|
    ensures InLog(log, from, k, view) ==> InLog(log + [notice], from, k, view)
    ensures notice.instance != k && Covers(view, notice.paths) ==> InLog(log + [notice], from, k, view)
  {
    var more := log + [notice];
    assert more[|log|] == notice;
    if InLog(log, from, k, view) {
      var i :| from <= i < |log| && log[i].instance != k && Covers(view, log[i].paths);
      assert more[i] == log[i];
    }
  }

  lemma LogRead(log: seq<Notice>, from: nat, k: nat, view: View)
    requires from < |log| && InLog(log, from, k, view)
    ensures InLog(log, from + 1, k, view) || (log[from].instance != k && Covers(view, log[from].paths))
  {}

  /** Tails never run past the log. */
  predicate TailsBounded(s: State) {
    forall k :: k in s.tails ==> s.tails[k] <= |s.log|
  }

  lemma CommitKeeps(s: State, k: nat, rows: Table, paths: set<Utf8>, n: nat)
    requires Invariant(s) && TailsBounded(s) && Enabled(s, Commit(k, rows, paths)) && n in s.sessions
    ensures Kept(Next(s, Commit(k, rows, paths)), s.sessions[n])
  {
    var x, r := s.sessions[n], Next(s, Commit(k, rows, paths));
    assert Kept(s, x);
    forall t | t in x.targets
      ensures Current(r, x.targets[t]) || Awaited(r, x, t, x.targets[t].view)
    {
      var view := x.targets[t].view;
      LogGrows(s.log, Notice(k, paths), s.tails[x.instance], x.instance, view);
      QueueGrows(s.unpublished[k], paths, view);
      if !Covers(view, paths) {
        assert SameCovered(view, s.rows, rows);
      }
    }
  }

  lemma PublishKeeps(s: State, k: nat, i: nat, n: nat)
    requires Invariant(s) && Enabled(s, Publish(k, i)) && n in s.sessions
    ensures Kept(Next(s, Publish(k, i)), Next(s, Publish(k, i)).sessions[n])
  {
    var x, r := s.sessions[n], Next(s, Publish(k, i));
    assert Kept(s, x);
    forall t | t in x.targets
      ensures Current(r, x.targets[t]) || Awaited(r, r.sessions[n], t, x.targets[t].view)
    {
      var view := x.targets[t].view;
      QueueGrows(x.queue, s.unpublished[k][i], view);
      if x.instance == k && InQueue(s.unpublished[k], view) {
        QueueLoses(s.unpublished[k], i, view);
      }
    }
  }

  lemma TailKeeps(s: State, k: nat, n: nat)
    requires Invariant(s) && Enabled(s, Tail(k)) && n in s.sessions
    ensures Kept(Next(s, Tail(k)), Next(s, Tail(k)).sessions[n])
  {
    var x, r := s.sessions[n], Next(s, Tail(k));
    assert Kept(s, x);
    forall t | t in x.targets
      ensures Current(r, x.targets[t]) || Awaited(r, r.sessions[n], t, x.targets[t].view)
    {
      var view := x.targets[t].view;
      QueueGrows(x.queue, s.log[s.tails[k]].paths, view);
      if x.instance == k && InLog(s.log, s.tails[k], k, view) {
        LogRead(s.log, s.tails[k], k, view);
      }
    }
  }

  lemma ReceiveKeeps(s: State, n: nat)
    requires Invariant(s) && Enabled(s, Receive(n))
    ensures Kept(Next(s, Receive(n)), Next(s, Receive(n)).sessions[n])
  {
    var x, r := s.sessions[n], Next(s, Receive(n));
    assert Kept(s, x);
    forall t | t in x.targets
      ensures Current(r, x.targets[t]) || Awaited(r, r.sessions[n], t, x.targets[t].view)
    {
      if InQueue(x.queue, x.targets[t].view) {
        QueueLoses(x.queue, 0, x.targets[t].view);
        assert x.queue[..0] + x.queue[1..] == x.queue[1..];
      }
    }
  }

  lemma ExamineKeeps(s: State, n: nat, t: TargetId)
    requires Invariant(s) && Enabled(s, Examine(n, t))
    ensures Kept(Next(s, Examine(n, t)), Next(s, Examine(n, t)).sessions[n])
  {
    var x, r := s.sessions[n], Next(s, Examine(n, t));
    assert Kept(s, x);
    var y := r.sessions[n];
    forall u | u in y.targets
      ensures Sound(y.targets[u].view) && (Current(r, y.targets[u]) || Awaited(r, y, u, y.targets[u].view))
    {
      assert u in x.targets && y.targets[u].view == x.targets[u].view;
    }
  }

  /** The steps of one session that only touch its own bookkeeping. */
  lemma SessionKeeps(s: State, step: Step, n: nat)
    requires Invariant(s) && Enabled(s, step)
    requires step == Resync(n) || step == Finish(n) || (step.Lag? && step.session == n)
      || (step.Add? && step.session == n) || (step.Drop? && step.session == n)
    ensures Kept(Next(s, step), Next(s, step).sessions[n])
  {
    assert Kept(s, s.sessions[n]);
  }

  /** A session the step leaves alone, in a state with the same store and log. */
  lemma OtherKeeps(s: State, r: State, x: Session)
    requires Kept(s, x) && r.rows == s.rows && r.log == s.log
    requires x.instance in r.tails && r.tails[x.instance] == s.tails[x.instance]
    requires x.instance in r.unpublished && r.unpublished[x.instance] == s.unpublished[x.instance]
    ensures Kept(r, x)
  {
    forall t | t in x.targets
      ensures Current(r, x.targets[t]) || Awaited(r, x, t, x.targets[t].view)
    {
      assert Current(s, x.targets[t]) || Awaited(s, x, t, x.targets[t].view);
    }
  }

  function SessionOf(step: Step): Option<nat> {
    match step
    case Lag(n, _) => Some(n)
    case Receive(n) => Some(n)
    case Resync(n) => Some(n)
    case Examine(n, _) => Some(n)
    case Finish(n) => Some(n)
    case Add(n, _, _) => Some(n)
    case Drop(n, _) => Some(n)
    case _ => None
  }

  lemma LocalStep(s: State, step: Step, n: nat)
    requires Invariant(s) && Enabled(s, step) && SessionOf(step).Some? && n in Next(s, step).sessions
    ensures Kept(Next(s, step), Next(s, step).sessions[n])
  {
    if SessionOf(step) == Some(n) {
      match step
      case Receive(_) => ReceiveKeeps(s, n);
      case Examine(_, t) => ExamineKeeps(s, n, t);
      case _ => SessionKeeps(s, step, n);
    } else {
      OtherKeeps(s, Next(s, step), s.sessions[n]);
    }
  }

  lemma GlobalStep(s: State, step: Step, n: nat)
    requires Invariant(s) && TailsBounded(s) && Enabled(s, step) && SessionOf(step).None? && n in Next(s, step).sessions
    ensures Kept(Next(s, step), Next(s, step).sessions[n])
  {
    match step
    case Boot(_) => OtherKeeps(s, Next(s, step), s.sessions[n]);
    case Connect(m, k) =>
      if n != m {
        OtherKeeps(s, Next(s, step), s.sessions[n]);
      }
    case Commit(k, rows, paths) => CommitKeeps(s, k, rows, paths, n);
    case Publish(k, i) => PublishKeeps(s, k, i, n);
    case Tail(k) => TailKeeps(s, k, n);
  }

  lemma StepKeeps(s: State, step: Step)
    requires Invariant(s) && TailsBounded(s) && Enabled(s, step)
    ensures Invariant(Next(s, step)) && TailsBounded(Next(s, step))
  {
    forall n | n in Next(s, step).sessions
      ensures Kept(Next(s, step), Next(s, step).sessions[n])
    {
      if SessionOf(step).Some? {
        LocalStep(s, step, n);
      } else {
        GlobalStep(s, step, n);
      }
    }
  }

  // ---- runs ----

  ghost predicate Legal(s: State, steps: seq<Step>)
    decreases |steps|
  {
    steps == [] || (Enabled(s, steps[0]) && Legal(Next(s, steps[0]), steps[1..]))
  }

  ghost function Run(s: State, steps: seq<Step>): State
    requires Legal(s, steps)
    decreases |steps|
  {
    if steps == [] then s else Run(Next(s, steps[0]), steps[1..])
  }

  function Start(rows: Table): State {
    State(rows, [], map[], map[], map[])
  }

  lemma {:induction false} RunKeeps(s: State, steps: seq<Step>)
    requires Invariant(s) && TailsBounded(s) && Legal(s, steps)
    ensures Invariant(Run(s, steps)) && TailsBounded(Run(s, steps))
    decreases |steps|
  {
    if steps != [] {
      StepKeeps(s, steps[0]);
      RunKeeps(Next(s, steps[0]), steps[1..]);
    }
  }

  /** Nothing is on its way to the session any more. */
  predicate Drained(s: State, x: Session)
    requires x.instance in s.tails && x.instance in s.unpublished
  {
    && x.work.Idle? && !x.lagged && x.queue == []
    && s.unpublished[x.instance] == []
    && forall i :: s.tails[x.instance] <= i < |s.log| ==> s.log[i].instance == x.instance
  }

  /** In every reachable state a target shows its query's current results or
      is awaited; so once events have drained, it does show them. */
  lemma TargetsConverge(rows: Table, steps: seq<Step>, n: nat, t: TargetId)
    requires Legal(Start(rows), steps)
    requires var s := Run(Start(rows), steps); n in s.sessions && t in s.sessions[n].targets
    ensures
      var s := Run(Start(rows), steps);
      var x := s.sessions[n];
      && x.instance in s.tails && x.instance in s.unpublished
      && (Current(s, x.targets[t]) || Awaited(s, x, t, x.targets[t].view))
      && (Drained(s, x) ==> x.targets[t].members == x.targets[t].view.run(s.rows))
  {
    RunKeeps(Start(rows), steps);
    var s := Run(Start(rows), steps);
    assert Kept(s, s.sessions[n]);
  }

  // ---- the view of a query ----

  function QueryView(root: Utf8, parent: seq<Utf8>, query: Query): View {
    View(rows => C.QueryMembers(root, rows, parent, query), p => L.QueryMayCover(parent, query, p))
  }

  /** The engine's own query and pre-filter make a sound view, for collection
      ids without a slash. */
  lemma QueryViewSound(root: Utf8, parent: seq<Utf8>, query: Query)
    requires |query.from| == 1 ==> C.Filterable(query)
    requires forall x :: x in parent ==> C.Plain(x)
    ensures Sound(QueryView(root, parent, query))
  {
    var view := QueryView(root, parent, query);
    forall a: Table, b: Table | SameCovered(view, a, b)
      ensures view.run(a) == view.run(b)
    {
      forall p | L.QueryMayCover(parent, query, p)
        ensures Find(a, p) == Find(b, p)
      {
        assert view.covers(p);
      }
      C.UncoveredUnchanged(root, a, b, parent, query);
    }
  }
}
