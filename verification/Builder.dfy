/**
 Interleavings of the build service (crates/omp-builder/src/builder.rs:143-223):
 build tasks under a semaphore, requests of the tenants and log receivers, in any
 order of their atomic steps. An event that cannot happen leaves the state as it is,
 so every sequence of events is a run.
 */
module Builder {
  import opened Objects
  import opened Jobs

  /** Where a build task stands between two locked steps. */
  datatype Point =
    | Waiting                 // for a permit
    | Acquired
    | Running                 // cargo and its two log readers
    | Failing(reason: string) // the failure is logged but not yet recorded
    | Reporting               // the artifacts are recorded but not yet logged
    | Releasing               // scratch clean-up; the permit is still held
    | Finished

  /** A log receiver: next position on the channel, lines shown so far, whether it ever lagged. */
  datatype Receiver = Receiver(id: string, next: nat, seen: seq<string>, lagged: bool)

  datatype State = State(
    max: nat,
    permits: nat,
    closed: bool,
    table: Table,
    tasks: map<string, Point>,
    receivers: seq<Receiver>)

  datatype Event =
    | Submit(id: string, tenant: string, namespace: string, name: string)
    | Acquire(id: string)
    | Shutdown
    | Refuse(id: string)
    | Begin(id: string)
    | Log(id: string, line: string)
    | Succeed(id: string, artifacts: seq<Artifact>)
    | Report(id: string)
    | Fail(id: string, reason: string)
    | Record(id: string)
    | Release(id: string)
    | Remove(id: string, tenant: string)
    | Subscribe(id: string, tenant: string)
    | Receive(k: nat)

  const CAPACITY: nat := 256
  const SHUTDOWN := "builder shutting down"
  const READY := "[builder] OK \U{2014} artifacts ready"

  function FailLine(reason: string): string {
    "[builder] FAILED: " + reason
  }

  function SetBuilding(): Job -> Job {
    (j: Job) => j.(state := Building)
  }

  function SetBuilt(artifacts: seq<Artifact>): Job -> Job {
    (j: Job) => j.(state := Built, artifacts := Some(artifacts))
  }

  function SetFailed(reason: string): Job -> Job {
    (j: Job) => j.(state := Failed, error := Some(reason))
  }

  predicate At(s: State, id: string, p: Point) {
    id in s.tasks && s.tasks[id] == p
  }

  function Move(s: State, id: string, p: Point): State {
    s.(tasks := s.tasks[id := p])
  }

  /** A receiver too far behind jumps to the oldest line the channel still holds. */
  function Pull(r: Receiver, sent: seq<string>): Receiver {
    if |sent| <= r.next then r
    else if |sent| - r.next > CAPACITY then r.(next := |sent| - CAPACITY, lagged := true)
    else r.(next := r.next + 1, seen := r.seen + [sent[r.next]])
  }

  function Next(s: State, e: Event): State {
    match e
    case Submit(id, tenant, namespace, name) =>
      if id in s.tasks then s else Move(s.(table := Create(s.table, id, tenant, namespace, name)), id, Waiting)
    case Acquire(id) =>
      if At(s, id, Waiting) && s.permits > 0 && !s.closed then Move(s.(permits := s.permits - 1), id, Acquired) else s
    case Shutdown => s.(closed := true)
    case Refuse(id) =>
      if At(s, id, Waiting) && s.closed then
        Move(s.(table := Update(s.table, id, SetFailed(SHUTDOWN))), id, Finished)
      else s
    case Begin(id) =>
      if At(s, id, Acquired) then Move(s.(table := Update(s.table, id, SetBuilding())), id, Running) else s
    case Log(id, line) =>
      if At(s, id, Running) then s.(table := AppendLog(s.table, id, line)) else s
    case Succeed(id, artifacts) =>
      if At(s, id, Running) then
        Move(s.(table := Update(s.table, id, SetBuilt(artifacts))), id, Reporting)
      else s
    case Report(id) =>
      if At(s, id, Reporting) then Move(s.(table := AppendLog(s.table, id, READY)), id, Releasing) else s
    case Fail(id, reason) =>
      if At(s, id, Running) then Move(s.(table := AppendLog(s.table, id, FailLine(reason))), id, Failing(reason)) else s
    case Record(id) =>
      if id in s.tasks && s.tasks[id].Failing? then
        Move(s.(table := Update(s.table, id, SetFailed(s.tasks[id].reason))), id, Releasing)
      else s
    case Release(id) =>
      if At(s, id, Releasing) then Move(s.(permits := s.permits + 1), id, Finished) else s
    case Remove(id, tenant) => s.(table := Delete(s.table, id, tenant))
    case Subscribe(id, tenant) =>
      if Owns(s.table, id, tenant) && id in s.table.sent then
        s.(receivers := s.receivers + [Receiver(id, |s.table.sent[id]|, s.table.jobs[id].log, false)])
      else s
    case Receive(k) =>
      if k < |s.receivers| && s.receivers[k].id in s.table.sent then
        s.(receivers := s.receivers[k := Pull(s.receivers[k], s.table.sent[s.receivers[k].id])])
      else s
  }

  function Init(max: nat): State {
    State(max, max, false, Table(map[], map[]), map[], [])
  }

  function After(s: State, es: seq<Event>): State
    decreases |es|
  {
    if es == [] then s else After(Next(s, es[0]), es[1..])
  }

  // ---- The invariant ----

  predicate Holds(p: Point) {
    !p.Waiting? && !p.Finished?
  }

  ghost function Holders(s: State): set<string> {
    set id | id in s.tasks && Holds(s.tasks[id])
  }

  ghost predicate EndsWith(log: seq<string>, line: string) {
    log != [] && log[|log| - 1] == line
  }

  /** Artifacts only in `Built`, an error only in `Failed`, and a failure is explained by the last log line. */
  ghost predicate GoodJob(j: Job) {
    && j.state != Cancelled
    && (j.artifacts.Some? <==> j.state == Built)
    && (j.error.Some? <==> j.state == Failed)
    && (j.state == Failed ==> EndsWith(j.log, FailLine(j.error.value)) || (j.error.value == SHUTDOWN && j.log == []))
  }

  /** What the record of a job can be while its task stands at `p`. */
  ghost predicate Fits(p: Point, j: Job) {
    match p
    case Waiting => j.state == Queued && j.log == []
    case Acquired => j.state == Queued && j.log == []
    case Running => j.state == Building
    case Failing(reason) => j.state == Building && EndsWith(j.log, FailLine(reason))
    case Reporting => j.state == Built
    case Releasing => j.state == Built || j.state == Failed
    case Finished => j.state == Built || j.state == Failed
  }

  ghost predicate GoodRecord(s: State, id: string) {
    && id in s.tasks && id in s.table.jobs && id in s.table.sent
    && s.table.sent[id] == s.table.jobs[id].log
    && GoodJob(s.table.jobs[id])
    && Fits(s.tasks[id], s.table.jobs[id])
  }

  /** A receiver has shown the channel from its first line, all of it exactly when it never lagged. */
  ghost predicate GoodReceiver(t: Table, r: Receiver) {
    && r.id in t.sent && r.next <= |t.sent[r.id]|
    && (r.lagged ==> |r.seen| < r.next)
    && (!r.lagged ==> r.seen == t.sent[r.id][..r.next])
  }

  ghost predicate Inv(s: State) {
    && s.table.sent.Keys == s.tasks.Keys
    && s.table.jobs.Keys <= s.tasks.Keys
    && (forall id {:trigger GoodRecord(s, id)} | id in s.table.jobs :: GoodRecord(s, id))
    && (forall k {:trigger GoodReceiver(s.table, s.receivers[k])} | 0 <= k < |s.receivers| ::
        GoodReceiver(s.table, s.receivers[k]))
    && |Holders(s)| + s.permits == s.max
  }

  /** Moving one task changes the holders by at most that task. */
  lemma HoldersMove(s: State, id: string, p: Point, t: State)
    requires t.tasks == s.tasks[id := p]
    ensures Holders(t) == if Holds(p) then Holders(s) + {id} else Holders(s) - {id}
  {
  }

  /** Channels only grow, so what a receiver has shown stays right. */
  ghost predicate Extends(t: Table, u: Table) {
    forall id | id in t.sent :: id in u.sent && |t.sent[id]| <= |u.sent[id]| && u.sent[id][..|t.sent[id]|] == t.sent[id]
  }

  lemma ReceiverKept(t: Table, u: Table, r: Receiver)
    requires GoodReceiver(t, r) && Extends(t, u)
    ensures GoodReceiver(u, r)
  {
    assert u.sent[r.id][..r.next] == u.sent[r.id][..|t.sent[r.id]|][..r.next];
  }

  lemma ReceiversKept(s: State, t: State)
    requires Inv(s) && t.receivers == s.receivers && Extends(s.table, t.table)
    ensures forall k | 0 <= k < |t.receivers| :: GoodReceiver(t.table, t.receivers[k])
  {
    forall k | 0 <= k < |t.receivers| ensures GoodReceiver(t.table, t.receivers[k]) {
      ReceiverKept(s.table, t.table, s.receivers[k]);
    }
  }

  lemma PullKeeps(t: Table, r: Receiver)
    requires GoodReceiver(t, r)
    ensures GoodReceiver(t, Pull(r, t.sent[r.id]))
  {
    var sent := t.sent[r.id];
    if r.next < |sent| {
      assert sent[..r.next + 1] == sent[..r.next] + [sent[r.next]];
    }
  }

  lemma InvInit(max: nat)
    ensures Inv(Init(max))
  {
    assert Holders(Init(max)) == {};
  }

  /** A step of one task that leaves channels and permits alone. */
  lemma TaskStep(s: State, t: State, id: string)
    requires Inv(s) && id in s.tasks && t.max == s.max && t.receivers == s.receivers
    requires t.tasks.Keys == s.tasks.Keys && (forall x | x in s.tasks && x != id :: t.tasks[x] == s.tasks[x])
    requires t.table.jobs.Keys == s.table.jobs.Keys
             && (forall x | x in s.table.jobs && x != id :: t.table.jobs[x] == s.table.jobs[x])
    requires t.table.sent.Keys == s.table.sent.Keys
             && (forall x | x in s.table.sent && x != id :: t.table.sent[x] == s.table.sent[x])
    requires Extends(s.table, t.table)
    requires id in s.table.jobs ==> GoodRecord(t, id)
    requires |Holders(t)| + t.permits == t.max
    ensures Inv(t)
  {
    ReceiversKept(s, t);
    forall x | x in t.table.jobs ensures GoodRecord(t, x) {
      if x != id {
        RecordKept(s, t, x);
      }
    }
  }

  lemma RecordKept(s: State, t: State, x: string)
    requires GoodRecord(s, x) && x in t.tasks && x in t.table.jobs && x in t.table.sent
    requires t.tasks[x] == s.tasks[x] && t.table.jobs[x] == s.table.jobs[x] && t.table.sent[x] == s.table.sent[x]
    ensures GoodRecord(t, x)
  {
  }

  lemma CreateExtends(t: Table, id: string, job: Job)
    requires id !in t.sent
    ensures Extends(t, Table(t.jobs[id := job], t.sent[id := []]))
  {
  }

  lemma SubmitKeeps(s: State, id: string, job: Job)
    requires Inv(s) && id !in s.tasks && GoodJob(job) && Fits(Waiting, job)
    ensures Inv(Move(s.(table := Table(s.table.jobs[id := job], s.table.sent[id := []])), id, Waiting))
  {
    var t := Move(s.(table := Table(s.table.jobs[id := job], s.table.sent[id := []])), id, Waiting);
    NewTask(s, t, id, job);
  }

  lemma NewTask(s: State, t: State, id: string, job: Job)
    requires Inv(s) && id !in s.tasks && GoodJob(job) && Fits(Waiting, job)
    requires t.max == s.max && t.permits == s.permits && t.receivers == s.receivers
    requires t.tasks == s.tasks[id := Waiting] && t.table == Table(s.table.jobs[id := job], s.table.sent[id := []])
    ensures Inv(t)
  {
    HoldersSame(s, t, id);
    CreateExtends(s.table, id, job);
    ReceiversKept(s, t);
    RecordsWithNew(s, t, id, job);
    SameKeys(s.table.sent, s.tasks, id);
  }

  lemma HoldersSame(s: State, t: State, id: string)
    requires id !in s.tasks && t.tasks == s.tasks[id := Waiting]
    ensures Holders(t) == Holders(s)
  {
    HoldersMove(s, id, Waiting, t);
  }

  lemma SameKeys(sent: map<string, seq<string>>, tasks: map<string, Point>, id: string)
    requires sent.Keys == tasks.Keys
    ensures sent[id := []].Keys == tasks[id := Waiting].Keys
  {
    assert sent[id := []].Keys == sent.Keys + {id} && tasks[id := Waiting].Keys == tasks.Keys + {id};
  }

  lemma RecordsWithNew(s: State, t: State, id: string, job: Job)
    requires Inv(s) && id !in s.tasks && GoodJob(job) && Fits(Waiting, job)
    requires t.tasks == s.tasks[id := Waiting] && t.table.jobs == s.table.jobs[id := job]
             && t.table.sent == s.table.sent[id := []]
    ensures forall x | x in t.table.jobs :: GoodRecord(t, x)
  {
    forall x | x in t.table.jobs ensures GoodRecord(t, x) {
      if x != id {
        RecordKept(s, t, x);
      }
    }
  }

  /** Taking and giving back a permit. */
  lemma PermitKeeps(s: State, id: string, permits: nat, p: Point)
    requires Inv(s) && id in s.tasks
             && permits + (if Holds(p) then 1 else 0) == s.permits + (if Holds(s.tasks[id]) then 1 else 0)
    requires id in s.table.jobs ==> Fits(p, s.table.jobs[id])
    ensures Inv(Move(s.(permits := permits), id, p))
  {
    var t := Move(s.(permits := permits), id, p);
    HoldersMove(s, id, p, t);
    assert id in s.table.jobs ==> GoodRecord(s, id);
    TaskStep(s, t, id);
  }

  /** An update touches one record and no channel. */
  lemma UpdateLocal(t: Table, id: string, f: Job -> Job)
    ensures var u := Update(t, id, f);
            && Extends(t, u) && u.sent == t.sent
            && u.jobs.Keys == t.jobs.Keys && (forall x | x in t.jobs && x != id :: u.jobs[x] == t.jobs[x])
  {
  }

  /** Changing the record. */
  lemma UpdateKeeps(s: State, id: string, f: Job -> Job, p: Point)
    requires Inv(s) && id in s.tasks && Holds(p) == Holds(s.tasks[id])
    requires id in s.table.jobs ==>
               var j := f(s.table.jobs[id]);
               GoodJob(j) && Fits(p, j) && j.log == s.table.jobs[id].log
    ensures Inv(Move(s.(table := Update(s.table, id, f)), id, p))
  {
    var t := Move(s.(table := Update(s.table, id, f)), id, p);
    HoldersMove(s, id, p, t);
    assert Holders(t) == Holders(s);
    UpdateLocal(s.table, id, f);
    if id in s.table.jobs {
      assert GoodRecord(s, id);
    }
    TaskStep(s, t, id);
  }

  /** An append touches one record and one channel, at its end. */
  lemma AppendLocal(t: Table, id: string, line: string)
    ensures var u := AppendLog(t, id, line);
            && Extends(t, u)
            && u.jobs.Keys == t.jobs.Keys && (forall x | x in t.jobs && x != id :: u.jobs[x] == t.jobs[x])
            && u.sent.Keys == t.sent.Keys && (forall x | x in t.sent && x != id :: u.sent[x] == t.sent[x])
  {
  }

  /** Appending a line. */
  lemma AppendKeeps(s: State, id: string, line: string, p: Point)
    requires Inv(s) && id in s.tasks && Holds(p) == Holds(s.tasks[id])
    requires id in s.table.jobs ==>
               var j := s.table.jobs[id].(log := s.table.jobs[id].log + [line]);
               GoodJob(j) && Fits(p, j)
    ensures Inv(Move(s.(table := AppendLog(s.table, id, line)), id, p))
  {
    var t := Move(s.(table := AppendLog(s.table, id, line)), id, p);
    HoldersMove(s, id, p, t);
    assert Holders(t) == Holders(s);
    AppendLocal(s.table, id, line);
    if id in s.table.jobs {
      assert GoodRecord(s, id);
    }
    TaskStep(s, t, id);
  }

  lemma PermitEvents(s: State, e: Event)
    requires Inv(s) && (e.Acquire? || e.Release?)
    ensures Inv(Next(s, e))
  {
    if Next(s, e) != s {
      assert e.id in s.table.jobs ==> GoodRecord(s, e.id);
      if e.Acquire? {
        PermitKeeps(s, e.id, s.permits - 1, Acquired);
      } else {
        PermitKeeps(s, e.id, s.permits + 1, Finished);
      }
    }
  }

  lemma UpdateEvents(s: State, e: Event)
    requires Inv(s) && (e.Begin? || e.Refuse? || e.Succeed? || e.Record?)
    ensures Inv(Next(s, e))
  {
    if Next(s, e) != s {
      var id := e.id;
      assert id in s.table.jobs ==> GoodRecord(s, id);
      if e.Begin? {
        UpdateKeeps(s, id, SetBuilding(), Running);
      } else if e.Refuse? {
        UpdateKeeps(s, id, SetFailed(SHUTDOWN), Finished);
      } else if e.Succeed? {
        UpdateKeeps(s, id, SetBuilt(e.artifacts), Reporting);
      } else {
        UpdateKeeps(s, id, SetFailed(s.tasks[id].reason), Releasing);
      }
    }
  }

  lemma AppendEvents(s: State, e: Event)
    requires Inv(s) && (e.Log? || e.Report? || e.Fail?)
    ensures Inv(Next(s, e))
  {
    if Next(s, e) != s {
      var id := e.id;
      assert id in s.table.jobs ==> GoodRecord(s, id);
      match e {
        case Log(_, line) =>
          AppendKeeps(s, id, line, Running);
          assert s.tasks[id := Running] == s.tasks;
        case Report(_) => AppendKeeps(s, id, READY, Releasing);
        case Fail(_, reason) => AppendKeeps(s, id, FailLine(reason), Failing(reason));
      }
    }
  }

  lemma RequestKeeps(s: State, e: Event)
    requires Inv(s) && (e.Shutdown? || e.Remove?)
    ensures Inv(Next(s, e))
  {
    var t := Next(s, e);
    assert Holders(t) == Holders(s);
    forall x | x in t.table.jobs ensures GoodRecord(t, x) {
      assert GoodRecord(s, x);
    }
    ReceiversKept(s, t);
  }

  lemma ReceiverKeeps(s: State, receivers: seq<Receiver>)
    requires Inv(s) && forall k | 0 <= k < |receivers| :: GoodReceiver(s.table, receivers[k])
    ensures Inv(s.(receivers := receivers))
  {
    var t := s.(receivers := receivers);
    assert Holders(t) == Holders(s);
    forall x | x in t.table.jobs ensures GoodRecord(t, x) {
      assert GoodRecord(s, x);
    }
  }

  lemma ReceiverEvents(s: State, e: Event)
    requires Inv(s) && (e.Subscribe? || e.Receive?)
    ensures Inv(Next(s, e))
  {
    var t := Next(s, e);
    if t != s {
      if e.Subscribe? {
        var sent := s.table.sent[e.id];
        assert GoodRecord(s, e.id);
        assert sent[..|sent|] == sent;
      } else {
        PullKeeps(s.table, s.receivers[e.k]);
      }
      ReceiverKeeps(s, t.receivers);
    }
  }

  lemma StepKeeps(s: State, e: Event)
    requires Inv(s)
    ensures Inv(Next(s, e)) && Next(s, e).max == s.max
  {
    if e.Acquire? || e.Release? {
      PermitEvents(s, e);
    } else if e.Begin? || e.Refuse? || e.Succeed? || e.Record? {
      UpdateEvents(s, e);
    } else if e.Log? || e.Report? || e.Fail? {
      AppendEvents(s, e);
    } else if e.Submit? {
      if e.id !in s.tasks {
        SubmitKeeps(s, e.id, NewJob(e.tenant, e.namespace, e.name));
      }
    } else if e.Shutdown? || e.Remove? {
      RequestKeeps(s, e);
    } else {
      ReceiverEvents(s, e);
    }
  }

  lemma {:induction false} RunKeeps(s: State, es: seq<Event>)
    requires Inv(s)
    ensures Inv(After(s, es)) && After(s, es).max == s.max
    decreases |es|
  {
    if es != [] {
      StepKeeps(s, es[0]);
      RunKeeps(Next(s, es[0]), es[1..]);
    }
  }

  // ---- What every run guarantees ----

  lemma SubsetSize(a: set<string>, b: set<string>)
    requires a <= b
    ensures |a| <= |b|
  {
    assert b == a + (b - a);
  }

  /** In every interleaving at most `max_concurrent_builds` jobs are building. */
  lemma BuildsBounded(max: nat, es: seq<Event>)
    ensures var s := After(Init(max), es);
            |set id | id in s.table.jobs && s.table.jobs[id].state == Building| <= max
  {
    InvInit(max);
    RunKeeps(Init(max), es);
    var s := After(Init(max), es);
    var building := set id | id in s.table.jobs && s.table.jobs[id].state == Building;
    forall id | id in building ensures id in Holders(s) {
      assert GoodRecord(s, id);
    }
    SubsetSize(building, Holders(s));
  }

  /** In every interleaving every record is consistent with its state, and its log is what its channel carried. */
  lemma RecordsConsistent(max: nat, es: seq<Event>, id: string)
    requires id in After(Init(max), es).table.jobs
    ensures var s := After(Init(max), es);
            GoodJob(s.table.jobs[id]) && id in s.table.sent && s.table.jobs[id].log == s.table.sent[id]
  {
    InvInit(max);
    RunKeeps(Init(max), es);
    assert GoodRecord(After(Init(max), es), id);
  }

  /**
   In every interleaving a receiver has shown exactly the first lines of its job's
   log if and only if it never lagged; once drained, that is the whole log.
   */
  lemma ReplayPlusTail(max: nat, es: seq<Event>, k: nat)
    requires k < |After(Init(max), es).receivers|
    ensures var s := After(Init(max), es);
            var r := s.receivers[k];
            && r.id in s.table.sent && r.next <= |s.table.sent[r.id]|
            && (!r.lagged <==> r.seen == s.table.sent[r.id][..r.next])
            && (!r.lagged && r.next == |s.table.sent[r.id]| && r.id in s.table.jobs ==>
                r.seen == s.table.jobs[r.id].log)
  {
    InvInit(max);
    RunKeeps(Init(max), es);
    var s := After(Init(max), es);
    var r := s.receivers[k];
    assert GoodReceiver(s.table, r);
    if r.id in s.table.jobs {
      assert GoodRecord(s, r.id);
    }
  }

  /** No receiver is more than a full channel behind. */
  ghost predicate KeepsUp(s: State) {
    forall k | 0 <= k < |s.receivers| && s.receivers[k].id in s.table.sent ::
        |s.table.sent[s.receivers[k].id]| - s.receivers[k].next <= 256
  }

  ghost predicate NoneLagged(s: State) {
    forall k | 0 <= k < |s.receivers| :: !s.receivers[k].lagged
  }

  lemma LagStep(s: State, e: Event)
    requires NoneLagged(s) && KeepsUp(s)
    ensures NoneLagged(Next(s, e))
  {
  }

  /** Receivers that keep up throughout a run never lag. */
  lemma {:induction false} NeverLags(s: State, es: seq<Event>)
    requires NoneLagged(s)
    requires forall n | 0 <= n <= |es| :: KeepsUp(After(s, es[..n]))
    ensures NoneLagged(After(s, es))
    decreases |es|
  {
    if es != [] {
      assert es[..0] == [];
      assert KeepsUp(After(s, es[..0]));
      var next := Next(s, es[0]);
      LagStep(s, es[0]);
      forall n | 0 <= n <= |es| - 1 ensures KeepsUp(After(next, es[1..][..n])) {
        assert es[..n + 1][1..] == es[1..][..n] && es[..n + 1][0] == es[0];
        assert KeepsUp(After(s, es[..n + 1]));
      }
      NeverLags(next, es[1..]);
    }
  }

  /** The verdict of a build is final: it survives every later run until the job is deleted. */
  ghost predicate Final(s: State, id: string, j: Job) {
    && id in s.tasks
    && (id in s.table.jobs ==>
          var now := s.table.jobs[id];
          now.state == j.state && now.artifacts == j.artifacts && now.error == j.error && now.tenant == j.tenant)
  }

  lemma VerdictStep(s: State, e: Event, id: string, j: Job)
    requires Inv(s) && Final(s, id, j) && (j.state == Built || j.state == Failed)
    ensures Final(Next(s, e), id, j)
  {
    if id in s.table.jobs {
      assert GoodRecord(s, id);
    }
  }

  lemma {:induction false} VerdictFinal(s: State, es: seq<Event>, id: string, j: Job)
    requires Inv(s) && Final(s, id, j) && (j.state == Built || j.state == Failed)
    ensures Final(After(s, es), id, j)
    decreases |es|
  {
    if es != [] {
      VerdictStep(s, es[0], id, j);
      StepKeeps(s, es[0]);
      VerdictFinal(Next(s, es[0]), es[1..], id, j);
    }
  }

  /** The service does not get stuck: while a build is unfinished, some task can take a step. */
  lemma Progress(max: nat, es: seq<Event>, id: string)
    requires max > 0 && id in After(Init(max), es).tasks && !After(Init(max), es).tasks[id].Finished?
    ensures var s := After(Init(max), es);
            exists e :: TaskEvent(e) && Next(s, e).tasks != s.tasks
  {
    InvInit(max);
    RunKeeps(Init(max), es);
    var s := After(Init(max), es);
    var id' := id;
    if s.tasks[id].Waiting? && s.permits == 0 && !s.closed {
      id' :| id' in Holders(s);
    }
    var e := match s.tasks[id']
      case Waiting => if s.closed then Refuse(id') else Acquire(id')
      case Acquired => Begin(id')
      case Running => Fail(id', "")
      case Failing(_) => Record(id')
      case Reporting => Report(id')
      case Releasing => Release(id')
      case Finished => Release(id');
    assert Next(s, e).tasks[id'] != s.tasks[id'];
    assert TaskEvent(e);
  }

  predicate TaskEvent(e: Event) {
    e.Acquire? || e.Refuse? || e.Begin? || e.Succeed? || e.Report? || e.Fail? || e.Record? || e.Release?
  }
}
