/**
 Where what a job record shows comes from (crates/omp-builder/src/builder.rs:143-223):
 the request that submitted it, the one step that decided it, and its log line by line.
 */
module BuildStory {
  import opened Objects
  import opened Jobs
  import opened Builder

  lemma {:induction false} AfterPush(s: State, es: seq<Event>, e: Event)
    ensures After(s, es + [e]) == Next(After(s, es), e)
    decreases |es|
  {
    if es == [] {
      assert [] + [e] == [e] && [e][1..] == [];
    } else {
      assert (es + [e])[0] == es[0] && (es + [e])[1..] == es[1..] + [e];
      AfterPush(Next(s, es[0]), es[1..], e);
    }
  }

  /** Event `i` is `e`, and meets the task of `id` at this point. */
  ghost predicate Met(s: State, es: seq<Event>, i: nat, e: Event, id: string, p: Point) {
    i < |es| && es[i] == e && id in After(s, es[..i]).tasks && After(s, es[..i]).tasks[id] == p
  }

  /** Some event is `e`, and meets the task of `id` at this point. */
  ghost predicate Happened(s: State, es: seq<Event>, e: Event, id: string, p: Point) {
    exists i: nat :: Met(s, es, i, e, id, p)
  }

  lemma HappenedBefore(s: State, es: seq<Event>, more: Event, e: Event, id: string, p: Point)
    requires Happened(s, es, e, id, p)
    ensures Happened(s, es + [more], e, id, p)
  {
    var i: nat :| Met(s, es, i, e, id, p);
    assert (es + [more])[..i] == es[..i];
    assert Met(s, es + [more], i, e, id, p);
  }

  lemma HappenedNow(s: State, es: seq<Event>, e: Event, id: string, p: Point)
    requires id in After(s, es).tasks && After(s, es).tasks[id] == p
    ensures Happened(s, es + [e], e, id, p)
  {
    assert (es + [e])[..|es|] == es;
    assert Met(s, es + [e], |es|, e, id, p);
  }

  ghost function Told(s: State, es: seq<Event>, id: string): (Event, Point) -> bool {
    (e, p) => Happened(s, es, e, id, p)
  }

  /**
   What decided the state of a job: the success of its running build, its failure, or the
   shutdown while it waited. `told` says which event met its task at which point.
   */
  ghost predicate Decided(told: (Event, Point) -> bool, id: string, j: Job, p: Point) {
    && (j.state == Built ==> j.artifacts.Some? && told(Succeed(id, j.artifacts.value), Running))
    && (j.state == Failed ==>
          && j.error.Some?
          && (told(Fail(id, j.error.value), Running)
              || (j.error.value == "builder shutting down" && told(Refuse(id), Waiting))))
    && (p.Failing? ==> told(Fail(id, p.reason), Running))
    && (j.state == Queued || j.state == Building ==> j.artifacts.None? && j.error.None?)
  }

  /** What one event does to the record and the task of a job. */
  lemma JobStep(s: State, e: Event, id: string)
    requires id in s.tasks && id in s.table.jobs && id in Next(s, e).table.jobs
    ensures var a, b, p := s.table.jobs[id], Next(s, e).table.jobs[id], s.tasks[id];
            || (b.state == a.state && b.artifacts == a.artifacts && b.error == a.error)
            || (e == Begin(id) && b.state == Building && b.artifacts == a.artifacts && b.error == a.error)
            || (p.Running? && b.state == Built && b.artifacts.Some? && e == Succeed(id, b.artifacts.value))
            || (p.Failing? && b.state == Failed && b.error == Some(p.reason))
            || (p.Waiting? && e == Refuse(id) && b.state == Failed && b.error == Some("builder shutting down"))
  {
  }

  lemma OwnerStep(s: State, e: Event, id: string)
    requires id in s.tasks && id in s.table.jobs && id in Next(s, e).table.jobs
    ensures var a, b := s.table.jobs[id], Next(s, e).table.jobs[id];
            b.tenant == a.tenant && b.namespace == a.namespace && b.name == a.name
  {
  }

  lemma PointStep(s: State, e: Event, id: string)
    requires id in s.tasks
    ensures var p, q := s.tasks[id], Next(s, e).tasks[id];
            q.Failing? ==> p == q || (p.Running? && e == Fail(id, q.reason))
  {
  }

  lemma DecidedStep(s: State, e: Event, id: string, told: (Event, Point) -> bool, now: (Event, Point) -> bool)
    requires Builder.Inv(s) && id in s.table.jobs && id in Next(s, e).table.jobs
    requires Decided(told, id, s.table.jobs[id], s.tasks[id])
    requires (forall x, p | told(x, p) :: now(x, p)) && now(e, s.tasks[id])
    ensures Decided(now, id, Next(s, e).table.jobs[id], Next(s, e).tasks[id])
  {
    assert Builder.GoodRecord(s, id);
    JobStep(s, e, id);
    PointStep(s, e, id);
  }

  lemma NewJobStep(s: State, e: Event, id: string)
    requires id !in s.table.jobs && id in Next(s, e).table.jobs
    ensures var j := Next(s, e).table.jobs[id];
            && e == Submit(id, j.tenant, j.namespace, j.name)
            && j.state == Queued && j.artifacts.None? && j.error.None? && j.log == []
            && id in Next(s, e).tasks && Next(s, e).tasks[id].Waiting?
  {
  }

  /** What holds of a job after some events. */
  ghost predicate Known(max: nat, es: seq<Event>, id: string) {
    var s := After(Init(max), es);
    id in s.table.jobs ==>
      && id in s.tasks
      && Submit(id, s.table.jobs[id].tenant, s.table.jobs[id].namespace, s.table.jobs[id].name) in es
      && Decided(Told(Init(max), es, id), id, s.table.jobs[id], s.tasks[id])
  }

  lemma KnownStep(max: nat, es: seq<Event>, e: Event, id: string)
    requires Builder.Inv(After(Init(max), es)) && Known(max, es, id)
    ensures Known(max, es + [e], id)
  {
    var s := After(Init(max), es);
    AfterPush(Init(max), es, e);
    if id in Next(s, e).table.jobs {
      if id in s.table.jobs {
        OldKnown(s, e, id, Told(Init(max), es, id), Told(Init(max), es + [e], id)) by {
          assert Builder.GoodRecord(s, id);
          forall x, p | Told(Init(max), es, id)(x, p) ensures Told(Init(max), es + [e], id)(x, p) {
            HappenedBefore(Init(max), es, e, x, id, p);
          }
          HappenedNow(Init(max), es, e, id, s.tasks[id]);
        }
      } else {
        NewJobStep(s, e, id);
      }
    }
  }

  lemma OldKnown(s: State, e: Event, id: string, told: (Event, Point) -> bool, now: (Event, Point) -> bool)
    requires Builder.Inv(s) && id in s.tasks && id in s.table.jobs && id in Next(s, e).table.jobs
    requires Decided(told, id, s.table.jobs[id], s.tasks[id])
    requires (forall x, p | told(x, p) :: now(x, p)) && now(e, s.tasks[id])
    ensures var a, b := s.table.jobs[id], Next(s, e).table.jobs[id];
            b.tenant == a.tenant && b.namespace == a.namespace && b.name == a.name
    ensures id in Next(s, e).tasks && Decided(now, id, Next(s, e).table.jobs[id], Next(s, e).tasks[id])
  {
    DecidedStep(s, e, id, told, now);
    OwnerStep(s, e, id);
  }

  lemma {:induction false} AllKnown(max: nat, es: seq<Event>, id: string)
    ensures Known(max, es, id)
    decreases |es|
  {
    if es != [] {
      var n := |es| - 1;
      assert es == es[..n] + [es[n]];
      InvInit(max);
      RunKeeps(Init(max), es[..n]);
      AllKnown(max, es[..n], id);
      KnownStep(max, es[..n], es[n], id);
    }
  }

  /**
   In every interleaving a job belongs to who submitted it; a built job has the artifacts
   of the success of its running build; and a failed job has the reason its running build
   failed with, or was refused at shutdown while it waited.
   */
  lemma JobStory(max: nat, es: seq<Event>, id: string)
    requires id in After(Init(max), es).table.jobs
    ensures var j := After(Init(max), es).table.jobs[id];
            && Submit(id, j.tenant, j.namespace, j.name) in es
            && (j.state == Built ==>
                  j.artifacts.Some? && Happened(Init(max), es, Succeed(id, j.artifacts.value), id, Running))
            && (j.state == Failed ==>
                  && j.error.Some?
                  && (Happened(Init(max), es, Fail(id, j.error.value), id, Running)
                      || (j.error.value == "builder shutting down"
                          && Happened(Init(max), es, Refuse(id), id, Waiting))))
  {
    AllKnown(max, es, id);
  }

  /** The lines that one event adds to the log of a job. */
  function Lines(s: State, e: Event, id: string): seq<string> {
    if id !in s.tasks then []
    else match e
      case Log(k, line) => if k == id && s.tasks[id].Running? then [line] else []
      case Fail(k, reason) => if k == id && s.tasks[id].Running? then ["[builder] FAILED: " + reason] else []
      case Report(k) => if k == id && s.tasks[id].Reporting? then ["[builder] OK \U{2014} artifacts ready"] else []
      case _ => []
  }

  function AllLines(s: State, es: seq<Event>, id: string): seq<string>
    decreases |es|
  {
    if es == [] then [] else Lines(s, es[0], id) + AllLines(Next(s, es[0]), es[1..], id)
  }

  lemma LineStep(s: State, e: Event, id: string)
    requires id in Next(s, e).table.jobs
    requires id in s.table.jobs ==> Builder.GoodRecord(s, id)
    ensures Next(s, e).table.jobs[id].log == LogBefore(s, id) + Lines(s, e, id)
  {
    if id in s.table.jobs {
      OldLine(s, e, id);
    }
  }

  lemma OldLine(s: State, e: Event, id: string)
    requires id in Next(s, e).table.jobs && id in s.table.jobs && id in s.table.sent && id in s.tasks
    ensures Next(s, e).table.jobs[id].log == s.table.jobs[id].log + Lines(s, e, id)
  {
  }

  lemma JobStays(s: State, e: Event, id: string)
    requires id in s.tasks && id in Next(s, e).table.jobs
    ensures id in s.table.jobs
  {
  }

  lemma TaskStays(s: State, e: Event, id: string)
    requires id in s.tasks
    ensures id in Next(s, e).tasks
  {
  }

  lemma {:induction false} GoneStays(s: State, es: seq<Event>, id: string)
    requires Builder.Inv(s) && id in s.tasks && id in After(s, es).table.jobs
    ensures id in s.table.jobs
    decreases |es|
  {
    if es != [] {
      StepKeeps(s, es[0]);
      TaskStays(s, es[0], id);
      GoneStays(Next(s, es[0]), es[1..], id);
      JobStays(s, es[0], id);
    }
  }

  /** What the log was before. */
  function LogBefore(s: State, id: string): seq<string> {
    if id in s.table.jobs then s.table.jobs[id].log else []
  }

  lemma LogSplit(a: seq<string>, b: seq<string>, c: seq<string>)
    ensures a + b + c == a + (b + c)
  {
  }

  /** Before its submission a job has no task, and no event adds to its log. */
  lemma NothingLogged(s: State, e: Event, id: string)
    requires Builder.Inv(s) && id !in Next(s, e).table.jobs && id !in Next(s, e).tasks
    ensures Lines(s, e, id) == [] && LogBefore(s, id) == []
  {
  }

  /**
   The log of a job is the lines its build logged while it ran and the line that reports its
   end, each once and in order.
   */
  lemma {:induction false} LogStory(s: State, es: seq<Event>, id: string)
    requires Builder.Inv(s) && id in After(s, es).table.jobs
    ensures After(s, es).table.jobs[id].log == LogBefore(s, id) + AllLines(s, es, id)
    decreases |es|
  {
    if es == [] {
      assert LogBefore(s, id) + [] == LogBefore(s, id);
    } else {
      var next := Next(s, es[0]);
      StepKeeps(s, es[0]);
      LogStory(next, es[1..], id);
      LogSplit(LogBefore(s, id), Lines(s, es[0], id), AllLines(next, es[1..], id));
      if id in next.table.jobs {
        assert id in s.table.jobs ==> Builder.GoodRecord(s, id);
        LineStep(s, es[0], id);
      } else {
        if id in next.tasks {
          GoneStays(next, es[1..], id);
        }
        NothingLogged(s, es[0], id);
      }
    }
  }

  /** A job goes exactly when its tenant removes it, and a removed job does not come back while its task is known. */
  lemma Removal(s: State, e: Event, id: string)
    requires Builder.Inv(s) && id in s.table.jobs
    ensures id in Next(s, e).table.jobs <==> !(e.Remove? && e.id == id && e.tenant == s.table.jobs[id].tenant)
    ensures id in Next(s, e).tasks
  {
  }

  /** Once the service shuts down no waiting build starts, and the service does not open again. */
  lemma ShutdownStays(s: State, e: Event, id: string)
    requires s.closed && id in s.tasks && s.tasks[id].Waiting?
    ensures Next(s, e).closed && id in Next(s, e).tasks
    ensures Next(s, e).tasks[id].Waiting? || (Next(s, e).tasks[id].Finished? && e == Refuse(id))
  {
  }

  /** A waiting build can start exactly when a permit is free and the service is not shut down. */
  lemma StartsIff(s: State, id: string)
    requires id in s.tasks && s.tasks[id].Waiting?
    ensures Next(s, Acquire(id)).tasks[id].Acquired? <==> s.permits > 0 && !s.closed
    ensures Next(s, Acquire(id)).tasks[id].Acquired? ==> Next(s, Acquire(id)).permits == s.permits - 1
  {
  }

  /** Who may see a job gets its whole log at once, and then the channel from there on; nobody else gets anything. */
  lemma SubscribeStory(s: State, id: string, tenant: string)
    requires Builder.Inv(s)
    ensures var t, owner := Next(s, Subscribe(id, tenant)), id in s.table.jobs && s.table.jobs[id].tenant == tenant;
            t.receivers ==
            if owner then s.receivers + [Receiver(id, |s.table.sent[id]|, s.table.jobs[id].log, false)] else s.receivers
  {
    if id in s.table.jobs {
      assert Builder.GoodRecord(s, id);
    }
  }

  /**
   A receiver shows the next line of its channel, or, when it is more than 256 lines behind,
   skips to the oldest kept.
   */
  lemma ReceiveStory(s: State, k: nat, sent: seq<string>)
    requires Builder.Inv(s) && k < |s.receivers|
    requires s.receivers[k].id in s.table.sent && s.table.sent[s.receivers[k].id] == sent
    ensures s.receivers[k].next <= |sent| && |Next(s, Receive(k)).receivers| == |s.receivers|
    ensures var r, q := s.receivers[k], Next(s, Receive(k)).receivers[k];
            && (r.next == |sent| ==> q == r)
            && (r.next < |sent| <= r.next + 256 ==>
                  q == Receiver(r.id, r.next + 1, r.seen + [sent[r.next]], r.lagged))
            && (r.next + 256 < |sent| ==> q == Receiver(r.id, |sent| - 256, r.seen, true))
  {
    assert GoodReceiver(s.table, s.receivers[k]);
  }
}
