/**
 The build service's job table (crates/omp-builder/src/jobs.rs:119-211). Every
 operation holds the table's lock, so each is one atomic step. A job's broadcast
 channel is kept beside its record, because receivers outlive a deleted job.
 */
module Jobs {
  import opened Objects

  /** `Built` is the source's `Ok`. */
  datatype JobState = Queued | Building | Built | Failed | Cancelled

  datatype Artifact = Artifact(path: string, bytes: seq<Byte>)

  datatype Job = Job(
    tenant: string,
    namespace: string,
    name: string,
    state: JobState,
    artifacts: Option<seq<Artifact>>,
    error: Option<string>,
    log: seq<string>)

  /** The records, and for each channel ever made the lines sent on it. */
  datatype Table = Table(jobs: map<string, Job>, sent: map<string, seq<string>>)

  function NewJob(tenant: string, namespace: string, name: string): Job {
    Job(tenant, namespace, name, Queued, None, None, [])
  }

  function Create(t: Table, id: string, tenant: string, namespace: string, name: string): Table {
    Table(t.jobs[id := NewJob(tenant, namespace, name)], t.sent[id := []])
  }

  function Update(t: Table, id: string, f: Job -> Job): Table {
    if id in t.jobs then t.(jobs := t.jobs[id := f(t.jobs[id])]) else t
  }

  function AppendLog(t: Table, id: string, line: string): Table {
    if id in t.jobs && id in t.sent then
      Table(t.jobs[id := t.jobs[id].(log := t.jobs[id].log + [line])], t.sent[id := t.sent[id] + [line]])
    else t
  }

  predicate Owns(t: Table, id: string, tenant: string) {
    id in t.jobs && t.jobs[id].tenant == tenant
  }

  function Delete(t: Table, id: string, tenant: string): Table {
    if Owns(t, id, tenant) then t.(jobs := t.jobs - {id}) else t
  }

  /** What one tenant can reach. */
  function Only(t: Table, tenant: string): Table {
    t.(jobs := map id | id in t.jobs && t.jobs[id].tenant == tenant :: t.jobs[id])
  }

  /** A subscription: the log so far, and the position from which the channel is tailed. */
  datatype Subscription = Subscription(replay: seq<string>, from: nat)

  class JobsTable {
    var inner: map<string, Job>
    var channels: map<string, seq<string>>

    ghost predicate Valid()
      reads this
    {
      inner.Keys <= channels.Keys && forall id | id in inner :: channels[id] == inner[id].log
    }

    function Contents(): Table
      reads this
    {
      Table(inner, channels)
    }

    constructor ()
      ensures Valid() && Contents() == Table(map[], map[])
    {
      inner, channels := map[], map[];
    }

    /** `create`, for a fresh id. */
    method CreateJob(id: string, tenant: string, namespace: string, name: string)
      requires Valid() && id !in channels
      modifies this
      ensures Valid() && Contents() == Create(old(Contents()), id, tenant, namespace, name)
      ensures inner == old(inner)[id := Job(tenant, namespace, name, Queued, None, None, [])]
      ensures channels == old(channels)[id := []]
    {
      var job := Job(tenant, namespace, name, Queued, None, None, []);
      channels := channels[id := []];
      inner := inner[id := job];
    }

    /** `view`: another tenant's job looks like no job at all. */
    method View(id: string, tenant: string) returns (r: Option<Job>)
      ensures r.Some? <==> Owns(Contents(), id, tenant)
      ensures r.Some? ==> r.value == inner[id]
      ensures id !in Only(Contents(), tenant).jobs ==> r == None
    {
      if id !in inner {
        return None;
      }
      var job := inner[id];
      if job.tenant != tenant {
        return None;
      }
      r := Some(job);
    }

    /** `update`; a job deleted meanwhile is left alone. The closures used never touch the log. */
    method UpdateJob(id: string, f: Job -> Job)
      requires Valid() && forall j :: f(j).log == j.log
      modifies this
      ensures Valid() && Contents() == Update(old(Contents()), id, f)
      ensures inner == if id in old(inner) then old(inner)[id := f(old(inner)[id])] else old(inner)
      ensures channels == old(channels)
    {
      if id in inner {
        inner := inner[id := f(inner[id])];
      }
    }

    /** `append_log`: buffer and channel grow together. */
    method Append(id: string, line: string)
      requires Valid()
      modifies this
      ensures Valid() && Contents() == AppendLog(old(Contents()), id, line)
      ensures id !in old(inner) ==> inner == old(inner) && channels == old(channels)
      ensures id in old(inner) ==>
                && inner == old(inner)[id := old(inner)[id].(log := old(inner)[id].log + [line])]
                && channels == old(channels)[id := old(channels)[id] + [line]]
    {
      if id in inner {
        var job := inner[id];
        inner := inner[id := job.(log := job.log + [line])];
        channels := channels[id := channels[id] + [line]];
      }
    }

    /** `subscribe_log`: replay and tail meet without gap or overlap, since both are taken under the lock. */
    method SubscribeLog(id: string, tenant: string) returns (r: Option<Subscription>)
      requires Valid()
      ensures r.Some? <==> Owns(Contents(), id, tenant)
      ensures r.Some? ==>
              r.value.from <= |channels[id]| && r.value.replay == channels[id][..r.value.from]
                  && r.value.replay == inner[id].log
    {
      if id !in inner {
        return None;
      }
      var job := inner[id];
      if job.tenant != tenant {
        return None;
      }
      r := Some(Subscription(job.log, |channels[id]|));
      assert channels[id][..|channels[id]|] == channels[id];
    }

    /** `delete`: only the owner's job goes; its channel keeps what was sent. */
    method DeleteJob(id: string, tenant: string) returns (gone: bool)
      requires Valid()
      modifies this
      ensures Valid() && Contents() == Delete(old(Contents()), id, tenant)
      ensures gone <==> id in old(inner) && old(inner)[id].tenant == tenant
      ensures inner == (if gone then old(inner) - {id} else old(inner)) && channels == old(channels)
      ensures forall other | other != tenant :: Only(Contents(), other) == Only(old(Contents()), other)
    {
      if id !in inner {
        return false;
      }
      if inner[id].tenant != tenant {
        return false;
      }
      inner := inner - {id};
      gone := true;
      forall other | other != tenant ensures Only(Contents(), other) == Only(old(Contents()), other) {
        assert Only(Contents(), other).jobs == Only(old(Contents()), other).jobs;
      }
    }
  }
}
