/** The store of jobs and their events, and the streams attached to it. */
module JobStore {
  import opened Wrappers
  import opened Sequences
  import opened EventStream

  datatype JobStatus = Queued | Running | Completed | CompletedWithIssues | Failed

  function StatusName(status: JobStatus): string {
    match status
    case Queued => "queued"
    case Running => "running"
    case Completed => "completed"
    case CompletedWithIssues => "completed_with_issues"
    case Failed => "failed"
  }

  predicate IsTerminal(status: JobStatus) {
    status == Completed || status == CompletedWithIssues || status == Failed
  }

  function StatusKind(status: JobStatus): string {
    JOB_PREFIX + StatusName(status)
  }

  datatype Job = Job(
    id: string, status: JobStatus, input: string, createdAt: string, updatedAt: string,
    events: seq<JobEvent>, issueCount: nat)

  /** A response that streams the events of a job: what it has written, whether it still
      listens, and whether the server ended it. */
  datatype Stream = Stream(jobId: string, written: string, subscribed: bool, ended: bool)

  ghost predicate Numbered(events: seq<JobEvent>) {
    forall i :: 0 <= i < |events| ==> events[i].id == i + 1
  }

  /** The event says that the job has finished. */
  ghost predicate Finishes(e: JobEvent) {
    exists status :: IsTerminal(status) && e.kind == StatusKind(status)
  }

  /** The kinds of event that say so. */
  lemma FinishingKinds(e: JobEvent)
    ensures Finishes(e) <==>
      e.kind == "job.completed" || e.kind == "job.completed_with_issues" || e.kind == "job.failed"
  {
    StatusKinds();
    if e.kind == "job.completed" {
      assert e.kind == StatusKind(Completed);
    } else if e.kind == "job.completed_with_issues" {
      assert e.kind == StatusKind(CompletedWithIssues);
    } else if e.kind == "job.failed" {
      assert e.kind == StatusKind(Failed);
    }
  }

  lemma StatusKinds()
    ensures StatusKind(Queued) == "job.queued" && StatusKind(Running) == "job.running"
    ensures StatusKind(Completed) == "job.completed" && StatusKind(Failed) == "job.failed"
    ensures StatusKind(CompletedWithIssues) == "job.completed_with_issues"
  {
  }

  ghost predicate HasWritten(json: Json, events: seq<JobEvent>, written: string, n: nat) {
    n <= |events| && written == TextOf(json, events[..n])
  }

  /** A stream that listens has written every event so far, one that was ended the events up
      to one that finishes the job, and one that was left some of the events. */
  ghost predicate Tracks(json: Json, jobs: map<string, Job>, s: Stream) {
    && s.jobId in jobs && !(s.subscribed && s.ended)
    && var events := jobs[s.jobId].events;
       && (s.subscribed ==> HasWritten(json, events, s.written, |events|))
       && (s.ended ==> exists n :: HasWritten(json, events, s.written, n) && n > 0 && Finishes(events[n - 1]))
       && (!s.subscribed && !s.ended ==> exists n :: HasWritten(json, events, s.written, n))
  }

  ghost predicate Live(jobs: map<string, Job>, s: Stream) {
    s.subscribed && s.jobId in jobs ==> !IsTerminal(jobs[s.jobId].status)
  }

  ghost predicate AllTrack(json: Json, jobs: map<string, Job>, streams: map<nat, Stream>) {
    forall k {:trigger Tracks(json, jobs, streams[k])} :: k in streams ==>
      Tracks(json, jobs, streams[k]) && Live(jobs, streams[k])
  }

  /** Changing no event of a job keeps every stream in step. */
  lemma StatusTracks(json: Json, jobs: map<string, Job>, streams: map<nat, Stream>, id: string, job: Job)
    requires AllTrack(json, jobs, streams) && id in jobs && job.events == jobs[id].events
    ensures forall k :: k in streams ==> Tracks(json, jobs[id := job], streams[k])
    ensures forall k :: k in streams && streams[k].jobId != id ==> Live(jobs[id := job], streams[k])
  {
    forall k | k in streams
      ensures Tracks(json, jobs[id := job], streams[k])
      ensures streams[k].jobId != id ==> Live(jobs[id := job], streams[k])
    {
      assert Tracks(json, jobs, streams[k]) && Live(jobs, streams[k]);
    }
  }

  lemma OneMoreTracks(json: Json, jobs: map<string, Job>, streams: map<nat, Stream>, k: nat, s: Stream)
    requires AllTrack(json, jobs, streams) && Tracks(json, jobs, s) && Live(jobs, s)
    ensures AllTrack(json, jobs, streams[k := s])
  {
    var streams' := streams[k := s];
    forall i | i in streams'
      ensures Tracks(json, jobs, streams'[i]) && Live(jobs, streams'[i])
    {
      assert i != k ==> Tracks(json, jobs, streams[i]);
    }
  }

  /** A stream after an event of the job has been emitted. */
  function Delivered(json: Json, s: Stream, id: string, status: JobStatus, e: JobEvent): Stream {
    if s.subscribed && s.jobId == id
    then s.(written := s.written + Frame(json, e), subscribed := !IsTerminal(status),
      ended := s.ended || IsTerminal(status))
    else s
  }

  lemma TakePrefix<T>(xs: seq<T>, ys: seq<T>, n: nat)
    requires n <= |xs|
    ensures (xs + ys)[..n] == xs[..n]
  {
  }

  /** An event of the job leaves every stream tracking it. */
  lemma DeliveredTracks(json: Json, jobs: map<string, Job>, id: string, e: JobEvent, job': Job, s: Stream)
    requires id in jobs && Tracks(json, jobs, s) && job'.events == jobs[id].events + [e]
    requires s.subscribed && s.jobId == id && IsTerminal(job'.status) ==> Finishes(e)
    ensures Tracks(json, jobs[id := job'], Delivered(json, s, id, job'.status, e))
  {
    var events, events' := jobs[id].events, job'.events;
    if s.jobId == id {
      if s.subscribed {
        assert events[..|events|] == events && events'[..|events'|] == events';
        assert Front(events') == events;
        assert HasWritten(json, events', s.written + Frame(json, e), |events'|);
        assert events'[|events'| - 1] == e;
      } else {
        var n :| HasWritten(json, events, s.written, n) && (s.ended ==> n > 0 && Finishes(events[n - 1]));
        TakePrefix(events, [e], n);
        assert HasWritten(json, events', s.written, n);
      }
    } else {
      assert jobs[id := job'][s.jobId] == jobs[s.jobId];
    }
  }

  lemma StartsTracking(json: Json, jobs: map<string, Job>, id: string)
    requires id in jobs
    ensures Tracks(json, jobs, Stream(id, TextOf(json, jobs[id].events), true, false))
  {
    assert jobs[id].events[..|jobs[id].events|] == jobs[id].events;
  }

  lemma StopsTracking(json: Json, jobs: map<string, Job>, s: Stream)
    requires Tracks(json, jobs, s)
    ensures Tracks(json, jobs, s.(subscribed := false))
  {
  }

  /** Writes the greeting and the events so far. */
  method WriteAll(json: Json, events: seq<JobEvent>) returns (text: string)
    ensures text == TextOf(json, events)
  {
    text := GREETING + "\n\n";
    var i := 0;
    assert events[..0] == [];
    while i < |events|
      invariant 0 <= i <= |events| && text == TextOf(json, events[..i])
    {
      TakeNext(events, i);
      assert Front(events[..i + 1]) == events[..i];
      text := WriteSse(json, text, events[i]);
      i := i + 1;
    }
    assert events[..i] == events;
  }

  class JobStore {
    const json: Json
    var jobs: map<string, Job>
    var streams: map<nat, Stream>

    constructor (json: Json)
      ensures Valid() && jobs == map[] && streams == map[] && this.json == json
    {
      this.json := json;
      jobs, streams := map[], map[];
    }

    /** Events are numbered from 1, and every stream tracks its job. */
    ghost predicate Valid()
      reads this
    {
      && (forall id :: id in jobs ==> jobs[id].id == id && Numbered(jobs[id].events))
      && AllTrack(json, jobs, streams)
    }

    /** What holds before the event of a status change: the job's own streams may still listen
        although its status is terminal, and then the event says so. */
    ghost predicate Emitting(id: string, kind: string)
      reads this
    {
      && (forall i :: i in jobs ==> jobs[i].id == i && Numbered(jobs[i].events))
      && (forall k :: k in streams ==>
        Tracks(json, jobs, streams[k]) && (streams[k].jobId != id ==> Live(jobs, streams[k])))
      && (forall k ::
        k in streams && streams[k].subscribed && streams[k].jobId == id && id in jobs && IsTerminal(jobs[id].status) ==>
            kind == StatusKind(jobs[id].status))
    }

    /** Hands an event to every stream that listens to the job, in any order. */
    method Emit(id: string, e: JobEvent)
      requires id in jobs
      modifies this`streams
      ensures streams == map k | k in old(streams) :: Delivered(json, old(streams)[k], id, jobs[id].status, e)
    {
      var rest := streams.Keys;
      while rest != {}
        invariant rest <= streams.Keys == old(streams).Keys
        invariant forall k :: k in rest ==> streams[k] == old(streams)[k]
        invariant forall k :: k in streams && k !in rest ==>
          streams[k] == Delivered(json, old(streams)[k], id, jobs[id].status, e)
        decreases rest
      {
        var k :| k in rest;
        var s := streams[k];
        if s.subscribed && s.jobId == id {
          var written := WriteSse(json, s.written, e);
          streams := streams[k := s.(written := written)];
          if IsTerminal(jobs[id].status) {
            streams := streams[k := streams[k].(subscribed := false, ended := true)];
          }
        }
        rest := rest - {k};
      }
    }

    /** Appends an event to a job and emits it; None for an unknown job. */
    method AddEvent(id: string, kind: string, data: Data, now: string) returns (r: Option<JobEvent>)
      requires Emitting(id, kind)
      modifies this
      ensures Valid()
      ensures id !in old(jobs) ==> r == None && jobs == old(jobs) && streams == old(streams)
      ensures id in old(jobs) ==> (
        var before, e := old(jobs)[id], JobEvent(|old(jobs)[id].events| + 1, kind, now, data);
        && r == Some(e)
        && jobs == old(jobs)[id := before.(events := before.events + [e], updatedAt := now)]
        && streams == map k | k in old(streams) :: Delivered(json, old(streams)[k], id, before.status, e))
    {
      if id !in jobs {
        return None;
      }
      var job := jobs[id];
      var e := JobEvent(|job.events| + 1, kind, now, data);
      ghost var jobs0, streams0 := jobs, streams;
      jobs := jobs[id := job.(events := job.events + [e], updatedAt := now)];
      Emit(id, e);
      forall k | k in streams
        ensures Tracks(json, jobs, streams[k]) && Live(jobs, streams[k])
      {
        DeliveredTracks(json, jobs0, id, e, jobs[id], streams0[k]);
      }
      return Some(e);
    }

    /** Adds a queued job under a new id. */
    method Create(id: string, input: string, data: Data, now: string)
      requires Valid() && id !in jobs
      modifies this
      ensures Valid() && streams == old(streams)
      ensures jobs == old(jobs)[id := Job(id, Queued, input, now, now, [JobEvent(1, "job.queued", now, data)], 0)]
    {
      ghost var jobs0, streams0 := jobs, streams;
      jobs := jobs[id := Job(id, Queued, input, now, now, [], 0)];
      forall k | k in streams
        ensures streams[k].jobId != id && Tracks(json, jobs, streams[k]) && Live(jobs, streams[k])
      {
        assert Tracks(json, jobs0, streams[k]) && Live(jobs0, streams[k]);
      }
      var e := AddEvent(id, "job.queued", data, now);
      assert [] + [e.value] == [e.value];
      assert streams == streams0;
    }

    /** Changes the status of a job and emits the change. When the status is terminal, that
        event is the last of every stream that listened. */
    method SetStatus(id: string, status: JobStatus, data: Data, now: string)
      requires Valid()
      modifies this
      ensures Valid()
      ensures id !in old(jobs) ==> jobs == old(jobs) && streams == old(streams)
      ensures id in old(jobs) ==> (
        var before, e := old(jobs)[id], JobEvent(|old(jobs)[id].events| + 1, StatusKind(status), now, data);
        && jobs == old(jobs)[id := before.(status := status, events := before.events + [e], updatedAt := now)]
        && streams == map k | k in old(streams) :: Delivered(json, old(streams)[k], id, status, e))
      ensures id in old(jobs) && (status == Completed || status == CompletedWithIssues || status == Failed) ==>
        forall k :: k in old(streams) && old(streams)[k].subscribed && old(streams)[k].jobId == id ==>
          k in streams && !streams[k].subscribed && streams[k].ended
      ensures status == Queued || status == Running ==>
        forall k :: k in old(streams) && old(streams)[k].subscribed ==> k in streams && streams[k].subscribed
    {
      if id !in jobs {
        return;
      }
      ghost var jobs0 := jobs;
      jobs := jobs[id := jobs[id].(status := status, updatedAt := now)];
      StatusTracks(json, jobs0, streams, id, jobs[id]);
      var e := AddEvent(id, StatusKind(status), data, now);
    }

    method MarkIssue(id: string, now: string)
      requires Valid()
      modifies this`jobs
      ensures Valid()
      ensures jobs == if id in old(jobs) then
                        old(jobs)[id := old(jobs)[id].(issueCount := old(jobs)[id].issueCount + 1, updatedAt := now)]
                      else old(jobs)
    {
      if id in jobs {
        ghost var jobs0 := jobs;
        jobs := jobs[id := jobs[id].(issueCount := jobs[id].issueCount + 1, updatedAt := now)];
        forall k | k in streams
          ensures Tracks(json, jobs, streams[k]) && Live(jobs, streams[k])
        {
          assert Tracks(json, jobs0, streams[k]) && Live(jobs0, streams[k]);
        }
      }
    }

    /** Answers a request for a job's events: with all of them if the job has finished, and
        otherwise with those so far and a stream, under a new number, of those to come. */
    method StreamEvents(id: string, k: nat) returns (written: Option<string>)
      requires Valid() && k !in streams
      modifies this`streams
      ensures Valid()
      ensures written == if id in jobs then Some(TextOf(json, jobs[id].events)) else None
      ensures written.Some? ==> ": connected\n\n" <= written.value
      ensures streams == if id in jobs && (jobs[id].status == Queued || jobs[id].status == Running)
                         then old(streams)[k := Stream(id, TextOf(json, jobs[id].events), true, false)]
                         else old(streams)
    {
      if id !in jobs {
        return None;
      }
      var text := WriteAll(json, jobs[id].events);
      TextBegins(json, jobs[id].events);
      if !IsTerminal(jobs[id].status) {
        StartsTracking(json, jobs, id);
        OneMoreTracks(json, jobs, streams, k, Stream(id, text, true, false));
        streams := streams[k := Stream(id, text, true, false)];
      }
      return Some(text);
    }

    /** The client of a stream has gone. */
    method Close(k: nat)
      requires Valid() && k in streams
      modifies this`streams
      ensures Valid() && streams == old(streams)[k := old(streams)[k].(subscribed := false)]
    {
      StopsTracking(json, jobs, streams[k]);
      OneMoreTracks(json, jobs, streams, k, streams[k].(subscribed := false));
      streams := streams[k := streams[k].(subscribed := false)];
    }
  }

  // ----- What a client sees

  /** A client that attached while its job was live, and whose stream has ended, has shown
      exactly the events 1 to n up to one that finished the job, each once and in order, and
      the status they led to, however the text reached it. */
  lemma LiveClientSees(json: Json, jobs: map<string, Job>, s: Stream, chunks: seq<string>) returns (n: nat)
    requires Faithful(json) && Tracks(json, jobs, s) && s.ended && Concatenated(chunks) == s.written
    requires Numbered(jobs[s.jobId].events) && SingleLineKinds(jobs[s.jobId].events)
    ensures 0 < n <= |jobs[s.jobId].events|
    ensures jobs[s.jobId].events[n - 1].kind in ["job.completed", "job.completed_with_issues", "job.failed"]
    ensures Shows(Reading(json, Concatenated(chunks)), jobs[s.jobId].events, n)
  {
    var events := jobs[s.jobId].events;
    n :| HasWritten(json, events, s.written, n) && n > 0 && Finishes(events[n - 1]);
    FinishingKinds(events[n - 1]);
    ReadsToFinish(json, events, n);
  }

  /** The client has shown the first n events, numbered from 1, and the status of the last. */
  ghost predicate Shows(read: Result<Shown, string>, events: seq<JobEvent>, n: nat)
    requires 0 < n <= |events|
  {
    && read.Ok? && read.value.events == events[..n] && Numbered(read.value.events)
    && StatusKindShown(read.value.status, events[n - 1])
  }

  lemma ShowsFinish(read: Result<Shown, string>, events: seq<JobEvent>, n: nat)
    requires Numbered(events) && 0 < n <= |events| && Finishes(events[n - 1])
    requires read == Ok(Shown(events[..n], StatusAfterAll(events[..n])))
    ensures Shows(read, events, n)
  {
    FinishShown(events[..n], events[n - 1]);
  }

  lemma ReadsToFinish(json: Json, events: seq<JobEvent>, n: nat)
    requires Faithful(json) && SingleLineKinds(events) && Numbered(events) && 0 < n <= |events|
    requires Finishes(events[n - 1])
    ensures Shows(Reading(json, TextOf(json, events[..n])), events, n)
  {
    ReadsPrefix(json, events, n);
    ShowsFinish(Reading(json, TextOf(json, events[..n])), events, n);
  }

  lemma ReadsPrefix(json: Json, events: seq<JobEvent>, n: nat)
    requires Faithful(json) && SingleLineKinds(events) && n <= |events|
    ensures Reading(json, TextOf(json, events[..n])) == Ok(Shown(events[..n], StatusAfterAll(events[..n])))
  {
    assert forall e :: e in events[..n] ==> e in events;
    StreamRoundTrip(json, events[..n]);
  }

  lemma FinishShown(events: seq<JobEvent>, e: JobEvent)
    requires events != [] && Last(events) == e && Finishes(e)
    ensures StatusKindShown(StatusAfterAll(events), e)
  {
    var status :| IsTerminal(status) && e.kind == StatusKind(status);
    assert e.kind == JOB_PREFIX + e.kind[4..];
  }

  /** The status shown is the one the event names. */
  ghost predicate StatusKindShown(shown: string, e: JobEvent) {
    e.kind == JOB_PREFIX + shown
  }

  /** A client that is still listening, or has gone, has been sent a prefix of the events. */
  lemma ClientSeesPrefix(json: Json, jobs: map<string, Job>, s: Stream, chunks: seq<string>)
    requires Faithful(json) && Tracks(json, jobs, s) && Concatenated(chunks) == s.written
    requires SingleLineKinds(jobs[s.jobId].events)
    ensures var shown := Reading(json, Concatenated(chunks)); shown.Ok? && shown.value.events <= jobs[s.jobId].events
  {
    var events := jobs[s.jobId].events;
    var n: nat := |events|;
    if !s.subscribed {
      n :| HasWritten(json, events, s.written, n);
    }
    ReadsPrefix(json, events, n);
  }
}
