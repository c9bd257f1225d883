/** The compile job whose log is relayed to pollers (wirestudio/esphome_dashboard/__init__.py:315-375).
    The dashboard's event stream and error texts are inputs. */
module CompileRelay {
  import opened Options

  datatype StreamEvent = Output(data: string) | Finish(ok: bool, reason: string)

  /** How the relay ends: the stream runs out, its asyncio task is cancelled in the
      middle, the dashboard goes away, or the relay itself fails. Cancellation passes both
      handlers and reaches the `finally` only. */
  datatype Ending = Closed | Cancelled | Unavailable(text: string) | Crashed(text: string)

  datatype Job = Job(log: string, finished: bool, ok: Option<bool>, error: Option<string>)

  datatype Chunk = Chunk(log: string, offset: int, finished: bool)

  const STARTED := Job("", false, None, None)

  function Line(data: string): string
  {
    if data != "" && data[|data| - 1] == '\n' then data else data + "\n"
  }

  function Feed(j: Job, e: StreamEvent): Job
  {
    match e
    case Output(data) => j.(log := j.log + Line(data))
    case Finish(ok, reason) => j.(ok := Some(ok), error := if reason != "" then Some(reason) else j.error)
  }

  function Trailer(end: Ending): string
  {
    match end
    case Closed => ""
    case Cancelled => ""
    case Unavailable(text) => "\n[" + text + "]\n"
    case Crashed(text) => "\n[compile relay failed: " + text + "]\n"
  }

  function End(j: Job, end: Ending): Job
  {
    if end.Closed? || end.Cancelled? then j.(ok := if j.ok.None? then Some(false) else j.ok, finished := true)
    else Job(j.log + Trailer(end), true, Some(false), Some(end.text))
  }

  function FeedAll(j: Job, events: seq<StreamEvent>, n: nat): Job
    requires n <= |events|
  {
    if n == 0 then j else Feed(FeedAll(j, events, n - 1), events[n - 1])
  }

  function ChunkAt(j: Job, offset: int): Chunk
  {
    var start := if offset < 0 then 0 else if offset > |j.log| then |j.log| else offset;
    Chunk(j.log[start..], |j.log|, j.finished)
  }

  class DashboardJob {
    var log: string
    var finished: bool
    var ok: Option<bool>
    var error: Option<string>

    function View(): Job
      reads this
    {
      Job(log, finished, ok, error)
    }

    constructor ()
      ensures View() == STARTED
    {
      log, finished, ok, error := "", false, None, None;
    }

    method Take(e: StreamEvent)
      modifies this
      ensures View() == Feed(old(View()), e)
    {
      match e {
        case Output(data) =>
          log := log + if data != "" && data[|data| - 1] == '\n' then data else data + "\n";
        case Finish(success, reason) =>
          ok := Some(success);
          if reason != "" {
            error := Some(reason);
          }
      }
    }

    /** The whole of `_run`, its `finally` included. */
    method Relay(events: seq<StreamEvent>, end: Ending)
      modifies this
      ensures View() == End(FeedAll(old(View()), events, |events|), end)
    {
      for n := 0 to |events|
        invariant View() == FeedAll(old(View()), events, n)
      {
        Take(events[n]);
      }
      match end {
        case Closed =>
        case Cancelled =>
        case Unavailable(text) =>
          ok, error := Some(false), Some(text);
          log := log + ("\n[" + text + "]\n");
        case Crashed(text) =>
          ok, error := Some(false), Some(text);
          log := log + ("\n[compile relay failed: " + text + "]\n");
      }
      if ok.None? {
        ok := Some(false);
      }
      finished := true;
    }
  }

  class DashboardJobs {
    var jobs: map<string, DashboardJob>

    constructor ()
      ensures jobs == map[]
    {
      jobs := map[];
    }

    /** The run id is drawn at random; nothing checks it against the ids in use. */
    method Start(runId: string) returns (job: DashboardJob)
      modifies this
      ensures fresh(job) && job.View() == STARTED && jobs == old(jobs)[runId := job]
    {
      job := new DashboardJob();
      jobs := jobs[runId := job];
    }

    method Log(runId: string, offset: int) returns (r: Option<Chunk>)
      ensures r == if runId in jobs then Some(ChunkAt(jobs[runId].View(), offset)) else None
    {
      if runId !in jobs { return None; }
      var job := jobs[runId];
      var start := if offset > 0 then offset else 0;
      var text := if start <= |job.log| then job.log[start..] else "";
      assert job.log[|job.log|..] == "";
      return Some(Chunk(text, |job.log|, job.finished));
    }
  }

  // -------------------------------------------------------------------- runs

  /** A client: the offset it was last given, all it has received, whether it saw the end. */
  datatype Poller = Poller(offset: int, got: string, done: bool)

  const ARRIVED := Poller(0, "", false)

  type System = (Job, map<nat, Poller>)

  /** One turn of the event loop: the relay takes an event or ends, or some client polls. */
  datatype Turn = Fed(event: StreamEvent) | Ended(end: Ending) | Polled(client: nat)

  function PollerOf(pollers: map<nat, Poller>, client: nat): Poller
  {
    if client in pollers then pollers[client] else ARRIVED
  }

  function Poll(j: Job, p: Poller): Poller
  {
    var chunk := ChunkAt(j, p.offset);
    Poller(chunk.offset, p.got + chunk.log, p.done || chunk.finished)
  }

  /** The relay is gone once it has ended. */
  function Step(s: System, t: Turn): System
  {
    var (job, pollers) := s;
    match t
    case Fed(e) => (if job.finished then job else Feed(job, e), pollers)
    case Ended(end) => (if job.finished then job else End(job, end), pollers)
    case Polled(client) => (job, pollers[client := Poll(job, PollerOf(pollers, client))])
  }

  function Run(turns: seq<Turn>, n: nat): System
    requires n <= |turns|
  {
    if n == 0 then (STARTED, map[]) else Step(Run(turns, n - 1), turns[n - 1])
  }

  ghost predicate InStep(j: Job, p: Poller)
  {
    && 0 <= p.offset <= |j.log| && p.got == j.log[..p.offset]
    && (p.done ==> j.finished && p.got == j.log)
  }

  lemma PollKeepsStep(j: Job, p: Poller)
    requires InStep(j, p)
    ensures InStep(j, Poll(j, p)) && Poll(j, p).got == j.log && (Poll(j, p).done <==> j.finished)
  {
    assert j.log[..p.offset] + j.log[p.offset..] == j.log;
  }

  lemma FeedKeepsStep(j: Job, p: Poller, t: Turn)
    requires InStep(j, p) && !t.Polled?
    ensures InStep(Step((j, map[]), t).0, p)
  {
    var after := Step((j, map[]), t).0;
    assert j.log <= after.log;
    assert after.log[..p.offset] == j.log[..p.offset];
  }

  /** Any client that passes back each offset it is given has received a prefix of the log, and
      the whole final log once it has seen the end. */
  lemma {:induction false} PollersHaveAPrefix(turns: seq<Turn>, n: nat, client: nat)
    requires n <= |turns|
    ensures
      var (job, pollers) := Run(turns, n);
      var p := PollerOf(pollers, client);
      p.got <= job.log && |p.got| == p.offset && (p.done ==> job.finished && p.got == job.log)
  {
    EveryoneInStep(turns, n, client);
  }

  lemma {:induction false} EveryoneInStep(turns: seq<Turn>, n: nat, client: nat)
    requires n <= |turns|
    ensures InStep(Run(turns, n).0, PollerOf(Run(turns, n).1, client))
  {
    if n > 0 {
      EveryoneInStep(turns, n - 1, client);
      var (job, pollers) := Run(turns, n - 1);
      var p := PollerOf(pollers, client);
      if turns[n - 1].Polled? {
        PollKeepsStep(job, p);
      } else {
        FeedKeepsStep(job, p, turns[n - 1]);
      }
    }
  }

  /** `finished` is sticky and freezes the job; before it, the log only grows. */
  lemma {:induction false} FinishedFreezes(turns: seq<Turn>, m: nat, n: nat)
    requires m <= n <= |turns|
    ensures Run(turns, m).0.finished ==> Run(turns, n).0 == Run(turns, m).0
    ensures Run(turns, m).0.log <= Run(turns, n).0.log
  {
    if m < n {
      FinishedFreezes(turns, m, n - 1);
    }
  }

  /** So a client that is done at some turn has, then and ever after, the log as it will stay. */
  lemma DoneHasFinalLog(turns: seq<Turn>, m: nat, n: nat, client: nat)
    requires m <= n <= |turns| && PollerOf(Run(turns, m).1, client).done
    ensures PollerOf(Run(turns, m).1, client).got == Run(turns, n).0.log
    ensures Run(turns, n).0.finished
  {
    hide Run;
    PollersHaveAPrefix(turns, m, client);
    FinishedFreezes(turns, m, n);
  }

  /** And one poll after the end is enough to be done. */
  lemma OnePollAfterTheEnd(turns: seq<Turn>, n: nat)
    requires n < |turns| && Run(turns, n).0.finished && turns[n].Polled?
    ensures PollerOf(Run(turns, n + 1).1, turns[n].client).done
    ensures PollerOf(Run(turns, n + 1).1, turns[n].client).got == Run(turns, n + 1).0.log
  {
    EveryoneInStep(turns, n, turns[n].client);
    PollKeepsStep(Run(turns, n).0, PollerOf(Run(turns, n).1, turns[n].client));
  }

  // ------------------------------------------------- what the log finally holds

  /** The events taken before the relay ended. */
  function Taken(turns: seq<Turn>, n: nat): seq<StreamEvent>
    requires n <= |turns|
  {
    if n == 0 then []
    else Taken(turns, n - 1) + if turns[n - 1].Fed? && EndOf(turns, n - 1).None? then [turns[n - 1].event] else []
  }

  function EndOf(turns: seq<Turn>, n: nat): Option<Ending>
    requires n <= |turns|
  {
    if n == 0 then None
    else if EndOf(turns, n - 1).Some? then EndOf(turns, n - 1)
    else if turns[n - 1].Ended? then Some(turns[n - 1].end)
    else None
  }

  lemma {:induction false} FeedAllPrefix(j: Job, events: seq<StreamEvent>, more: seq<StreamEvent>, n: nat)
    requires n <= |events|
    ensures FeedAll(j, events + more, n) == FeedAll(j, events, n)
  {
    if n > 0 {
      FeedAllPrefix(j, events, more, n - 1);
    }
  }

  lemma {:induction false} FeedingDoesNotFinish(events: seq<StreamEvent>, n: nat)
    requires n <= |events|
    ensures !FeedAll(STARTED, events, n).finished
  {
    if n > 0 {
      FeedingDoesNotFinish(events, n - 1);
    }
  }

  lemma OneMoreTaken(turns: seq<Turn>, n: nat)
    requires n < |turns|
    ensures
      var before, after := Taken(turns, n), Taken(turns, n + 1);
      FeedAll(STARTED, after, |after|)
      == if turns[n].Fed? && EndOf(turns, n).None? then Feed(FeedAll(STARTED, before, |before|), turns[n].event)
         else FeedAll(STARTED, before, |before|)
  {
    hide Feed, EndOf;
    var taken := Taken(turns, n);
    if turns[n].Fed? && EndOf(turns, n).None? {
      var more := taken + [turns[n].event];
      assert Taken(turns, n + 1) == more && |more| - 1 == |taken| && more[|taken|] == turns[n].event;
      FeedAllPrefix(STARTED, taken, [turns[n].event], |taken|);
      assert FeedAll(STARTED, more, |more|) == Feed(FeedAll(STARTED, more, |taken|), more[|taken|]);
    } else {
      assert Taken(turns, n + 1) == taken + [] == taken;
    }
  }

  /** What the relay makes of the events it took and of how it ended, if it has. */
  function Relayed(fed: Job, end: Option<Ending>): Job
  {
    if end.Some? then End(fed, end.value) else fed
  }

  lemma OneTurn(s: System, t: Turn, fed: Job, end: Option<Ending>)
    requires !fed.finished && s.0 == Relayed(fed, end)
    ensures Step(s, t).0
         == Relayed(if t.Fed? && end.None? then Feed(fed, t.event) else fed,
                    if end.Some? then end else if t.Ended? then Some(t.end) else None)
  {
  }

  /** Polling never disturbs the job: under any interleaving it is what the relay alone makes
      of the events it took and of how it ended. */
  lemma {:induction false} PollsDoNotDisturb(turns: seq<Turn>, n: nat)
    requires n <= |turns|
    ensures
      var taken := Taken(turns, n);
      var fed := FeedAll(STARTED, taken, |taken|);
      !fed.finished && Run(turns, n).0 == Relayed(fed, EndOf(turns, n))
  {
    FeedingDoesNotFinish(Taken(turns, n), |Taken(turns, n)|);
    if n > 0 {
      hide Taken, FeedAll, Feed, Step, Relayed;
      var before := Taken(turns, n - 1);
      PollsDoNotDisturb(turns, n - 1);
      OneMoreTaken(turns, n - 1);
      OneTurn(Run(turns, n - 1), turns[n - 1], FeedAll(STARTED, before, |before|), EndOf(turns, n - 1));
    }
  }

  function Text(events: seq<StreamEvent>, n: nat): string
    requires n <= |events|
  {
    if n == 0 then ""
    else Text(events, n - 1) + if events[n - 1].Output? then Line(events[n - 1].data) else ""
  }

  /** The last verdict among the events. */
  function Said(events: seq<StreamEvent>, n: nat): Option<bool>
    requires n <= |events|
  {
    if n == 0 then None else if events[n - 1].Finish? then Some(events[n - 1].ok) else Said(events, n - 1)
  }

  /** The last reason among the events that gave one, if any did. */
  ghost predicate SaidWhy(events: seq<StreamEvent>, error: Option<string>)
  {
    match error
    case None => forall i :: 0 <= i < |events| ==> !GivesReason(events[i])
    case Some(reason) => exists i :: LastReasonAt(events, i) && events[i].reason == reason
  }

  predicate LastReasonAt(events: seq<StreamEvent>, i: int)
  {
    0 <= i < |events| && GivesReason(events[i]) && forall j :: i < j < |events| ==> !GivesReason(events[j])
  }

  predicate GivesReason(e: StreamEvent)
  {
    e.Finish? && |e.reason| > 0
  }

  lemma {:induction false} FedError(events: seq<StreamEvent>, n: nat)
    requires n <= |events|
    ensures SaidWhy(events[..n], FeedAll(STARTED, events, n).error)
  {
    if n > 0 {
      FedError(events, n - 1);
      OneMoreReason(events[..n - 1], events[n - 1], FeedAll(STARTED, events, n - 1).error);
      assert events[..n] == events[..n - 1] + [events[n - 1]];
    }
  }

  lemma OneMoreReason(events: seq<StreamEvent>, e: StreamEvent, error: Option<string>)
    requires SaidWhy(events, error)
    ensures SaidWhy(events + [e], if GivesReason(e) then Some(e.reason) else error)
  {
    var more := events + [e];
    if GivesReason(e) {
      assert LastReasonAt(more, |events|);
    } else if error.Some? {
      var i :| LastReasonAt(events, i) && events[i].reason == error.value;
      assert LastReasonAt(more, i);
    }
  }

  /** A relayed line is what was sent, ended by a newline of its own or by one more. */
  lemma LineExactly(data: string)
    ensures |Line(data)| > 0 && Line(data)[|Line(data)| - 1] == '\n'
    ensures Line(data) == data <==> |data| > 0 && data[|data| - 1] == '\n'
    ensures Line(data) == data || Line(data) == data + ['\n']
  {
  }

  lemma {:induction false} FedJob(events: seq<StreamEvent>, n: nat)
    requires n <= |events|
    ensures FeedAll(STARTED, events, n).log == Text(events, n) && FeedAll(STARTED, events, n).ok == Said(events, n)
  {
    if n > 0 {
      FedJob(events, n - 1);
    }
  }

  /** A finished job's log is the relayed lines and then the failure notice, if any; it passed
      exactly when no handler caught a failure and its last verdict was a success: a relay
      cancelled after that verdict has passed too. */
  lemma FinishedJob(turns: seq<Turn>, n: nat)
    requires n <= |turns| && Run(turns, n).0.finished
    ensures
      var (job, taken, end) := (Run(turns, n).0, Taken(turns, n), EndOf(turns, n));
      && end.Some?
      && job.log == Text(taken, |taken|) + (
           match end.value
           case Unavailable(text) => "\n[" + text + "]\n"
           case Crashed(text) => "\n[compile relay failed: " + text + "]\n"
           case _ => "")
      && (match end.value
          case Unavailable(text) => job.error == Some(text)
          case Crashed(text) => job.error == Some(text)
          case _ => SaidWhy(taken, job.error))
      && job.ok.Some? && (job.ok.value <==> end.value in {Closed, Cancelled} && Said(taken, |taken|) == Some(true))
  {
    PollsDoNotDisturb(turns, n);
    FedJob(Taken(turns, n), |Taken(turns, n)|);
    FedError(Taken(turns, n), |Taken(turns, n)|);
    assert Taken(turns, n)[..|Taken(turns, n)|] == Taken(turns, n);
  }
}
