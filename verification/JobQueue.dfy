/** The asynchronous job queue: workers on one FIFO queue, unfinished-task accounting, and a `stop`
    that sets a flag, waits for the queue to drain, sends one stop token per worker and gathers them.

    A waiting `join` is first signalled and resumes only later; anything may happen in between. */
module JobQueue {
  import opened Wrappers
  import opened Sequences

  type Job(==, !new)
  type Error(==, !new)

  datatype Message = Work(job: Job) | StopToken
  datatype Worker = Idle | Busy(message: Message) | Exited

  /** Where the effective `stop` call stands: waiting in its `join`, signalled, sending tokens (and then
      gathering), returned. */
  datatype Stopper = NotStopping | Draining | Signalled | Sending(sent: nat) | Stopped

  /** `joins` maps each caller inside `join` to whether it has been signalled. */
  datatype State = State(
    started: bool,
    stopping: bool,
    queue: seq<Message>,
    workers: seq<Worker>,
    unfinished: int,
    failures: seq<Error>,
    stopper: Stopper,
    joins: map<nat, bool>)

  /** `Take` is a worker's `queue.get()`, `Finish` the end of a handler (with the exception it raised, if
      any), `Leave` the return of a worker that took a stop token. */
  datatype Event =
    | Start
    | Submit(job: Job)
    | Join(caller: nat)
    | JoinReturns(caller: nat)
    | Stop
    | Resume
    | SendToken
    | Gather
    | Take(worker: nat, message: Message)
    | Finish(worker: nat, job: Job, error: Option<Error>)
    | Leave(worker: nat)

  const INITIAL := State(false, false, [], [], 0, [], NotStopping, map[])

  function FreshWorkers(n: nat): (r: seq<Worker>)
    ensures |r| == n && forall i | 0 <= i < n :: r[i].Idle?
  {
    seq(n, i => Idle)
  }

  function Put(s: State, m: Message): State {
    s.(queue := s.queue + [m], unfinished := s.unfinished + 1)
  }

  /** When the unfinished count returns to zero everyone waiting for it is signalled. */
  function TaskDone(s: State): State {
    var t := s.(unfinished := s.unfinished - 1);
    if t.unfinished != 0 then t
    else
      t.(joins := map c | c in t.joins :: true,
         stopper := if t.stopper.Draining? then Signalled else t.stopper)
  }

  /** One event; `None` when it cannot happen in `s`.  Calls that raise or return at once change nothing. */
  function Step(workerCount: nat, s: State, e: Event): Option<State> {
    match e
    case Start =>
      Some(if s.started then s else s.(started := true, workers := FreshWorkers(workerCount)))
    case Submit(job) =>
      Some(if !s.started || s.stopping then s else Put(s, Work(job)))
    case Join(c) =>
      if c in s.joins then None else Some(s.(joins := s.joins[c := s.unfinished == 0]))
    case JoinReturns(c) =>
      if c in s.joins && s.joins[c] then Some(s.(joins := s.joins - {c})) else None
    case Stop =>
      Some(if !s.started || s.stopping then s
           else s.(stopping := true, stopper := if s.unfinished == 0 then Sending(0) else Draining))
    case Resume =>
      if s.stopper.Signalled? then Some(s.(stopper := Sending(0))) else None
    case SendToken =>
      if s.stopper.Sending? && s.stopper.sent < |s.workers| then
        Some(Put(s, StopToken).(stopper := Sending(s.stopper.sent + 1)))
      else None
    case Gather =>
      if s.stopper == Sending(|s.workers|) && (forall i | 0 <= i < |s.workers| :: s.workers[i].Exited?) then
        Some(s.(stopper := Stopped))
      else None
    case Take(w, m) =>
      if w < |s.workers| && s.workers[w].Idle? && s.queue != [] && s.queue[0] == m then
        Some(s.(queue := s.queue[1..], workers := s.workers[w := Busy(m)]))
      else None
    case Finish(w, job, error) =>
      if w < |s.workers| && s.workers[w] == Busy(Work(job)) then
        Some(TaskDone(s.(workers := s.workers[w := Idle],
                         failures := s.failures + (if error.Some? then [error.value] else []))))
      else None
    case Leave(w) =>
      if w < |s.workers| && s.workers[w] == Busy(StopToken) then
        Some(TaskDone(s.(workers := s.workers[w := Exited])))
      else None
  }

  function Exec(workerCount: nat, es: seq<Event>): Option<State> {
    if es == [] then Some(INITIAL)
    else
      match Exec(workerCount, Front(es))
      case None => None
      case Some(s) => Step(workerCount, s, Last(es))
  }

  lemma ExecExtends(workerCount: nat, es: seq<Event>, e: Event)
    requires Exec(workerCount, es).Some?
    ensures Exec(workerCount, es + [e]) == Step(workerCount, Exec(workerCount, es).value, e)
  {
    assert Front(es + [e]) == es;
  }

  // ---- What a schedule says by itself

  /** Some `stop` came after the `start`. */
  predicate StopRequested(es: seq<Event>) {
    es != [] && (StopRequested(Front(es)) || (Last(es).Stop? && Start in Front(es)))
  }

  /** The jobs `submit` accepts: those submitted after `start` and before the effective `stop`. */
  function Accepted(es: seq<Event>): seq<Job> {
    if es == [] then []
    else
      Accepted(Front(es)) +
      if Last(es).Submit? && Start in Front(es) && !StopRequested(Front(es)) then [Last(es).job] else []
  }

  /** The jobs handed to workers, in order. */
  function Taken(es: seq<Event>): seq<Job> {
    if es == [] then []
    else Taken(Front(es)) + if Last(es).Take? && Last(es).message.Work? then [Last(es).message.job] else []
  }

  /** The jobs whose handler has ended, in order. */
  function Handled(es: seq<Event>): seq<Job> {
    if es == [] then []
    else Handled(Front(es)) + if Last(es).Finish? then [Last(es).job] else []
  }

  /** What the handlers raised, in order. */
  function Raisings(es: seq<Event>): seq<Error> {
    if es == [] then []
    else Raisings(Front(es)) + if Last(es).Finish? && Last(es).error.Some? then [Last(es).error.value] else []
  }

  /** How many stop tokens worker w has taken. */
  function TokensTaken(es: seq<Event>, w: nat): nat {
    if es == [] then 0
    else TokensTaken(Front(es), w) + if Last(es) == Take(w, StopToken) then 1 else 0
  }

  // ---- Counting workers

  /** What one more event adds to each part of the history. */
  lemma HistoryExtends(es: seq<Event>, e: Event)
    ensures StopRequested(es + [e]) <==> StopRequested(es) || (e.Stop? && Start in es)
    ensures Accepted(es + [e]) ==
            Accepted(es) + if e.Submit? && Start in es && !StopRequested(es) then [e.job] else []
    ensures Taken(es + [e]) == Taken(es) + if e.Take? && e.message.Work? then [e.message.job] else []
    ensures Handled(es + [e]) == Handled(es) + if e.Finish? then [e.job] else []
    ensures Raisings(es + [e]) ==
            Raisings(es) + if e.Finish? && e.error.Some? then [e.error.value] else []
    ensures forall w: nat :: TokensTaken(es + [e], w) == TokensTaken(es, w) + if e == Take(w, StopToken) then 1 else 0
  {
    assert Front(es + [e]) == es;
  }

  datatype Kind = Resting | Handling | Leaving | Gone

  function KindOf(w: Worker): Kind {
    match w
    case Idle => Resting
    case Busy(Work(_)) => Handling
    case Busy(StopToken) => Leaving
    case Exited => Gone
  }

  function Tally(workers: seq<Worker>, k: Kind): nat {
    if workers == [] then 0 else Tally(Front(workers), k) + if KindOf(Last(workers)) == k then 1 else 0
  }

  lemma {:induction false} TallyUpdate(workers: seq<Worker>, w: nat, v: Worker, k: Kind)
    requires w < |workers|
    ensures Tally(workers[w := v], k) + (if KindOf(workers[w]) == k then 1 else 0)
         == Tally(workers, k) + if KindOf(v) == k then 1 else 0
  {
    if w < |workers| - 1 {
      TallyUpdate(Front(workers), w, v, k);
      assert Front(workers[w := v]) == Front(workers)[w := v];
    } else {
      assert Front(workers[w := v]) == Front(workers);
    }
  }

  lemma {:induction false} TallyTotal(workers: seq<Worker>)
    ensures Tally(workers, Resting) + Tally(workers, Handling) + Tally(workers, Leaving) + Tally(workers, Gone)
         == |workers|
  {
    if workers != [] {
      TallyTotal(Front(workers));
    }
  }

  lemma {:induction false} TallyMember(workers: seq<Worker>, k: Kind)
    ensures Tally(workers, k) > 0 <==> exists w :: 0 <= w < |workers| && KindOf(workers[w]) == k
  {
    if workers != [] {
      TallyMember(Front(workers), k);
      if w :| 0 <= w < |Front(workers)| && KindOf(Front(workers)[w]) == k {
        assert KindOf(workers[w]) == k;
      }
      if w :| 0 <= w < |workers| && KindOf(workers[w]) == k {
        assert w < |Front(workers)| ==> KindOf(Front(workers)[w]) == k;
      }
    }
  }

  lemma {:induction false} TallyFresh(n: nat, k: Kind)
    ensures Tally(FreshWorkers(n), k) == if k.Resting? then n else 0
  {
    if n > 0 {
      TallyFresh(n - 1, k);
      assert Front(FreshWorkers(n)) == FreshWorkers(n - 1);
    }
  }

  function Count(jobs: seq<Job>, d: Job): nat {
    multiset(jobs)[d]
  }

  /** How often `d` is in the hands of a worker. */
  function InHand(workers: seq<Worker>, d: Job): nat {
    if workers == [] then 0
    else InHand(Front(workers), d) + if Last(workers) == Busy(Work(d)) then 1 else 0
  }

  lemma {:induction false} InHandUpdate(workers: seq<Worker>, w: nat, v: Worker, d: Job)
    requires w < |workers|
    ensures InHand(workers[w := v], d) + (if workers[w] == Busy(Work(d)) then 1 else 0)
         == InHand(workers, d) + if v == Busy(Work(d)) then 1 else 0
  {
    if w < |workers| - 1 {
      InHandUpdate(Front(workers), w, v, d);
      assert Front(workers[w := v]) == Front(workers)[w := v];
    } else {
      assert Front(workers[w := v]) == Front(workers);
    }
  }

  lemma {:induction false} InHandNone(workers: seq<Worker>, d: Job)
    requires Tally(workers, Handling) == 0
    ensures InHand(workers, d) == 0
  {
    if workers != [] {
      InHandNone(Front(workers), d);
    }
  }

  lemma {:induction false} InHandFresh(n: nat, d: Job)
    ensures InHand(FreshWorkers(n), d) == 0
  {
    TallyFresh(n, Handling);
    InHandNone(FreshWorkers(n), d);
  }

  function Jobs(queue: seq<Message>): seq<Job> {
    if queue == [] then [] else (if queue[0].Work? then [queue[0].job] else []) + Jobs(queue[1..])
  }

  lemma {:induction false} JobsAppend(queue: seq<Message>, m: Message)
    ensures Jobs(queue + [m]) == Jobs(queue) + if m.Work? then [m.job] else []
  {
    if queue == [] {
      assert queue + [m] == [m];
    } else {
      var longer := queue + [m];
      assert longer[0] == queue[0] && longer[1..] == queue[1..] + [m];
      JobsAppend(queue[1..], m);
      assert Jobs(longer) == (if queue[0].Work? then [queue[0].job] else []) + Jobs(longer[1..]);
    }
  }
}
