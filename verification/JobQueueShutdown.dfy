/** Accounting and graceful shutdown of the job queue, over every schedule. */
module JobQueueShutdown {
  import opened Wrappers
  import opened Sequences
  import opened JobQueue

  ghost predicate OnlyTokens(queue: seq<Message>) {
    forall m | m in queue :: m.StopToken?
  }

  ghost predicate OnlyJobs(queue: seq<Message>) {
    forall m | m in queue :: m.Work?
  }

  /** The unfinished count is the messages waiting plus the messages in workers' hands. */
  ghost predicate Accounted(s: State) {
    s.unfinished == |s.queue| + Tally(s.workers, Handling) + Tally(s.workers, Leaving)
  }

  /** No token exists before the queue has drained, and no job after it. */
  ghost predicate Phased(s: State) {
    match s.stopper
    case Sending(sent) =>
      && sent <= |s.workers| && OnlyTokens(s.queue) && Tally(s.workers, Handling) == 0
      && |s.queue| + Tally(s.workers, Leaving) + Tally(s.workers, Gone) == sent
    case Stopped => s.queue == [] && Tally(s.workers, Gone) == |s.workers|
    case _ =>
      && OnlyJobs(s.queue) && Tally(s.workers, Leaving) == 0 && Tally(s.workers, Gone) == 0
      && (s.stopper.Draining? ==> s.unfinished > 0)
      && (s.stopper.Signalled? ==> s.unfinished == 0)
  }

  ghost predicate Inv(workerCount: nat, s: State) {
    && |s.workers| == (if s.started then workerCount else 0)
    && (s.stopping <==> !s.stopper.NotStopping?)
    && (s.stopping ==> s.started)
    && (!s.started ==> s.queue == [])
    && Accounted(s) && Phased(s)
  }

  lemma WorkerMoves(workers: seq<Worker>, w: nat, v: Worker)
    requires w < |workers|
    ensures forall k :: Tally(workers[w := v], k) + (if KindOf(workers[w]) == k then 1 else 0)
                     == Tally(workers, k) + if KindOf(v) == k then 1 else 0
  {
    forall k
      ensures Tally(workers[w := v], k) + (if KindOf(workers[w]) == k then 1 else 0)
           == Tally(workers, k) + if KindOf(v) == k then 1 else 0
    {
      TallyUpdate(workers, w, v, k);
    }
  }

  lemma StartKeepsInv(workerCount: nat, s: State)
    requires Inv(workerCount, s)
    ensures Inv(workerCount, Step(workerCount, s, Start).value)
  {
    TallyFresh(workerCount, Handling);
    TallyFresh(workerCount, Leaving);
    TallyFresh(workerCount, Gone);
  }

  lemma GatherKeepsInv(workerCount: nat, s: State)
    requires Inv(workerCount, s) && Step(workerCount, s, Gather).Some?
    ensures Inv(workerCount, Step(workerCount, s, Gather).value)
  {
    TallyTotal(s.workers);
    TallyMember(s.workers, Resting);
    TallyMember(s.workers, Handling);
    TallyMember(s.workers, Leaving);
  }

  lemma TakeKeepsInv(workerCount: nat, s: State, w: nat, m: Message)
    requires Inv(workerCount, s) && Step(workerCount, s, Take(w, m)).Some?
    ensures Inv(workerCount, Step(workerCount, s, Take(w, m)).value)
  {
    assert m in s.queue;
    WorkerMoves(s.workers, w, Busy(m));
  }

  lemma FinishKeepsInv(workerCount: nat, s: State, w: nat, job: Job, error: Option<Error>)
    requires Inv(workerCount, s) && Step(workerCount, s, Finish(w, job, error)).Some?
    ensures Inv(workerCount, Step(workerCount, s, Finish(w, job, error)).value)
  {
    WorkerMoves(s.workers, w, Idle);
  }

  lemma LeaveKeepsInv(workerCount: nat, s: State, w: nat)
    requires Inv(workerCount, s) && Step(workerCount, s, Leave(w)).Some?
    ensures Inv(workerCount, Step(workerCount, s, Leave(w)).value)
  {
    TallyTotal(s.workers);
    TallyMember(s.workers, Leaving);
    WorkerMoves(s.workers, w, Exited);
  }

  lemma StepKeepsInv(workerCount: nat, s: State, e: Event)
    requires Inv(workerCount, s) && Step(workerCount, s, e).Some?
    ensures Inv(workerCount, Step(workerCount, s, e).value)
  {
    match e
    case Start => StartKeepsInv(workerCount, s);
    case Gather => GatherKeepsInv(workerCount, s);
    case Take(w, m) => TakeKeepsInv(workerCount, s, w, m);
    case Finish(w, job, error) => FinishKeepsInv(workerCount, s, w, job, error);
    case Leave(w) => LeaveKeepsInv(workerCount, s, w);
    case _ =>
  }

  lemma {:induction false} Invariant(workerCount: nat, es: seq<Event>)
    requires Exec(workerCount, es).Some?
    ensures Inv(workerCount, Exec(workerCount, es).value)
  {
    if es != [] {
      Invariant(workerCount, Front(es));
      StepKeepsInv(workerCount, Exec(workerCount, Front(es)).value, Last(es));
    }
  }

  // ---- Accounting: what happened to the accepted jobs

  lemma FlagsStep(workerCount: nat, s: State, e: Event)
    requires Step(workerCount, s, e).Some?
    ensures Step(workerCount, s, e).value.started <==> s.started || e.Start?
    ensures Step(workerCount, s, e).value.stopping <==> s.stopping || (e.Stop? && s.started)
  {
  }

  lemma {:induction false} FlagsFromHistory(workerCount: nat, es: seq<Event>)
    requires Exec(workerCount, es).Some?
    ensures Exec(workerCount, es).value.started <==> Start in es
    ensures Exec(workerCount, es).value.stopping <==> StopRequested(es)
  {
    if es != [] {
      FlagsFromHistory(workerCount, Front(es));
      FlagsStep(workerCount, Exec(workerCount, Front(es)).value, Last(es));
      assert Start in es <==> Start in Front(es) || Last(es) == Start by {
        assert es == Front(es) + [Last(es)];
      }
    }
  }

  function TakenNow(e: Event): seq<Job> {
    if e.Take? && e.message.Work? then [e.message.job] else []
  }

  /** The queue gives from its front what is taken and gains at its back what is accepted. */
  lemma QueueStep(workerCount: nat, s: State, e: Event)
    requires Step(workerCount, s, e).Some?
    ensures TakenNow(e) + Jobs(Step(workerCount, s, e).value.queue)
         == Jobs(s.queue) + if e.Submit? && s.started && !s.stopping then [e.job] else []
  {
    match e
    case Submit(job) => JobsAppend(s.queue, Work(job));
    case SendToken => JobsAppend(s.queue, StopToken);
    case _ =>
  }

  lemma MoveThrough(taken: seq<Job>, now: seq<Job>, before: seq<Job>, after: seq<Job>, gained: seq<Job>)
    requires now + after == before + gained
    ensures (taken + now) + after == (taken + before) + gained
  {
    assert (taken + now) + after == taken + (now + after);
  }

  /** Jobs leave the queue in the order they were accepted. */
  lemma {:induction false} FirstInFirstOut(workerCount: nat, es: seq<Event>)
    requires Exec(workerCount, es).Some?
    ensures Taken(es) + Jobs(Exec(workerCount, es).value.queue) == Accepted(es)
  {
    if es != [] {
      FirstInFirstOut(workerCount, Front(es));
      FlagsFromHistory(workerCount, Front(es));
      var s := Exec(workerCount, Front(es)).value;
      QueueStep(workerCount, s, Last(es));
      MoveThrough(Taken(Front(es)), TakenNow(Last(es)), Jobs(s.queue), Jobs(Exec(workerCount, es).value.queue),
                  if Last(es).Submit? && s.started && !s.stopping then [Last(es).job] else []);
    }
  }

  lemma {:induction false} FailuresRecorded(workerCount: nat, es: seq<Event>)
    requires Exec(workerCount, es).Some?
    ensures Exec(workerCount, es).value.failures == Raisings(es)
  {
    if es != [] {
      FailuresRecorded(workerCount, Front(es));
      FailuresStep(workerCount, Exec(workerCount, Front(es)).value, Last(es));
    }
  }

  lemma FailuresStep(workerCount: nat, s: State, e: Event)
    requires Step(workerCount, s, e).Some?
    ensures Step(workerCount, s, e).value.failures
         == s.failures + if e.Finish? && e.error.Some? then [e.error.value] else []
  {
  }

  lemma HandsStep(workerCount: nat, s: State, e: Event, d: Job)
    requires Inv(workerCount, s) && Step(workerCount, s, e).Some?
    ensures InHand(Step(workerCount, s, e).value.workers, d) + (if e.Finish? && e.job == d then 1 else 0)
         == InHand(s.workers, d) + if e.Take? && e.message == Work(d) then 1 else 0
  {
    match e
    case Start => InHandFresh(workerCount, d);
    case Take(w, m) => InHandUpdate(s.workers, w, Busy(m), d);
    case Finish(w, job, error) => InHandUpdate(s.workers, w, Idle, d);
    case Leave(w) => InHandUpdate(s.workers, w, Exited, d);
    case _ =>
  }

  /** A job taken is in one worker's hands until its handler has ended, exactly once. */
  lemma {:induction false} TakenOrHandled(workerCount: nat, es: seq<Event>, d: Job)
    requires Exec(workerCount, es).Some?
    ensures Count(Taken(es), d) == Count(Handled(es), d) + InHand(Exec(workerCount, es).value.workers, d)
  {
    if es != [] {
      TakenOrHandled(workerCount, Front(es), d);
      Invariant(workerCount, Front(es));
      HandsStep(workerCount, Exec(workerCount, Front(es)).value, Last(es), d);
    }
  }

  /** Worker w is leaving or gone. */
  predicate HasToken(workers: seq<Worker>, w: nat) {
    w < |workers| && KindOf(workers[w]) in {Leaving, Gone}
  }

  lemma TokenStep(workerCount: nat, s: State, e: Event, w: nat)
    requires Inv(workerCount, s) && Step(workerCount, s, e).Some?
    ensures HasToken(Step(workerCount, s, e).value.workers, w) <==>
            HasToken(s.workers, w) || e == Take(w, StopToken)
    ensures e == Take(w, StopToken) ==> !HasToken(s.workers, w)
  {
  }

  /** A worker has taken a stop token exactly when it is leaving or gone, and then exactly one. */
  lemma {:induction false} OneTokenEach(workerCount: nat, es: seq<Event>, w: nat)
    requires Exec(workerCount, es).Some?
    ensures TokensTaken(es, w) == if HasToken(Exec(workerCount, es).value.workers, w) then 1 else 0
  {
    if es != [] {
      OneTokenEach(workerCount, Front(es), w);
      Invariant(workerCount, Front(es));
      TokenStep(workerCount, Exec(workerCount, Front(es)).value, Last(es), w);
    }
  }

  lemma {:induction false} NoJobs(queue: seq<Message>)
    requires OnlyTokens(queue)
    ensures Jobs(queue) == []
  {
    if queue != [] {
      assert queue[0] in queue;
      NoJobs(queue[1..]);
    }
  }

  /** Nothing waiting and nothing in hand: everything accepted has been handled, each job once. */
  lemma AllHandled(workerCount: nat, es: seq<Event>)
    requires Exec(workerCount, es).Some?
    requires Jobs(Exec(workerCount, es).value.queue) == [] && Tally(Exec(workerCount, es).value.workers, Handling) == 0
    ensures multiset(Handled(es)) == multiset(Accepted(es))
  {
    FirstInFirstOut(workerCount, es);
    assert Taken(es) == Accepted(es);
    forall d: Job ensures multiset(Handled(es))[d] == multiset(Accepted(es))[d] {
      TakenOrHandled(workerCount, es, d);
      InHandNone(Exec(workerCount, es).value.workers, d);
    }
  }

  /** Whenever the unfinished count is zero, every job accepted so far has been handled exactly once. */
  lemma QuietMeansHandled(workerCount: nat, es: seq<Event>)
    requires Exec(workerCount, es).Some? && Exec(workerCount, es).value.unfinished == 0
    ensures multiset(Handled(es)) == multiset(Accepted(es))
  {
    Invariant(workerCount, es);
    AllHandled(workerCount, es);
  }

  /** Graceful shutdown: when `stop` has returned the queue is empty, every worker has exited having taken
      exactly one token, every accepted job has been handled exactly once, and the recorded failures are
      the exceptions the handlers raised. */
  lemma StopIsGraceful(workerCount: nat, es: seq<Event>)
    requires Exec(workerCount, es).Some? && Exec(workerCount, es).value.stopper.Stopped?
    ensures
      var s := Exec(workerCount, es).value;
      && s.queue == [] && s.unfinished == 0 && s.failures == Raisings(es)
      && |s.workers| == workerCount
      && (forall w | 0 <= w < workerCount :: s.workers[w].Exited? && TokensTaken(es, w) == 1)
      && multiset(Handled(es)) == multiset(Accepted(es))
  {
    var s := Exec(workerCount, es).value;
    Invariant(workerCount, es);
    TallyTotal(s.workers);
    TallyMember(s.workers, Resting);
    TallyMember(s.workers, Handling);
    TallyMember(s.workers, Leaving);
    QuietMeansHandled(workerCount, es);
    FailuresRecorded(workerCount, es);
    forall w | 0 <= w < workerCount ensures s.workers[w].Exited? && TokensTaken(es, w) == 1 {
      assert KindOf(s.workers[w]) == Gone;
      OneTokenEach(workerCount, es, w);
    }
  }

  /** No job is ever queued behind a stop token, and none is in a worker's hands once tokens are sent. */
  lemma NoJobBehindToken(workerCount: nat, es: seq<Event>, i: nat, j: nat)
    requires Exec(workerCount, es).Some? && i < j < |Exec(workerCount, es).value.queue|
    requires Exec(workerCount, es).value.queue[i].StopToken?
    ensures Exec(workerCount, es).value.queue[j].StopToken?
    ensures multiset(Handled(es)) == multiset(Accepted(es))
  {
    var s := Exec(workerCount, es).value;
    Invariant(workerCount, es);
    assert s.queue[i] in s.queue && s.queue[j] in s.queue;
    assert s.stopper.Sending?;
    NoJobs(s.queue);
    AllHandled(workerCount, es);
  }

  // ---- Joining

  predicate Signals(s: State, caller: nat) {
    caller in s.joins && s.joins[caller]
  }

  lemma {:induction false} HistoryGrows(a: seq<Event>, b: seq<Event>)
    ensures multiset(Accepted(a)) <= multiset(Accepted(a + b))
    ensures multiset(Handled(a)) <= multiset(Handled(a + b))
  {
    if b == [] {
      assert a + b == a;
    } else {
      assert Front(a + b) == a + Front(b);
      HistoryGrows(a, Front(b));
    }
  }

  /** A waiting caller is signalled only when the unfinished count has just reached zero. */
  lemma SignalStep(workerCount: nat, s: State, e: Event, caller: nat)
    requires Step(workerCount, s, e).Some? && caller in s.joins && e != JoinReturns(caller)
    ensures
      var s' := Step(workerCount, s, e).value;
      && caller in s'.joins
      && (Signals(s', caller) ==> Signals(s, caller) || s'.unfinished == 0)
  {
  }

  /** A `join` that has been signalled may resume: every job accepted before it was called has been
      handled, whatever was submitted in the meantime and however late it resumes. */
  lemma {:induction false} JoinIsSound(workerCount: nat, called: seq<Event>, caller: nat, after: seq<Event>)
    requires called != [] && Last(called) == Join(caller) && JoinReturns(caller) !in after
    requires Exec(workerCount, called + after).Some?
    ensures
      var s := Exec(workerCount, called + after).value;
      && caller in s.joins
      && (Signals(s, caller) ==> multiset(Accepted(Front(called))) <= multiset(Handled(called + after)))
  {
    if after == [] {
      assert called + after == called;
      if Signals(Exec(workerCount, called).value, caller) {
        QuietMeansHandled(workerCount, Front(called));
      }
    } else {
      assert Front(called + after) == called + Front(after) && Last(called + after) == Last(after);
      JoinIsSound(workerCount, called, caller, Front(after));
      SignalStep(workerCount, Exec(workerCount, called + Front(after)).value, Last(after), caller);
      JoinHistory(workerCount, called, after);
    }
  }

  lemma JoinHistory(workerCount: nat, called: seq<Event>, after: seq<Event>)
    requires called != [] && after != [] && Exec(workerCount, called + after).Some?
    ensures multiset(Handled(called + Front(after))) <= multiset(Handled(called + after))
    ensures Exec(workerCount, called + after).value.unfinished == 0 ==>
      multiset(Accepted(Front(called))) <= multiset(Handled(called + after))
  {
    assert called + after == called + Front(after) + [Last(after)];
    HistoryGrows(called + Front(after), [Last(after)]);
    if Exec(workerCount, called + after).value.unfinished == 0 {
      QuietMeansHandled(workerCount, called + after);
      HistoryGrows(called, after);
    }
  }

  // ---- Progress and termination of `stop`

  predicate IsWorkerMove(e: Event) {
    e.Take? || e.Finish? || e.Leave?
  }

  lemma WakeStep(workerCount: nat, s: State, e: Event)
    requires Inv(workerCount, s) && Step(workerCount, s, e).Some?
    requires s.unfinished == 0 ==> forall c | c in s.joins :: s.joins[c]
    ensures
      var s' := Step(workerCount, s, e).value;
      s'.unfinished == 0 ==> forall c | c in s'.joins :: s'.joins[c]
  {
  }

  /** No lost wakeup: in every state with nothing unfinished, everyone inside `join` has been signalled. */
  lemma {:induction false} NoJoinAsleep(workerCount: nat, es: seq<Event>)
    requires Exec(workerCount, es).Some?
    ensures
      var s := Exec(workerCount, es).value;
      s.unfinished == 0 ==> forall c | c in s.joins :: s.joins[c]
  {
    if es != [] {
      NoJoinAsleep(workerCount, Front(es));
      Invariant(workerCount, Front(es));
      WakeStep(workerCount, Exec(workerCount, Front(es)).value, Last(es));
    }
  }

  lemma SignalStays(workerCount: nat, s: State, e: Event, caller: nat)
    requires Step(workerCount, s, e).Some? && e != JoinReturns(caller)
    requires caller in s.joins && s.joins[caller]
    ensures caller in Step(workerCount, s, e).value.joins && Step(workerCount, s, e).value.joins[caller]
  {
  }

  lemma {:induction false} StillSignalled(workerCount: nat, before: seq<Event>, caller: nat, after: seq<Event>)
    requires Exec(workerCount, before).Some? && Exec(workerCount, before + after).Some?
    requires caller in Exec(workerCount, before).value.joins && Exec(workerCount, before).value.joins[caller]
    requires JoinReturns(caller) !in after
    ensures
      var joins := Exec(workerCount, before + after).value.joins;
      caller in joins && joins[caller]
  {
    if after == [] {
      assert before + after == before;
    } else {
      assert Front(before + after) == before + Front(after) && after == Front(after) + [Last(after)];
      StillSignalled(workerCount, before, caller, Front(after));
      SignalStays(workerCount, Exec(workerCount, before + Front(after)).value, Last(after), caller);
    }
  }

  /** A caller who was inside `join` at some moment with nothing unfinished is signalled from then on and can
      return at any time, whatever is submitted or handled in between. */
  lemma JoinReturnsOnceDrained(workerCount: nat, before: seq<Event>, caller: nat, after: seq<Event>)
    requires Exec(workerCount, before).Some? && Exec(workerCount, before + after).Some?
    requires Exec(workerCount, before).value.unfinished == 0 && caller in Exec(workerCount, before).value.joins
    requires JoinReturns(caller) !in after
    ensures
      var joins := Exec(workerCount, before + after).value.joins;
      caller in joins && joins[caller]
    ensures Exec(workerCount, before + after + [JoinReturns(caller)]).Some?
  {
    NoJoinAsleep(workerCount, before);
    StillSignalled(workerCount, before, caller, after);
    ExecExtends(workerCount, before + after, JoinReturns(caller));
  }

  /** A step of a worker or of the `stop` call itself. */
  predicate IsMove(e: Event) {
    e.Resume? || e.SendToken? || e.Gather? || IsWorkerMove(e)
  }

  lemma MoveOfWorker(workerCount: nat, s: State, k: Kind) returns (e: Event)
    requires Inv(workerCount, s) && Tally(s.workers, k) > 0
    requires k.Resting? ==> s.queue != []
    requires !k.Gone?
    ensures IsWorkerMove(e) && Step(workerCount, s, e).Some?
  {
    TallyMember(s.workers, k);
    var w :| 0 <= w < |s.workers| && KindOf(s.workers[w]) == k;
    e := if k.Resting? then Take(w, s.queue[0])
         else if k.Handling? then Finish(w, s.workers[w].message.job, None)
         else Leave(w);
  }

  lemma StopMoves(workerCount: nat, s: State) returns (e: Event)
    requires workerCount > 0 && Inv(workerCount, s) && s.stopping && !s.stopper.Stopped?
    ensures IsMove(e) && Step(workerCount, s, e).Some?
  {
    TallyTotal(s.workers);
    if Tally(s.workers, Handling) > 0 {
      e := MoveOfWorker(workerCount, s, Handling);
    } else if Tally(s.workers, Leaving) > 0 {
      e := MoveOfWorker(workerCount, s, Leaving);
    } else if s.queue != [] && Tally(s.workers, Resting) > 0 {
      e := MoveOfWorker(workerCount, s, Resting);
    } else if s.stopper.Signalled? {
      e := Resume;
    } else if s.stopper.sent < |s.workers| {
      e := SendToken;
    } else {
      TallyMember(s.workers, Resting);
      TallyMember(s.workers, Handling);
      TallyMember(s.workers, Leaving);
      forall w | 0 <= w < |s.workers| ensures s.workers[w].Exited? {
        assert KindOf(s.workers[w]) == Gone;
      }
      e := Gather;
    }
  }

  lemma WorkerMovesWhileUnfinished(workerCount: nat, s: State) returns (e: Event)
    requires workerCount > 0 && Inv(workerCount, s) && s.unfinished > 0
    ensures IsWorkerMove(e) && Step(workerCount, s, e).Some?
  {
    TallyTotal(s.workers);
    if Tally(s.workers, Handling) > 0 {
      e := MoveOfWorker(workerCount, s, Handling);
    } else if Tally(s.workers, Leaving) > 0 {
      e := MoveOfWorker(workerCount, s, Leaving);
    } else {
      e := MoveOfWorker(workerCount, s, Resting);
    }
  }

  /** No deadlock for `join` either, whether or not the queue is stopping: while anything is unfinished some
      worker can move. */
  lemma JoinProgress(workerCount: nat, es: seq<Event>)
    requires workerCount > 0 && Exec(workerCount, es).Some? && Exec(workerCount, es).value.unfinished > 0
    ensures exists e :: IsWorkerMove(e) && Exec(workerCount, es + [e]).Some?
  {
    Invariant(workerCount, es);
    var e := WorkerMovesWhileUnfinished(workerCount, Exec(workerCount, es).value);
    ExecExtends(workerCount, es, e);
  }

  /** No deadlock: a `stop` that has not returned can always make progress, itself or through a worker. */
  lemma StopProgress(workerCount: nat, es: seq<Event>)
    requires workerCount > 0 && Exec(workerCount, es).Some?
    requires StopRequested(es) && !Exec(workerCount, es).value.stopper.Stopped?
    ensures exists e :: IsMove(e) && Exec(workerCount, es + [e]).Some?
  {
    Invariant(workerCount, es);
    FlagsFromHistory(workerCount, es);
    var e := StopMoves(workerCount, Exec(workerCount, es).value);
    assert Front(es + [e]) == es;
  }

  function Rank(s: State): int {
    2 * |s.queue| + Tally(s.workers, Handling) + Tally(s.workers, Leaving) +
    match s.stopper
    case NotStopping => 3 * |s.workers| + 4
    case Draining => 3 * |s.workers| + 3
    case Signalled => 3 * |s.workers| + 2
    case Sending(sent) => 3 * (|s.workers| - sent) + 1
    case Stopped => 0
  }

  lemma RankIsNatural(workerCount: nat, s: State)
    requires Inv(workerCount, s)
    ensures 0 <= Rank(s)
  {
  }

  lemma WorkerLowersRank(workerCount: nat, s: State, e: Event)
    requires Inv(workerCount, s) && s.stopping && Step(workerCount, s, e).Some?
    requires e.Take? || e.Finish? || e.Leave?
    ensures Rank(Step(workerCount, s, e).value) < Rank(s)
  {
    WorkerMoves(s.workers, e.worker, Step(workerCount, s, e).value.workers[e.worker]);
  }

  lemma MoveLowersRank(workerCount: nat, s: State, e: Event)
    requires Inv(workerCount, s) && s.stopping && Step(workerCount, s, e).Some?
    ensures 0 <= Rank(Step(workerCount, s, e).value)
    ensures Rank(Step(workerCount, s, e).value) + (if IsMove(e) then 1 else 0) <= Rank(s)
  {
    StepKeepsInv(workerCount, s, e);
    RankIsNatural(workerCount, Step(workerCount, s, e).value);
    if e.Take? || e.Finish? || e.Leave? {
      WorkerLowersRank(workerCount, s, e);
    }
  }

  function Moves(es: seq<Event>): nat {
    if es == [] then 0 else Moves(Front(es)) + if IsMove(Last(es)) then 1 else 0
  }

  /** Once stopping, no schedule contains more moves than the rank of the state it started from: with
      `StopProgress`, `stop` returns under any scheduler that keeps making moves while there are any. */
  lemma {:induction false} StopTerminates(workerCount: nat, before: seq<Event>, after: seq<Event>)
    requires Exec(workerCount, before + after).Some? && StopRequested(before)
    ensures Exec(workerCount, before).Some? && StopRequested(before + after)
    ensures Moves(after) + Rank(Exec(workerCount, before + after).value) <= Rank(Exec(workerCount, before).value)
    ensures 0 <= Rank(Exec(workerCount, before + after).value)
  {
    if after == [] {
      assert before + after == before;
      Invariant(workerCount, before);
    } else {
      assert Front(before + after) == before + Front(after);
      StopTerminates(workerCount, before, Front(after));
      Invariant(workerCount, before + Front(after));
      FlagsFromHistory(workerCount, before + Front(after));
      MoveLowersRank(workerCount, Exec(workerCount, before + Front(after)).value, Last(after));
    }
  }

  ghost predicate Drained(s: State) {
    && s.stopping && s.unfinished == 0 && s.queue == []
    && (s.stopper.Signalled? || s.stopper == Sending(0) || s.stopper.Stopped?)
  }

  lemma DrainedStep(workerCount: nat, s: State, e: Event)
    requires Inv(workerCount, s) && Drained(s) && !e.SendToken? && Step(workerCount, s, e).Some?
    ensures Drained(Step(workerCount, s, e).value)
  {
    TallyMember(s.workers, Handling);
    TallyMember(s.workers, Leaving);
    forall w | 0 <= w < |s.workers| ensures !s.workers[w].Busy? {
      assert KindOf(s.workers[w]) !in {Handling, Leaving};
    }
  }

  predicate NoTokenSent(es: seq<Event>) {
    es == [] || (Last(es) != SendToken && NoTokenSent(Front(es)))
  }

  lemma {:induction false} NoTokenMeans(es: seq<Event>)
    requires SendToken !in es
    ensures NoTokenSent(es)
  {
    if es != [] {
      assert es == Front(es) + [Last(es)];
      NoTokenMeans(Front(es));
    }
  }

  ghost predicate DrainedAfter(workerCount: nat, es: seq<Event>) {
    Exec(workerCount, es).Some? && Drained(Exec(workerCount, es).value)
  }

  lemma RunsBefore(workerCount: nat, before: seq<Event>, after: seq<Event>)
    requires after != [] && Exec(workerCount, before + after).Some?
    ensures Exec(workerCount, before + Front(after)).Some?
  {
    assert Front(before + after) == before + Front(after);
  }

  lemma DrainedNext(workerCount: nat, es: seq<Event>, e: Event)
    requires DrainedAfter(workerCount, es) && e != SendToken && Exec(workerCount, es + [e]).Some?
    ensures DrainedAfter(workerCount, es + [e])
  {
    ExecExtends(workerCount, es, e);
    Invariant(workerCount, es);
    DrainedStep(workerCount, Exec(workerCount, es).value, e);
  }

  lemma DrainedOneMore(workerCount: nat, before: seq<Event>, after: seq<Event>)
    requires after != [] && Last(after) != SendToken && Exec(workerCount, before + after).Some?
    requires DrainedAfter(workerCount, before + Front(after))
    ensures DrainedAfter(workerCount, before + after)
  {
    assert before + after == before + Front(after) + [Last(after)];
    DrainedNext(workerCount, before + Front(after), Last(after));
  }

  lemma {:induction false} DrainedUntilTokens(workerCount: nat, before: seq<Event>, after: seq<Event>)
    requires Exec(workerCount, before + after).Some? && NoTokenSent(after) && DrainedAfter(workerCount, before)
    ensures DrainedAfter(workerCount, before + after)
  {
    if after == [] {
      assert before + after == before;
    } else {
      RunsBefore(workerCount, before, after);
      DrainedUntilTokens(workerCount, before, Front(after));
      DrainedOneMore(workerCount, before, after);
    }
  }

  /** "Drained" is stable once stopping: however late `join` resumes after it was signalled, and whatever
      else runs before the first stop token is sent, the queue is still drained. */
  lemma DrainedIsStable(workerCount: nat, before: seq<Event>, after: seq<Event>)
    requires Exec(workerCount, before + after).Some? && SendToken !in after
    requires Exec(workerCount, before).Some? && Exec(workerCount, before).value.stopper.Signalled?
    ensures
      var s := Exec(workerCount, before + after).value;
      s.stopping && s.unfinished == 0 && s.queue == []
    ensures Accepted(before + after) == Accepted(before)
  {
    Invariant(workerCount, before);
    NoTokenMeans(after);
    DrainedUntilTokens(workerCount, before, after);
    FlagsFromHistory(workerCount, before);
    StoppingAcceptsNothing(before, after);
  }

  /** Once stopping nothing is accepted any more, whoever calls. */
  lemma {:induction false} StoppingAcceptsNothing(before: seq<Event>, after: seq<Event>)
    requires StopRequested(before)
    ensures StopRequested(before + after) && Accepted(before + after) == Accepted(before)
  {
    if after == [] {
      assert before + after == before;
    } else {
      assert Front(before + after) == before + Front(after);
      StoppingAcceptsNothing(before, Front(after));
    }
  }

  // ---- Calling `stop` again

  /** A stop has taken effect and has not returned. */
  predicate StopUnderWay(es: seq<Event>) {
    StopRequested(es) && Gather !in es
  }

  lemma StoppedStep(workerCount: nat, s: State, e: Event)
    requires Inv(workerCount, s) && Step(workerCount, s, e).Some?
    ensures Step(workerCount, s, e).value.stopper.Stopped? <==> s.stopper.Stopped? || e.Gather?
  {
  }

  lemma {:induction false} StoppedIffGathered(workerCount: nat, es: seq<Event>)
    requires Exec(workerCount, es).Some?
    ensures Exec(workerCount, es).value.stopper.Stopped? <==> Gather in es
  {
    if es != [] {
      StoppedIffGathered(workerCount, Front(es));
      Invariant(workerCount, Front(es));
      StoppedStep(workerCount, Exec(workerCount, Front(es)).value, Last(es));
      assert es == Front(es) + [Last(es)];
    }
  }

  /** A `stop` that comes after the first one returns at once and changes nothing: when it returns the queue is
      stopped if and only if no earlier stop is still under way. */
  lemma LaterStopReturnsAtOnce(workerCount: nat, es: seq<Event>)
    requires Exec(workerCount, es).Some? && StopRequested(es)
    ensures Exec(workerCount, es + [Stop]) == Exec(workerCount, es)
    ensures Exec(workerCount, es + [Stop]).value.stopper.Stopped? <==> !StopUnderWay(es)
  {
    assert Front(es + [Stop]) == es;
    FlagsFromHistory(workerCount, es);
    StoppedIffGathered(workerCount, es);
  }

  /** A run in which the second `stop` returns while an accepted job is still waiting. */
  lemma SecondStopReturnsUndrained(job: Job)
    ensures
      var es := [Start, Submit(job), Stop, Stop];
      && Exec(1, es).Some? && Exec(1, es).value.queue == [Work(job)] && Exec(1, es).value.stopper.Draining?
      && Accepted(es) == [job] && Handled(es) == []
  {
    var e1, e2, e3 := Start, Submit(job), Stop;
    assert Front([e1]) == [];
    assert Front([e1, e2]) == [e1];
    assert Front([e1, e2, e3]) == [e1, e2];
    assert Front([e1, e2, e3, e3]) == [e1, e2, e3];
    var s1 := INITIAL.(started := true, workers := FreshWorkers(1));
    var s2 := s1.(queue := [Work(job)], unfinished := 1);
    assert Exec(1, [e1]) == Some(s1);
    assert Put(s1, Work(job)) == s2;
    assert Exec(1, [e1, e2]) == Some(s2);
    assert Exec(1, [e1, e2, e3]) == Some(s2.(stopping := true, stopper := Draining));
    assert !StopRequested([e1]) && Start in [e1];
    assert Accepted([e1]) == [] && Accepted([e1, e2]) == Accepted([e1]) + [job];
    assert Handled([e1]) == [];
    assert Handled([e1, e2]) == Handled([e1]);
    assert Handled([e1, e2, e3]) == Handled([e1, e2]);
  }
}
