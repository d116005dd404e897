/** Worker processes that each send a program of messages ending in one sentinel, and a parent that
    collects messages until it has counted one sentinel per process.

    Only the order of one process's own messages is guaranteed: each process has its own channel and the
    parent's `get` may be served by any channel that is not empty. */
module ImportEvents {
  import opened Wrappers
  import opened Sequences
  import opened Shuffles

  datatype ImportStage = Started | Parsed | Validated | Stored | Failed
  datatype ImportJobEvent = ImportJobEvent(jobId: string, stage: ImportStage, detail: string)
  datatype Message = Progress(event: ImportJobEvent) | WorkerFinished(jobId: string)

  /** What one process sends: progress events, then its one sentinel. */
  ghost predicate IsProgram(program: seq<Message>) {
    && program != [] && Last(program).WorkerFinished?
    && forall m | m in Front(program) :: m.Progress?
  }

  ghost predicate ArePrograms(programs: seq<seq<Message>>) {
    forall i | 0 <= i < |programs| :: IsProgram(programs[i])
  }

  /** `sent` counts what each process has put on its channel; `finished` and `collected` are the parent's
      local variables. */
  datatype State = State(
    sent: seq<nat>,
    transit: seq<seq<Message>>,
    finished: nat,
    collected: seq<ImportJobEvent>)

  datatype Event = Send(process: nat) | Receive(process: nat, message: Message)

  ghost predicate Shaped(programs: seq<seq<Message>>, s: State) {
    |s.sent| == |s.transit| == |programs|
  }

  function Initial(programs: seq<seq<Message>>): State {
    State(seq(|programs|, i => 0), seq(|programs|, i => []), 0, [])
  }

  function Step(programs: seq<seq<Message>>, s: State, e: Event): (r: Option<State>)
    requires Shaped(programs, s)
    ensures r.Some? ==> Shaped(programs, r.value)
  {
    match e
    case Send(i) =>
      if i < |programs| && s.sent[i] < |programs[i]| then
        Some(s.(sent := s.sent[i := s.sent[i] + 1],
                transit := s.transit[i := s.transit[i] + [programs[i][s.sent[i]]]]))
      else None
    case Receive(i, m) =>
      if s.finished < |programs| && i < |programs| && s.transit[i] != [] && s.transit[i][0] == m then
        var t := s.(transit := s.transit[i := s.transit[i][1..]]);
        Some(match m
             case WorkerFinished(_) => t.(finished := t.finished + 1)
             case Progress(event) => t.(collected := t.collected + [event]))
      else None
  }

  function Exec(programs: seq<seq<Message>>, es: seq<Event>): (r: Option<State>)
    ensures r.Some? ==> Shaped(programs, r.value)
  {
    if es == [] then Some(Initial(programs))
    else
      match Exec(programs, Front(es))
      case None => None
      case Some(s) => Step(programs, s, Last(es))
  }

  // ---- What the parent has received from each process

  function Received(n: nat, es: seq<Event>): (r: seq<seq<Message>>)
    ensures |r| == n
  {
    if es == [] then seq(n, i => [])
    else
      var r := Received(n, Front(es));
      if Last(es).Receive? && Last(es).process < n then
        r[Last(es).process := r[Last(es).process] + [Last(es).message]]
      else r
  }

  function Progresses(messages: seq<Message>): seq<ImportJobEvent> {
    if messages == [] then []
    else Progresses(Front(messages)) + if Last(messages).Progress? then [Last(messages).event] else []
  }

  function AllProgresses(received: seq<seq<Message>>): (r: seq<seq<ImportJobEvent>>)
    ensures |r| == |received|
  {
    seq(|received|, i requires 0 <= i < |received| => Progresses(received[i]))
  }

  /** How many of the first n processes have been heard to the end, sentinel included. */
  function HeardOut(programs: seq<seq<Message>>, received: seq<seq<Message>>, n: nat): nat
    requires n <= |programs| == |received|
  {
    if n == 0 then 0
    else HeardOut(programs, received, n - 1) + if |received[n - 1]| == |programs[n - 1]| then 1 else 0
  }

  lemma {:induction false} HeardOutUpdate(
      programs: seq<seq<Message>>, received: seq<seq<Message>>, i: nat, messages: seq<Message>, n: nat)
    requires n <= |programs| == |received| && i < |programs|
    ensures HeardOut(programs, received[i := messages], n)
            + (if i < n && |received[i]| == |programs[i]| then 1 else 0)
         == HeardOut(programs, received, n) + if i < n && |messages| == |programs[i]| then 1 else 0
  {
    if n > 0 {
      HeardOutUpdate(programs, received, i, messages, n - 1);
    }
  }

  lemma {:induction false} HeardOutNone(programs: seq<seq<Message>>, n: nat)
    requires n <= |programs| && ArePrograms(programs)
    ensures HeardOut(programs, seq(|programs|, i => []), n) == 0
  {
    if n > 0 {
      assert IsProgram(programs[n - 1]);
      HeardOutNone(programs, n - 1);
    }
  }

  /** The counting argument: as many sentinels as processes means every process has been heard out. */
  lemma {:induction false} CountingSuffices(programs: seq<seq<Message>>, received: seq<seq<Message>>, n: nat)
    requires n <= |programs| == |received|
    ensures HeardOut(programs, received, n) <= n
    ensures HeardOut(programs, received, n) == n <==>
            forall i | 0 <= i < n :: |received[i]| == |programs[i]|
  {
    if n > 0 {
      CountingSuffices(programs, received, n - 1);
    }
  }

  // ---- The invariant

  /** Process i's messages are, in order, received, in transit, or unsent. */
  ghost predicate InOrder(programs: seq<seq<Message>>, received: seq<seq<Message>>, s: State, i: nat)
    requires Shaped(programs, s) && |received| == |programs| && i < |programs|
  {
    s.sent[i] <= |programs[i]| && received[i] + s.transit[i] == programs[i][..s.sent[i]]
  }

  ghost predicate AllInOrder(programs: seq<seq<Message>>, received: seq<seq<Message>>, s: State)
    requires Shaped(programs, s) && |received| == |programs|
  {
    forall i | 0 <= i < |programs| :: InOrder(programs, received, s, i)
  }

  ghost predicate Inv(programs: seq<seq<Message>>, received: seq<seq<Message>>, s: State)
    requires Shaped(programs, s) && |received| == |programs|
  {
    && AllInOrder(programs, received, s)
    && s.finished == HeardOut(programs, received, |programs|)
    && IsShuffle(s.collected, AllProgresses(received))
  }

  lemma SendKeepsInv(programs: seq<seq<Message>>, received: seq<seq<Message>>, s: State, i: nat)
    requires Shaped(programs, s) && |received| == |programs| && Inv(programs, received, s)
    requires Step(programs, s, Send(i)).Some?
    ensures Inv(programs, received, Step(programs, s, Send(i)).value)
  {
    var s' := Step(programs, s, Send(i)).value;
    forall k | 0 <= k < |programs|
      ensures InOrder(programs, received, s', k)
    {
      assert InOrder(programs, received, s, k);
    }
  }

  /** The next message of process i is the one its program has at that position. */
  lemma NextMessage(programs: seq<seq<Message>>, received: seq<seq<Message>>, s: State, i: nat)
    requires Shaped(programs, s) && |received| == |programs| && i < |programs| && ArePrograms(programs)
    requires InOrder(programs, received, s, i) && s.transit[i] != []
    ensures |received[i]| < |programs[i]| && s.transit[i][0] == programs[i][|received[i]|]
    ensures s.transit[i][0].WorkerFinished? <==> |received[i]| + 1 == |programs[i]|
  {
    assert (received[i] + s.transit[i])[|received[i]|] == programs[i][..s.sent[i]][|received[i]|];
    assert IsProgram(programs[i]);
    if |received[i]| + 1 < |programs[i]| {
      assert programs[i][|received[i]|] == Front(programs[i])[|received[i]|];
      assert programs[i][|received[i]|] in Front(programs[i]);
    }
  }

  lemma ReceiveKeepsOrder(programs: seq<seq<Message>>, received: seq<seq<Message>>, s: State, i: nat, m: Message)
    requires Shaped(programs, s) && |received| == |programs| && AllInOrder(programs, received, s)
    requires Step(programs, s, Receive(i, m)).Some?
    ensures AllInOrder(programs, received[i := received[i] + [m]], Step(programs, s, Receive(i, m)).value)
  {
    var received', s' := received[i := received[i] + [m]], Step(programs, s, Receive(i, m)).value;
    forall k | 0 <= k < |programs|
      ensures InOrder(programs, received', s', k)
    {
      assert InOrder(programs, received, s, k);
      assert received'[k] + s'.transit[k] == received[k] + s.transit[k];
    }
  }

  /** What the parent keeps stays a shuffle of the progress events received. */
  lemma ReceiveKeepsShuffle(collected: seq<ImportJobEvent>, received: seq<seq<Message>>, i: nat, m: Message)
    requires i < |received| && IsShuffle(collected, AllProgresses(received))
    ensures IsShuffle(collected + (if m.Progress? then [m.event] else []),
                      AllProgresses(received[i := received[i] + [m]]))
  {
    var longer := received[i] + [m];
    var received' := received[i := longer];
    assert Front(longer) == received[i] && Last(longer) == m;
    if m.Progress? {
      ShuffleExtends(collected, AllProgresses(received), i, m.event);
      assert AllProgresses(received') == AllProgresses(received)[i := AllProgresses(received)[i] + [m.event]];
    } else {
      assert Progresses(longer) == Progresses(received[i]);
      assert AllProgresses(received') == AllProgresses(received) && collected + [] == collected;
    }
  }

  lemma ReceiveKeepsInv(programs: seq<seq<Message>>, received: seq<seq<Message>>, s: State, i: nat, m: Message)
    requires Shaped(programs, s) && |received| == |programs| && ArePrograms(programs)
    requires Inv(programs, received, s) && Step(programs, s, Receive(i, m)).Some?
    ensures Inv(programs, received[i := received[i] + [m]], Step(programs, s, Receive(i, m)).value)
  {
    assert InOrder(programs, received, s, i);
    NextMessage(programs, received, s, i);
    ReceiveKeepsOrder(programs, received, s, i, m);
    HeardOutUpdate(programs, received, i, received[i] + [m], |programs|);
    ReceiveKeepsShuffle(s.collected, received, i, m);
    assert s.collected + [] == s.collected;
  }

  lemma {:induction false} Invariant(programs: seq<seq<Message>>, es: seq<Event>)
    requires ArePrograms(programs) && Exec(programs, es).Some?
    ensures Inv(programs, Received(|programs|, es), Exec(programs, es).value)
  {
    if es == [] {
      HeardOutNone(programs, |programs|);
    } else {
      Invariant(programs, Front(es));
      var received, s := Received(|programs|, Front(es)), Exec(programs, Front(es)).value;
      match Last(es)
      case Send(i) => SendKeepsInv(programs, received, s, i);
      case Receive(i, m) => ReceiveKeepsInv(programs, received, s, i, m);
    }
  }

  lemma HeardOutIsComplete(programs: seq<seq<Message>>, received: seq<seq<Message>>, s: State, i: nat)
    requires Shaped(programs, s) && |received| == |programs| && i < |programs|
    requires InOrder(programs, received, s, i) && |received[i]| == |programs[i]|
    ensures received[i] == programs[i] && s.transit[i] == [] && s.sent[i] == |programs[i]|
  {
    assert |received[i] + s.transit[i]| == |programs[i][..s.sent[i]]|;
    assert programs[i][..|programs[i]|] == programs[i];
  }

  /** When the parent's loop ends it has a shuffle of the complete reports, one per process, and nothing
      is unsent or in transit. */
  lemma CollectedIsShuffle(programs: seq<seq<Message>>, es: seq<Event>)
    requires ArePrograms(programs) && Exec(programs, es).Some?
    requires Exec(programs, es).value.finished == |programs|
    ensures
      var s := Exec(programs, es).value;
      && IsShuffle(s.collected, AllProgresses(programs))
      && Received(|programs|, es) == programs
      && (forall i | 0 <= i < |programs| :: s.transit[i] == [] && s.sent[i] == |programs[i]|)
  {
    var s, received := Exec(programs, es).value, Received(|programs|, es);
    Invariant(programs, es);
    CountingSuffices(programs, received, |programs|);
    forall i | 0 <= i < |programs|
      ensures received[i] == programs[i] && s.transit[i] == [] && s.sent[i] == |programs[i]|
    {
      assert InOrder(programs, received, s, i);
      HeardOutIsComplete(programs, received, s, i);
    }
    assert received == programs;
  }

  /** At every earlier moment it has a shuffle of a prefix of what each process has to say. */
  lemma CollectedIsPartialShuffle(programs: seq<seq<Message>>, es: seq<Event>)
    requires ArePrograms(programs) && Exec(programs, es).Some?
    ensures IsShuffle(Exec(programs, es).value.collected, AllProgresses(Received(|programs|, es)))
    ensures forall i | 0 <= i < |programs| :: Received(|programs|, es)[i] <= programs[i]
  {
    Invariant(programs, es);
    var s, received := Exec(programs, es).value, Received(|programs|, es);
    forall i | 0 <= i < |programs|
      ensures received[i] <= programs[i]
    {
      assert InOrder(programs, received, s, i);
      assert received[i] <= received[i] + s.transit[i];
    }
  }

  // ---- Progress and termination

  lemma CollectMoves(programs: seq<seq<Message>>, es: seq<Event>) returns (i: nat)
    requires ArePrograms(programs) && Exec(programs, es).Some? && Exec(programs, es).value.finished < |programs|
    ensures i < |programs|
    ensures Exec(programs, es).value.sent[i] < |programs[i]| || Exec(programs, es).value.transit[i] != []
  {
    var s, received := Exec(programs, es).value, Received(|programs|, es);
    Invariant(programs, es);
    CountingSuffices(programs, received, |programs|);
    i :| 0 <= i < |programs| && |received[i]| != |programs[i]|;
    assert InOrder(programs, received, s, i);
    assert s.sent[i] == |received[i] + s.transit[i]|;
  }

  /** The parent never waits for ever: while sentinels are missing some process can send or some message
      is there to be received. */
  lemma CollectProgress(programs: seq<seq<Message>>, es: seq<Event>)
    requires ArePrograms(programs) && Exec(programs, es).Some? && Exec(programs, es).value.finished < |programs|
    ensures exists e :: Exec(programs, es + [e]).Some?
  {
    var s := Exec(programs, es).value;
    var i := CollectMoves(programs, es);
    var e := if s.transit[i] != [] then Receive(i, s.transit[i][0]) else Send(i);
    assert Front(es + [e]) == es && Last(es + [e]) == e;
  }

  /** Each message still has to be sent, received, or both. */
  function Work(programs: seq<seq<Message>>, s: State, n: nat): int
    requires Shaped(programs, s) && n <= |programs|
  {
    if n == 0 then 0
    else Work(programs, s, n - 1) + 2 * (|programs[n - 1]| - s.sent[n - 1]) + |s.transit[n - 1]|
  }

  lemma {:induction false} StepLowersWork(programs: seq<seq<Message>>, s: State, e: Event, n: nat)
    requires Shaped(programs, s) && n <= |programs| && Step(programs, s, e).Some?
    ensures Work(programs, Step(programs, s, e).value, n) + (if e.process < n then 1 else 0) == Work(programs, s, n)
  {
    if n > 0 {
      StepLowersWork(programs, s, e, n - 1);
    }
  }

  lemma {:induction false} WorkIsNatural(programs: seq<seq<Message>>, es: seq<Event>, n: nat)
    requires n <= |programs| && ArePrograms(programs) && Exec(programs, es).Some?
    ensures 0 <= Work(programs, Exec(programs, es).value, n)
  {
    if n > 0 {
      WorkIsNatural(programs, es, n - 1);
      Invariant(programs, es);
      assert InOrder(programs, Received(|programs|, es), Exec(programs, es).value, n - 1);
    }
  }

  /** Every schedule is finite: each event is a message sent or received. */
  lemma {:induction false} CollectTerminates(programs: seq<seq<Message>>, es: seq<Event>)
    requires ArePrograms(programs) && Exec(programs, es).Some?
    ensures |es| + Work(programs, Exec(programs, es).value, |programs|) == Work(programs, Initial(programs), |programs|)
    ensures |es| <= Work(programs, Initial(programs), |programs|)
  {
    WorkIsNatural(programs, es, |programs|);
    if es != [] {
      CollectTerminates(programs, Front(es));
      StepLowersWork(programs, Exec(programs, Front(es)).value, Last(es), |programs|);
    }
  }

  lemma Advance(programs: seq<seq<Message>>, es: seq<Event>, e: Event)
    requires ArePrograms(programs) && Exec(programs, es).Some?
    requires Step(programs, Exec(programs, es).value, e).Some?
    ensures Exec(programs, es + [e]) == Step(programs, Exec(programs, es).value, e)
    ensures Exec(programs, es + [e]).value.finished <= |programs|
    ensures |es| < Work(programs, Initial(programs), |programs|)
  {
    assert Front(es + [e]) == es && Last(es + [e]) == e;
    CollectTerminates(programs, es + [e]);
    Invariant(programs, es + [e]);
    CountingSuffices(programs, Received(|programs|, es + [e]), |programs|);
  }

  /** The parent's loop: count sentinels, keep everything else.  Between two of its `get` calls the
      processes send whatever they like; a `get` is served by any channel that has something. */
  method CollectUntilFinished(programs: seq<seq<Message>>) returns (collected: seq<ImportJobEvent>)
    requires ArePrograms(programs)
    ensures IsShuffle(collected, AllProgresses(programs))
  {
    var sent: seq<nat>, transit: seq<seq<Message>> := seq(|programs|, i => 0), seq(|programs|, i => []);
    var finished: nat := 0;
    collected := [];
    ghost var es: seq<Event> := [];
    ghost var bound := Work(programs, Initial(programs), |programs|);
    while finished < |programs|
      invariant |sent| == |transit| == |programs|
      invariant Exec(programs, es) == Some(State(sent, transit, finished, collected))
      invariant finished <= |programs|
      decreases bound - |es|
    {
      ghost var e := Send(0);
      ghost var movable := CollectMoves(programs, es);
      var i: nat :| i < |programs| && (sent[i] < |programs[i]| || transit[i] != []);
      if {
        case sent[i] < |programs[i]| =>
          transit := transit[i := transit[i] + [programs[i][sent[i]]]];
          sent := sent[i := sent[i] + 1];
          e := Send(i);
        case transit[i] != [] =>
          var message := transit[i][0];
          transit := transit[i := transit[i][1..]];
          if message.WorkerFinished? {
            finished := finished + 1;
          } else {
            collected := collected + [message.event];
          }
          e := Receive(i, message);
      }
      Advance(programs, es, e);
      es := es + [e];
    }
    CollectedIsShuffle(programs, es);
  }
}
