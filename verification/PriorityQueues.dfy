/** The prioritised hand-off shared by the support queue and the shipping queue: `submit` takes a sequence
    number in one step and inserts its entry in a later one, so submissions overlap; a claim removes an
    entry with the least (priority, sequence) key. */
module PriorityQueues {
  import opened Wrappers
  import opened Sequences

  type Payload(==, !new)

  datatype Ticket = Ticket(priority: nat, payload: Payload)
  datatype Entry = Entry(priority: nat, sequence: nat, ticket: Ticket)

  /** The order of the first two tuple components.  Tickets themselves have no order. */
  predicate Before(a: Entry, b: Entry) {
    a.priority < b.priority || (a.priority == b.priority && a.sequence < b.sequence)
  }

  function EntryFor(sequence: nat, ticket: Ticket): Entry {
    Entry(ticket.priority, sequence, ticket)
  }

  /** `inserting` holds the submissions that have their number but not yet their place in the queue. */
  datatype State = State(
    nextSequence: nat,
    inserting: map<nat, Ticket>,
    queue: multiset<Entry>,
    unfinished: nat)

  /** `Nothing` is a claim that finds the queue empty, or a dispatch that gives up waiting. */
  datatype Event =
    | Allocate(sequence: nat, ticket: Ticket)
    | Insert(sequence: nat, ticket: Ticket)
    | Claim(entry: Entry)
    | Nothing(timedOut: bool)
    | TaskDone(accepted: bool)

  const INITIAL := State(0, map[], multiset{}, 0)

  predicate IsLeast(queue: multiset<Entry>, e: Entry) {
    e in queue && forall x | x in queue :: !Before(x, e)
  }

  ghost function Step(s: State, e: Event): Option<State> {
    match e
    case Allocate(n, ticket) =>
      if n == s.nextSequence then
        Some(s.(nextSequence := n + 1, inserting := s.inserting[n := ticket]))
      else None
    case Insert(n, ticket) =>
      if n in s.inserting && s.inserting[n] == ticket then
        Some(s.(inserting := s.inserting - {n},
                queue := s.queue + multiset{EntryFor(n, ticket)},
                unfinished := s.unfinished + 1))
      else None
    case Claim(entry) =>
      if IsLeast(s.queue, entry) then Some(s.(queue := s.queue - multiset{entry})) else None
    case Nothing(timedOut) =>
      if timedOut || s.queue == multiset{} then Some(s) else None
    case TaskDone(accepted) =>
      if accepted != (s.unfinished > 0) then None
      else Some(if accepted then s.(unfinished := s.unfinished - 1) else s)
  }

  ghost function Exec(es: seq<Event>): Option<State> {
    if es == [] then Some(INITIAL)
    else
      match Exec(Front(es))
      case None => None
      case Some(s) => Step(s, Last(es))
  }

  lemma ExecExtends(es: seq<Event>, e: Event)
    requires Exec(es).Some?
    ensures Exec(es + [e]) == Step(Exec(es).value, e)
  {
    assert Front(es + [e]) == es;
  }

  // ---- What a schedule says by itself

  /** The tickets submitted; the n-th was given sequence number n. */
  function Allocated(es: seq<Event>): seq<Ticket> {
    if es == [] then [] else Allocated(Front(es)) + if Last(es).Allocate? then [Last(es).ticket] else []
  }

  /** The numbers of the submissions that have returned. */
  function Inserted(es: seq<Event>): set<nat> {
    if es == [] then {} else Inserted(Front(es)) + if Last(es).Insert? then {Last(es).sequence} else {}
  }

  function Claimed(es: seq<Event>): seq<Entry> {
    if es == [] then [] else Claimed(Front(es)) + if Last(es).Claim? then [Last(es).entry] else []
  }

  // ---- Conservation

  ghost predicate Known(tickets: seq<Ticket>, e: Entry) {
    e.sequence < |tickets| && e == EntryFor(e.sequence, tickets[e.sequence])
  }

  ghost predicate Inv(tickets: seq<Ticket>, claimed: seq<Entry>, s: State) {
    && s.nextSequence == |tickets|
    && (forall n | n in s.inserting :: n < |tickets| && s.inserting[n] == tickets[n])
    && (forall e | e in s.queue :: Known(tickets, e) && s.queue[e] == 1 && e.sequence !in s.inserting && e !in claimed)
    && (forall e | e in claimed :: Known(tickets, e) && e.sequence !in s.inserting)
    && (forall i, j | 0 <= i < j < |claimed| :: claimed[i] != claimed[j])
    && (forall n | 0 <= n < |tickets| ::
          n in s.inserting || EntryFor(n, tickets[n]) in s.queue || EntryFor(n, tickets[n]) in claimed)
  }

  lemma AllocateKeepsInv(tickets: seq<Ticket>, claimed: seq<Entry>, s: State, n: nat, ticket: Ticket)
    requires Inv(tickets, claimed, s) && Step(s, Allocate(n, ticket)).Some?
    ensures Inv(tickets + [ticket], claimed, Step(s, Allocate(n, ticket)).value)
  {
    forall e | Known(tickets, e) ensures Known(tickets + [ticket], e) {
    }
  }

  lemma InsertKeepsInv(tickets: seq<Ticket>, claimed: seq<Entry>, s: State, n: nat, ticket: Ticket)
    requires Inv(tickets, claimed, s) && Step(s, Insert(n, ticket)).Some?
    ensures Inv(tickets, claimed, Step(s, Insert(n, ticket)).value)
  {
    assert Known(tickets, EntryFor(n, ticket));
    assert EntryFor(n, ticket) !in s.queue && EntryFor(n, ticket) !in claimed;
  }

  lemma ClaimKeepsInv(tickets: seq<Ticket>, claimed: seq<Entry>, s: State, e: Entry)
    requires Inv(tickets, claimed, s) && Step(s, Claim(e)).Some?
    ensures Inv(tickets, claimed + [e], Step(s, Claim(e)).value)
  {
    assert e in s.queue;
  }

  lemma OtherKeepsInv(tickets: seq<Ticket>, claimed: seq<Entry>, s: State, e: Event)
    requires Inv(tickets, claimed, s) && Step(s, e).Some? && (e.Nothing? || e.TaskDone?)
    ensures Inv(tickets, claimed, Step(s, e).value)
  {
  }

  lemma {:induction false} Invariant(es: seq<Event>)
    requires Exec(es).Some?
    ensures Inv(Allocated(es), Claimed(es), Exec(es).value)
  {
    if es != [] {
      Invariant(Front(es));
      var tickets, claimed, s := Allocated(Front(es)), Claimed(Front(es)), Exec(Front(es)).value;
      assert Last(es).Allocate? || Allocated(es) == tickets;
      assert Last(es).Claim? || Claimed(es) == claimed;
      match Last(es)
      case Allocate(n, ticket) => AllocateKeepsInv(tickets, claimed, s, n, ticket);
      case Insert(n, ticket) => InsertKeepsInv(tickets, claimed, s, n, ticket);
      case Claim(e) => ClaimKeepsInv(tickets, claimed, s, e);
      case _ => OtherKeepsInv(tickets, claimed, s, Last(es));
    }
  }

  lemma InsertingStep(s: State, e: Event, n: nat)
    requires Step(s, e).Some?
    ensures
      var s' := Step(s, e).value;
      && s'.nextSequence == s.nextSequence + (if e.Allocate? then 1 else 0)
      && (e.Allocate? ==> e.sequence == s.nextSequence)
      && (e.Insert? ==> e.sequence in s.inserting)
      && (n in s'.inserting <==>
            (e.Allocate? && e.sequence == n) || (n in s.inserting && !(e.Insert? && e.sequence == n)))
  {
  }

  /** A submission is still being inserted exactly when it has begun and has not returned. */
  lemma {:induction false} InsertedOrInserting(es: seq<Event>, n: nat)
    requires Exec(es).Some?
    ensures |Allocated(es)| == Exec(es).value.nextSequence
    ensures n in Exec(es).value.inserting ==> n < |Allocated(es)|
    ensures n in Inserted(es) <==> n < |Allocated(es)| && n !in Exec(es).value.inserting
  {
    if es != [] {
      InsertedOrInserting(Front(es), n);
      InsertingStep(Exec(Front(es)).value, Last(es), n);
    }
  }

  /** No ticket is lost and none is claimed twice: every ticket submitted is still being inserted, or queued
      exactly once, or claimed at exactly one position. */
  lemma TicketsConserved(es: seq<Event>, n: nat)
    requires Exec(es).Some? && n < |Allocated(es)|
    ensures
      var s, e := Exec(es).value, EntryFor(n, Allocated(es)[n]);
      && (n in s.inserting || e in s.queue || e in Claimed(es))
      && (n in s.inserting ==> e !in s.queue && e !in Claimed(es))
      && (e in s.queue ==> s.queue[e] == 1 && e !in Claimed(es))
      && (forall i, j | 0 <= i < |Claimed(es)| && 0 <= j < |Claimed(es)| ::
            Claimed(es)[i] == e == Claimed(es)[j] ==> i == j)
  {
    Invariant(es);
    assert EntryFor(n, Allocated(es)[n]).sequence == n;
  }

  /** Any two queued entries differ in their keys, so the heap never compares two tickets. */
  lemma KeysNeverTie(es: seq<Event>, a: Entry, b: Entry)
    requires Exec(es).Some? && a in Exec(es).value.queue && b in Exec(es).value.queue
    ensures a == b || Before(a, b) || Before(b, a)
    ensures Exec(es).value.queue[a] == 1
  {
    Invariant(es);
    assert Known(Allocated(es), a) && Known(Allocated(es), b);
  }

  // ---- Real-time order

  lemma {:induction false} PrefixRuns(es: seq<Event>, k: nat)
    requires Exec(es).Some? && k <= |es|
    ensures Exec(es[..k]).Some?
  {
    if k < |es| {
      PrefixRuns(Front(es), k);
      assert Front(es)[..k] == es[..k];
    } else {
      assert es[..k] == es;
    }
  }

  lemma EventRuns(es: seq<Event>, k: nat)
    requires Exec(es).Some? && k < |es|
    ensures Exec(es[..k]).Some? && Step(Exec(es[..k]).value, es[k]).Some?
  {
    PrefixRuns(es, k);
    PrefixRuns(es, k + 1);
    assert Front(es[..k + 1]) == es[..k] && Last(es[..k + 1]) == es[k];
  }

  /** An inserted entry waits in the queue until it is claimed. */
  lemma {:induction false} InsertedUntilClaimed(es: seq<Event>, i: nat)
    requires Exec(es).Some? && i < |es| && es[i].Insert?
    ensures
      var e := EntryFor(es[i].sequence, es[i].ticket);
      e in Exec(es).value.queue || exists l :: i < l < |es| && es[l] == Claim(e)
  {
    var e := EntryFor(es[i].sequence, es[i].ticket);
    if i < |es| - 1 {
      InsertedUntilClaimed(Front(es), i);
      if e !in Exec(Front(es)).value.queue {
        var l :| i < l < |Front(es)| && Front(es)[l] == Claim(e);
        assert es[l] == Claim(e);
      } else if Last(es) == Claim(e) {
        assert es[|es| - 1] == Claim(e);
      }
    }
  }

  /** A submission that has returned was given a number below the next one. */
  lemma {:induction false} InsertedBelowNext(es: seq<Event>, i: nat)
    requires Exec(es).Some? && i < |es| && es[i].Insert?
    ensures es[i].sequence < Exec(es).value.nextSequence
  {
    if i < |es| - 1 {
      InsertedBelowNext(Front(es), i);
    } else {
      Invariant(Front(es));
    }
  }

  /** The number given to a submission is smaller than that of any submission that begins after the first
      one has returned. */
  lemma NumbersRespectRealTime(es: seq<Event>, i: nat, k: nat)
    requires Exec(es).Some? && i < k < |es| && es[i].Insert? && es[k].Allocate?
    ensures es[i].sequence < es[k].sequence
  {
    EventRuns(es, k);
    InsertedBelowNext(es[..k], i);
  }

  lemma NotQueuedAtClaim(es: seq<Event>, m: nat, a: Entry)
    requires Exec(es).Some? && m < |es| && es[m].Claim? && Before(a, es[m].entry)
    ensures Exec(es[..m]).Some? && a !in Exec(es[..m]).value.queue
  {
    EventRuns(es, m);
  }

  /** Whatever was inserted before a claim, and has the smaller key, is claimed before it. */
  lemma ClaimedInKeyOrder(es: seq<Event>, i: nat, m: nat)
    requires Exec(es).Some? && i < m < |es| && es[i].Insert? && es[m].Claim?
    requires Before(EntryFor(es[i].sequence, es[i].ticket), es[m].entry)
    ensures exists l :: i < l < m && es[l] == Claim(EntryFor(es[i].sequence, es[i].ticket))
  {
    var a := EntryFor(es[i].sequence, es[i].ticket);
    NotQueuedAtClaim(es, m, a);
    InsertedUntilClaimed(es[..m], i);
    var l :| i < l < m && es[..m][l] == Claim(a);
    assert es[l] == Claim(a);
  }

  /** First come, first served, in real time: if the `submit` of A returned before the `submit` of B began
      and A is at least as urgent as B, then B is never claimed before A. */
  lemma RealTimeOrder(es: seq<Event>, i: nat, k: nat, m: nat)
    requires Exec(es).Some? && i < k < m < |es|
    requires es[i].Insert? && es[k].Allocate?
    requires es[i].ticket.priority <= es[k].ticket.priority
    requires es[m] == Claim(EntryFor(es[k].sequence, es[k].ticket))
    ensures exists l :: i < l < m && es[l] == Claim(EntryFor(es[i].sequence, es[i].ticket))
  {
    NumbersRespectRealTime(es, i, k);
    ClaimedInKeyOrder(es, i, m);
  }

  // ---- Accounting

  function Inserts(es: seq<Event>): nat {
    if es == [] then 0 else Inserts(Front(es)) + if Last(es).Insert? then 1 else 0
  }

  function Dones(es: seq<Event>): nat {
    if es == [] then 0 else Dones(Front(es)) + if Last(es) == TaskDone(true) then 1 else 0
  }

  /** `join` waits for zero: every inserted ticket has been marked done, and no more marks were accepted
      than tickets inserted. */
  lemma {:induction false} UnfinishedCount(es: seq<Event>)
    requires Exec(es).Some?
    ensures Exec(es).value.unfinished + Dones(es) == Inserts(es)
  {
    if es != [] {
      UnfinishedCount(Front(es));
    }
  }

  /** What is waiting is what was inserted and has not been claimed. */
  lemma {:induction false} WaitingCount(es: seq<Event>)
    requires Exec(es).Some?
    ensures |Exec(es).value.queue| + |Claimed(es)| == Inserts(es)
  {
    if es != [] {
      WaitingCount(Front(es));
    }
  }

  /** What `task_done` and `join` go by is insertions, not claims: a mark is accepted exactly while there are
      fewer marks than insertions, and `join` returns exactly when what is claimed and what is still waiting
      have together been marked; so when the claimed tickets have been marked it returns exactly if none is
      waiting. */
  lemma MarksCountInsertions(es: seq<Event>)
    requires Exec(es).Some?
    ensures Exec(es + [TaskDone(true)]).Some? <==> Dones(es) < Inserts(es)
    ensures Exec(es).value.unfinished == 0 <==> Dones(es) == |Claimed(es)| + |Exec(es).value.queue|
    ensures Dones(es) == |Claimed(es)| ==>
      (Exec(es).value.unfinished == 0 <==> Exec(es).value.queue == multiset{})
  {
    ExecExtends(es, TaskDone(true));
    UnfinishedCount(es);
    WaitingCount(es);
  }

  /** A run in which a ticket nobody has claimed is marked as handled, after which `join` returns. */
  lemma UnclaimedCanBeMarked(ticket: Ticket)
    ensures
      var es := [Allocate(0, ticket), Insert(0, ticket), TaskDone(true)];
      && Exec(es).Some? && Claimed(es) == []
      && Exec(es).value.queue == multiset{EntryFor(0, ticket)} && Exec(es).value.unfinished == 0
  {
    var e1, e2, e3 := Allocate(0, ticket), Insert(0, ticket), TaskDone(true);
    var s1 := INITIAL.(nextSequence := 1, inserting := map[0 := ticket]);
    var s2 := State(1, map[], multiset{EntryFor(0, ticket)}, 1);
    assert Front([e1]) == [] && Front([e1, e2]) == [e1] && Front([e1, e2, e3]) == [e1, e2];
    assert INITIAL.inserting[0 := ticket] == map[0 := ticket];
    assert Exec([e1]) == Some(s1);
    assert s1.inserting - {0} == map[];
    assert multiset{} + multiset{EntryFor(0, ticket)} == multiset{EntryFor(0, ticket)};
    assert Step(s1, e2) == Some(s2);
    assert Exec([e1, e2]) == Some(s2);
    assert Claimed([e1]) == [];
    assert Claimed([e1, e2]) == Claimed([e1]);
  }

  /** What one more event adds to each part of the history. */
  lemma HistoryExtends(es: seq<Event>, e: Event)
    ensures Allocated(es + [e]) == Allocated(es) + if e.Allocate? then [e.ticket] else []
    ensures Inserted(es + [e]) == Inserted(es) + if e.Insert? then {e.sequence} else {}
    ensures Claimed(es + [e]) == Claimed(es) + if e.Claim? then [e.entry] else []
    ensures Inserts(es + [e]) == Inserts(es) + if e.Insert? then 1 else 0
    ensures Dones(es + [e]) == Dones(es) + if e == TaskDone(true) then 1 else 0
  {
    assert Front(es + [e]) == es;
  }
}
