/** The support queue, and with it the shipping queue, as the mutable object the source defines. */
module PriorityQueueObject {
  import opened Wrappers
  import opened Sequences
  import opened PriorityQueues
  import opened PriorityDrain

  datatype QueueError = TooManyDone

  class SupportQueue {
    var nextSequence: nat
    var queue: multiset<Entry>
    var unfinished: nat
    ghost var inserting: map<nat, Ticket>
    ghost var trace: seq<Event>

    ghost function View(): State
      reads this
    {
      State(nextSequence, inserting, queue, unfinished)
    }

    ghost predicate Valid()
      reads this
    {
      Exec(trace) == Some(View())
    }

    constructor ()
      ensures Valid() && trace == [] && nextSequence == 0 && queue == multiset{} && unfinished == 0
      ensures inserting == map[]
    {
      nextSequence, queue, unfinished, inserting, trace := 0, multiset{}, 0, map[], [];
    }

    /** The first half of `submit`, under the sequence lock. */
    method TakeNumber(ghost ticket: Ticket) returns (sequence: nat)
      requires Valid()
      modifies this
      ensures Valid() && sequence == old(nextSequence) && trace == old(trace) + [Allocate(sequence, ticket)]
      ensures inserting == old(inserting)[sequence := ticket] && nextSequence == sequence + 1
      ensures queue == old(queue) && unfinished == old(unfinished)
      ensures Allocated(trace) == Allocated(old(trace)) + [ticket]
    {
      HistoryExtends(trace, Allocate(nextSequence, ticket));
      sequence := nextSequence;
      nextSequence := nextSequence + 1;
      inserting := inserting[sequence := ticket];
      ExecExtends(trace, Allocate(sequence, ticket));
      trace := trace + [Allocate(sequence, ticket)];
    }

    /** The second half of `submit`: the priority queue's own `put`. */
    method Put(sequence: nat, ticket: Ticket)
      requires Valid() && sequence in inserting && inserting[sequence] == ticket
      modifies this
      ensures Valid() && trace == old(trace) + [Insert(sequence, ticket)]
      ensures inserting == old(inserting) - {sequence} && nextSequence == old(nextSequence)
      ensures queue == old(queue) + multiset{Entry(ticket.priority, sequence, ticket)}
      ensures unfinished == old(unfinished) + 1
      ensures Inserted(trace) == Inserted(old(trace)) + {sequence} && Inserts(trace) == Inserts(old(trace)) + 1
    {
      HistoryExtends(trace, Insert(sequence, ticket));
      queue := queue + multiset{Entry(ticket.priority, sequence, ticket)};
      unfinished := unfinished + 1;
      inserting := inserting - {sequence};
      ExecExtends(trace, Insert(sequence, ticket));
      trace := trace + [Insert(sequence, ticket)];
    }

    /** `submit` when no other submission comes between its halves. */
    method Submit(ticket: Ticket)
      requires Valid()
      modifies this
      ensures Valid() && inserting == old(inserting) && nextSequence == old(nextSequence) + 1
      ensures queue == old(queue) + multiset{Entry(ticket.priority, old(nextSequence), ticket)}
      ensures unfinished == old(unfinished) + 1
      ensures trace == old(trace) + [Allocate(old(nextSequence), ticket), Insert(old(nextSequence), ticket)]
      ensures Allocated(trace) == Allocated(old(trace)) + [ticket] && Claimed(trace) == Claimed(old(trace))
    {
      NextIsFree();
      var sequence := TakeNumber(ticket);
      Put(sequence, ticket);
      SubmissionHistory(old(trace), sequence, ticket);
      assert inserting == old(inserting);
    }

    lemma NextIsFree()
      requires Valid()
      ensures nextSequence !in inserting
    {
      Invariant(trace);
    }

    static lemma SubmissionHistory(es: seq<Event>, n: nat, ticket: Ticket)
      ensures Allocated(es + [Allocate(n, ticket)] + [Insert(n, ticket)]) == Allocated(es) + [ticket]
      ensures Claimed(es + [Allocate(n, ticket)] + [Insert(n, ticket)]) == Claimed(es)
    {
      assert Front(es + [Allocate(n, ticket)] + [Insert(n, ticket)]) == es + [Allocate(n, ticket)];
      assert Front(es + [Allocate(n, ticket)]) == es;
    }

    /** `claim_next`, and `dispatch_next` when something is waiting: a least entry or nothing. */
    method ClaimNext() returns (r: Option<Ticket>, ghost entry: Option<Entry>)
      requires Valid()
      modifies this
      ensures Valid() && inserting == old(inserting)
      ensures r.None? <==> old(queue) == multiset{}
      ensures r.None? ==> trace == old(trace) + [Nothing(false)] && queue == old(queue)
      ensures r.Some? ==> entry.Some? && entry.value.ticket == r.value
      ensures r.Some? ==> trace == old(trace) + [Claim(entry.value)] && |queue| + 1 == |old(queue)|
      ensures r.Some? ==>
        && queue == old(queue) - multiset{entry.value} && entry.value in old(queue)
        && Claimed(trace) == Claimed(old(trace)) + [entry.value]
        && forall x | x in queue ::
             entry.value.priority < x.priority ||
             (entry.value.priority == x.priority && entry.value.sequence < x.sequence)
      ensures nextSequence == old(nextSequence) && unfinished == old(unfinished)
    {
      if queue == multiset{} {
        ExecExtends(trace, Nothing(false));
        trace := trace + [Nothing(false)];
        return None, None;
      }
      ghost var witnessed := LeastExists(queue);
      var e :| e in queue && IsLeast(queue, e);
      ClaimRuns(e);
      HistoryExtends(trace, Claim(e));
      trace := trace + [Claim(e)];
      queue := queue - multiset{e};
      r, entry := Some(e.ticket), Some(e);
    }

    lemma ClaimRuns(e: Entry)
      requires Valid() && IsLeast(queue, e)
      ensures Exec(trace + [Claim(e)]) == Some(View().(queue := queue - multiset{e}))
      ensures |queue - multiset{e}| + 1 == |queue|
      ensures forall x | x in queue - multiset{e} ::
        e.priority < x.priority || (e.priority == x.priority && e.sequence < x.sequence)
    {
      ExecExtends(trace, Claim(e));
      assert Front(trace + [Claim(e)]) == trace;
      ClaimStep(trace + [Claim(e)]);
    }

    /** `dispatch_next` giving up: nothing changes. */
    method TimeOut() returns (r: Option<Ticket>)
      requires Valid()
      modifies this`trace
      ensures Valid() && trace == old(trace) + [Nothing(true)] && r == None
    {
      r := None;
      ExecExtends(trace, Nothing(true));
      trace := trace + [Nothing(true)];
    }

    method MarkDone() returns (r: Result<(), QueueError>)
      requires Valid()
      modifies this
      ensures Valid() && trace == old(trace) + [TaskDone(r.Returned?)]
      ensures r.Raised? <==> Dones(old(trace)) == Inserts(old(trace))
      ensures r.Raised? ==> unfinished == 0 == old(unfinished)
      ensures r.Returned? ==> unfinished == old(unfinished) - 1 && Dones(trace) == Dones(old(trace)) + 1
      ensures queue == old(queue) && inserting == old(inserting) && nextSequence == old(nextSequence)
    {
      MarkRuns();
      HistoryExtends(trace, TaskDone(unfinished > 0));
      trace := trace + [TaskDone(unfinished > 0)];
      if unfinished == 0 {
        return Raised(TooManyDone);
      }
      unfinished := unfinished - 1;
      r := Returned(());
    }

    lemma MarkRuns()
      requires Valid()
      ensures Exec(trace + [TaskDone(unfinished > 0)]) ==
        Some(View().(unfinished := if unfinished > 0 then unfinished - 1 else 0))
      ensures unfinished == 0 <==> Dones(trace) == Inserts(trace)
    {
      UnfinishedCount(trace);
      ExecExtends(trace, TaskDone(unfinished > 0));
    }

    /** The tickets inserted and not yet claimed; those still being inserted are not among them. */
    method Size() returns (n: nat)
      requires Valid()
      ensures n + |Claimed(trace)| == Inserts(trace)
      ensures n == 0 <==> queue == multiset{}
    {
      WaitingCount(trace);
      n := |queue|;
    }

    lemma ClaimExtends(before: seq<Event>, after: seq<Event>, entries: seq<Entry>)
      requires entries != [] && after != [] && Last(after) == Claim(Last(entries))
      requires ClaimedSince(before, Front(after), Front(entries))
      ensures ClaimedSince(before, after, entries)
      ensures Tickets(entries) == Tickets(Front(entries)) + [Last(entries).ticket]
    {
    }

    /** An agent that claims until nothing is left, with no submissions in the meantime. */
    method ClaimAll() returns (tickets: seq<Ticket>, ghost entries: seq<Entry>)
      requires Valid()
      modifies this
      ensures Valid() && queue == multiset{}
      ensures multiset(entries) == old(queue) && |tickets| == |entries|
      ensures forall i | 0 <= i < |tickets| :: tickets[i] == entries[i].ticket
      ensures forall i, j | 0 <= i < j < |entries| ::
        entries[i].priority < entries[j].priority ||
        (entries[i].priority == entries[j].priority && entries[i].sequence < entries[j].sequence)
      ensures IsStableSort(tickets, Tickets(Backlog(old(trace))))
    {
      tickets := [];
      entries := [];
      while queue != multiset{}
        invariant Valid() && ClaimedSince(old(trace), trace, entries) && tickets == Tickets(entries)
        decreases |queue|
      {
        var r, e := ClaimNext();
        tickets := tickets + [r.value];
        entries := entries + [e.value];
        ClaimExtends(old(trace), trace, entries);
      }
      DrainOrder(old(trace), trace, entries);
      DrainIsStableSort(old(trace), trace, entries);
    }
  }
}
