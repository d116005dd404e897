/** Draining a priority queue that nobody is submitting to yields the stable sort of the submissions. */
module PriorityDrain {
  import opened Sequences
  import opened PriorityQueues

  function WithPriority(tickets: seq<Ticket>, p: nat): seq<Ticket> {
    if tickets == [] then []
    else WithPriority(Front(tickets), p) + if Last(tickets).priority == p then [Last(tickets)] else []
  }

  /** Sorted by priority, and tickets of equal priority keep their order. */
  ghost predicate IsStableSort(sorted: seq<Ticket>, tickets: seq<Ticket>) {
    && (forall i, j | 0 <= i < j < |sorted| :: sorted[i].priority <= sorted[j].priority)
    && (forall p: nat :: WithPriority(sorted, p) == WithPriority(tickets, p))
  }

  /** From `before` to `after` nothing happened but the claims of `entries`, in this order. */
  ghost predicate ClaimedSince(before: seq<Event>, after: seq<Event>, entries: seq<Entry>) {
    if entries == [] then after == before
    else
      after != [] && Last(after) == Claim(Last(entries)) && ClaimedSince(before, Front(after), Front(entries))
  }

  function Tickets(entries: seq<Entry>): (r: seq<Ticket>)
    ensures |r| == |entries|
  {
    seq(|entries|, i requires 0 <= i < |entries| => entries[i].ticket)
  }

  /** The entries of the first n tickets that were inserted and not claimed, by growing sequence number. */
  function Unclaimed(tickets: seq<Ticket>, inserted: set<nat>, claimed: seq<Entry>): seq<Entry> {
    if tickets == [] then []
    else
      var n := |tickets| - 1;
      Unclaimed(Front(tickets), inserted, claimed) +
      if n in inserted && EntryFor(n, Last(tickets)) !in claimed then [EntryFor(n, Last(tickets))] else []
  }

  /** What a history leaves to be claimed, in the order of submission. */
  function Backlog(es: seq<Event>): seq<Entry> {
    Unclaimed(Allocated(es), Inserted(es), Claimed(es))
  }

  /** What the backlog is, entry by entry: by growing sequence number, each entry that of a submission that has
      returned and has not been claimed. */
  lemma BacklogMeans(es: seq<Event>)
    requires Exec(es).Some?
    ensures forall i, j | 0 <= i < j < |Backlog(es)| :: Backlog(es)[i].sequence < Backlog(es)[j].sequence
    ensures forall e :: e in Backlog(es) <==>
      && e in Exec(es).value.queue && e.sequence < |Allocated(es)| && e.sequence in Inserted(es)
      && e.ticket == Allocated(es)[e.sequence] && e.priority == e.ticket.priority && e !in Claimed(es)
  {
    UnclaimedInSequence(Allocated(es), Inserted(es), Claimed(es));
    forall e
      ensures e in Backlog(es) <==>
        && e in Exec(es).value.queue && e.sequence < |Allocated(es)| && e.sequence in Inserted(es)
        && e.ticket == Allocated(es)[e.sequence] && e.priority == e.ticket.priority && e !in Claimed(es)
    {
      UnclaimedMembers(Allocated(es), Inserted(es), Claimed(es), e);
      QueueIsBacklog(es, e);
    }
  }

  /** What a drain claims, entry by entry: exactly the entries that were queued, by growing priority, and
      within a priority by growing sequence number. */
  lemma DrainOrder(es: seq<Event>, after: seq<Event>, entries: seq<Entry>)
    requires Exec(es).Some? && ClaimedSince(es, after, entries)
    requires Exec(after).Some? && Exec(after).value.queue == multiset{}
    ensures multiset(entries) == Exec(es).value.queue
    ensures forall i, j | 0 <= i < j < |entries| ::
      entries[i].priority < entries[j].priority ||
      (entries[i].priority == entries[j].priority && entries[i].sequence < entries[j].sequence)
    ensures |Tickets(entries)| == |entries| && forall i | 0 <= i < |entries| :: Tickets(entries)[i] == entries[i].ticket
  {
    ClaimsAscend(es, after, entries);
    forall i, j | 0 <= i < j < |entries|
      ensures entries[i].priority < entries[j].priority ||
              (entries[i].priority == entries[j].priority && entries[i].sequence < entries[j].sequence)
    {
      assert Before(entries[i], entries[j]);
    }
  }

  lemma {:induction false} UnclaimedMembers(
      tickets: seq<Ticket>, inserted: set<nat>, claimed: seq<Entry>, x: Entry)
    ensures x in Unclaimed(tickets, inserted, claimed) <==>
            Known(tickets, x) && x.sequence in inserted && x !in claimed
  {
    if tickets != [] {
      UnclaimedMembers(Front(tickets), inserted, claimed, x);
    }
  }

  /** The entries have growing sequence numbers, all below n. */
  ghost predicate InSequence(entries: seq<Entry>, n: nat) {
    && (forall i | 0 <= i < |entries| :: entries[i].sequence < n)
    && (forall i, j | 0 <= i < j < |entries| :: entries[i].sequence < entries[j].sequence)
  }

  lemma {:induction false} UnclaimedInSequence(tickets: seq<Ticket>, inserted: set<nat>, claimed: seq<Entry>)
    ensures InSequence(Unclaimed(tickets, inserted, claimed), |tickets|)
  {
    if tickets != [] {
      UnclaimedInSequence(Front(tickets), inserted, claimed);
    }
  }

  /** When every submission has returned and nothing has been claimed, that is every ticket submitted. */
  lemma {:induction false} NothingClaimedYet(tickets: seq<Ticket>, inserted: set<nat>)
    requires forall n | 0 <= n < |tickets| :: n in inserted
    ensures Tickets(Unclaimed(tickets, inserted, [])) == tickets
  {
    if tickets != [] {
      NothingClaimedYet(Front(tickets), inserted);
    }
  }

  lemma KeysAreTotal(tickets: seq<Ticket>, claimed: seq<Entry>, s: State, a: Entry, b: Entry)
    requires Inv(tickets, claimed, s) && a in s.queue && b in s.queue && a != b
    ensures Before(a, b) || Before(b, a)
  {
    assert Known(tickets, a) && Known(tickets, b);
  }

  /** A claim removes the entry that comes before all that stay. */
  lemma ClaimStep(es: seq<Event>)
    requires es != [] && Last(es).Claim? && Exec(es).Some?
    ensures Exec(Front(es)).Some?
    ensures Exec(Front(es)).value.queue == multiset{Last(es).entry} + Exec(es).value.queue
    ensures forall y | y in Exec(es).value.queue :: Before(Last(es).entry, y)
  {
    var s, e := Exec(Front(es)).value, Last(es).entry;
    Invariant(Front(es));
    assert s.queue[e] == 1;
    forall y | y in Exec(es).value.queue ensures Before(e, y) {
      KeysAreTotal(Allocated(Front(es)), Claimed(Front(es)), s, e, y);
    }
  }

  /** Serving `entries` in this order leads from one queue to the other: each comes before all that are
      served later or stay. */
  ghost predicate Served(start: multiset<Entry>, entries: seq<Entry>, end: multiset<Entry>) {
    && Ascending(Before, entries)
    && start == multiset(entries) + end
    && forall x, y | x in entries && y in end :: Before(x, y)
  }

  lemma ServeOneMore(start: multiset<Entry>, entries: seq<Entry>, middle: multiset<Entry>, end: multiset<Entry>)
    requires entries != [] && Served(start, Front(entries), middle)
    requires middle == multiset{Last(entries)} + end && forall y | y in end :: Before(Last(entries), y)
    ensures Served(start, entries, end)
  {
    assert entries == Front(entries) + [Last(entries)];
    assert Last(entries) in middle;
    forall y | y in end ensures y in middle {
    }
  }

  /** Uninterrupted claims come out in strictly ascending key order, and they are exactly what has left
      the queue. */
  lemma {:induction false} ClaimsAscend(before: seq<Event>, after: seq<Event>, entries: seq<Entry>)
    requires Exec(after).Some? && ClaimedSince(before, after, entries)
    ensures Exec(before).Some?
    ensures Served(Exec(before).value.queue, entries, Exec(after).value.queue)
  {
    if entries != [] {
      ClaimStep(after);
      ClaimsAscend(before, Front(after), Front(entries));
      ServeOneMore(
        Exec(before).value.queue, entries, Exec(Front(after)).value.queue, Exec(after).value.queue);
    }
  }

  function EntriesWith(entries: seq<Entry>, p: nat): seq<Entry> {
    if entries == [] then []
    else EntriesWith(Front(entries), p) + if Last(entries).priority == p then [Last(entries)] else []
  }

  lemma {:induction false} EntriesWithMembers(entries: seq<Entry>, p: nat, x: Entry)
    ensures x in EntriesWith(entries, p) <==> x in entries && x.priority == p
  {
    if entries != [] {
      EntriesWithMembers(Front(entries), p, x);
      assert entries == Front(entries) + [Last(entries)];
    }
  }

  lemma {:induction false} EntriesWithTickets(entries: seq<Entry>, p: nat)
    requires forall e | e in entries :: e.priority == e.ticket.priority
    ensures Tickets(EntriesWith(entries, p)) == WithPriority(Tickets(entries), p)
  {
    if entries != [] {
      assert Last(entries) in entries;
      EntriesWithTickets(Front(entries), p);
      assert Front(Tickets(entries)) == Tickets(Front(entries));
    }
  }

  /** Entries of one priority listed by growing sequence number are in ascending key order. */
  lemma {:induction false} EntriesWithAscend(entries: seq<Entry>, p: nat)
    requires forall i, j | 0 <= i < j < |entries| ::
      entries[i].priority == entries[j].priority ==> entries[i].sequence < entries[j].sequence
    ensures Ascending(Before, EntriesWith(entries, p))
  {
    if entries != [] {
      EntriesWithAscend(Front(entries), p);
      forall x | x in EntriesWith(Front(entries), p) && Last(entries).priority == p
        ensures Before(x, Last(entries))
      {
        EntriesWithMembers(Front(entries), p, x);
        var i :| 0 <= i < |Front(entries)| && entries[i] == x;
        assert entries[i].sequence < entries[|entries| - 1].sequence;
      }
    }
  }

  /** Two listings of the same entries, each by growing sequence number within a priority, agree on every
      priority. */
  lemma SamePerPriority(a: seq<Entry>, b: seq<Entry>, p: nat)
    requires forall x :: x in a <==> x in b
    requires forall i, j | 0 <= i < j < |a| :: a[i].priority == a[j].priority ==> a[i].sequence < a[j].sequence
    requires forall i, j | 0 <= i < j < |b| :: b[i].priority == b[j].priority ==> b[i].sequence < b[j].sequence
    ensures EntriesWith(a, p) == EntriesWith(b, p)
  {
    EntriesWithAscend(a, p);
    EntriesWithAscend(b, p);
    forall x ensures x in EntriesWith(a, p) <==> x in EntriesWith(b, p) {
      EntriesWithMembers(a, p, x);
      EntriesWithMembers(b, p, x);
    }
    AscendingUnique(Before, EntriesWith(a, p), EntriesWith(b, p));
  }

  /** The queue holds exactly the backlog. */
  lemma QueueIsBacklog(es: seq<Event>, x: Entry)
    requires Exec(es).Some?
    ensures x in Exec(es).value.queue <==> x in Backlog(es)
  {
    Invariant(es);
    InsertedOrInserting(es, x.sequence);
    UnclaimedMembers(Allocated(es), Inserted(es), Claimed(es), x);
  }

  /** From any state, however the submissions overlapped and whatever was claimed before: claiming until the
      queue is empty yields the stable sort by priority of the backlog in the order of sequence numbers,
      which for submissions made one after the other is the order of submission. */
  lemma DrainIsStableSort(es: seq<Event>, after: seq<Event>, entries: seq<Entry>)
    requires Exec(es).Some? && ClaimedSince(es, after, entries)
    requires Exec(after).Some? && Exec(after).value.queue == multiset{}
    ensures IsStableSort(Tickets(entries), Tickets(Backlog(es)))
  {
    ClaimsAscend(es, after, entries);
    forall x ensures x in entries <==> x in Backlog(es) {
      QueueIsBacklog(es, x);
      assert x in entries <==> x in multiset(entries);
    }
    forall e | e in Backlog(es) ensures e.priority == e.ticket.priority {
      UnclaimedMembers(Allocated(es), Inserted(es), Claimed(es), e);
    }
    UnclaimedInSequence(Allocated(es), Inserted(es), Claimed(es));
    AscendingIsStableSort(entries, Backlog(es), |Allocated(es)|);
  }

  /** In particular, submitting any tickets and then claiming until nothing is left sorts all of them. */
  lemma FullDrainSortsAll(es: seq<Event>, after: seq<Event>, entries: seq<Entry>)
    requires Exec(es).Some? && ClaimedSince(es, after, entries)
    requires Exec(after).Some? && Exec(after).value.queue == multiset{}
    requires Claimed(es) == [] && Exec(es).value.inserting == map[]
    ensures IsStableSort(Tickets(entries), Allocated(es))
  {
    DrainIsStableSort(es, after, entries);
    forall n | 0 <= n < |Allocated(es)| ensures n in Inserted(es) {
      InsertedOrInserting(es, n);
    }
    NothingClaimedYet(Allocated(es), Inserted(es));
  }

  lemma AscendingIsStableSort(entries: seq<Entry>, listed: seq<Entry>, n: nat)
    requires Ascending(Before, entries)
    requires forall x :: x in entries <==> x in listed
    requires forall e | e in listed :: e.priority == e.ticket.priority
    requires InSequence(listed, n)
    ensures IsStableSort(Tickets(entries), Tickets(listed))
  {
    forall p: nat ensures WithPriority(Tickets(entries), p) == WithPriority(Tickets(listed), p) {
      SamePerPriority(entries, listed, p);
      EntriesWithTickets(entries, p);
      EntriesWithTickets(listed, p);
    }
    forall i, j | 0 <= i < j < |entries|
      ensures entries[i].ticket.priority <= entries[j].ticket.priority
    {
      assert Before(entries[i], entries[j]);
      assert entries[i] in entries && entries[j] in entries;
    }
  }

  /** A queue that is not empty has a least entry. */
  lemma {:induction false} LeastExists(queue: multiset<Entry>) returns (e: Entry)
    requires queue != multiset{}
    ensures IsLeast(queue, e)
    decreases |queue|
  {
    var first :| first in queue;
    var rest := queue[first := 0];
    e := first;
    if rest != multiset{} {
      var least := LeastExists(rest);
      if Before(least, first) {
        e := least;
      }
    }
    forall x | x in queue ensures !Before(x, e) {
      assert x == first || x in rest;
    }
  }
}
