/** Seat booking: two dictionaries, bookings by ID and IDs by seat, kept in step under one lock. */
module SeatBookings {
  import opened Wrappers
  import opened Sequences

  datatype SeatBooking = SeatBooking(bookingId: string, customerId: string, seatId: string)

  datatype BookingError = EmptyBookingId | EmptyCustomerId | UnknownSeat

  datatype State = State(byId: map<string, SeatBooking>, bySeat: map<string, string>)

  /** Calls that raise change nothing and are not recorded. */
  datatype Event =
    | Book(booking: SeatBooking, confirmed: bool)
    | Cancel(bookingId: string, removed: bool)

  const EMPTY := State(map[], map[])

  /** `Cancel` deletes the seat's key without looking; if it were missing that would be a `KeyError`, which
      is not a step. */
  function Step(seats: set<string>, s: State, e: Event): Option<State> {
    match e
    case Book(b, confirmed) =>
      if b.seatId !in seats || confirmed != (b.bookingId !in s.byId && b.seatId !in s.bySeat) then None
      else if confirmed then
        Some(State(s.byId[b.bookingId := b], s.bySeat[b.seatId := b.bookingId]))
      else Some(s)
    case Cancel(id, removed) =>
      if removed != (id in s.byId) then None
      else if !removed then Some(s)
      else if s.byId[id].seatId !in s.bySeat then None
      else Some(State(s.byId - {id}, s.bySeat - {s.byId[id].seatId}))
  }

  function Exec(seats: set<string>, es: seq<Event>): Option<State> {
    if es == [] then Some(EMPTY)
    else
      match Exec(seats, Front(es))
      case None => None
      case Some(s) => Step(seats, s, Last(es))
  }

  lemma ExecExtends(seats: set<string>, es: seq<Event>, e: Event)
    requires Exec(seats, es).Some?
    ensures Exec(seats, es + [e]) == Step(seats, Exec(seats, es).value, e)
  {
    assert Front(es + [e]) == es;
  }

  /** The two dictionaries are inverse to each other. */
  ghost predicate Inverse(s: State) {
    && (forall id | id in s.byId ::
          s.byId[id].bookingId == id && s.byId[id].seatId in s.bySeat && s.bySeat[s.byId[id].seatId] == id)
    && (forall seat | seat in s.bySeat ::
          s.bySeat[seat] in s.byId && s.byId[s.bySeat[seat]].seatId == seat)
  }

  function Confirmed(es: seq<Event>): nat {
    if es == [] then 0 else Confirmed(Front(es)) + if Last(es).Book? && Last(es).confirmed then 1 else 0
  }

  function Removed(es: seq<Event>): nat {
    if es == [] then 0 else Removed(Front(es)) + if Last(es).Cancel? && Last(es).removed then 1 else 0
  }

  /** What one more event adds to each count. */
  lemma HistoryExtends(es: seq<Event>, e: Event)
    ensures Confirmed(es + [e]) == Confirmed(es) + if e.Book? && e.confirmed then 1 else 0
    ensures Removed(es + [e]) == Removed(es) + if e.Cancel? && e.removed then 1 else 0
  {
    assert Front(es + [e]) == es;
  }

  lemma BookKeepsInverse(s: State, b: SeatBooking)
    requires Inverse(s) && b.bookingId !in s.byId && b.seatId !in s.bySeat
    ensures Inverse(State(s.byId[b.bookingId := b], s.bySeat[b.seatId := b.bookingId]))
    ensures |s.bySeat[b.seatId := b.bookingId]| == |s.bySeat| + 1
  {
    var s' := State(s.byId[b.bookingId := b], s.bySeat[b.seatId := b.bookingId]);
    forall id | id in s'.byId
      ensures s'.byId[id].bookingId == id && s'.byId[id].seatId in s'.bySeat && s'.bySeat[s'.byId[id].seatId] == id
    {
      assert id == b.bookingId || (id in s.byId && s.byId[id].seatId != b.seatId);
    }
    forall seat | seat in s'.bySeat
      ensures s'.bySeat[seat] in s'.byId && s'.byId[s'.bySeat[seat]].seatId == seat
    {
      assert seat == b.seatId || (seat in s.bySeat && s.bySeat[seat] != b.bookingId);
    }
    assert s.bySeat[b.seatId := b.bookingId].Keys == s.bySeat.Keys + {b.seatId};
  }

  lemma CancelKeepsInverse(s: State, id: string)
    requires Inverse(s) && id in s.byId
    ensures Inverse(State(s.byId - {id}, s.bySeat - {s.byId[id].seatId}))
    ensures |s.bySeat - {s.byId[id].seatId}| == |s.bySeat| - 1
  {
    assert (s.bySeat - {s.byId[id].seatId}).Keys == s.bySeat.Keys - {s.byId[id].seatId};
  }

  /** After any run the dictionaries are mutually inverse, only known seats are booked, and their number is
      the confirmed bookings less the successful cancellations. */
  lemma {:induction false} Invariant(seats: set<string>, es: seq<Event>)
    requires Exec(seats, es).Some?
    ensures Inverse(Exec(seats, es).value) && Exec(seats, es).value.bySeat.Keys <= seats
    ensures |Exec(seats, es).value.byId| == |Exec(seats, es).value.bySeat|
    ensures |Exec(seats, es).value.bySeat| + Removed(es) == Confirmed(es)
  {
    if es != [] {
      Invariant(seats, Front(es));
      var s := Exec(seats, Front(es)).value;
      match Last(es)
      case Book(b, confirmed) =>
        if confirmed {
          BookKeepsInverse(s, b);
        }
      case Cancel(id, removed) =>
        if removed {
          CancelKeepsInverse(s, id);
        }
    }
    SameNumberOfKeys(Exec(seats, es).value);
  }

  /** There are as many bookings as booked seats. */
  lemma {:induction false} SameNumberOfKeys(s: State)
    requires Inverse(s)
    ensures |s.byId| == |s.bySeat|
    decreases |s.byId|
  {
    if s.byId.Keys == {} {
      assert forall seat | seat in s.bySeat :: s.bySeat[seat] in s.byId.Keys;
      assert s.bySeat.Keys == {};
    } else {
      var id :| id in s.byId;
      var s' := State(s.byId - {id}, s.bySeat - {s.byId[id].seatId});
      assert s'.byId.Keys == s.byId.Keys - {id} && s'.bySeat.Keys == s.bySeat.Keys - {s.byId[id].seatId};
      SameNumberOfKeys(s');
    }
  }

  /** No key is ever missing: a cancellation always finds the seat it has to free, so cancelling is always
      possible and succeeds exactly for current bookings. */
  lemma CancelNeverMissesAKey(seats: set<string>, es: seq<Event>, id: string)
    requires Exec(seats, es).Some?
    ensures Exec(seats, es + [Cancel(id, true)]).Some? <==> id in Exec(seats, es).value.byId
    ensures Exec(seats, es + [Cancel(id, false)]).Some? <==> id !in Exec(seats, es).value.byId
  {
    Invariant(seats, es);
    assert Front(es + [Cancel(id, true)]) == es && Front(es + [Cancel(id, false)]) == es;
  }

  lemma {:induction false} PrefixRuns(seats: set<string>, es: seq<Event>, k: nat)
    requires Exec(seats, es).Some? && k <= |es|
    ensures Exec(seats, es[..k]).Some?
  {
    if k < |es| {
      PrefixRuns(seats, Front(es), k);
      assert Front(es)[..k] == es[..k];
    } else {
      assert es[..k] == es;
    }
  }

  /** A confirmed booking stays as it is until it is cancelled. */
  lemma {:induction false} BookedUntilCancelled(seats: set<string>, es: seq<Event>, i: nat)
    requires Exec(seats, es).Some? && i < |es| && es[i].Book? && es[i].confirmed
    ensures
      var s, b := Exec(seats, es).value, es[i].booking;
      || (b.bookingId in s.byId && s.byId[b.bookingId] == b)
      || exists j :: i < j < |es| && es[j] == Cancel(b.bookingId, true)
  {
    var b := es[i].booking;
    if i < |es| - 1 {
      BookedUntilCancelled(seats, Front(es), i);
      if j :| i < j < |Front(es)| && Front(es)[j] == Cancel(b.bookingId, true) {
        assert es[j] == Cancel(b.bookingId, true);
      } else if Last(es) == Cancel(b.bookingId, true) {
        assert es[|es| - 1] == Cancel(b.bookingId, true);
      }
    }
  }

  /** No double booking: between two confirmed bookings of the same seat the first one was cancelled. */
  lemma SeatSoldOnce(seats: set<string>, es: seq<Event>, i: nat, k: nat)
    requires Exec(seats, es).Some? && i < k < |es|
    requires es[i].Book? && es[i].confirmed && es[k].Book? && es[k].confirmed
    requires es[i].booking.seatId == es[k].booking.seatId
    ensures exists j :: i < j < k && es[j] == Cancel(es[i].booking.bookingId, true)
  {
    PrefixRuns(seats, es, k);
    PrefixRuns(seats, es, k + 1);
    assert Front(es[..k + 1]) == es[..k] && Last(es[..k + 1]) == es[k];
    Invariant(seats, es[..k]);
    BookedUntilCancelled(seats, es[..k], i);
    var j :| i < j < k && es[..k][j] == Cancel(es[i].booking.bookingId, true);
    assert es[j] == Cancel(es[i].booking.bookingId, true);
  }

  /** The documentation says that a booking ID may be used once.  The code allows it again once its booking
      has been cancelled, and only then. */
  lemma IdReusedOnlyAfterCancel(seats: set<string>, es: seq<Event>, i: nat, k: nat)
    requires Exec(seats, es).Some? && i < k < |es|
    requires es[i].Book? && es[i].confirmed && es[k].Book? && es[k].confirmed
    requires es[i].booking.bookingId == es[k].booking.bookingId
    ensures exists j :: i < j < k && es[j] == Cancel(es[i].booking.bookingId, true)
  {
    PrefixRuns(seats, es, k);
    PrefixRuns(seats, es, k + 1);
    assert Front(es[..k + 1]) == es[..k] && Last(es[..k + 1]) == es[k];
    BookedUntilCancelled(seats, es[..k], i);
    var j :| i < j < k && es[..k][j] == Cancel(es[i].booking.bookingId, true);
    assert es[j] == Cancel(es[i].booking.bookingId, true);
  }

  /** The i-th event confirmed booking `id`, and it has not been cancelled since. */
  ghost predicate HeldSince(es: seq<Event>, id: string, i: int) {
    && 0 <= i < |es| && es[i].Book? && es[i].confirmed && es[i].booking.bookingId == id
    && forall j | i < j < |es| :: es[j] != Cancel(id, true)
  }

  /** Exactly when an ID is taken: some confirmed booking with it has not been cancelled since. */
  lemma {:induction false} IdTakenExactly(seats: set<string>, es: seq<Event>, id: string)
    requires Exec(seats, es).Some?
    ensures id in Exec(seats, es).value.byId <==> exists i :: HeldSince(es, id, i)
  {
    if es != [] {
      IdTakenExactly(seats, Front(es), id);
      if i :| HeldSince(Front(es), id, i) {
        assert Last(es) != Cancel(id, true) ==> HeldSince(es, id, i);
      }
      if i :| HeldSince(es, id, i) {
        assert i < |es| - 1 ==> HeldSince(Front(es), id, i);
        assert es[|es| - 1] == Last(es);
      }
      if Last(es).Book? && Last(es).confirmed && Last(es).booking.bookingId == id {
        assert HeldSince(es, id, |es| - 1);
      }
    }
  }

  /** A run in which one booking ID is confirmed twice. */
  lemma IdCanBeReused(b: SeatBooking)
    ensures
      var es := [Book(b, true), Cancel(b.bookingId, true), Book(b, true)];
      Exec({b.seatId}, es).Some?
  {
    var e1, e2, e3 := Book(b, true), Cancel(b.bookingId, true), Book(b, true);
    var booked := State(map[b.bookingId := b], map[b.seatId := b.bookingId]);
    assert Front([e1]) == [];
    assert Exec({b.seatId}, [e1]) == Some(booked);
    assert Front([e1, e2]) == [e1];
    assert booked.byId - {b.bookingId} == map[] && booked.bySeat - {b.seatId} == map[];
    assert Exec({b.seatId}, [e1, e2]) == Some(EMPTY);
    assert Front([e1, e2, e3]) == [e1, e2];
  }

  class AsyncSeatBooking {
    const seatIds: set<string>
    var bookingsById: map<string, SeatBooking>
    var bookingIdsBySeat: map<string, string>
    ghost var trace: seq<Event>

    ghost function View(): State
      reads this
    {
      State(bookingsById, bookingIdsBySeat)
    }

    ghost predicate Valid()
      reads this
    {
      Exec(seatIds, trace) == Some(View())
    }

    constructor (seats: set<string>)
      requires seats != {} && "" !in seats
      ensures Valid() && trace == [] && seatIds == seats
      ensures bookingsById == map[] && bookingIdsBySeat == map[]
    {
      seatIds := seats;
      bookingsById, bookingIdsBySeat, trace := map[], map[], [];
    }

    method BookSeat(bookingId: string, customerId: string, seatId: string) returns (r: Result<bool, BookingError>)
      requires Valid()
      modifies this
      ensures Valid()
      ensures r.Raised? ==> trace == old(trace) && View() == old(View())
      ensures r.Returned? ==> trace == old(trace) + [Book(SeatBooking(bookingId, customerId, seatId), r.value)]
      ensures r == if bookingId == "" then Raised(EmptyBookingId)
                   else if customerId == "" then Raised(EmptyCustomerId)
                   else if seatId !in seatIds then Raised(UnknownSeat)
                   else Returned(bookingId !in old(bookingsById) && seatId !in old(bookingIdsBySeat))
      ensures bookingsById ==
        if r == Returned(true) then old(bookingsById)[bookingId := SeatBooking(bookingId, customerId, seatId)]
        else old(bookingsById)
      ensures bookingIdsBySeat ==
        if r == Returned(true) then old(bookingIdsBySeat)[seatId := bookingId] else old(bookingIdsBySeat)
      ensures Confirmed(trace) == Confirmed(old(trace)) + if r == Returned(true) then 1 else 0
      ensures Removed(trace) == Removed(old(trace))
    {
      if bookingId == "" {
        return Raised(EmptyBookingId);
      }
      if customerId == "" {
        return Raised(EmptyCustomerId);
      }
      if seatId !in seatIds {
        return Raised(UnknownSeat);
      }
      var booking := SeatBooking(bookingId, customerId, seatId);
      BookRuns(booking);
      trace := trace + [Book(booking, bookingId !in bookingsById && seatId !in bookingIdsBySeat)];
      if bookingId in bookingsById || seatId in bookingIdsBySeat {
        return Returned(false);
      }
      bookingsById := bookingsById[bookingId := booking];
      bookingIdsBySeat := bookingIdsBySeat[seatId := bookingId];
      r := Returned(true);
    }

    lemma BookRuns(b: SeatBooking)
      requires Valid() && b.seatId in seatIds
      ensures
        var ok := b.bookingId !in bookingsById && b.seatId !in bookingIdsBySeat;
        var es := trace + [Book(b, ok)];
        && Exec(seatIds, es) ==
             Some(if ok then State(bookingsById[b.bookingId := b], bookingIdsBySeat[b.seatId := b.bookingId])
                  else View())
        && Confirmed(es) == Confirmed(trace) + (if ok then 1 else 0) && Removed(es) == Removed(trace)
    {
      var ok := b.bookingId !in bookingsById && b.seatId !in bookingIdsBySeat;
      HistoryExtends(trace, Book(b, ok));
      ExecExtends(seatIds, trace, Book(b, ok));
    }

    method CancelBooking(bookingId: string) returns (r: Result<bool, BookingError>)
      requires Valid()
      modifies this
      ensures Valid()
      ensures r.Raised? <==> bookingId == ""
      ensures r.Raised? ==> trace == old(trace) && View() == old(View())
      ensures r.Returned? ==> trace == old(trace) + [Cancel(bookingId, r.value)]
      ensures r.Returned? ==> (r.value <==> bookingId in old(bookingsById))
      ensures r == Returned(true) ==>
        && old(bookingsById)[bookingId].seatId in old(bookingIdsBySeat)
        && bookingIdsBySeat == old(bookingIdsBySeat) - {old(bookingsById)[bookingId].seatId}
        && bookingsById == old(bookingsById) - {bookingId}
      ensures r != Returned(true) ==>
        bookingsById == old(bookingsById) && bookingIdsBySeat == old(bookingIdsBySeat)
      ensures Removed(trace) == Removed(old(trace)) + if r == Returned(true) then 1 else 0
      ensures Confirmed(trace) == Confirmed(old(trace))
    {
      if bookingId == "" {
        return Raised(EmptyBookingId);
      }
      CancelRuns(bookingId);
      trace := trace + [Cancel(bookingId, bookingId in bookingsById)];
      if bookingId !in bookingsById {
        return Returned(false);
      }
      var booking := bookingsById[bookingId];
      bookingsById := bookingsById - {bookingId};
      bookingIdsBySeat := bookingIdsBySeat - {booking.seatId};
      r := Returned(true);
    }

    lemma CancelRuns(id: string)
      requires Valid()
      ensures id in bookingsById ==> bookingsById[id].seatId in bookingIdsBySeat
      ensures
        var ok := id in bookingsById;
        var es := trace + [Cancel(id, ok)];
        && Exec(seatIds, es) ==
             Some(if ok then State(bookingsById - {id}, bookingIdsBySeat - {bookingsById[id].seatId}) else View())
        && Removed(es) == Removed(trace) + (if ok then 1 else 0) && Confirmed(es) == Confirmed(trace)
    {
      Invariant(seatIds, trace);
      HistoryExtends(trace, Cancel(id, id in bookingsById));
      ExecExtends(seatIds, trace, Cancel(id, id in bookingsById));
    }

    /** The second lookup cannot fail: the ID found for the seat is a key. */
    method BookingForSeat(seatId: string) returns (r: Result<Option<SeatBooking>, BookingError>)
      requires Valid()
      ensures r.Raised? <==> seatId !in seatIds
      ensures r.Returned? && r.value.Some? ==> r.value.value in bookingsById.Values && r.value.value.seatId == seatId
      ensures r.Returned? && r.value.None? ==> forall b | b in bookingsById.Values :: b.seatId != seatId
    {
      if seatId !in seatIds {
        return Raised(UnknownSeat);
      }
      Invariant(seatIds, trace);
      if seatId !in bookingIdsBySeat {
        return Returned(None);
      }
      r := Returned(Some(bookingsById[bookingIdsBySeat[seatId]]));
    }

    /** The known seats some booking is for. */
    method BookedSeats() returns (r: set<string>)
      requires Valid()
      ensures r <= seatIds
      ensures forall seat :: seat in r <==> exists id :: id in bookingsById && bookingsById[id].seatId == seat
      ensures |r| == |bookingsById| && |r| + Removed(trace) == Confirmed(trace)
    {
      Invariant(seatIds, trace);
      r := bookingIdsBySeat.Keys;
    }

    /** The known seats no booking is for: at any one moment these and the booked seats partition the seats. */
    method AvailableSeats() returns (r: set<string>)
      requires Valid()
      ensures forall seat :: seat in r <==>
        seat in seatIds && forall id | id in bookingsById :: bookingsById[id].seatId != seat
      ensures |r| + |bookingsById| == |seatIds|
    {
      Invariant(seatIds, trace);
      r := seatIds - bookingIdsBySeat.Keys;
      assert seatIds == r + bookingIdsBySeat.Keys;
    }
  }
}
