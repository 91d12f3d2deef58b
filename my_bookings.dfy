/** The "My Bookings" page (cilent/src/pages/MyBookings.jsx): loading the
    list, cancelling a booking, the filter that skips broken entries, and
    when the Pay Now and Cancel buttons appear. */
module MyBookings {
  import opened Wrappers
  import opened Strings
  import BookingModel

  const Cancelled := "Booking cancelled"
  const UnableToCancel := "Unable to cancel booking"
  const SomethingWrong := "Something went wrong"

  /** A booking as the page receives it, with its show (and the show's
      movie) populated, or missing when the reference is dangling. */
  datatype Card = Card(
    id: string,
    show: Option<BookingModel.Show>,
    bookedSeats: seq<string>,
    amount: int,
    isPaid: bool,
    paymentLink: Option<string>)

  /** A list entry: a booking object, or `null`. */
  type Entry = Option<Card>

  /** `item && item.show && item.show.movie`. */
  predicate Displayable(e: Entry)
    ensures Displayable(e) ==> e.Some? && e.value.show.Some?
  {
    e.Some? && e.value.show.Some? && e.value.show.value.movie.Some?
  }

  /** `safeBookings`: the entries that can be drawn, in order. */
  function SafeBookings(entries: seq<Entry>): (r: seq<Card>)
    ensures forall c :: c in r <==> Some(c) in entries && Displayable(Some(c))
    ensures |r| <= |entries|
  {
    if |entries| == 0 then []
    else if Displayable(entries[0]) then [entries[0].value] + SafeBookings(entries[1..])
    else SafeBookings(entries[1..])
  }

  /** The filter works entry by entry, so it keeps the order of the list. */
  lemma {:induction false} SafeBookingsKeepsOrder(a: seq<Entry>, b: seq<Entry>)
    ensures SafeBookings(a + b) == SafeBookings(a) + SafeBookings(b)
  {
    if |a| == 0 {
      assert a + b == b;
    } else {
      assert (a + b)[1..] == a[1..] + b;
      SafeBookingsKeepsOrder(a[1..], b);
    }
  }

  /** Pay Now: the booking is unpaid and has a payment link. */
  predicate ShowPayNow(c: Card)
    ensures ShowPayNow(c) ==> !c.isPaid && Truthy(c.paymentLink)
  {
    !c.isPaid && Truthy(c.paymentLink)
  }

  /** Cancel: the booking is unpaid. */
  predicate ShowCancel(c: Card)
    ensures ShowPayNow(c) ==> ShowCancel(c)
  {
    !c.isPaid
  }

  /** A paid booking offers neither button; an unpaid one always offers
      Cancel, and Pay Now exactly when it has a link. */
  lemma ButtonsFollowPayment(c: Card)
    ensures c.isPaid ==> !ShowPayNow(c) && !ShowCancel(c)
    ensures !c.isPaid ==> ShowCancel(c) && (ShowPayNow(c) <==> Truthy(c.paymentLink))
  {
  }

  /** `prev.filter((b) => b._id !== bookingId)`. */
  function WithoutBooking(entries: seq<Entry>, bookingId: string): (r: seq<Entry>)
    requires forall i :: 0 <= i < |entries| ==> entries[i].Some?
    ensures forall i :: 0 <= i < |r| ==> r[i].Some?
    ensures forall c :: Some(c) in r <==> Some(c) in entries && c.id != bookingId
    ensures |r| <= |entries|
  {
    if |entries| == 0 then []
    else if entries[0].value.id == bookingId then WithoutBooking(entries[1..], bookingId)
    else [entries[0]] + WithoutBooking(entries[1..], bookingId)
  }

  /** Removing by id keeps the order of the others. */
  lemma {:induction false} WithoutBookingKeepsOrder(a: seq<Entry>, b: seq<Entry>, bookingId: string)
    requires forall i :: 0 <= i < |a| ==> a[i].Some?
    requires forall i :: 0 <= i < |b| ==> b[i].Some?
    ensures WithoutBooking(a + b, bookingId) == WithoutBooking(a, bookingId) + WithoutBooking(b, bookingId)
  {
    if |a| == 0 {
      assert a + b == b;
    } else {
      assert (a + b)[1..] == a[1..] + b;
      WithoutBookingKeepsOrder(a[1..], b, bookingId);
    }
  }

  /** After a successful cancel the page shows no card with that id, and
      every other card it showed is still shown. */
  lemma CancelHidesTheBooking(entries: seq<Entry>, bookingId: string)
    requires forall i :: 0 <= i < |entries| ==> entries[i].Some?
    ensures forall c :: c in SafeBookings(WithoutBooking(entries, bookingId)) ==> c.id != bookingId
    ensures forall c :: c in SafeBookings(entries) && c.id != bookingId ==> c in SafeBookings(WithoutBooking(entries, bookingId))
  {
  }

  /** The answer to `POST /api/user/booking`: the body, or an error. */
  datatype ListReply = ListReply(success: bool, bookings: Option<seq<Entry>>) | ListError

  /** The answer to `POST /api/booking/cancel/:id`: the body, or an error
      carrying the server's message, if any. */
  datatype CancelReply = CancelAnswer(success: bool, message: Option<string>) | CancelError(responseMessage: Option<string>)

  /** The toast a cancel answer shows. */
  function CancelToast(reply: CancelReply): (toast: string)
    ensures reply.CancelAnswer? && reply.success ==> toast == Cancelled
    ensures reply.CancelAnswer? && !reply.success ==> toast == OrElse(reply.message, UnableToCancel)
    ensures reply.CancelError? ==> toast == OrElse(reply.responseMessage, SomethingWrong)
  {
    match reply
    case CancelAnswer(success, message) => if success then Cancelled else OrElse(message, UnableToCancel)
    case CancelError(m) => OrElse(m, SomethingWrong)
  }

  /** The page's `bookings` and `isLoading` state. */
  class MyBookingsPage {
    var bookings: seq<Entry>
    var isLoading: bool

    constructor ()
      ensures bookings == [] && isLoading
    {
      bookings, isLoading := [], true;
    }

    /** The mount effect: with a user the list is requested (the returned
        flag); without one loading stops and the page goes to the login. */
    method Mount(hasUser: bool) returns (requestList: bool, goToLogin: bool)
      modifies this
      ensures requestList == hasUser && goToLogin == !hasUser
      ensures bookings == old(bookings)
      ensures isLoading == (hasUser && old(isLoading))
    {
      if hasUser {
        requestList, goToLogin := true, false;
      } else {
        isLoading := false;
        requestList, goToLogin := false, true;
      }
    }

    /** `getMyBookings` with its answer: the list is replaced by
        `data.bookings || []` on success only, and loading ends either way. */
    method ListLoaded(reply: ListReply)
      modifies this
      ensures !isLoading
      ensures reply.ListReply? && reply.success ==> bookings == reply.bookings.GetOr([])
      ensures !(reply.ListReply? && reply.success) ==> bookings == old(bookings)
    {
      if reply.ListReply? && reply.success {
        bookings := if reply.bookings.Some? then reply.bookings.value else [];
      }
      isLoading := false;
    }

    /** `handleCancel(bookingId)` with its answer: on success the booking
        leaves the list, otherwise the list stays; returns the toast. The
        list must hold no `null` entry, on which the filter would throw. */
    method HandleCancel(bookingId: string, reply: CancelReply) returns (toast: string)
      requires forall i :: 0 <= i < |bookings| ==> bookings[i].Some?
      modifies this
      ensures isLoading == old(isLoading)
      ensures reply.CancelAnswer? && reply.success ==> bookings == WithoutBooking(old(bookings), bookingId)
      ensures !(reply.CancelAnswer? && reply.success) ==> bookings == old(bookings)
      ensures toast == CancelToast(reply)
    {
      if reply.CancelAnswer? && reply.success {
        bookings := WithoutBooking(bookings, bookingId);
      }
      toast := CancelToast(reply);
    }
  }
}
