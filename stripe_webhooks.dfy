/** The payment-provider webhook (server/controllers/stripeWebhooks.js,
    `stripeWebhooks`): on a completed checkout it marks the booking paid,
    marks the booking's seats occupied in the show's seat map and sends the
    confirmation e-mail.

    The signature check (`constructEvent`) is an input: `None` when it
    throws, otherwise the event it returns. A database call that throws is
    the `Fault` input, naming the first call that throws; a fault naming a
    call that the run does not reach has no effect. */
module StripeWebhooks {
  import opened Wrappers
  import opened Strings
  import opened BookingModel
  import UserModel
  import Emails

  const CheckoutCompleted := "checkout.session.completed"

  /** The verified event: its type and `data.object.metadata.bookingId`. */
  datatype Event = Event(kind: string, bookingId: Option<string>)

  /** The first database call that throws, if any. */
  datatype Fault =
    | NoFault
    | FindBookingThrows   // Booking.findById
    | SaveBookingThrows   // booking.save
    | FindShowThrows      // Show.findById (seat update)
    | SaveShowThrows      // show.save
    | FindUserThrows      // User.findById

  /** 400 "Webhook Error", `{received: true}`, or 500 "Server error". */
  datatype Response = SignatureError | Received | ServerError

  /** What became of the confirmation e-mail. A failed attempt (missing key,
      provider error, or the show lookup inside the `try`) is caught. */
  datatype EmailOutcome = NotAttempted | Sent(msg: Emails.Message) | Failed

  datatype Outcome = Outcome(
    bookings: map<string, Booking>,
    shows: map<string, Show>,
    response: Response,
    email: EmailOutcome)

  /** The seat map after `bookedSeats.forEach(seat => occupiedSeats.set(seat, true))`:
      exactly the booked seats are added as occupied, and every other entry
      keeps its value. */
  function MarkOccupied(seats: map<string, bool>, booked: seq<string>): (r: map<string, bool>)
    ensures forall k :: k in r <==> k in seats || k in booked
    ensures forall k :: k in booked ==> r[k]
    ensures forall k :: k in seats && k !in booked ==> r[k] == seats[k]
  {
    if |booked| == 0 then seats
    else MarkOccupied(seats, booked[..|booked| - 1])[booked[|booked| - 1] := true]
  }

  /** The show's seat map, created empty when the document has none. */
  function SeatMap(show: Show): (seats: map<string, bool>)
    ensures show.occupiedSeats.None? ==> seats == map[]
    ensures show.occupiedSeats.Some? ==> seats == show.occupiedSeats.value
  {
    if show.occupiedSeats.Some? then show.occupiedSeats.value else map[]
  }

  /** The show collection once the booking's seats are marked in its show,
      when that show exists. */
  function OccupySeats(shows: map<string, Show>, booking: Booking): (r: map<string, Show>)
    ensures r.Keys == shows.Keys
    ensures booking.show !in shows ==> r == shows
    ensures booking.show in shows ==>
              r == shows[booking.show := shows[booking.show].(occupiedSeats := Some(MarkOccupied(SeatMap(shows[booking.show]), booking.bookedSeats)))]
  {
    if booking.show in shows then
      shows[booking.show := shows[booking.show].(occupiedSeats := Some(MarkOccupied(SeatMap(shows[booking.show]), booking.bookedSeats)))]
    else shows
  }

  /** Whether the event carries a truthy booking id. */
  predicate HasBookingId(ev: Event) {
    Truthy(ev.bookingId)
  }

  /** The e-mail step: look the owner up; if there is one with an e-mail,
      compose the message from the (paid) booking and the show as it is now
      stored, and hand it to the provider, whose failure is caught. */
  function Notify(
    users: map<string, UserModel.User>, booking: Booking, shows: map<string, Show>,
    mail: Emails.MailConfig, sendOk: bool, formatDate: int -> string): (r: EmailOutcome)
    ensures r != NotAttempted <==> booking.user in users && users[booking.user].email != ""
    ensures r.Sent? ==> sendOk && Truthy(mail.apiKey) && r.msg.to == users[booking.user].email
    ensures r.Sent? ==> r.msg.subject == Emails.Subject(if booking.show in shows then Some(shows[booking.show]) else None)
    ensures r != NotAttempted && !Truthy(mail.apiKey) ==> r == Failed
  {
    if booking.user in users && users[booking.user].email != "" then
      var show := if booking.show in shows then Some(shows[booking.show]) else None;
      match Emails.SendBookingEmail(mail, users[booking.user], Emails.SeatArray(booking.bookedSeats), booking.amount, show, formatDate)
      case MissingApiKey(_) => Failed
      case Compose(msg) => if sendOk then Sent(msg) else Failed
    else NotAttempted
  }

  /** The handler as a function of the stores before the call. */
  function Handle(
    bookings: map<string, Booking>, shows: map<string, Show>, users: map<string, UserModel.User>,
    event: Option<Event>, fault: Fault,
    mail: Emails.MailConfig, sendOk: bool, formatDate: int -> string): (r: Outcome)
    // a bad signature is answered 400, and only a bad signature is
    ensures r.response == SignatureError <==> event.None?
    // nothing is written unless a known booking id came with a completed checkout
    ensures (event.None? || event.value.kind != CheckoutCompleted || !HasBookingId(event.value)
             || event.value.bookingId.value !in bookings)
            ==> r.bookings == bookings && r.shows == shows && r.email == NotAttempted
    // no booking or show is created or removed
    ensures r.bookings.Keys == bookings.Keys && r.shows.Keys == shows.Keys
    // the paid flag never goes back to false
    ensures forall k :: k in bookings && bookings[k].isPaid ==> r.bookings[k].isPaid
  {
    if event.None? then Outcome(bookings, shows, SignatureError, NotAttempted)
    else
      var ev := event.value;
      if ev.kind != CheckoutCompleted || !HasBookingId(ev) then Outcome(bookings, shows, Received, NotAttempted)
      else if fault == FindBookingThrows then Outcome(bookings, shows, ServerError, NotAttempted)
      else
        var id := ev.bookingId.value;
        if id !in bookings then Outcome(bookings, shows, Received, NotAttempted)
        else
          var booking := bookings[id];
          if booking.isPaid then
            if fault == FindUserThrows then Outcome(bookings, shows, ServerError, NotAttempted)
            else Outcome(bookings, shows, Received, Notify(users, booking, shows, mail, sendOk, formatDate))
          else
            var paid := booking.(isPaid := true);
            if fault == SaveBookingThrows then Outcome(bookings, shows, ServerError, NotAttempted)
            else
              var bookings' := bookings[id := paid];
              if fault == FindShowThrows then Outcome(bookings', shows, ServerError, NotAttempted)
              else
                var shows' := OccupySeats(shows, paid);
                if fault == SaveShowThrows && paid.show in shows then Outcome(bookings', shows, ServerError, NotAttempted)
                else if fault == FindUserThrows then Outcome(bookings', shows', ServerError, NotAttempted)
                else Outcome(bookings', shows', Received, Notify(users, paid, shows', mail, sendOk, formatDate))
  }

  /** `show.occupiedSeats || new Map()` and the `forEach` that marks each
      booked seat. */
  method MarkSeats(show: Show, seats: seq<string>) returns (occupied: map<string, bool>)
    ensures occupied == MarkOccupied(SeatMap(show), seats)
  {
    occupied := if show.occupiedSeats.Some? then show.occupiedSeats.value else map[];
    var i := 0;
    while i < |seats|
      invariant 0 <= i <= |seats|
      invariant occupied == MarkOccupied(SeatMap(show), seats[..i])
    {
      assert seats[..i + 1][..i] == seats[..i];
      occupied := occupied[seats[i] := true];
      i := i + 1;
    }
    assert seats[..i] == seats;
  }

  /** The booking and show collections the handler writes. */
  class Database {
    var bookings: map<string, Booking>
    var shows: map<string, Show>

    constructor (bookings: map<string, Booking>, shows: map<string, Show>)
      ensures this.bookings == bookings && this.shows == shows
    {
      this.bookings := bookings;
      this.shows := shows;
    }

    /** `stripeWebhooks(req, res)`: returns the response and the e-mail
        outcome, and leaves the collections as `Handle` says. */
    method StripeWebhooks(
      users: map<string, UserModel.User>, event: Option<Event>, fault: Fault,
      mail: Emails.MailConfig, sendOk: bool, formatDate: int -> string)
      returns (response: Response, email: EmailOutcome)
      modifies this
      ensures Outcome(bookings, shows, response, email)
              == Handle(old(bookings), old(shows), users, event, fault, mail, sendOk, formatDate)
    {
      email := NotAttempted;
      if event.None? {
        return SignatureError, email;
      }
      var ev := event.value;
      if ev.kind != CheckoutCompleted || !HasBookingId(ev) {
        return Received, email;
      }
      var id := ev.bookingId.value;
      if fault == FindBookingThrows {
        return ServerError, email;
      }
      if id !in bookings {
        return Received, email;
      }
      var booking := bookings[id];
      if !booking.isPaid {
        booking := booking.(isPaid := true);
        if fault == SaveBookingThrows {
          return ServerError, email;
        }
        bookings := bookings[id := booking];
        if fault == FindShowThrows {
          return ServerError, email;
        }
        if booking.show in shows {
          var show := shows[booking.show];
          var occupied := MarkSeats(show, booking.bookedSeats);
          show := show.(occupiedSeats := Some(occupied));
          if fault == SaveShowThrows {
            return ServerError, email;
          }
          shows := shows[booking.show := show];
        }
      }
      if fault == FindUserThrows {
        return ServerError, email;
      }
      email := Notify(users, booking, shows, mail, sendOk, formatDate);
      response := Received;
    }
  }

  // -----------------------------------------------------------------------
  // Properties of the handler

  /** A completed checkout for an unpaid booking, with no database fault,
      marks that booking paid and changes nothing else about it; every booked
      seat becomes occupied in its show, the other seat entries keep their
      values, and no other booking or show changes. */
  lemma PaymentMarksBookingAndSeats(
    bookings: map<string, Booking>, shows: map<string, Show>, users: map<string, UserModel.User>,
    id: string, mail: Emails.MailConfig, sendOk: bool, formatDate: int -> string)
    requires id != "" && id in bookings && !bookings[id].isPaid
    ensures var r := Handle(bookings, shows, users, Some(Event(CheckoutCompleted, Some(id))), NoFault, mail, sendOk, formatDate);
            var b := bookings[id];
            && r.response == Received
            && r.bookings == bookings[id := b.(isPaid := true)]
            && (b.show in shows ==>
                  var seats := r.shows[b.show].occupiedSeats;
                  && seats.Some?
                  && (forall s :: s in b.bookedSeats ==> s in seats.value && seats.value[s])
                  && (forall s :: s in SeatMap(shows[b.show]) && s !in b.bookedSeats ==>
                        s in seats.value && seats.value[s] == SeatMap(shows[b.show])[s])
                  && (forall s :: s in seats.value ==> s in b.bookedSeats || s in SeatMap(shows[b.show]))
                  && r.shows == shows[b.show := shows[b.show].(occupiedSeats := seats)])
            && (b.show !in shows ==> r.shows == shows)
  {
  }

  /** An event for a booking that is already paid writes nothing; the
      e-mail is still attempted when the owner has an address. */
  lemma AlreadyPaidIsUntouched(
    bookings: map<string, Booking>, shows: map<string, Show>, users: map<string, UserModel.User>,
    ev: Event, fault: Fault, mail: Emails.MailConfig, sendOk: bool, formatDate: int -> string)
    requires ev.kind == CheckoutCompleted && HasBookingId(ev)
    requires ev.bookingId.value in bookings && bookings[ev.bookingId.value].isPaid
    ensures var r := Handle(bookings, shows, users, Some(ev), fault, mail, sendOk, formatDate);
            && r.bookings == bookings && r.shows == shows
            && (fault !in {FindBookingThrows, FindUserThrows} ==>
                  r.response == Received
                  && (var u := bookings[ev.bookingId.value].user;
                      r.email.NotAttempted? <==> u !in users || users[u].email == ""))
  {
  }

  /** Delivering the same event again, after a delivery that got through,
      leaves the collections as the first delivery left them. */
  lemma {:induction false} RedeliveryIsIdempotent(
    bookings: map<string, Booking>, shows: map<string, Show>, users: map<string, UserModel.User>,
    event: Option<Event>, fault: Fault, mail: Emails.MailConfig, sendOk: bool, formatDate: int -> string)
    requires Handle(bookings, shows, users, event, NoFault, mail, sendOk, formatDate).response == Received
    ensures var once := Handle(bookings, shows, users, event, NoFault, mail, sendOk, formatDate);
            var twice := Handle(once.bookings, once.shows, users, event, fault, mail, sendOk, formatDate);
            twice.bookings == once.bookings && twice.shows == once.shows
  {
    var once := Handle(bookings, shows, users, event, NoFault, mail, sendOk, formatDate);
    var ev := event.value;
    if ev.kind == CheckoutCompleted && HasBookingId(ev) && ev.bookingId.value in bookings {
      var id := ev.bookingId.value;
      assert once.bookings[id].isPaid;
      AlreadyPaidIsUntouched(once.bookings, once.shows, users, ev, fault, mail, sendOk, formatDate);
    }
  }

  /** The e-mail never decides the response: whether the key is set and
      whether the provider accepts the message, the response and the
      collections are the same. */
  lemma EmailFailureIsSwallowed(
    bookings: map<string, Booking>, shows: map<string, Show>, users: map<string, UserModel.User>,
    event: Option<Event>, fault: Fault,
    mail1: Emails.MailConfig, sendOk1: bool, mail2: Emails.MailConfig, sendOk2: bool, formatDate: int -> string)
    ensures var r1 := Handle(bookings, shows, users, event, fault, mail1, sendOk1, formatDate);
            var r2 := Handle(bookings, shows, users, event, fault, mail2, sendOk2, formatDate);
            r1.response == r2.response && r1.bookings == r2.bookings && r1.shows == r2.shows
  {
  }

  /** A database fault on the paying path gives 500; a failed booking save
      leaves both collections as they were, while a failure after that save
      leaves the booking paid. */
  lemma MutationFailureGives500(
    bookings: map<string, Booking>, shows: map<string, Show>, users: map<string, UserModel.User>,
    id: string, fault: Fault, mail: Emails.MailConfig, sendOk: bool, formatDate: int -> string)
    requires id != "" && id in bookings && !bookings[id].isPaid
    requires fault == SaveBookingThrows || fault == FindShowThrows
          || (fault == SaveShowThrows && bookings[id].show in shows) || fault == FindUserThrows
    ensures var r := Handle(bookings, shows, users, Some(Event(CheckoutCompleted, Some(id))), fault, mail, sendOk, formatDate);
            && r.response == ServerError
            && r.email == NotAttempted
            && (fault == SaveBookingThrows ==> r.bookings == bookings && r.shows == shows)
            && (fault != SaveBookingThrows ==> r.bookings[id].isPaid)
            && (fault == FindShowThrows || fault == SaveShowThrows ==> r.shows == shows)
  {
  }

  /** A booking whose show cannot be found is still marked paid; no seat
      map is written. */
  lemma MissingShowStillPays(
    bookings: map<string, Booking>, shows: map<string, Show>, users: map<string, UserModel.User>,
    id: string, mail: Emails.MailConfig, sendOk: bool, formatDate: int -> string)
    requires id != "" && id in bookings && !bookings[id].isPaid && bookings[id].show !in shows
    ensures var r := Handle(bookings, shows, users, Some(Event(CheckoutCompleted, Some(id))), NoFault, mail, sendOk, formatDate);
            r.bookings[id].isPaid && r.shows == shows && r.response == Received
  {
  }

  /** A show without a seat map gets one holding exactly the booked seats. */
  lemma MissingSeatMapIsCreated(
    bookings: map<string, Booking>, shows: map<string, Show>, users: map<string, UserModel.User>,
    id: string, mail: Emails.MailConfig, sendOk: bool, formatDate: int -> string)
    requires id != "" && id in bookings && !bookings[id].isPaid
    requires bookings[id].show in shows && shows[bookings[id].show].occupiedSeats.None?
    ensures var r := Handle(bookings, shows, users, Some(Event(CheckoutCompleted, Some(id))), NoFault, mail, sendOk, formatDate);
            var seats := r.shows[bookings[id].show].occupiedSeats;
            seats.Some? && seats.value.Keys == set s | s in bookings[id].bookedSeats
            && forall s :: s in seats.value ==> seats.value[s]
  {
    var r := Handle(bookings, shows, users, Some(Event(CheckoutCompleted, Some(id))), NoFault, mail, sendOk, formatDate);
    var seats := r.shows[bookings[id].show].occupiedSeats;
    assert seats.value == MarkOccupied(map[], bookings[id].bookedSeats);
  }

  // -----------------------------------------------------------------------
  // A failed seat update is never retried

  /** A fault in the show step of a paying delivery answers 500 so that the
      provider delivers the event again; but the booking was already saved
      as paid, so the new delivery takes the already-paid branch and the
      seats are never marked, while the booking stays paid. */
  lemma ShowFailureIsNeverRepaired(
    bookings: map<string, Booking>, shows: map<string, Show>, users: map<string, UserModel.User>,
    id: string, fault: Fault, mail: Emails.MailConfig, sendOk: bool, formatDate: int -> string)
    requires id != "" && id in bookings && !bookings[id].isPaid && bookings[id].show in shows
    requires fault == FindShowThrows || fault == SaveShowThrows
    ensures var ev := Some(Event(CheckoutCompleted, Some(id)));
            var first := Handle(bookings, shows, users, ev, fault, mail, sendOk, formatDate);
            var retry := Handle(first.bookings, first.shows, users, ev, NoFault, mail, sendOk, formatDate);
            && first.response == ServerError
            && retry.response == Received
            && retry.bookings[id].isPaid
            && retry.shows == shows
  {
  }

  /** A concrete case: seat "A1" of a show with an empty seat map is paid
      for, the show save fails once, and after the retry the booking is paid
      while "A1" is still free. */
  lemma ShowFailureExample(users: map<string, UserModel.User>, mail: Emails.MailConfig, sendOk: bool, formatDate: int -> string)
    ensures var show := Show("s", None, None, 100, Some(map[]));
            var booking := Booking("b", "u", "s", ["A1"], 100, false, false, 0, None);
            var ev := Some(Event(CheckoutCompleted, Some("b")));
            var first := Handle(map["b" := booking], map["s" := show], users, ev, SaveShowThrows, mail, sendOk, formatDate);
            var retry := Handle(first.bookings, first.shows, users, ev, NoFault, mail, sendOk, formatDate);
            && retry.bookings["b"].isPaid
            && retry.shows["s"].occupiedSeats == Some(map[])
  {
    var show := Show("s", None, None, 100, Some(map[]));
    var booking := Booking("b", "u", "s", ["A1"], 100, false, false, 0, None);
    ShowFailureIsNeverRepaired(map["b" := booking], map["s" := show], users, "b", SaveShowThrows, mail, sendOk, formatDate);
  }

  /** The handler with the two writes in the other order: the seats are
      saved first and the booking is marked paid only once they are, so
      a delivery that fails before the booking save leaves it unpaid and the
      provider's retry finishes the work. */
  function HandleSeatsFirst(
    bookings: map<string, Booking>, shows: map<string, Show>, users: map<string, UserModel.User>,
    event: Option<Event>, fault: Fault,
    mail: Emails.MailConfig, sendOk: bool, formatDate: int -> string): (r: Outcome)
    ensures r.response == SignatureError <==> event.None?
    ensures r.bookings.Keys == bookings.Keys && r.shows.Keys == shows.Keys
    ensures forall k :: k in bookings && bookings[k].isPaid ==> r.bookings[k].isPaid
  {
    if event.None? then Outcome(bookings, shows, SignatureError, NotAttempted)
    else
      var ev := event.value;
      if ev.kind != CheckoutCompleted || !HasBookingId(ev) then Outcome(bookings, shows, Received, NotAttempted)
      else if fault == FindBookingThrows then Outcome(bookings, shows, ServerError, NotAttempted)
      else
        var id := ev.bookingId.value;
        if id !in bookings then Outcome(bookings, shows, Received, NotAttempted)
        else
          var booking := bookings[id];
          if booking.isPaid then
            if fault == FindUserThrows then Outcome(bookings, shows, ServerError, NotAttempted)
            else Outcome(bookings, shows, Received, Notify(users, booking, shows, mail, sendOk, formatDate))
          else if fault == FindShowThrows then Outcome(bookings, shows, ServerError, NotAttempted)
          else if fault == SaveShowThrows && booking.show in shows then Outcome(bookings, shows, ServerError, NotAttempted)
          else
            var shows' := OccupySeats(shows, booking);
            if fault == SaveBookingThrows then Outcome(bookings, shows', ServerError, NotAttempted)
            else
              var paid := booking.(isPaid := true);
              var bookings' := bookings[id := paid];
              if fault == FindUserThrows then Outcome(bookings', shows', ServerError, NotAttempted)
              else Outcome(bookings', shows', Received, Notify(users, paid, shows', mail, sendOk, formatDate))
  }

  /** Marking the same seats twice marks them once. */
  lemma MarkOccupiedIdempotent(seats: map<string, bool>, booked: seq<string>)
    ensures MarkOccupied(MarkOccupied(seats, booked), booked) == MarkOccupied(seats, booked)
  {
    var once := MarkOccupied(seats, booked);
    var twice := MarkOccupied(once, booked);
    assert twice.Keys == once.Keys;
    assert forall k :: k in once ==> twice[k] == once[k];
  }

  /** Occupying a booking's seats twice occupies them once. */
  lemma OccupySeatsIdempotent(shows: map<string, Show>, booking: Booking)
    ensures OccupySeats(OccupySeats(shows, booking), booking) == OccupySeats(shows, booking)
  {
    if booking.show in shows {
      var show := shows[booking.show];
      MarkOccupiedIdempotent(SeatMap(show), booking.bookedSeats);
      var once := OccupySeats(shows, booking);
      assert SeatMap(once[booking.show]) == MarkOccupied(SeatMap(show), booking.bookedSeats);
    }
  }

  /** Without a fault the reordered handler does what the handler does. */
  lemma SeatsFirstAgreesWithoutFaults(
    bookings: map<string, Booking>, shows: map<string, Show>, users: map<string, UserModel.User>,
    event: Option<Event>, mail: Emails.MailConfig, sendOk: bool, formatDate: int -> string)
    ensures HandleSeatsFirst(bookings, shows, users, event, NoFault, mail, sendOk, formatDate)
            == Handle(bookings, shows, users, event, NoFault, mail, sendOk, formatDate)
  {
  }

  /** With the seats saved first, whatever fault the first delivery of a
      payment meets, a retry without one leaves the collections exactly as a
      delivery without faults would have: the booking paid and its seats
      occupied. */
  lemma {:induction false} RetryCompletesPayment(
    bookings: map<string, Booking>, shows: map<string, Show>, users: map<string, UserModel.User>,
    id: string, fault: Fault, mail: Emails.MailConfig, sendOk: bool, formatDate: int -> string)
    requires id != "" && id in bookings && !bookings[id].isPaid
    ensures var ev := Some(Event(CheckoutCompleted, Some(id)));
            var first := HandleSeatsFirst(bookings, shows, users, ev, fault, mail, sendOk, formatDate);
            var retry := HandleSeatsFirst(first.bookings, first.shows, users, ev, NoFault, mail, sendOk, formatDate);
            var clean := HandleSeatsFirst(bookings, shows, users, ev, NoFault, mail, sendOk, formatDate);
            retry.bookings == clean.bookings && retry.shows == clean.shows
  {
    var ev := Some(Event(CheckoutCompleted, Some(id)));
    var first := HandleSeatsFirst(bookings, shows, users, ev, fault, mail, sendOk, formatDate);
    var clean := HandleSeatsFirst(bookings, shows, users, ev, NoFault, mail, sendOk, formatDate);
    if fault == SaveBookingThrows {
      RetryAfterFailedBookingSave(bookings, shows, users, id, mail, sendOk, formatDate);
    } else if fault in {NoFault, FindUserThrows} || (fault == SaveShowThrows && bookings[id].show !in shows) {
      assert first.bookings == clean.bookings && first.shows == clean.shows;
      SeatsFirstLeavesPaidAlone(first.bookings, first.shows, users, id, mail, sendOk, formatDate);
    } else {
      assert first.bookings == bookings && first.shows == shows;
    }
  }

  /** In the corrected order a failed booking save leaves the seats
      written and the booking unpaid; the retry marks the same seats again,
      which changes nothing, and pays the booking. */
  lemma RetryAfterFailedBookingSave(
    bookings: map<string, Booking>, shows: map<string, Show>, users: map<string, UserModel.User>,
    id: string, mail: Emails.MailConfig, sendOk: bool, formatDate: int -> string)
    requires id != "" && id in bookings && !bookings[id].isPaid
    ensures var ev := Some(Event(CheckoutCompleted, Some(id)));
            var first := HandleSeatsFirst(bookings, shows, users, ev, SaveBookingThrows, mail, sendOk, formatDate);
            var retry := HandleSeatsFirst(first.bookings, first.shows, users, ev, NoFault, mail, sendOk, formatDate);
            var clean := HandleSeatsFirst(bookings, shows, users, ev, NoFault, mail, sendOk, formatDate);
            retry.bookings == clean.bookings && retry.shows == clean.shows
  {
    var ev := Some(Event(CheckoutCompleted, Some(id)));
    var first := HandleSeatsFirst(bookings, shows, users, ev, SaveBookingThrows, mail, sendOk, formatDate);
    assert first.bookings == bookings;
    assert first.shows == OccupySeats(shows, bookings[id]);
    OccupySeatsIdempotent(shows, bookings[id]);
  }

  /** The corrected handler leaves the collections alone for a booking that
      is already paid. */
  lemma SeatsFirstLeavesPaidAlone(
    bookings: map<string, Booking>, shows: map<string, Show>, users: map<string, UserModel.User>,
    id: string, mail: Emails.MailConfig, sendOk: bool, formatDate: int -> string)
    requires id != "" && id in bookings && bookings[id].isPaid
    ensures var r := HandleSeatsFirst(bookings, shows, users, Some(Event(CheckoutCompleted, Some(id))), NoFault, mail, sendOk, formatDate);
            r.bookings == bookings && r.shows == shows
  {
  }
}
