/** The booking and show documents, reduced to the fields that the payment
    webhook, the e-mail builder, the seat page, the bookings page and the
    payment poller read or write. Their schema files are not part of this
    model, so no defaults or validation are stated for them. */
module BookingModel {
  import opened Wrappers

  /** The populated `movie` of a show. */
  datatype Movie = Movie(title: Option<string>)

  /** A show: its movie, start time (milliseconds since the epoch), base
      price and the seat-occupancy map (`occupiedSeats`), which an old
      document may lack altogether. */
  datatype Show = Show(
    id: string,
    movie: Option<Movie>,
    showDateTime: Option<int>,
    showPrice: int,
    occupiedSeats: Option<map<string, bool>>)

  /** A booking: its owner, its show, the seats it holds, the amount, the
      paid and cancelled flags, the creation time and the checkout link. */
  datatype Booking = Booking(
    id: string,
    user: string,
    show: string,
    bookedSeats: seq<string>,
    amount: int,
    isPaid: bool,
    isCancelled: bool,
    createdAt: int,
    paymentLink: Option<string>)
}
