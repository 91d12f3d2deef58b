/** Composition of the booking-confirmation e-mail (server/utils/emails.js,
    `sendBookingEmail`). Sending through the mail provider is outside the
    model; the date formatting (`toLocaleString`) is a parameter. */
module Emails {
  import opened Wrappers
  import opened Strings
  import UserModel
  import BookingModel

  /** The process environment the module reads. */
  datatype MailConfig = MailConfig(
    apiKey: Option<string>,
    sendgridFrom: Option<string>,
    smtpUser: Option<string>)

  /** `booking.bookedSeats`: an array of seat ids, or any other value, which
      the template prints as it is. */
  datatype SeatsValue = SeatArray(seats: seq<string>) | SeatText(text: string)

  datatype Message = Message(to: string, from: Option<string>, subject: string, html: string)

  /** What `sendBookingEmail` does before the provider call: throw because
      the key is missing, or hand this message to the provider. */
  datatype Composed = MissingApiKey(error: string) | Compose(msg: Message)

  const MissingKeyError := "SENDGRID_API_KEY not configured"
  const SubjectPrefix := "Your booking is confirmed – "

  /** `Array.isArray(s) ? s.join(', ') : s`. */
  function SeatList(v: SeatsValue): (r: string)
    ensures v.SeatText? ==> r == v.text
    ensures v.SeatArray? && |v.seats| == 0 ==> r == ""
    ensures v.SeatArray? && |v.seats| == 1 ==> r == v.seats[0]
  {
    match v
    case SeatArray(seats) => Join(seats, ", ")
    case SeatText(t) => t
  }

  /** `show?.movie?.title`, as an optional string. */
  function TitleOf(show: Option<BookingModel.Show>): (r: Option<string>)
    ensures show.None? || show.value.movie.None? ==> r.None?
    ensures r.Some? ==> show.Some? && show.value.movie.Some? && r == show.value.movie.value.title
  {
    if show.Some? && show.value.movie.Some? then show.value.movie.value.title else None
  }

  /** The formatted show time, or '' when the show has none. */
  function DateText(show: Option<BookingModel.Show>, formatDate: int -> string): (r: string)
    ensures show.None? || show.value.showDateTime.None? ==> r == ""
    ensures show.Some? && show.value.showDateTime.Some? ==> r == formatDate(show.value.showDateTime.value)
  {
    if show.Some? && show.value.showDateTime.Some? then formatDate(show.value.showDateTime.value) else ""
  }

  /** The subject line: the prefix and a non-empty name for the movie. */
  function Subject(show: Option<BookingModel.Show>): (r: string)
    ensures StartsWith(r, SubjectPrefix) && |r| > |SubjectPrefix|
  {
    SubjectPrefix + OrElse(TitleOf(show), "Movie")
  }

  function MovieItem(title: string): string {
    "<li><strong>Movie:</strong> " + title + "</li>"
  }

  function DateItem(date: string): string {
    "<li><strong>Date & Time:</strong> " + date + "</li>"
  }

  function SeatsItem(seatList: string): string {
    "<li><strong>Seats:</strong> " + seatList + "</li>"
  }

  function AmountItem(amount: int): string {
    "<li><strong>Amount Paid:</strong> ₹" + IntToString(amount) + "</li>"
  }

  /** The line break and indentation before each list item. */
  const Indent := "\n      "

  /** The lines of the body template before the list items. */
  function Head(name: string): string {
    "\n    <h2>Booking Confirmed \U{2705}</h2>"
    + "\n    <p>Hi " + name + ",</p>"
    + "\n    <p>Your ticket has been booked successfully.</p>"
    + "\n    <ul>"
  }

  /** The lines of the body template after the list items. */
  const Tail := "\n    </ul>\n    <p>Enjoy your show! \U{1F37F}</p>\n  "

  /** The body template. */
  function Html(name: string, title: string, date: string, seatList: string, amount: int): (r: string)
    ensures StartsWith(r, Head(name))
    ensures |r| >= |Tail| && r[|r| - |Tail|..] == Tail
  {
    var items := Head(name)
      + Indent + MovieItem(title)
      + Indent + DateItem(date)
      + Indent + SeatsItem(seatList)
      + Indent + AmountItem(amount);
    HtmlOpensWithHead(name, title, date, seatList, amount);
    EndsWithAppended(items, Tail);
    StartsWithAppend(items, Head(name), Tail);
    items + Tail
  }

  lemma HtmlOpensWithHead(name: string, title: string, date: string, seatList: string, amount: int)
    ensures StartsWith(Head(name)
      + Indent + MovieItem(title)
      + Indent + DateItem(date)
      + Indent + SeatsItem(seatList)
      + Indent + AmountItem(amount), Head(name))
  {
    var h := Head(name);
    assert StartsWith(h, h);
    StartsWithAppend(h, h, Indent);
    StartsWithAppend(h + Indent, h, MovieItem(title));
    StartsWithAppend(h + Indent + MovieItem(title), h, Indent);
    StartsWithAppend(h + Indent + MovieItem(title) + Indent, h, DateItem(date));
    StartsWithAppend(h + Indent + MovieItem(title) + Indent + DateItem(date), h, Indent);
    StartsWithAppend(h + Indent + MovieItem(title) + Indent + DateItem(date) + Indent, h, SeatsItem(seatList));
    StartsWithAppend(h + Indent + MovieItem(title) + Indent + DateItem(date) + Indent + SeatsItem(seatList), h, Indent);
    StartsWithAppend(h + Indent + MovieItem(title) + Indent + DateItem(date) + Indent + SeatsItem(seatList) + Indent, h, AmountItem(amount));
  }

  /** `sendBookingEmail` up to the provider call. */
  function SendBookingEmail(
    config: MailConfig,
    user: UserModel.User,
    seats: SeatsValue,
    amount: int,
    show: Option<BookingModel.Show>,
    formatDate: int -> string): (r: Composed)
    ensures !Truthy(config.apiKey) <==> r == MissingApiKey(MissingKeyError)
    ensures r.Compose? ==> r.msg.to == user.email
    ensures r.Compose? ==> r.msg.from == if Truthy(config.sendgridFrom) then config.sendgridFrom else config.smtpUser
    ensures r.Compose? ==> r.msg.subject == Subject(show)
    ensures r.Compose? ==> r.msg.html == Html(user.name, OrElse(TitleOf(show), ""), DateText(show, formatDate), SeatList(seats), amount)
  {
    if !Truthy(config.apiKey) then MissingApiKey(MissingKeyError)
    else
      var html := Html(user.name, OrElse(TitleOf(show), ""), DateText(show, formatDate), SeatList(seats), amount);
      var from := if Truthy(config.sendgridFrom) then config.sendgridFrom else config.smtpUser;
      Compose(Message(user.email, from, Subject(show), html))
  }

  /** The subject is the fixed prefix followed by the movie title, or by
      "Movie" when the show, its movie or the title is missing. */
  lemma SubjectNamesTheMovie(show: Option<BookingModel.Show>)
    ensures StartsWith(Subject(show), SubjectPrefix)
    ensures Subject(show)[|SubjectPrefix|..] ==
              if show.Some? && show.value.movie.Some? && Truthy(show.value.movie.value.title)
              then show.value.movie.value.title.value else "Movie"
  {
  }

  /** The body lists the title, the date, the seat list and the amount. */
  lemma {:induction false} BodyListsTheBooking(name: string, title: string, date: string, seatList: string, amount: int)
    ensures Contains(Html(name, title, date, seatList, amount), MovieItem(title))
    ensures Contains(Html(name, title, date, seatList, amount), DateItem(date))
    ensures Contains(Html(name, title, date, seatList, amount), SeatsItem(seatList))
    ensures Contains(Html(name, title, date, seatList, amount), AmountItem(amount))
  {
    var m, d, st, a := MovieItem(title), DateItem(date), SeatsItem(seatList), AmountItem(amount);
    var p0 := Head(name) + Indent;
    var p1 := p0 + m + Indent;
    var p2 := p1 + d + Indent;
    var p3 := p2 + st + Indent;
    ContainsEnd(p0, m);
    ContainsExtend(p0 + m, m, Indent);
    ContainsExtend(p1, m, d);
    ContainsExtend(p1 + d, m, Indent);
    ContainsEnd(p1, d);
    ContainsExtend(p1 + d, d, Indent);
    ContainsExtend(p2, m, st);
    ContainsExtend(p2, d, st);
    ContainsExtend(p2 + st, m, Indent);
    ContainsExtend(p2 + st, d, Indent);
    ContainsEnd(p2, st);
    ContainsExtend(p2 + st, st, Indent);
    ContainsExtend(p3, m, a);
    ContainsExtend(p3, d, a);
    ContainsExtend(p3, st, a);
    ContainsEnd(p3, a);
    ContainsExtend(p3 + a, m, Tail);
    ContainsExtend(p3 + a, d, Tail);
    ContainsExtend(p3 + a, st, Tail);
    ContainsExtend(p3 + a, a, Tail);
  }

  /** The message handed to the provider lists the movie title, the
      formatted show time, the seats and the amount. */
  lemma MessageListsTheBooking(
    config: MailConfig,
    user: UserModel.User,
    seats: SeatsValue,
    amount: int,
    show: Option<BookingModel.Show>,
    formatDate: int -> string)
    requires Truthy(config.apiKey)
    ensures var r := SendBookingEmail(config, user, seats, amount, show, formatDate);
            && r.Compose?
            && Contains(r.msg.html, MovieItem(OrElse(TitleOf(show), "")))
            && Contains(r.msg.html, DateItem(DateText(show, formatDate)))
            && Contains(r.msg.html, SeatsItem(SeatList(seats)))
            && Contains(r.msg.html, AmountItem(amount))
  {
    BodyListsTheBooking(user.name, OrElse(TitleOf(show), ""), DateText(show, formatDate), SeatList(seats), amount);
  }

  /** The amount line carries the rupee sign and the decimal amount, which
      reads back as the booking's amount. */
  lemma AmountReadsBack(amount: nat)
    ensures AmountItem(amount) == "<li><strong>Amount Paid:</strong> ₹" + NatToString(amount) + "</li>"
    ensures ParseNat(NatToString(amount)) == amount
  {
    ParseNatToString(amount);
  }

  /** For an array of seat ids free of commas, the seat list splits at its
      commas into the seats, each after the first prefixed by one space. */
  lemma {:induction false} SeatListSplitsIntoSeats(seats: seq<string>)
    requires |seats| >= 1
    requires forall i :: 0 <= i < |seats| ==> ',' !in seats[i]
    ensures Split(SeatList(SeatArray(seats)), ',') == [seats[0]] + SpacePrefixed(seats[1..])
  {
    var parts := [seats[0]] + SpacePrefixed(seats[1..]);
    JoinWithSpace(seats);
    assert forall i :: 0 <= i < |parts| ==> ',' !in parts[i] by {
      forall i | 0 <= i < |parts| ensures ',' !in parts[i] {
        if i > 0 {
          assert parts[i] == " " + seats[i];
        }
      }
    }
    SplitJoin(parts, ',');
  }

  function SpacePrefixed(seats: seq<string>): (r: seq<string>)
    ensures |r| == |seats|
    ensures forall i :: 0 <= i < |seats| ==> r[i] == " " + seats[i]
  {
    if |seats| == 0 then [] else [" " + seats[0]] + SpacePrefixed(seats[1..])
  }

  lemma {:induction false} JoinWithSpace(seats: seq<string>)
    requires |seats| >= 1
    ensures Join(seats, ", ") == Join([seats[0]] + SpacePrefixed(seats[1..]), ",")
  {
    if |seats| > 1 {
      JoinWithSpace(seats[1..]);
      var rest := [seats[1]] + SpacePrefixed(seats[2..]);
      assert SpacePrefixed(seats[1..]) == [" " + seats[1]] + SpacePrefixed(seats[2..]);
      var parts := [seats[0]] + SpacePrefixed(seats[1..]);
      assert parts[1..] == [" " + seats[1]] + SpacePrefixed(seats[2..]);
      JoinHeadPrefix(" ", seats[1], SpacePrefixed(seats[2..]));
    }
  }

  /** Prefixing the first piece prefixes the join. */
  lemma JoinHeadPrefix(p: string, x: string, rest: seq<string>)
    ensures Join([p + x] + rest, ",") == p + Join([x] + rest, ",")
  {
    if |rest| > 0 {
      assert ([p + x] + rest)[1..] == rest;
      assert ([x] + rest)[1..] == rest;
    }
  }
}
