# WatchNChill booking core in Dafny

This project models the booking lifecycle of a movie-ticket app. It has an Express/MongoDB server and a React client. Each part is stated in Dafny and its properties are proved:

- **Payment webhook** (`StripeWebhooks`). The payment provider reports a completed checkout. The handler marks the booking paid, marks its seats occupied in the show's seat map, and sends the confirmation e-mail. Each error branch is modelled.
- **Seat selection** (`SeatLayout`):
  - the three row price tiers;
  - the seat and total prices;
  - the 10 × 9 seat grid;
  - the select/deselect toggle with its five-seat cap;
  - the reset when a show time is chosen;
  - the checkout guard.
- **Payment-wait poller** (`Loading`). A tick-driven state machine, one tick per 2000 ms poll period. It has the immediate poll, the interval, the 30 s fallback, the 8 s redirect branch, the cleanup, and the effect's re-run when the signed-in user changes.
- **Route guards** (`Auth`). `protectUser` and `protectAdmin` take the bearer token from the header, then answer 401, 403 or 500, or pass the request on.
- **Users**:
  - the `User` schema with its required fields, defaults and timestamps (`UserModel`);
  - register and login over a collection keyed by e-mail (`Server`);
  - the profile lookup, the whitelisted profile update, and the list of a user's live bookings, newest first (`UserController`).
- **Client pages**:
  - the "My Bookings" list, with its cancel, its safe filter and its buttons (`MyBookings`);
  - the profile form state machine and its submit payload (`Profile`).
- **String builders**:
  - the confirmation e-mail (`Emails`);
  - the theatre map link (`Theaters`), built with `encodeURIComponent`. That encoder is defined in section 19.2.6 of ECMA-262, and `Uri` models it together with UTF-8 and percent-decoding.

Code written as expressions becomes functions and lemmas. State-changing code becomes classes. Each class holds the fields the source updates, and its methods are proved equal to a specification function of the old state. Examples: `Database.StripeWebhooks` against `Handle`, `LoadingPage.Advance` against `Tick`, `SeatLayoutPage.HandleSeatClick` against `Step`. Database failures, the signature check, the clock and the mail provider's answer are inputs.

`Wrappers` (Option), `Strings` (JavaScript truthiness, `split`/`join`, decimal text) and `BookingModel` (the `Booking` and `Show` fields the code reads) are shared helpers.

Four behaviours of the code are easy to overlook, and the model states them as written:

- The e-mail is still attempted for an already-paid booking (server/controllers/stripeWebhooks.js:53-58).
- The mail is handed to the provider once, with no retry (server/utils/emails.js:49).
- The poller's interval is not cleared when a poll succeeds; only `polling` is cleared and the page navigates away (cilent/src/components/loading.jsx:29-32).
- The e-mail carries no booking id (server/utils/emails.js:28-39).

## Model

| member | source | states |
|---|---|---|
| StripeWebhooks.MarkOccupied | server/controllers/stripeWebhooks.js:44-45 | the seat map afterwards has every booked seat set to true, keeps every other entry's value, and has no other keys |
| StripeWebhooks.SeatMap | server/controllers/stripeWebhooks.js:44 | the show's seat map, or a new empty one when the document has none |
| StripeWebhooks.Notify | server/controllers/stripeWebhooks.js:53-63 | the mail is attempted exactly when the owner exists and has an e-mail; it is sent only with a key and a working provider, to the owner's e-mail with the show's subject; without a key an attempt fails |
| StripeWebhooks.OccupySeats | server/controllers/stripeWebhooks.js:42-46 | the booking's show, when it exists, gets its seat map (created empty if missing) with the booked seats marked; no other show changes and none is added |
| StripeWebhooks.MarkSeats | server/controllers/stripeWebhooks.js:44-45 | the loop over the booked seats yields exactly the seat map `MarkOccupied` describes |
| StripeWebhooks.Handle | server/controllers/stripeWebhooks.js:10-76 | a 400 answer exactly when the signature check fails; nothing written and no e-mail without a completed checkout that names a known booking; no booking or show created or removed; the paid flag never goes from true to false |
| StripeWebhooks.Database.StripeWebhooks | server/controllers/stripeWebhooks.js:10-76 | the handler, with its early returns and its seat loop, leaves the collections and answers exactly as `Handle` says |
| StripeWebhooks.PaymentMarksBookingAndSeats | server/controllers/stripeWebhooks.js:36-48 | for an unpaid booking with no fault: the answer is `{received: true}` and only `isPaid` changes on the booking; the show's seat map holds every booked seat as occupied, keeps other entries, and gains nothing else; no other booking or show changes |
| StripeWebhooks.AlreadyPaidIsUntouched | server/controllers/stripeWebhooks.js:36-66 | an already-paid booking leaves both collections unchanged, and the e-mail is attempted exactly when the owner exists with an address |
| StripeWebhooks.RedeliveryIsIdempotent | server/controllers/stripeWebhooks.js:35-51 | after a delivery that got through, delivering the same event again, under any fault, changes neither collection |
| StripeWebhooks.EmailFailureIsSwallowed | server/controllers/stripeWebhooks.js:57-63 | the mail configuration and the provider's success never change the answer or the collections |
| StripeWebhooks.MutationFailureGives500 | server/controllers/stripeWebhooks.js:37-75 | a database fault on the paying path answers 500 with no e-mail; a failed booking save changes nothing, and a later fault leaves the booking paid |
| StripeWebhooks.MissingShowStillPays | server/controllers/stripeWebhooks.js:42-43 | a booking whose show is missing is still marked paid, with no seat map written |
| StripeWebhooks.MissingSeatMapIsCreated | server/controllers/stripeWebhooks.js:44-45 | a show without a seat map gets one holding exactly the booked seats, all occupied |
| StripeWebhooks.ShowFailureIsNeverRepaired | server/controllers/stripeWebhooks.js:36-74 | a show-step fault answers 500, yet the retried delivery answers 200, leaves the booking paid and leaves the shows as they were before the first delivery |
| StripeWebhooks.ShowFailureExample | server/controllers/stripeWebhooks.js:36-48 | a concrete case: after a failed show save and a retry, booking "b" is paid and seat "A1" is still not in the seat map |
| StripeWebhooks.HandleSeatsFirst | server/controllers/stripeWebhooks.js:36-48 | the corrected order (seats saved before the paid flag) keeps the handler's guarantees: 400 exactly on a bad signature, the same keys, and a paid flag that never goes back |
| StripeWebhooks.SeatsFirstAgreesWithoutFaults | server/controllers/stripeWebhooks.js:36-66 | without a fault, the corrected handler gives exactly the handler's outcome |
| StripeWebhooks.MarkOccupiedIdempotent | server/controllers/stripeWebhooks.js:45 | marking the same seats twice gives the same map as marking them once |
| StripeWebhooks.OccupySeatsIdempotent | server/controllers/stripeWebhooks.js:42-46 | occupying a booking's seats twice leaves the shows as occupying them once |
| StripeWebhooks.RetryCompletesPayment | server/controllers/stripeWebhooks.js:36-74 | in the corrected order, whatever fault the first delivery meets, a fault-free retry leaves both collections exactly as a single fault-free delivery would |
| StripeWebhooks.RetryAfterFailedBookingSave | server/controllers/stripeWebhooks.js:36-74 | in the corrected order, a failed booking save followed by a fault-free retry ends as a single fault-free delivery does |
| StripeWebhooks.SeatsFirstLeavesPaidAlone | server/controllers/stripeWebhooks.js:36-51 | in the corrected order, a paid booking leaves both collections unchanged |
| SeatLayout.PriceByRow | cilent/src/pages/SeatLayout.jsx:22-26 | the price is 100, 150 or 250; it is 100 exactly for rows A and B, and 150 exactly for rows C to F |
| SeatLayout.RowOf | cilent/src/pages/SeatLayout.jsx:105 | `charAt(0)`: the first character, or the empty string for an empty id |
| SeatLayout.CurrentShow | cilent/src/pages/SeatLayout.jsx:103 | a found show is in the list and has the chosen id; nothing is found when no time is chosen or no listed show has that id |
| SeatLayout.SeatPriceAppend | cilent/src/pages/SeatLayout.jsx:104-106 | the seat price of a concatenation is the sum of the two seat prices |
| SeatLayout.SeatPrice | cilent/src/pages/SeatLayout.jsx:104-106 | the seat price is the sum of the seats' row prices, so it lies between 100 and 250 per selected seat |
| SeatLayout.TotalPrice | cilent/src/pages/SeatLayout.jsx:103-108 | without a chosen time, or when no listed show has the chosen id, the total is the seat price; otherwise it is the seat price plus the base price of a listed show with that id |
| SeatLayout.TotalIsSeatsPlusShowPrice | cilent/src/pages/SeatLayout.jsx:103-108 | the total is the seat price plus the base price of the first listed show with the chosen id |
| SeatLayout.CurrentShowIsFirstMatch | cilent/src/pages/SeatLayout.jsx:103 | `find` returns the first show with the chosen id |
| SeatLayout.TwoFrontSeatsExample | cilent/src/pages/SeatLayout.jsx:103-108 | seats A1 and A2 at a show priced 200 total 400 |
| SeatLayout.RowSeats | cilent/src/pages/SeatLayout.jsx:51-55 | a row has `count` ids, the i-th being the row letter followed by i + 1 |
| SeatLayout.SeatIdParts | cilent/src/pages/SeatLayout.jsx:55 | a seat id is its row character followed by a digit that reads back as the seat number, 1 to 9 |
| SeatLayout.RowSeatIds | cilent/src/pages/SeatLayout.jsx:51-55 | a row's nine ids all start with the row letter, carry a number 1 to 9, and are all different |
| SeatLayout.GridSeatIds | cilent/src/pages/SeatLayout.jsx:51-55 | for distinct rows, the grid has nine seats per row, every id is one of those rows followed by 1 to 9, and no id repeats |
| SeatLayout.FullGrid | cilent/src/pages/SeatLayout.jsx:11-55 | the page's grid has 90 distinct ids, A1 to J9 |
| SeatLayout.RowsAreDistinct | cilent/src/pages/SeatLayout.jsx:11 | the ten row letters are all different |
| SeatLayout.PriceRisesTowardsTheBack | cilent/src/pages/SeatLayout.jsx:11-26 | along rows A to J the price never falls, and is 100 for the first two rows, 150 for the next four and 250 after that |
| SeatLayout.Remove | cilent/src/pages/SeatLayout.jsx:43 | the filter keeps exactly the seats other than the clicked one, and leaves a list without it unchanged |
| SeatLayout.RemoveFromNoDuplicates | cilent/src/pages/SeatLayout.jsx:43 | removing a seat keeps the list free of duplicates and, when the seat was there, shortens it by one |
| SeatLayout.Click | cilent/src/pages/SeatLayout.jsx:37-49 | a click that shows a toast changes nothing; no toast is shown exactly when a time is chosen, the seat is free, and it is selected or fewer than five are; such a click toggles the seat |
| SeatLayout.ClickRefusals | cilent/src/pages/SeatLayout.jsx:38-40 | with no time chosen, or on an occupied seat, a click leaves the selection unchanged and shows a toast |
| SeatLayout.ClickDeselects | cilent/src/pages/SeatLayout.jsx:42-43 | clicking a selected seat removes exactly that seat, keeps the others in order, shortens the list by one and lowers the seat price by that seat's price |
| SeatLayout.RemovePrice | cilent/src/pages/SeatLayout.jsx:104-106 | removing a seat present once lowers the seat price by its price |
| SeatLayout.ClickSelects | cilent/src/pages/SeatLayout.jsx:45-47 | a new seat is appended at the end, raising the price by its price, when fewer than five are selected; at five the click is refused with the cap message |
| SeatLayout.SeatPriceAppendOne | cilent/src/pages/SeatLayout.jsx:104-106 | appending a seat raises the seat price by that seat's price |
| SeatLayout.ClickAppends | cilent/src/pages/SeatLayout.jsx:45-47 | below the cap, a new free seat is appended and no toast is shown |
| SeatLayout.ClickKeepsSelectionOk | cilent/src/pages/SeatLayout.jsx:37-49 | every click keeps the selection free of duplicates and at most five long |
| SeatLayout.LoadOccupied | cilent/src/pages/SeatLayout.jsx:81-88 | a failed request keeps the occupied seats; a successful one replaces them with `data.occupiedSeats`, or the empty list when it is missing |
| SeatLayout.Step | cilent/src/pages/SeatLayout.jsx:37-101 | only choosing a time changes the chosen time; a click leaves the occupied seats and a seat answer leaves the selection; choosing a time empties both |
| SeatLayout.Run | cilent/src/pages/SeatLayout.jsx:14-101 | a run of events in which no time is chosen keeps the chosen time |
| SeatLayout.ChooseTimeResets | cilent/src/pages/SeatLayout.jsx:95-100 | choosing a show time empties both the selected and the occupied seat lists |
| SeatLayout.StepKeepsPageOk | cilent/src/pages/SeatLayout.jsx:37-101 | every page event keeps the invariant: no duplicate seat, at most five seats, no seat without a chosen time |
| SeatLayout.RunKeepsPageOk | cilent/src/pages/SeatLayout.jsx:14-101 | from a valid page, any sequence of clicks, time choices and seat answers keeps that invariant |
| SeatLayout.InitialIsOk | cilent/src/pages/SeatLayout.jsx:14-17 | the initial page (nothing selected, no time) satisfies the invariant |
| SeatLayout.CheckoutRedirect | cilent/src/pages/SeatLayout.jsx:238-239 | the browser is sent to the checkout link exactly when the answer succeeded with a non-empty link |
| SeatLayout.SeatLayoutPage.HandleSeatClick | cilent/src/pages/SeatLayout.jsx:37-49 | the new page state is the click step of the old one, and the invariant is kept; the returned toast is the click's |
| SeatLayout.SeatLayoutPage.SelectTime | cilent/src/pages/SeatLayout.jsx:95-100 | both seat lists are cleared, the time is set, and the occupied seats are requested exactly when the show id is non-empty |
| SeatLayout.SeatLayoutPage.OccupiedSeatsLoaded | cilent/src/pages/SeatLayout.jsx:84-88 | a successful answer replaces the occupied seats with `data.occupiedSeats` or the empty list; a failure keeps them |
| SeatLayout.SeatLayoutPage.ShowsLoaded | cilent/src/pages/SeatLayout.jsx:28-35 | the show list is replaced on success only; the seat state is unchanged |
| SeatLayout.SeatLayoutPage.Checkout | cilent/src/pages/SeatLayout.jsx:221-236 | no user sends to the login page; no seats shows "Please select time and seats"; otherwise the request carries the token, the chosen show's id and the selection |
| Loading.Mount | cilent/src/components/loading.jsx:12-50 | without a truthy target or a user, only one 8 s timer is armed (due at tick 4) and nothing is polled; otherwise the interval and the fallback (due at tick 15) are armed and one poll is sent at once, and `polling` is cleared exactly when that poll navigates |
| Loading.Rerun | cilent/src/components/loading.jsx:12-56 | a change of user runs the cleanup and then the effect again at the current tick: the 8 s timers already pending stay pending, and the new run adds one more timer or arms the interval and a fallback due 15 ticks later and polls once |
| Loading.Unmount | cilent/src/components/loading.jsx:52-55 | the cleanup disarms the interval and the fallback and keeps every pending 8 s timer, the navigations and all else |
| Loading.PollNavigates | cilent/src/components/loading.jsx:26-29 | only a successful answer with a bookings list can move the page on, and an unpaid first booking never does |
| Loading.Poll | cilent/src/components/loading.jsx:21-38 | a poll counts as sent; it navigates to `'/' + nextUrl` and clears `polling` exactly when its answer shows a paid newest booking; nothing else changes |
| Loading.IntervalFires | cilent/src/components/loading.jsx:41 | the interval polls exactly when it is armed, and changes no timer |
| Loading.FallbackFires | cilent/src/components/loading.jsx:44-47 | when the armed fallback is due it clears `polling`, disarms itself and navigates to the target; at any other time nothing changes |
| Loading.RedirectFires | cilent/src/components/loading.jsx:15-17 | every 8 s timer due on this tick fires, each adding one navigation to `'/' + (nextUrl \|\| 'my-bookings')`; timers due later stay pending |
| Loading.Tick | cilent/src/components/loading.jsx:41-47 | two seconds pass: one poll exactly when the interval is armed; the interval stays armed or unarmed, and the fallback's due tick and the target stay; the fallback is disarmed exactly on its due tick; the 8 s timers due on this tick are removed and the others stay; no navigation is taken back |
| Loading.Ticks | cilent/src/components/loading.jsx:41-47 | a run of ticks advances the clock by one per answer, never takes a navigation back and keeps the interval as it was |
| Loading.LoadingPage.constructor | cilent/src/components/loading.jsx:10-50 | mounting gives the state `Mount` describes |
| Loading.LoadingPage.PollOnce | cilent/src/components/loading.jsx:21-38 | one poll gives the state `Poll` describes |
| Loading.LoadingPage.Advance | cilent/src/components/loading.jsx:15-47 | two seconds give the state `Tick` describes: the interval's poll, then the fallback when due, then the 8 s timers that are due |
| Loading.LoadingPage.IntervalTimeout | cilent/src/components/loading.jsx:41 | the interval's callback polls exactly when the interval is armed, as `IntervalFires` says |
| Loading.LoadingPage.FallbackTimeout | cilent/src/components/loading.jsx:44-47 | when an armed fallback is due (30 s after it was armed) it clears `polling`, disarms itself and navigates to the target, once, as `FallbackFires` says |
| Loading.LoadingPage.RedirectTimeout | cilent/src/components/loading.jsx:15-17 | every 8 s timer due now navigates once to `'/' + (nextUrl \|\| 'my-bookings')` and is gone, as `RedirectFires` says |
| Loading.LoadingPage.Cleanup | cilent/src/components/loading.jsx:52-55 | cleanup disarms the interval and the fallback and changes nothing else |
| Loading.LoadingPage.RunEffect | cilent/src/components/loading.jsx:13-50 | one run of the effect's body gives the state `Effect` describes |
| Loading.LoadingPage.UserChanged | cilent/src/components/loading.jsx:52-56 | a change of user gives the state `Rerun` describes: the cleanup, then the effect again |
| Loading.FailedPollChangesNothing | cilent/src/components/loading.jsx:22-37 | a poll whose request fails or whose answer is unsuccessful only counts as sent |
| Loading.OnlyFirstBookingDecides | cilent/src/components/loading.jsx:26-29 | a poll navigates exactly when the answer succeeded and its first booking is paid; a paid booking further down does not count |
| Loading.PaidAnswerNavigates | cilent/src/components/loading.jsx:29-32 | a polling page that gets a paid newest booking clears `polling`, and its first navigation is to `'/' + nextUrl`, whatever timers are pending |
| Loading.PollingNavigatesOnlyToTarget | cilent/src/components/loading.jsx:21-50 | whatever the answers, a polling page with no 8 s timer pending only ever navigates to `'/' + nextUrl`, polls once per tick, and keeps the fallback armed until it is due |
| Loading.TickKeepsTarget | cilent/src/components/loading.jsx:21-47 | one tick of the polling branch polls once, navigates only to the target, and keeps the fallback armed until its tick |
| Loading.NoNavigationWithoutPayment | cilent/src/components/loading.jsx:26-47 | for a polling page with no 8 s timer pending: before the fallback is due, with no answer showing a paid newest booking, the page has not navigated and `polling` is unchanged |
| Loading.FallbackAlwaysNavigates | cilent/src/components/loading.jsx:43-47 | after mounting with a target and a user, within 15 ticks (30 s) the page has navigated to the target and `polling` is false, whatever the answers |
| Loading.FallbackRun | cilent/src/components/loading.jsx:44-47 | running up to the tick the fallback is due clears `polling` and adds a navigation |
| Loading.RedirectBranch | cilent/src/components/loading.jsx:13-19 | mounted without a target or a user, and with no change of user, no poll is ever sent and after 8 s there is exactly one navigation, to `'/' + (nextUrl \|\| 'my-bookings')` |
| Loading.StaleRedirectNavigatesUnpaid | cilent/src/components/loading.jsx:13-56 | as written: a page that armed the 8 s timer before the user was known, and whose user arrives before it is due, starts polling, yet with no paid answer it navigates to `'/' + nextUrl` when the old timer is due, still polling |
| Loading.StaleRun | cilent/src/components/loading.jsx:15-47 | the ticks of that page up to the old timer's due tick: no navigation before it, exactly one on it |
| Loading.StaleLastTick | cilent/src/components/loading.jsx:15-17 | the tick on which the old timer fires while the page is polling |
| Loading.MountWithoutUserArmsRedirect | cilent/src/components/loading.jsx:13-17 | mounting with a target and no user leaves the page polling-flagged, with no navigation and one 8 s timer due at tick 4 |
| Loading.UnmountFixed | cilent/src/components/loading.jsx:13-19 | corrected: the cleanup also clears the redirect branch's timer, so no 8 s timer stays pending; all else is as `Unmount` |
| Loading.RerunFixed | cilent/src/components/loading.jsx:12-56 | corrected: a change of user leaves only the timers of the new run: one 8 s timer when it redirects, none when it polls |
| Loading.FixedRerunWaitsForPayment | cilent/src/components/loading.jsx:12-56 | corrected: once the user arrives, whatever earlier runs armed, the page does not navigate before the fallback without a paid newest booking |
| Loading.RedirectRun | cilent/src/components/loading.jsx:15-17 | the redirect timer fires once, at its tick, and no poll is sent |
| Loading.UnmountStopsPolling | cilent/src/components/loading.jsx:52-55 | after cleanup a page with no 8 s timer pending neither polls nor navigates again |
| Auth.AuthHeader | server/middleware/auth.js:6 | the lower-case header if truthy, else the capitalised one if truthy, else the empty string |
| Auth.BearerToken | server/middleware/auth.js:7-9 | after "Bearer ", the token is the text up to the next space, which is the second piece of the split; any other header is the token whole |
| Auth.Authenticate | server/middleware/auth.js:11-18 | a request passes only with a token naming a stored user, and the attached user is that user; a non-empty token naming no stored user, with the lookup working, gets 401 "Invalid token or user not found" |
| Auth.ProtectUser | server/middleware/auth.js:32-56 | `protectUser` passes exactly when the token is non-empty, the lookup works and the token names a stored user; it only ever refuses with 401 or 500, never 403 |
| Auth.ProtectAdmin | server/middleware/auth.js:4-30 | only a user whose role is exactly "admin" is let through |
| Auth.UserGuardAcceptsStoredUsers | server/middleware/auth.js:32-56 | `protectUser` passes exactly when the token is non-empty, the lookup does not fail and the token names a stored user; that user's `_id` and e-mail are the token |
| Auth.AdminGuardIsStricter | server/middleware/auth.js:20-25 | `protectAdmin` passes exactly the requests `protectUser` passes whose user is an admin, with the same user |
| Auth.GuardsDifferOnlyOnRole | server/middleware/auth.js:20-22 | the guards answer alike, except that a found non-admin user gets 403 "Admin access required" from the admin guard |
| Auth.EmptyTokenIsRefusedWithoutLookup | server/middleware/auth.js:11-13 | an empty token gets 401 "No token provided" from both guards, whatever the store does |
| Auth.LookupFailureGives500 | server/middleware/auth.js:26-29 | with a token, a failing lookup gets 500 "Server error in auth" from both guards |
| Auth.BearerTokenExamples | server/middleware/auth.js:7-9 | "Bearer " + id gives id; "Bearer" and two spaces gives the empty token; a header without the prefix is taken whole |
| Auth.Request.ProtectUserGuard | server/middleware/auth.js:32-56 | on a pass, `req.user` is set and `next` is called; on a rejection, neither happens and the rejection is returned |
| Auth.Request.ProtectAdminGuard | server/middleware/auth.js:4-30 | likewise for the admin guard |
| UserModel.Create | server/models/User.js:4-24 | a document is valid exactly when `_id`, `name`, `email` and `password` are given; `image` defaults to "default.jpg" and `role` to "user"; the profile fields are kept as given; both timestamps are the creation time |
| UserModel.CompareAcceptsOnlyTheHashedSecret | server/server.js:55-82 | comparing against a hash succeeds for the hashed password and for no other |
| UserModel.EmailIsUnique | server/models/User.js:6-8 | under the collection's invariant no two users share an e-mail |
| UserModel.WithoutPassword | server/controllers/userController.js:29 | the view keeps every field but the password: `_id`, name, e-mail, image, city, phone, favourite genres, preferred language, gender, about, role and both timestamps |
| UserModel.ViewForgetsOnlyPassword | server/controllers/userController.js:29 | two users have the same view exactly when they differ at most in their password |
| Server.NewUserFields | server/server.js:55-66 | the new document is keyed by the e-mail, stores the password's hash only, is valid exactly when the name is given and the e-mail is not empty, and then has the role "user" |
| Server.RegisterResult | server/server.js:48-72 | registration succeeds exactly when the store works, the e-mail is new and the name and e-mail are given; otherwise the store is unchanged, and a taken e-mail gets 400 "User already exists"; success adds just that key and keeps every other user |
| Server.LoginResult | server/server.js:75-109 | a failing store gives 500 "Server error"; login succeeds exactly when the e-mail is stored and the password matches, answering with the `_id` as token and the user; every other case gets 400 "Invalid credentials" |
| Server.Register | server/server.js:48-72 | the handler leaves the collection and answers as `RegisterResult` says, and keeps the collection's invariant |
| Server.Login | server/server.js:75-109 | the handler answers as `LoginResult` says and changes nothing |
| Server.LoginView | server/server.js:91-103 | the login answer's user has the stored `_id`, name, e-mail, image, city, phone, favourite genres, preferred language, gender, about and role, and no password |
| Server.RegisterCreatesUser | server/server.js:55-66 | a registration keeps the invariant; the new user has `_id` and e-mail equal to the e-mail, the given name, image "default.jpg", role "user", the hash of the password and the creation time |
| Server.RegisterThenLogin | server/server.js:48-104 | after registering, logging in with the same password succeeds with the e-mail as token, and any other password gets 400 |
| Server.FailedLoginsLookAlike | server/server.js:79-83 | an unknown e-mail and a wrong password get the same answer |
| Server.DuplicateRegistrationIsRefused | server/server.js:52-53 | registering a taken e-mail gets 400 and leaves the store unchanged |
| Server.LoginTokenIsEmail | server/server.js:85-86 | under the invariant the token and the returned user's e-mail are the login e-mail |
| UserController.LiveBookingsOf | server/controllers/userController.js:10-13 | the query keeps exactly the user's bookings that are not cancelled |
| UserController.InsertByDate | server/controllers/userController.js:15 | inserting into a newest-first list keeps it newest first and adds exactly that booking |
| UserController.SortNewestFirst | server/controllers/userController.js:15 | the sorted list is newest first and is a permutation of its input |
| UserController.InsertBehindHead | server/controllers/userController.js:15 | inserting behind a newer head keeps the list newest first and adds exactly that booking |
| UserController.GetUserBookings | server/controllers/userController.js:6-22 | a failing query answers with its message; otherwise the list is newest first and a permutation of the user's live bookings |
| UserController.UserBookingsAreLiveAndNewestFirst | server/controllers/userController.js:10-17 | the list holds exactly the user's live bookings, and the first one is at least as new as every other |
| UserController.GetProfile | server/controllers/userController.js:25-42 | a failing lookup gives 500 "Failed to fetch profile"; an unknown user gives 404 "User not found"; otherwise the user without the password |
| UserController.WhitelistExcludesProtectedFields | server/controllers/userController.js:49-58 | no whitelisted field is `_id`, e-mail, password or role |
| UserController.UpdateData | server/controllers/userController.js:60-65 | the update holds exactly the whitelisted fields the body defines, with the body's values |
| UserController.BuildUpdateData | server/controllers/userController.js:60-65 | the loop builds exactly that update, and it never names a protected field |
| UserController.SetOptional | server/controllers/userController.js:67-71 | a field in the update takes the update's value; any other keeps its old value |
| UserController.ApplySet | server/controllers/userController.js:67-71 | `$set` changes exactly the listed fields and `updatedAt`; `_id`, e-mail, password, role and `createdAt` are kept |
| UserController.UpdateProfile | server/controllers/userController.js:45-85 | a failing update gives 500 and changes nothing; an unknown user gives success with a null user; otherwise only that user changes, by `$set` of the update, and the answer is the updated user without the password |
| UserController.EmptyUpdateOnlyTouchesTimestamp | server/controllers/userController.js:60-71 | with an empty body only `updatedAt` changes |
| UserController.UpdateCannotTouchCredentials | server/controllers/userController.js:49-71 | whatever the body, an update keeps the user's `_id`, e-mail, password, role and creation time and every other user, and fields left out of the body keep their values |
| UserController.ProtectedFieldsAreIgnored | server/controllers/userController.js:49-71 | a body setting e-mail, role, password and `_id` next to a name changes only the name and `updatedAt` |
| UserController.OnlyNameIsApplied | server/controllers/userController.js:49-71 | a body whose only whitelisted field is the name changes only the name and `updatedAt` |
| MyBookings.SafeBookings | cilent/src/pages/MyBookings.jsx:63-66 | the filter keeps exactly the non-null entries with a show and a movie |
| MyBookings.Displayable | cilent/src/pages/MyBookings.jsx:65 | an entry that can be drawn is a booking with a show |
| MyBookings.SafeBookingsKeepsOrder | cilent/src/pages/MyBookings.jsx:64-66 | the filter works entry by entry, so it keeps the list's order |
| MyBookings.ShowPayNow | cilent/src/pages/MyBookings.jsx:108 | Pay Now is shown only for an unpaid booking with a link |
| MyBookings.ShowCancel | cilent/src/pages/MyBookings.jsx:119 | Cancel is shown wherever Pay Now is |
| MyBookings.ButtonsFollowPayment | cilent/src/pages/MyBookings.jsx:108-119 | a paid booking shows neither button; an unpaid one always shows Cancel, and Pay Now exactly when it has a link |
| MyBookings.WithoutBooking | cilent/src/pages/MyBookings.jsx:39 | the list afterwards holds exactly the bookings whose id differs from the cancelled one |
| MyBookings.WithoutBookingKeepsOrder | cilent/src/pages/MyBookings.jsx:39 | removing by id keeps the other bookings in order |
| MyBookings.CancelHidesTheBooking | cilent/src/pages/MyBookings.jsx:39-66 | after a cancel no shown card has that id, and every other shown card is still shown |
| MyBookings.CancelToast | cilent/src/pages/MyBookings.jsx:38-47 | success shows "Booking cancelled"; a refusal shows the server's message or "Unable to cancel booking"; an error shows the response's message or "Something went wrong" |
| MyBookings.MyBookingsPage.Mount | cilent/src/pages/MyBookings.jsx:50-57 | with a user the list is requested; without one loading ends and the page goes to the login |
| MyBookings.MyBookingsPage.ListLoaded | cilent/src/pages/MyBookings.jsx:19-33 | on success the list becomes `data.bookings \|\| []`, otherwise it is kept; loading ends either way |
| MyBookings.MyBookingsPage.HandleCancel | cilent/src/pages/MyBookings.jsx:35-48 | on success the booking leaves the list; otherwise the list is kept; the toast is the answer's |
| Profile.FormFrom | cilent/src/pages/profile.jsx:49-58 | the form has its eight keys, each the user's value or '' |
| Profile.NeedsDetails | cilent/src/pages/profile.jsx:70 | editing is switched on exactly when the form would show the city or the preferred language empty |
| Profile.PreviewFrom | cilent/src/pages/profile.jsx:63-67 | the preview is the user's image exactly when it is truthy and not "default.jpg"; otherwise null |
| Profile.SubmitPayload | cilent/src/pages/profile.jsx:131-144 | the payload has the seven text fields from the form, never the e-mail, and the image exactly when an avatar was picked |
| Profile.ServerAcceptsWholePayload | cilent/src/pages/profile.jsx:131-146 | every field the page sends is whitelisted by the server, which applies the payload as it is |
| Profile.ProfilePage.UserChanged | cilent/src/pages/profile.jsx:47-74 | with a user, the form and the preview are filled from it, and editing is switched on when the city or preferred language is missing; without one nothing changes |
| Profile.ProfilePage.Mount | cilent/src/pages/profile.jsx:25-44 | without a user the page goes to the login and requests nothing; with one it requests the profile |
| Profile.ProfilePage.ProfileFetched | cilent/src/pages/profile.jsx:31-41 | a successful answer with a user replaces the user; a failed request shows "Failed to load profile details"; nothing else changes |
| Profile.ProfilePage.HandleChange | cilent/src/pages/profile.jsx:76-82 | only the named field changes |
| Profile.ProfilePage.HandleAvatarChange | cilent/src/pages/profile.jsx:85-96 | a read file becomes both the avatar to send and the preview; no file changes nothing |
| Profile.ProfilePage.HandleToggleEdit | cilent/src/pages/profile.jsx:98-124 | cancelling an edit restores the form and preview from the user, clears the avatar and ends editing; otherwise editing starts and nothing else changes |
| Profile.SubmitToast | cilent/src/pages/profile.jsx:148-158 | an accepted answer shows its message or "Profile updated successfully"; any other answer its message or "Failed to update profile"; a failed request "Something went wrong while saving your profile."; the toast is never empty |
| Profile.ProfilePage.HandleSubmit | cilent/src/pages/profile.jsx:126-159 | without a user nothing is sent and no toast shown; otherwise the payload is sent and the answer's toast shown, and only a successful answer with a user replaces it and ends editing |
| Emails.SendBookingEmail | server/utils/emails.js:17-46 | without an API key it throws "SENDGRID_API_KEY not configured" and composes nothing; otherwise the message goes to the user's e-mail, from `SENDGRID_FROM` if truthy and `SMTP_USER` otherwise, with the subject `Subject` gives and the body `Html` gives for the user's name, the title, the date, the seat list and the amount |
| Emails.MessageListsTheBooking | server/utils/emails.js:22-46 | with an API key, the message handed to the provider contains the title, date, seat-list and amount lines |
| Emails.SeatList | server/utils/emails.js:22 | a non-array value is printed as it is; an empty array gives '' and a one-seat array gives that seat |
| Emails.DateText | server/utils/emails.js:23-25 | the date is '' when there is no show or it has no `showDateTime`, and otherwise the formatted show time |
| Emails.TitleOf | server/utils/emails.js:27 | a title is found only through a show and its movie, and is that movie's title |
| Emails.Subject | server/utils/emails.js:27 | the subject starts with "Your booking is confirmed – " and goes on with a non-empty name for the movie |
| Emails.Html | server/utils/emails.js:28-39 | the body opens with the heading, greeting and list opening, and closes with the list end and the sign-off |
| Emails.SubjectNamesTheMovie | server/utils/emails.js:27 | the subject is "Your booking is confirmed – " followed by the movie title, or "Movie" when there is none |
| Emails.BodyListsTheBooking | server/utils/emails.js:28-39 | the body contains the title, date, seat-list and amount lines |
| Emails.AmountReadsBack | server/utils/emails.js:36 | the amount line is "₹" and the decimal amount, which reads back as the amount |
| Emails.SeatListSplitsIntoSeats | server/utils/emails.js:22 | split at its commas, the joined seat list gives back the seats, each after the first with one leading space |
| Theaters.GetMapUrl | cilent/src/pages/Theaters.jsx:7-10 | the link is the maps search prefix followed by well-encoded text that decodes back to "name, address, city" |
| Theaters.MapUrlHasTwoParameters | cilent/src/pages/Theaters.jsx:9 | whatever the name, address and city, the link has one '?' and no '#', and its query has exactly the two parameters `api=1` and `query=` followed by the encoded text |
| Theaters.PlainPartsExample | cilent/src/pages/Theaters.jsx:8-9 | a name, address and city of unreserved characters reach the link unchanged, with each ", " written "%2C%20" |
| Theaters.EncodeConcat | cilent/src/pages/Theaters.jsx:9 | the encoder works character by character: encoding a concatenation concatenates the encodings |
| Uri.Utf8Char | cilent/src/pages/Theaters.jsx:9 | a character is one to four UTF-8 bytes, and exactly one, itself, below 0x80 |
| Uri.Utf8RoundTrip | cilent/src/pages/Theaters.jsx:9 | UTF-8 decoding undoes UTF-8 encoding |
| Uri.EncodeURIComponent | cilent/src/pages/Theaters.jsx:9 | the encoding is at least as long as the text and at most twelve times as long (four bytes of three characters each) |
| Uri.EncodedIsWellEncoded | cilent/src/pages/Theaters.jsx:9 | `encodeURIComponent` produces only unreserved characters and `%XX` triplets with upper-case digits |
| Uri.WellEncodedHasNoDelimiters | cilent/src/pages/Theaters.jsx:9 | encoded text holds no '&', '=', '#', '?', '/' or space |
| Uri.PercentDecodeEncoded | cilent/src/pages/Theaters.jsx:9 | percent-decoding the encoding gives the text's UTF-8 bytes |
| Uri.DecodeEncoded | cilent/src/pages/Theaters.jsx:9 | decoding undoes `encodeURIComponent` |
| Uri.UnreservedUnchanged | cilent/src/pages/Theaters.jsx:9 | text made only of unreserved characters is encoded as itself |
| Uri.EncodingExamples | cilent/src/pages/Theaters.jsx:9 | a space is "%20", a comma "%2C", and "é" is "%C3%A9" |
| Uri.HexDigitValue | cilent/src/pages/Theaters.jsx:9 | a hex digit reads back as its value |
| Strings.SplitJoin | server/utils/emails.js:22 | splitting a join of parts free of the separator gives back the parts |
| Strings.JoinSplit | server/utils/emails.js:22 | joining the pieces of a split gives back the string |
| Strings.SplitFirstIsTakeUntil | server/middleware/auth.js:8 | the first piece of a split is the text before the first separator |
| Strings.ParseNatToString | cilent/src/pages/SeatLayout.jsx:55 | the decimal text of a number reads back as that number |

## Left out

- The signature check (`stripe.webhooks.constructEvent`) is an input: the event, or none when it throws. The cryptography is not modelled.
- bcrypt is symbolic: a digest records the secret it was made from. So a stored password is never the plain string, and comparison succeeds exactly for the hashed secret. Salt and cost are not modelled.
- MongoDB and Mongoose are not modelled:
  - collections are maps keyed by `_id`, or sequences for bookings;
  - a failing call is an input flag, or the webhook's `Fault`;
  - `populate` is the `Show`/`Movie` value inside a record;
  - `findOne({ email })` is a key lookup, since the collection invariant makes the key the e-mail.
- Mongoose's `sort` gives no order to bookings with equal `createdAt`. The model sorts stably by insertion, and its proved properties (newest first, a permutation) hold for any order of ties.
- The SendGrid send and `toLocaleString` are not modelled. The provider's success is a flag, and the date formatting is a function parameter. Whether the provider accepts the sender address is not modelled.
- Timers, the event loop and in-flight requests are not modelled directly. Time advances in 2000 ms ticks. A poll's answer arrives within its tick. Within a tick, the interval's poll happens before the fallback and the redirect fire.
- A poll answer that arrives after cleanup is not modelled; the model sends no poll once cleanup has run.
- React effects are modelled only for the changes they react to in the code: mount, a chosen time, and a changed user (on the profile page and on the payment-wait page). A re-run caused by a changed `nextUrl` route parameter, or by a changed `navigate`, `axios` or `getToken` identity, is not modelled. A change of user happens between two ticks.
- Loading.NoNavigationWithoutPayment: holds only for a page with no 8 s timer pending. A page that mounted before the user was known keeps that timer after the user arrives, and then navigates without payment (see Findings and Loading.StaleRedirectNavigatesUnpaid).
- Loading.RedirectBranch: holds only while the user does not change. When the user arrives, the page polls as well, as Loading.Rerun states.
- Loading.PollingNavigatesOnlyToTarget and Loading.UnmountStopsPolling: stated, like NoNavigationWithoutPayment, for a page with no 8 s timer pending.
- Concurrency is not modelled:
  - concurrent webhook deliveries;
  - concurrent seat reservations;
  - overlapping requests from one page, whose answers are applied in the order given.
- The booking create, cancel and seat-list endpoints and the Booking and Show schemas are not part of this model. Only their answers, as the pages receive them, are inputs.
- JSX rendering and CSS are not modelled. A toast is not displayed: the member that shows it returns its text. A navigation is returned as a flag or recorded as its target.
- The seat request's failure toast (`error.message`, cilent/src/pages/SeatLayout.jsx:87) is not returned, because its text is the HTTP client's error message; the model keeps only that the occupied seats stay.
- Route wiring (server/routes/userRoutes.js, server/routes/adminRoutes.js) and the Express setup are not part of this model. Note that `POST /api/user/booking` has no guard (server/routes/userRoutes.js:8), so `getUserBookings` trusts the `userId` in the body.
- The admin user list page and the home page hold no logic beyond display, and are not part of this model.
- JSON `null` and wrong-typed request values are not modelled. The register and login bodies' `email` and `password` are strings; `name` may be missing.
- MyBookings.WithoutBooking: requires a list without `null` entries, for the same reason as `HandleCancel` below.
- MyBookings.MyBookingsPage.HandleCancel: requires a list without `null` entries. On a `null` entry the source's filter throws inside a state updater, and that crash is not modelled.
- Uri.DecodeURIComponent: a reference decoder for the encoder's output: ASCII characters and `%XX` triplets, then UTF-8. It is not the full `decodeURIComponent`, which keeps no escapes of reserved characters (its preserve set is empty, section 19.2.6.2 of ECMA-262). It differs from it in two ways. It rejects a literal non-ASCII character, which `decodeURIComponent` passes through. It accepts overlong UTF-8 ("%C0%80" decodes to U+0000), on which `decodeURIComponent` throws a URIError.
- Prices and amounts are whole numbers (`showPrice`, `amount`, the row prices). JavaScript numbers are floating point. The model leaves out the floating-point addition in `totalPrice` (cilent/src/pages/SeatLayout.jsx:103-108), and the printing of a fractional amount in the e-mail (server/utils/emails.js:36).
- `encodeURIComponent` works on JavaScript's UTF-16 strings. The model works on Unicode scalar values, so a lone surrogate, on which `encodeURIComponent` throws a URIError, cannot arise.

## Findings

| source | as written | input that shows it | evidently intended | confidence | as-written member | corrected member |
|---|---|---|---|---|---|---|
| server/controllers/stripeWebhooks.js:36-74 | The booking is saved as paid (line 38) before the show's seat map is written (lines 42-46). A failure of `Show.findById` or `show.save` answers 500 so that the provider retries, but the retry finds the booking paid and skips the seat update (line 36). | An unpaid booking "b" for seat "A1" of show "s"; `show.save` throws on the first delivery; the event is delivered again without a fault. The booking ends paid, and "A1" is never marked occupied, so the seat can be sold again. | A failed delivery followed by a successful retry leaves the booking paid and its seats occupied, as a single fault-free delivery does. The handler's comments state this intent: an already-paid booking skips re-processing (line 35), and an unexpected error answers 500 so that the provider may retry (line 72). | high (not executed) | StripeWebhooks.ShowFailureIsNeverRepaired, StripeWebhooks.ShowFailureExample | StripeWebhooks.HandleSeatsFirst, StripeWebhooks.RetryCompletesPayment |
| cilent/src/components/loading.jsx:13-19 | The redirect branch arms an 8 s `setTimeout` and returns no cleanup. The effect re-runs when `user` changes (line 56), and that cleanup then clears only the polling branch's timers. | The page mounts at `/loading/my-bookings` before the user is known; the user arrives within 8 s and the effect starts polling; the newest booking is not yet paid. At 8 s the old timer navigates to `/my-bookings` regardless, after 4 of the 15 ticks the fallback allows. | Once a user and a target are known, the page moves on only when a poll shows a paid newest booking or the 30 s fallback fires. The redirect branch returns a cleanup that clears its timer. | medium (not executed) | Loading.StaleRedirectNavigatesUnpaid, Loading.MountWithoutUserArmsRedirect | Loading.RerunFixed, Loading.FixedRerunWaitsForPayment |
