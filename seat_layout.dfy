/** The seat-selection page (cilent/src/pages/SeatLayout.jsx): the row
    price tiers, the seat and total prices, the seat grid's ids, the
    select/deselect toggle with its five-seat cap, the reset when a show
    time is chosen, and the checkout guard. */
module SeatLayout {
  import opened Wrappers
  import opened Strings
  import BookingModel

  const MaxSeats := 5
  /** The rows of `groupRows`, front to back. */
  const Rows := "ABCDEFGHIJ"
  /** `renderSeats`' default seat count per row. */
  const SeatsPerRow := 9

  const SelectTimeFirst := "Please select a time first"
  const SeatOccupied := "This seat is already occupied"
  const MaxSeatsReached := "You can select maximum 5 seats"
  const SelectSeatsFirst := "Please select time and seats"

  // -----------------------------------------------------------------------
  // Prices

  /** `priceByRow(row)`: rows A and B cost 100, rows C to F cost 150, and
      every other row (G to J, or anything else) costs 250. */
  function PriceByRow(row: string): (p: int)
    ensures p in {100, 150, 250}
    ensures p == 100 <==> row == "A" || row == "B"
    ensures p == 150 <==> row == "C" || row == "D" || row == "E" || row == "F"
  {
    if row == "A" || row == "B" then 100
    else if row == "C" || row == "D" || row == "E" || row == "F" then 150
    else 250
  }

  /** `seatId.charAt(0)`: the first character, or '' for an empty id. */
  function RowOf(seatId: string): (row: string)
    ensures |row| <= 1
    ensures |seatId| > 0 ==> row == [seatId[0]]
  {
    if |seatId| == 0 then "" else [seatId[0]]
  }

  function SeatPriceOf(seatId: string): int {
    PriceByRow(RowOf(seatId))
  }

  /** `selectedSeats.reduce((sum, id) => sum + priceByRow(id.charAt(0)), 0)`:
      the sum of the seats' row prices, so between 100 and 250 per seat. */
  function SeatPrice(selected: seq<string>): (total: int)
    ensures 100 * |selected| <= total <= 250 * |selected|
  {
    if |selected| == 0 then 0
    else SeatPrice(selected[..|selected| - 1]) + SeatPriceOf(selected[|selected| - 1])
  }

  /** A show time the user picked: the show's id and its start time. */
  datatype TimeSlot = TimeSlot(showId: string, time: int)

  /** `show?.find(s => s._id === selectedTime?.showId)`: the first listed
      show with the chosen id; none when no time is chosen. */
  function CurrentShow(shows: seq<BookingModel.Show>, selectedTime: Option<TimeSlot>): (r: Option<BookingModel.Show>)
    ensures r.Some? ==> selectedTime.Some? && r.value in shows && r.value.id == selectedTime.value.showId
    ensures r.None? ==> selectedTime.None? || forall s :: s in shows ==> s.id != selectedTime.value.showId
  {
    if selectedTime.None? || |shows| == 0 then None
    else if shows[0].id == selectedTime.value.showId then Some(shows[0])
    else CurrentShow(shows[1..], selectedTime)
  }

  /** `seatPrice + (currentShow?.showPrice || 0)`: without a chosen time,
      or when no listed show has the chosen id, only the seats count;
      otherwise a listed show with that id adds its base price. */
  function TotalPrice(selected: seq<string>, shows: seq<BookingModel.Show>, selectedTime: Option<TimeSlot>): (total: int)
    ensures selectedTime.None? ==> total == SeatPrice(selected)
    ensures selectedTime.Some? && (forall s :: s in shows ==> s.id != selectedTime.value.showId) ==> total == SeatPrice(selected)
    ensures selectedTime.Some? && (exists s :: s in shows && s.id == selectedTime.value.showId) ==>
              exists s :: s in shows && s.id == selectedTime.value.showId && total == SeatPrice(selected) + s.showPrice
  {
    var current := CurrentShow(shows, selectedTime);
    SeatPrice(selected) + if current.Some? then current.value.showPrice else 0
  }

  /** The seat price of a concatenation is the sum of the seat prices. */
  lemma {:induction false} SeatPriceAppend(a: seq<string>, b: seq<string>)
    ensures SeatPrice(a + b) == SeatPrice(a) + SeatPrice(b)
  {
    if |b| > 0 {
      SeatPriceAppend(a, b[..|b| - 1]);
      assert (a + b)[..|a + b| - 1] == a + b[..|b| - 1];
    } else {
      assert a + b == a;
    }
  }

  /** The total is the seat price plus the chosen show's base price, or plus
      nothing when the chosen show is not in the list. */
  lemma TotalIsSeatsPlusShowPrice(selected: seq<string>, shows: seq<BookingModel.Show>, slot: TimeSlot, i: nat)
    requires i < |shows| && shows[i].id == slot.showId
    requires forall j :: 0 <= j < i ==> shows[j].id != slot.showId
    ensures TotalPrice(selected, shows, Some(slot)) == SeatPrice(selected) + shows[i].showPrice
  {
    CurrentShowIsFirstMatch(shows, slot, i);
  }

  lemma {:induction false} CurrentShowIsFirstMatch(shows: seq<BookingModel.Show>, slot: TimeSlot, i: nat)
    requires i < |shows| && shows[i].id == slot.showId
    requires forall j :: 0 <= j < i ==> shows[j].id != slot.showId
    ensures CurrentShow(shows, Some(slot)) == Some(shows[i])
  {
    if i > 0 {
      CurrentShowIsFirstMatch(shows[1..], slot, i - 1);
    }
  }

  /** Two front-row seats at a show priced 200 come to 400. */
  lemma TwoFrontSeatsExample(show: BookingModel.Show)
    requires show.showPrice == 200
    ensures TotalPrice(["A1", "A2"], [show], Some(TimeSlot(show.id, 0))) == 400
  {
    assert ["A1", "A2"][..1] == ["A1"];
    assert ["A1"][..0] == [];
  }

  // -----------------------------------------------------------------------
  // The seat grid

  /** The id `renderSeats` gives the i-th seat (from 0) of a row. */
  function SeatId(row: char, i: nat): string {
    [row] + NatToString(i + 1)
  }

  /** The ids of one row, in order. */
  function RowSeats(row: char, count: nat): (ids: seq<string>)
    ensures |ids| == count
    ensures forall i :: 0 <= i < count ==> ids[i] == SeatId(row, i)
  {
    if count == 0 then [] else RowSeats(row, count - 1) + [SeatId(row, count - 1)]
  }

  /** The ids of the whole grid, row by row. */
  function GridSeats(rows: string): seq<string> {
    if |rows| == 0 then [] else RowSeats(rows[0], SeatsPerRow) + GridSeats(rows[1..])
  }

  predicate NoDuplicates(s: seq<string>) {
    forall i, j :: 0 <= i < j < |s| ==> s[i] != s[j]
  }

  /** A grid seat id: one row character, then the decimal text of a seat
      number from 1 to 9. */
  predicate GridSeatId(s: string) {
    |s| == 2 && '0' <= s[1] <= '9' && 1 <= ParseNat(s[1..]) <= SeatsPerRow
  }

  lemma SeatIdParts(row: char, i: nat)
    requires i < SeatsPerRow
    ensures GridSeatId(SeatId(row, i)) && SeatId(row, i)[0] == row
    ensures ParseNat(SeatId(row, i)[1..]) == i + 1
  {
    assert SeatId(row, i)[1..] == NatToString(i + 1);
    ParseNatToString(i + 1);
  }

  /** One row's ids: the row character and the seat numbers 1 to 9, all
      different. */
  lemma RowSeatIds(row: char)
    ensures forall s :: s in RowSeats(row, SeatsPerRow) ==> GridSeatId(s) && s[0] == row
    ensures NoDuplicates(RowSeats(row, SeatsPerRow))
  {
    var ids := RowSeats(row, SeatsPerRow);
    forall i | 0 <= i < SeatsPerRow
      ensures GridSeatId(ids[i]) && ids[i][0] == row && ParseNat(ids[i][1..]) == i + 1
    {
      SeatIdParts(row, i);
    }
  }

  lemma NoDuplicatesConcat(a: seq<string>, b: seq<string>)
    requires NoDuplicates(a) && NoDuplicates(b)
    requires forall s :: s in a ==> s !in b
    ensures NoDuplicates(a + b)
  {
    var all := a + b;
    forall i, j | 0 <= i < j < |all| ensures all[i] != all[j] {
      if j < |a| {
        assert all[i] == a[i] && all[j] == a[j];
      } else if i >= |a| {
        assert all[i] == b[i - |a|] && all[j] == b[j - |a|];
      } else {
        assert all[i] == a[i] && a[i] in a && all[j] == b[j - |a|];
      }
    }
  }

  /** Every seat id of the grid is a row letter followed by one digit from 1
      to 9; the grid has nine seats per row and no two share an id. */
  lemma {:induction false} GridSeatIds(rows: string)
    requires forall i, j :: 0 <= i < j < |rows| ==> rows[i] != rows[j]
    ensures |GridSeats(rows)| == SeatsPerRow * |rows|
    ensures forall s :: s in GridSeats(rows) ==> GridSeatId(s) && s[0] in rows
    ensures NoDuplicates(GridSeats(rows))
  {
    if |rows| > 0 {
      var row := RowSeats(rows[0], SeatsPerRow);
      var rest := GridSeats(rows[1..]);
      GridSeatIds(rows[1..]);
      RowSeatIds(rows[0]);
      forall s | s in rest ensures s[0] in rows && s[0] != rows[0] {
        var k :| 0 <= k < |rows[1..]| && rows[1..][k] == s[0];
        assert rows[k + 1] == s[0];
      }
      NoDuplicatesConcat(row, rest);
    }
  }

  /** The page's grid: 90 seats, A1 to J9, all different. */
  lemma FullGrid()
    ensures |GridSeats(Rows)| == 90
    ensures NoDuplicates(GridSeats(Rows))
    ensures forall s :: s in GridSeats(Rows) ==> GridSeatId(s) && s[0] in Rows
  {
    RowsAreDistinct();
    GridSeatIds(Rows);
  }

  lemma RowsAreDistinct()
    ensures forall i, j :: 0 <= i < j < |Rows| ==> Rows[i] != Rows[j]
  {
    forall i, j | 0 <= i < j < |Rows| ensures Rows[i] != Rows[j] {
      assert Rows[i] as int == 'A' as int + i && Rows[j] as int == 'A' as int + j;
    }
  }

  /** The price tiers follow the grid: rows A-B are the cheapest, C-F the
      middle and G-J the dearest, so the price never falls towards the back. */
  lemma PriceRisesTowardsTheBack(i: nat, j: nat)
    requires i <= j < |Rows|
    ensures PriceByRow([Rows[i]]) <= PriceByRow([Rows[j]])
    ensures PriceByRow([Rows[i]]) == (if i < 2 then 100 else if i < 6 then 150 else 250)
  {
  }

  // -----------------------------------------------------------------------
  // Selection

  /** `prev.filter(seat => seat !== seatId)`. */
  function Remove(s: seq<string>, x: string): (r: seq<string>)
    ensures forall y :: y in r <==> y in s && y != x
    ensures x !in s ==> r == s
  {
    if |s| == 0 then []
    else if s[0] == x then Remove(s[1..], x)
    else [s[0]] + Remove(s[1..], x)
  }

  /** Removing a seat keeps the selection free of duplicates and, when the
      seat was selected, shortens it by exactly one. */
  lemma {:induction false} RemoveFromNoDuplicates(s: seq<string>, x: string)
    requires NoDuplicates(s)
    ensures NoDuplicates(Remove(s, x))
    ensures x in s ==> |Remove(s, x)| == |s| - 1
  {
    if |s| > 0 {
      RemoveFromNoDuplicates(s[1..], x);
      assert s[0] !in s[1..];
      if s[0] != x {
        NoDuplicatesConcat([s[0]], Remove(s[1..], x));
      }
    }
  }

  /** The selection invariant: no seat twice, at most five seats. */
  predicate SelectionOk(selected: seq<string>) {
    NoDuplicates(selected) && |selected| <= MaxSeats
  }

  datatype ClickResult = ClickResult(selected: seq<string>, toast: Option<string>)

  /** `handleSeatClick(seatId)` on the selection, given whether a time is
      chosen and the occupied seats. */
  function Click(selected: seq<string>, occupied: seq<string>, timeChosen: bool, seatId: string): (r: ClickResult)
    ensures r.toast.Some? ==> r.selected == selected
    ensures r.toast.None? <==> timeChosen && seatId !in occupied && (seatId in selected || |selected| < MaxSeats)
    ensures r.toast.None? ==> (seatId in r.selected <==> seatId !in selected)
  {
    if !timeChosen then ClickResult(selected, Some(SelectTimeFirst))
    else if seatId in occupied then ClickResult(selected, Some(SeatOccupied))
    else if seatId in selected then ClickResult(Remove(selected, seatId), None)
    else if |selected| >= MaxSeats then ClickResult(selected, Some(MaxSeatsReached))
    else ClickResult(selected + [seatId], None)
  }

  /** With no time chosen, or on an occupied seat, a click changes nothing. */
  lemma ClickRefusals(selected: seq<string>, occupied: seq<string>, timeChosen: bool, seatId: string)
    requires !timeChosen || seatId in occupied
    ensures Click(selected, occupied, timeChosen, seatId).selected == selected
    ensures Click(selected, occupied, timeChosen, seatId).toast.Some?
  {
  }

  /** Clicking a selected seat removes exactly that seat, keeps the others
      in their order, and lowers the seat price by that seat's price. */
  lemma {:induction false} ClickDeselects(selected: seq<string>, occupied: seq<string>, seatId: string)
    requires seatId !in occupied && seatId in selected && NoDuplicates(selected)
    ensures var r := Click(selected, occupied, true, seatId).selected;
            && r == Remove(selected, seatId)
            && (forall y :: y in r <==> y in selected && y != seatId)
            && |r| == |selected| - 1
            && SeatPrice(r) == SeatPrice(selected) - SeatPriceOf(seatId)
  {
    RemovePrice(selected, seatId);
    RemoveFromNoDuplicates(selected, seatId);
  }

  /** Removing a seat present once lowers the price by that seat's price. */
  lemma {:induction false} RemovePrice(s: seq<string>, x: string)
    requires NoDuplicates(s) && x in s
    ensures SeatPrice(Remove(s, x)) == SeatPrice(s) - SeatPriceOf(x)
  {
    assert s == [s[0]] + s[1..];
    SeatPriceAppend([s[0]], s[1..]);
    assert [s[0]][..0] == [];
    if s[0] == x {
      assert x !in s[1..];
      assert Remove(s[1..], x) == s[1..];
    } else {
      RemovePrice(s[1..], x);
      SeatPriceAppend([s[0]], Remove(s[1..], x));
    }
  }

  /** Clicking a new seat appends it at the end when fewer than five are
      selected, and is refused with the cap message otherwise. */
  lemma ClickSelects(selected: seq<string>, occupied: seq<string>, seatId: string)
    requires seatId !in occupied && seatId !in selected
    ensures |selected| < MaxSeats ==> Click(selected, occupied, true, seatId) == ClickResult(selected + [seatId], None)
    ensures |selected| < MaxSeats ==> SeatPrice(selected + [seatId]) == SeatPrice(selected) + SeatPriceOf(seatId)
    ensures |selected| >= MaxSeats ==> Click(selected, occupied, true, seatId) == ClickResult(selected, Some(MaxSeatsReached))
  {
    if |selected| < MaxSeats {
      ClickAppends(selected, occupied, seatId);
      SeatPriceAppendOne(selected, seatId);
    }
  }

  lemma ClickAppends(selected: seq<string>, occupied: seq<string>, seatId: string)
    requires seatId !in occupied && seatId !in selected && |selected| < MaxSeats
    ensures Click(selected, occupied, true, seatId) == ClickResult(selected + [seatId], None)
  {
  }

  /** Appending one seat adds its price. */
  lemma SeatPriceAppendOne(selected: seq<string>, seatId: string)
    ensures SeatPrice(selected + [seatId]) == SeatPrice(selected) + SeatPriceOf(seatId)
  {
    assert (selected + [seatId])[..|selected|] == selected;
  }

  /** Every click keeps the selection free of duplicates and within five. */
  lemma ClickKeepsSelectionOk(selected: seq<string>, occupied: seq<string>, timeChosen: bool, seatId: string)
    requires SelectionOk(selected)
    ensures SelectionOk(Click(selected, occupied, timeChosen, seatId).selected)
  {
    if timeChosen && seatId !in occupied && seatId in selected {
      RemoveFromNoDuplicates(selected, seatId);
    }
  }

  // -----------------------------------------------------------------------
  // The page as a state machine

  /** The page's state: `selectedSeats`, `selectedTime`, `occupiedSeats`. */
  datatype PageState = PageState(selectedSeats: seq<string>, selectedTime: Option<TimeSlot>, occupiedSeats: seq<string>)

  /** The answer to `GET /api/booking/seats/:showId`: success with
      `data.occupiedSeats` (possibly missing), or failure / an error. */
  datatype SeatsResponse = SeatsOk(occupied: Option<seq<string>>) | SeatsFailed

  /** What can happen on the page: a seat click, a show time chosen, or the
      occupied-seat request answering (possibly late, for an earlier time). */
  datatype Action = ClickSeat(seatId: string) | ChooseTime(slot: TimeSlot) | OccupiedLoaded(response: SeatsResponse)

  const Initial := PageState([], None, [])

  /** The page invariant: the selection is free of duplicates and within
      five, and a non-empty selection has a chosen time. */
  predicate PageOk(st: PageState) {
    SelectionOk(st.selectedSeats) && (|st.selectedSeats| > 0 ==> st.selectedTime.Some?)
  }

  /** `getOccupiedSeats`' state update. */
  function LoadOccupied(previous: seq<string>, response: SeatsResponse): (occupied: seq<string>)
    ensures response.SeatsFailed? ==> occupied == previous
    ensures response == SeatsOk(None) ==> occupied == []
    ensures response.SeatsOk? && response.occupied.Some? ==> occupied == response.occupied.value
  {
    match response
    case SeatsOk(occupied) => occupied.GetOr([])
    case SeatsFailed => previous
  }

  /** One action: only choosing a time changes the chosen time; a click
      leaves the occupied seats and a seat answer leaves the selection;
      choosing a time empties both. */
  function Step(st: PageState, a: Action): (r: PageState)
    ensures a.ChooseTime? ==> r.selectedTime == Some(a.slot)
    ensures !a.ChooseTime? ==> r.selectedTime == st.selectedTime
    ensures a.ClickSeat? ==> r.occupiedSeats == st.occupiedSeats
    ensures a.OccupiedLoaded? ==> r.selectedSeats == st.selectedSeats
    ensures a.ChooseTime? ==> r.selectedSeats == [] && r.occupiedSeats == []
  {
    match a
    case ClickSeat(id) =>
      st.(selectedSeats := Click(st.selectedSeats, st.occupiedSeats, st.selectedTime.Some?, id).selected)
    case ChooseTime(slot) => PageState([], Some(slot), [])
    case OccupiedLoaded(response) => st.(occupiedSeats := LoadOccupied(st.occupiedSeats, response))
  }

  /** A run of actions; without a time being chosen, the chosen time stays. */
  function Run(st: PageState, actions: seq<Action>): (r: PageState)
    ensures (forall i :: 0 <= i < |actions| ==> !actions[i].ChooseTime?) ==> r.selectedTime == st.selectedTime
    decreases |actions|
  {
    if |actions| == 0 then st
    else
      assert forall i :: 0 <= i < |actions| - 1 ==> actions[1..][i] == actions[i + 1];
      Run(Step(st, actions[0]), actions[1..])
  }

  /** Choosing a show time clears the selected and the occupied seats. */
  lemma ChooseTimeResets(st: PageState, slot: TimeSlot)
    ensures Step(st, ChooseTime(slot)) == PageState([], Some(slot), [])
  {
  }

  lemma StepKeepsPageOk(st: PageState, a: Action)
    requires PageOk(st)
    ensures PageOk(Step(st, a))
  {
    if a.ClickSeat? {
      ClickKeepsSelectionOk(st.selectedSeats, st.occupiedSeats, st.selectedTime.Some?, a.seatId);
    }
  }

  /** From the empty page, whatever happens, the selection never holds more
      than five seats, never holds a seat twice, and is empty until a time
      is chosen. */
  lemma {:induction false} RunKeepsPageOk(st: PageState, actions: seq<Action>)
    requires PageOk(st)
    ensures PageOk(Run(st, actions))
    decreases |actions|
  {
    if |actions| > 0 {
      StepKeepsPageOk(st, actions[0]);
      RunKeepsPageOk(Step(st, actions[0]), actions[1..]);
    }
  }

  lemma InitialIsOk()
    ensures PageOk(Initial)
  {
  }

  // -----------------------------------------------------------------------
  // Checkout

  /** What the checkout button does: send the visitor to log in, show the
      "select seats" error, or post the booking request. */
  datatype CheckoutAction =
    | GoToLogin
    | NoSeatsError(message: string)
    | PostBooking(userId: string, showId: string, selectedSeats: seq<string>)

  /** `if (data.success && data.url) window.location.href = data.url`. */
  function CheckoutRedirect(success: bool, url: Option<string>): (target: Option<string>)
    ensures target.Some? <==> success && Truthy(url)
    ensures target.Some? ==> target == url
  {
    if success && Truthy(url) then url else None
  }

  /** The page's state, held as the component's `useState` hooks. */
  class SeatLayoutPage {
    var selectedSeats: seq<string>
    var selectedTime: Option<TimeSlot>
    var occupiedSeats: seq<string>
    /** The shows of the chosen date (`show`). */
    var shows: seq<BookingModel.Show>

    function State(): PageState
      reads this
    {
      PageState(selectedSeats, selectedTime, occupiedSeats)
    }

    ghost predicate Valid()
      reads this
    {
      PageOk(State())
    }

    constructor ()
      ensures State() == Initial && shows == [] && Valid()
    {
      selectedSeats, selectedTime, occupiedSeats, shows := [], None, [], [];
    }

    /** The price shown under "Total" for the current state. */
    function Total(): int
      reads this
    {
      TotalPrice(selectedSeats, shows, selectedTime)
    }

    /** `getShow`: the shows of the date replace the list on success only. */
    method ShowsLoaded(success: bool, loaded: seq<BookingModel.Show>)
      requires Valid()
      modifies this
      ensures Valid() && State() == old(State())
      ensures shows == if success then loaded else old(shows)
    {
      if success {
        shows := loaded;
      }
    }

    /** `handleSeatClick(seatId)`: returns the toast it shows, if any. */
    method HandleSeatClick(seatId: string) returns (toast: Option<string>)
      requires Valid()
      modifies this
      ensures Valid()
      ensures State() == Step(old(State()), ClickSeat(seatId))
      ensures shows == old(shows)
      ensures toast == Click(old(selectedSeats), old(occupiedSeats), old(selectedTime).Some?, seatId).toast
    {
      StepKeepsPageOk(State(), ClickSeat(seatId));
      if selectedTime.None? {
        return Some(SelectTimeFirst);
      }
      if seatId in occupiedSeats {
        return Some(SeatOccupied);
      }
      if seatId in selectedSeats {
        selectedSeats := Remove(selectedSeats, seatId);
      } else {
        if |selectedSeats| >= MaxSeats {
          return Some(MaxSeatsReached);
        }
        selectedSeats := selectedSeats + [seatId];
      }
      toast := None;
    }

    /** Clicking a show time (`setSelectedTime`) and the effect that
        follows: both seat lists are cleared, and the occupied seats of the
        new show are requested when its id is truthy (the returned id). */
    method SelectTime(slot: TimeSlot) returns (fetch: Option<string>)
      requires Valid()
      modifies this
      ensures Valid()
      ensures State() == Step(old(State()), ChooseTime(slot))
      ensures shows == old(shows)
      ensures fetch.Some? <==> slot.showId != ""
      ensures fetch.Some? ==> fetch.value == slot.showId
    {
      selectedTime := Some(slot);
      selectedSeats := [];
      occupiedSeats := [];
      fetch := if slot.showId != "" then Some(slot.showId) else None;
    }

    /** The occupied-seat request answering. */
    method OccupiedSeatsLoaded(response: SeatsResponse)
      requires Valid()
      modifies this
      ensures Valid()
      ensures State() == Step(old(State()), OccupiedLoaded(response))
      ensures shows == old(shows)
    {
      if response.SeatsOk? {
        occupiedSeats := if response.occupied.Some? then response.occupied.value else [];
      }
    }

    /** The checkout button's guard: no user sends to the login page; no
        seats shows an error and posts nothing; otherwise the booking request
        carries the user's token, the chosen show and the selected seats. */
    method Checkout(hasUser: bool, token: string) returns (action: CheckoutAction)
      requires Valid()
      ensures !hasUser ==> action == GoToLogin
      ensures hasUser && |selectedSeats| == 0 ==> action == NoSeatsError(SelectSeatsFirst)
      ensures hasUser && |selectedSeats| > 0 ==>
                selectedTime.Some? && action == PostBooking(token, selectedTime.value.showId, selectedSeats)
    {
      if !hasUser {
        return GoToLogin;
      }
      if |selectedSeats| == 0 {
        return NoSeatsError(SelectSeatsFirst);
      }
      action := PostBooking(token, selectedTime.value.showId, selectedSeats);
    }
  }
}
