/** The payment-confirmation page (cilent/src/components/loading.jsx):
    after checkout it polls the user's bookings every two seconds until the
    newest one is paid, gives up and moves on after thirty seconds, and
    without a target or a user simply redirects after eight seconds. The
    effect runs on mount and again whenever the signed-in user changes.

    Time advances in ticks of the polling period (2000 ms); the poll's
    answer is taken to arrive within the tick it was sent in, and a change
    of user happens between two ticks. */
module Loading {
  import opened Wrappers
  import opened Strings
  import BookingModel

  const PollPeriodMs := 2000
  const FallbackMs := 30000
  const RedirectMs := 8000
  const DefaultTarget := "my-bookings"

  /** The ticks from arming to firing of the thirty-second fallback (15). */
  const FallbackTick := FallbackMs / PollPeriodMs
  /** The ticks from arming to firing of the eight-second redirect (4). */
  const RedirectTick := RedirectMs / PollPeriodMs

  /** The answer to `POST /api/user/booking`: the response body, or an
      error (network failure, rejected token). */
  datatype PollReply =
    | Reply(success: bool, bookings: Option<seq<BookingModel.Booking>>)
    | RequestError

  /** Whether a poll's answer makes the page move on: it succeeded, listed
      at least one booking, and the first listed booking is paid. A
      successful answer without a `bookings` array throws inside the poll
      and is swallowed. */
  predicate PollNavigates(reply: PollReply)
    ensures PollNavigates(reply) ==> reply.Reply? && reply.success && reply.bookings.Some?
    ensures reply.Reply? && reply.bookings.Some? && |reply.bookings.value| > 0 && !reply.bookings.value[0].isPaid
            ==> !PollNavigates(reply)
  {
    reply.Reply? && reply.success && reply.bookings.Some?
    && |reply.bookings.value| > 0 && reply.bookings.value[0].isPaid
  }

  /** The page's state: the `polling` flag, the ticks since mounting, the
      interval and the fallback (armed or not, and the tick the fallback is
      due), the due ticks of the eight-second timers still pending (a
      multiset: nothing ever clears them, so several can be pending), the
      polls sent and the navigations made. */
  datatype PageState = PageState(
    nextUrl: Option<string>,
    tick: nat,
    polling: bool,
    intervalOn: bool,
    fallbackOn: bool,
    fallbackAt: nat,
    redirects: multiset<nat>,
    polls: nat,
    navigations: seq<string>)

  /** The destination of the polling branch. */
  function Target(nextUrl: Option<string>): string {
    "/" + OrElse(nextUrl, "")
  }

  /** The destination of the eight-second redirect. */
  function RedirectTarget(nextUrl: Option<string>): string {
    "/" + OrElse(nextUrl, DefaultTarget)
  }

  /** `n` navigations to `url`. */
  function Repeat(url: string, n: nat): (r: seq<string>)
    ensures |r| == n
    ensures forall i :: 0 <= i < n ==> r[i] == url
  {
    if n == 0 then [] else Repeat(url, n - 1) + [url]
  }

  /** Whether a run of the effect takes the redirect branch. */
  predicate RedirectsOnly(nextUrl: Option<string>, hasUser: bool) {
    !Truthy(nextUrl) || !hasUser
  }

  /** One poll and its answer. */
  function Poll(st: PageState, reply: PollReply): (r: PageState)
    ensures r.polls == st.polls + 1
    ensures r.navigations == st.navigations + (if PollNavigates(reply) then [Target(st.nextUrl)] else [])
    ensures r.polling == (st.polling && !PollNavigates(reply))
    ensures r.(polls := st.polls, navigations := st.navigations, polling := st.polling) == st
  {
    var sent := st.(polls := st.polls + 1);
    if PollNavigates(reply) then sent.(polling := false, navigations := sent.navigations + [Target(st.nextUrl)])
    else sent
  }

  /** One run of the effect's body. Without a truthy `nextUrl` or without a
      user an eight-second timer is armed; otherwise the interval and the
      thirty-second fallback are armed and a first poll is sent at once. */
  function Effect(st: PageState, hasUser: bool, firstReply: PollReply): PageState {
    if RedirectsOnly(st.nextUrl, hasUser) then st.(redirects := st.redirects + multiset{st.tick + RedirectTick})
    else Poll(st.(intervalOn := true, fallbackOn := true, fallbackAt := st.tick + FallbackTick), firstReply)
  }

  /** The state before the effect first runs. */
  function Fresh(nextUrl: Option<string>): PageState {
    PageState(nextUrl, 0, true, false, false, 0, multiset{}, 0, [])
  }

  /** The effect on mount. */
  function Mount(nextUrl: Option<string>, hasUser: bool, firstReply: PollReply): (st: PageState)
    ensures st.nextUrl == nextUrl && st.tick == 0
    ensures st.polling <==> RedirectsOnly(nextUrl, hasUser) || !PollNavigates(firstReply)
    ensures st.redirects == if RedirectsOnly(nextUrl, hasUser) then multiset{RedirectTick} else multiset{}
    ensures st.intervalOn == st.fallbackOn == !RedirectsOnly(nextUrl, hasUser)
    ensures !RedirectsOnly(nextUrl, hasUser) ==> st.fallbackAt == FallbackTick
    ensures RedirectsOnly(nextUrl, hasUser) ==> st.polls == 0 && st.navigations == []
    ensures !RedirectsOnly(nextUrl, hasUser) ==> st.polls == 1
    ensures !RedirectsOnly(nextUrl, hasUser) ==> (st.navigations == [] <==> !PollNavigates(firstReply))
  {
    Effect(Fresh(nextUrl), hasUser, firstReply)
  }

  /** The effect's cleanup: the interval and the fallback are cleared; the
      redirect branch returns no cleanup, so its timers stay armed. */
  function Unmount(st: PageState): (r: PageState)
    ensures !r.intervalOn && !r.fallbackOn
    ensures r.redirects == st.redirects && r.navigations == st.navigations
    ensures r.(intervalOn := st.intervalOn, fallbackOn := st.fallbackOn) == st
  {
    st.(intervalOn := false, fallbackOn := false)
  }

  /** The signed-in user changes: React runs the previous run's cleanup and
      then the effect again. Timers armed by an earlier redirect branch are
      still pending. */
  function Rerun(st: PageState, hasUser: bool, firstReply: PollReply): (r: PageState)
    ensures r.tick == st.tick && r.nextUrl == st.nextUrl
    ensures r.redirects == st.redirects + (if RedirectsOnly(st.nextUrl, hasUser) then multiset{st.tick + RedirectTick} else multiset{})
    ensures r.intervalOn == r.fallbackOn == !RedirectsOnly(st.nextUrl, hasUser)
    ensures !RedirectsOnly(st.nextUrl, hasUser) ==> r.fallbackAt == st.tick + FallbackTick && r.polls == st.polls + 1
    ensures RedirectsOnly(st.nextUrl, hasUser) ==> r.polls == st.polls && r.navigations == st.navigations
  {
    Effect(Unmount(st), hasUser, firstReply)
  }

  /** The interval's poll, when it is armed. */
  function IntervalFires(st: PageState, reply: PollReply): (r: PageState)
    ensures r.polls == st.polls + (if st.intervalOn then 1 else 0)
    ensures r.tick == st.tick && r.nextUrl == st.nextUrl && r.intervalOn == st.intervalOn
    ensures r.fallbackOn == st.fallbackOn && r.fallbackAt == st.fallbackAt && r.redirects == st.redirects
    ensures !st.intervalOn ==> r.navigations == st.navigations && r.polling == st.polling
  {
    if st.intervalOn then Poll(st, reply) else st
  }

  /** The thirty-second fallback, on its tick. */
  function FallbackFires(st: PageState): (r: PageState)
    ensures st.fallbackOn && st.tick == st.fallbackAt
            ==> !r.polling && !r.fallbackOn && r.navigations == st.navigations + [Target(st.nextUrl)]
    ensures !(st.fallbackOn && st.tick == st.fallbackAt) ==> r == st
    ensures r.(polling := st.polling, fallbackOn := st.fallbackOn, navigations := st.navigations) == st
  {
    if st.fallbackOn && st.tick == st.fallbackAt
    then st.(polling := false, fallbackOn := false, navigations := st.navigations + [Target(st.nextUrl)])
    else st
  }

  /** The eight-second timers due on this tick fire, each navigating once. */
  function RedirectFires(st: PageState): (r: PageState)
    ensures r.redirects[st.tick] == 0
    ensures forall d :: d != st.tick ==> r.redirects[d] == st.redirects[d]
    ensures r.navigations == st.navigations + Repeat(RedirectTarget(st.nextUrl), st.redirects[st.tick])
    ensures r.(redirects := st.redirects, navigations := st.navigations) == st
  {
    if st.tick in st.redirects
    then st.(redirects := st.redirects[st.tick := 0],
             navigations := st.navigations + Repeat(RedirectTarget(st.nextUrl), st.redirects[st.tick]))
    else st
  }

  /** Two seconds pass: the interval polls (if armed), then the fallback
      fires if it is due, then the eight-second timers that are due. */
  function Tick(st: PageState, reply: PollReply): (r: PageState)
    ensures r.tick == st.tick + 1 && r.nextUrl == st.nextUrl
    ensures r.polls == st.polls + (if st.intervalOn then 1 else 0)
    ensures r.intervalOn == st.intervalOn && r.fallbackAt == st.fallbackAt
    ensures r.fallbackOn == (st.fallbackOn && st.tick + 1 != st.fallbackAt)
    ensures r.redirects == st.redirects[st.tick + 1 := 0]
    ensures st.navigations <= r.navigations
  {
    RedirectFires(FallbackFires(IntervalFires(st.(tick := st.tick + 1), reply)))
  }

  /** A run of ticks, one poll answer per tick. */
  function Ticks(st: PageState, replies: seq<PollReply>): (r: PageState)
    ensures r.tick == st.tick + |replies| && r.nextUrl == st.nextUrl
    ensures r.intervalOn == st.intervalOn && r.fallbackAt == st.fallbackAt
    ensures st.navigations <= r.navigations
    decreases |replies|
  {
    if |replies| == 0 then st else Ticks(Tick(st, replies[0]), replies[1..])
  }

  predicate NoneNavigates(replies: seq<PollReply>) {
    forall i :: 0 <= i < |replies| ==> !PollNavigates(replies[i])
  }

  // -----------------------------------------------------------------------
  // Properties

  /** A poll whose request fails, or whose answer is unsuccessful, is
      swallowed: only the count of polls sent moves. */
  lemma FailedPollChangesNothing(st: PageState, reply: PollReply)
    requires reply.RequestError? || !reply.success
    ensures Poll(st, reply) == st.(polls := st.polls + 1)
  {
  }

  /** Whatever the server answers, a polling page with no eight-second
      timer pending only ever navigates to `'/' + nextUrl`, and keeps its
      fallback armed until the fallback's tick. */
  lemma {:induction false} PollingNavigatesOnlyToTarget(st: PageState, replies: seq<PollReply>)
    requires Truthy(st.nextUrl) && st.redirects == multiset{} && st.intervalOn
    requires st.fallbackOn <==> st.tick < st.fallbackAt
    requires forall i :: 0 <= i < |st.navigations| ==> st.navigations[i] == "/" + st.nextUrl.value
    ensures var end := Ticks(st, replies);
            && end.redirects == multiset{}
            && end.polls == st.polls + |replies|
            && (forall i :: 0 <= i < |end.navigations| ==> end.navigations[i] == "/" + st.nextUrl.value)
            && (end.fallbackOn <==> end.tick < st.fallbackAt)
    decreases |replies|
  {
    if |replies| > 0 {
      var next := Tick(st, replies[0]);
      TickKeepsTarget(st, replies[0]);
      PollingNavigatesOnlyToTarget(next, replies[1..]);
    }
  }

  /** One tick of the polling branch. */
  lemma TickKeepsTarget(st: PageState, reply: PollReply)
    requires Truthy(st.nextUrl) && st.redirects == multiset{} && st.intervalOn
    requires st.fallbackOn <==> st.tick < st.fallbackAt
    requires forall i :: 0 <= i < |st.navigations| ==> st.navigations[i] == "/" + st.nextUrl.value
    ensures var next := Tick(st, reply);
            && next.redirects == multiset{} && next.polls == st.polls + 1
            && (forall i :: 0 <= i < |next.navigations| ==> next.navigations[i] == "/" + st.nextUrl.value)
            && (next.fallbackOn <==> next.tick < st.fallbackAt)
  {
    var polled := IntervalFires(st.(tick := st.tick + 1), reply);
    assert forall i :: 0 <= i < |polled.navigations| ==> polled.navigations[i] == "/" + st.nextUrl.value;
  }

  /** Before the fallback is due, without a paid newest booking in any
      answer, a polling page with no eight-second timer pending has not
      navigated. */
  lemma {:induction false} NoNavigationWithoutPayment(st: PageState, replies: seq<PollReply>)
    requires Truthy(st.nextUrl) && st.redirects == multiset{} && st.intervalOn
    requires st.navigations == []
    requires NoneNavigates(replies)
    requires st.tick + |replies| < st.fallbackAt
    ensures Ticks(st, replies).navigations == []
    ensures Ticks(st, replies).polling == st.polling
    decreases |replies|
  {
    if |replies| > 0 {
      NoNavigationWithoutPayment(Tick(st, replies[0]), replies[1..]);
    }
  }

  /** A polling page that gets a paid newest booking clears `polling`, and
      its first navigation is to the target. */
  lemma PaidAnswerNavigates(st: PageState, reply: PollReply)
    requires Truthy(st.nextUrl) && st.intervalOn
    requires st.navigations == [] && PollNavigates(reply)
    ensures !Tick(st, reply).polling
    ensures Tick(st, reply).navigations[0] == "/" + st.nextUrl.value
  {
    var polled := IntervalFires(st.(tick := st.tick + 1), reply);
    assert polled.navigations == ["/" + st.nextUrl.value];
  }

  /** Whatever the server answers (or if it never answers usefully), the
      page has moved to the target by the thirty-second mark: a mounted
      page with a user and a target navigates within 15 ticks. */
  lemma {:induction false} FallbackAlwaysNavigates(nextUrl: Option<string>, firstReply: PollReply, replies: seq<PollReply>)
    requires Truthy(nextUrl)
    requires |replies| == FallbackTick
    ensures var end := Ticks(Mount(nextUrl, true, firstReply), replies);
            && |end.navigations| >= 1
            && !end.polling
            && !end.fallbackOn
            && forall i :: 0 <= i < |end.navigations| ==> end.navigations[i] == "/" + nextUrl.value
  {
    var start := Mount(nextUrl, true, firstReply);
    PollingNavigatesOnlyToTarget(start, replies);
    FallbackRun(start, replies);
  }

  /** The fallback fires on its tick: from a polling state before that tick,
      running up to it clears `polling` and adds a navigation. */
  lemma {:induction false} FallbackRun(st: PageState, replies: seq<PollReply>)
    requires st.fallbackOn <==> st.tick < st.fallbackAt
    requires st.tick + |replies| == st.fallbackAt && |replies| > 0
    ensures !Ticks(st, replies).polling
    ensures |Ticks(st, replies).navigations| > |st.navigations|
    decreases |replies|
  {
    var next := Tick(st, replies[0]);
    if |replies| > 1 {
      FallbackRun(next, replies[1..]);
    } else {
      assert Ticks(next, []) == next;
    }
  }

  /** Without a target or without a user, and as long as the user does not
      change, the page never polls, and after eight seconds it has made
      exactly one navigation, to `'/' + nextUrl` or to `/my-bookings`. */
  lemma {:induction false} RedirectBranch(nextUrl: Option<string>, hasUser: bool, firstReply: PollReply, replies: seq<PollReply>)
    requires RedirectsOnly(nextUrl, hasUser)
    requires |replies| >= RedirectTick
    ensures Ticks(Mount(nextUrl, hasUser, firstReply), replies).polls == 0
    ensures Ticks(Mount(nextUrl, hasUser, firstReply), replies).navigations == [RedirectTarget(nextUrl)]
  {
    var st := Mount(nextUrl, hasUser, firstReply);
    RedirectRun(st, replies);
  }

  lemma {:induction false} RedirectRun(st: PageState, replies: seq<PollReply>)
    requires !st.intervalOn && !st.fallbackOn && st.polls == 0
    requires st.tick < RedirectTick ==> st.redirects == multiset{RedirectTick} && st.navigations == []
    requires st.tick >= RedirectTick ==> st.redirects == multiset{} && st.navigations == [RedirectTarget(st.nextUrl)]
    requires st.tick + |replies| >= RedirectTick
    ensures Ticks(st, replies).polls == 0
    ensures Ticks(st, replies).navigations == [RedirectTarget(st.nextUrl)]
    decreases |replies|
  {
    if |replies| > 0 {
      var next := Tick(st, replies[0]);
      if st.tick + 1 == RedirectTick {
        assert next.redirects == multiset{};
      }
      RedirectRun(next, replies[1..]);
    }
  }

  /** Once unmounted, a page with no eight-second timer pending neither
      polls nor navigates again. */
  lemma {:induction false} UnmountStopsPolling(st: PageState, replies: seq<PollReply>)
    requires st.redirects == multiset{}
    ensures Ticks(Unmount(st), replies).navigations == st.navigations
    ensures Ticks(Unmount(st), replies).polls == st.polls
    decreases |replies|
  {
    if |replies| > 0 {
      var next := Tick(Unmount(st), replies[0]);
      assert Unmount(next) == next;
      UnmountStopsPolling(next, replies[1..]);
    }
  }

  /** Only the first listed booking decides: a paid booking further down
      the list does not make the page move on. */
  lemma OnlyFirstBookingDecides(bookings: seq<BookingModel.Booking>)
    requires |bookings| > 0
    ensures PollNavigates(Reply(true, Some(bookings))) <==> bookings[0].isPaid
    ensures !PollNavigates(Reply(false, Some(bookings)))
    ensures !PollNavigates(Reply(true, None)) && !PollNavigates(RequestError)
  {
  }

  // -----------------------------------------------------------------------
  // The stale eight-second timer

  /** As written: the page mounted before the user was known, so the
      redirect branch armed an eight-second timer; the user then arrives
      before it is due and the effect re-runs, starting to poll. No answer
      shows a paid booking, yet when the old timer is due the page
      navigates to the target, long before the thirty-second fallback. */
  lemma {:induction false} StaleRedirectNavigatesUnpaid(st: PageState, firstReply: PollReply, replies: seq<PollReply>)
    requires Truthy(st.nextUrl) && st.polling && st.navigations == []
    requires st.redirects == multiset{RedirectTick} && st.tick < RedirectTick
    requires !PollNavigates(firstReply) && NoneNavigates(replies)
    requires st.tick + |replies| == RedirectTick
    ensures var end := Ticks(Rerun(st, true, firstReply), replies);
            && end.navigations == ["/" + st.nextUrl.value]
            && end.polling && end.intervalOn
  {
    var rerun := Rerun(st, true, firstReply);
    assert rerun.navigations == [] && rerun.polling;
    StaleRun(rerun, replies);
  }

  /** The page of `StaleRedirectNavigatesUnpaid` right after mounting
      without a user. */
  lemma MountWithoutUserArmsRedirect(nextUrl: Option<string>, mountReply: PollReply)
    requires Truthy(nextUrl)
    ensures var st := Mount(nextUrl, false, mountReply);
            && st.polling && st.navigations == []
            && st.redirects == multiset{RedirectTick} && st.tick < RedirectTick
  {
  }

  lemma {:induction false} StaleRun(st: PageState, replies: seq<PollReply>)
    requires Truthy(st.nextUrl) && st.polling && st.intervalOn && st.navigations == []
    requires st.redirects == multiset{RedirectTick} && RedirectTick < st.fallbackAt
    requires NoneNavigates(replies) && st.tick + |replies| == RedirectTick && |replies| > 0
    ensures var end := Ticks(st, replies);
            && end.navigations == ["/" + st.nextUrl.value]
            && end.polling && end.intervalOn
    decreases |replies|
  {
    if |replies| > 1 {
      var next := Tick(st, replies[0]);
      var polled := FallbackFires(IntervalFires(st.(tick := st.tick + 1), replies[0]));
      assert polled.navigations == [] && polled.polling;
      assert next == polled;
      StaleRun(next, replies[1..]);
    } else {
      StaleLastTick(st, replies[0]);
      assert Ticks(Tick(st, replies[0]), []) == Tick(st, replies[0]);
    }
  }

  /** The tick on which the stale timer is due. */
  lemma StaleLastTick(st: PageState, reply: PollReply)
    requires Truthy(st.nextUrl) && st.polling && st.intervalOn && st.navigations == []
    requires st.redirects == multiset{RedirectTick} && RedirectTick < st.fallbackAt
    requires !PollNavigates(reply) && st.tick + 1 == RedirectTick
    ensures var next := Tick(st, reply);
            && next.navigations == ["/" + st.nextUrl.value]
            && next.polling && next.intervalOn
  {
    var polled := FallbackFires(IntervalFires(st.(tick := st.tick + 1), reply));
    assert polled.navigations == [] && polled.polling && polled.tick == RedirectTick;
    assert polled.redirects[polled.tick] == 1;
    var url := RedirectTarget(st.nextUrl);
    assert url == "/" + st.nextUrl.value;
    var fired := Repeat(url, 1);
    assert fired == [url];
    var next := RedirectFires(polled);
    assert Tick(st, reply) == next;
    assert next.navigations == polled.navigations + fired;
  }

  /** The cleanup the redirect branch evidently lacks: it clears its own
      eight-second timer as well. */
  function UnmountFixed(st: PageState): (r: PageState)
    ensures r.redirects == multiset{} && !r.intervalOn && !r.fallbackOn
    ensures r.(redirects := st.redirects, intervalOn := st.intervalOn, fallbackOn := st.fallbackOn) == st
  {
    Unmount(st).(redirects := multiset{})
  }

  /** A change of user with that cleanup. */
  function RerunFixed(st: PageState, hasUser: bool, firstReply: PollReply): (r: PageState)
    ensures r.redirects == if RedirectsOnly(st.nextUrl, hasUser) then multiset{st.tick + RedirectTick} else multiset{}
    ensures r.tick == st.tick && r.nextUrl == st.nextUrl
    ensures r.intervalOn == r.fallbackOn == !RedirectsOnly(st.nextUrl, hasUser)
    ensures !RedirectsOnly(st.nextUrl, hasUser) ==> r.fallbackAt == st.tick + FallbackTick
  {
    Effect(UnmountFixed(st), hasUser, firstReply)
  }

  /** Corrected: once the user arrives, whatever the earlier runs armed,
      the page waits for a paid newest booking or the thirty-second
      fallback before it navigates. */
  lemma {:induction false} FixedRerunWaitsForPayment(st: PageState, firstReply: PollReply, replies: seq<PollReply>)
    requires Truthy(st.nextUrl) && st.navigations == []
    requires !PollNavigates(firstReply) && NoneNavigates(replies)
    requires |replies| < FallbackTick
    ensures Ticks(RerunFixed(st, true, firstReply), replies).navigations == []
    ensures Ticks(RerunFixed(st, true, firstReply), replies).polling == st.polling
  {
    var rerun := RerunFixed(st, true, firstReply);
    assert rerun.navigations == [] && rerun.polling == st.polling;
    NoNavigationWithoutPayment(rerun, replies);
  }

  /** The component's `polling` state and the timers it arms. */
  class LoadingPage {
    var nextUrl: Option<string>
    var tick: nat
    var polling: bool
    var intervalOn: bool
    var fallbackOn: bool
    var fallbackAt: nat
    var redirects: multiset<nat>
    var polls: nat
    var navigations: seq<string>

    function Snapshot(): PageState
      reads this
    {
      PageState(nextUrl, tick, polling, intervalOn, fallbackOn, fallbackAt, redirects, polls, navigations)
    }

    /** Mounting: the effect runs once. */
    constructor (url: Option<string>, hasUser: bool, firstReply: PollReply)
      ensures Snapshot() == Mount(url, hasUser, firstReply)
    {
      nextUrl, tick, polling := url, 0, true;
      intervalOn, fallbackOn, fallbackAt := false, false, 0;
      redirects := multiset{};
      polls, navigations := 0, [];
      new;
      RunEffect(hasUser, firstReply);
    }

    /** The effect's body. */
    method RunEffect(hasUser: bool, firstReply: PollReply)
      modifies this
      ensures Snapshot() == Effect(old(Snapshot()), hasUser, firstReply)
    {
      if !Truthy(nextUrl) || !hasUser {
        redirects := redirects + multiset{tick + RedirectTick};
      } else {
        intervalOn, fallbackOn, fallbackAt := true, true, tick + FallbackTick;
        PollOnce(firstReply);
      }
    }

    /** The signed-in user changes: cleanup, then the effect again. */
    method UserChanged(hasUser: bool, firstReply: PollReply)
      modifies this
      ensures Snapshot() == Rerun(old(Snapshot()), hasUser, firstReply)
    {
      Cleanup();
      RunEffect(hasUser, firstReply);
    }

    /** `pollBookings` with the answer it gets. */
    method PollOnce(reply: PollReply)
      modifies this
      ensures Snapshot() == Poll(old(Snapshot()), reply)
    {
      polls := polls + 1;
      if reply.Reply? && reply.success && reply.bookings.Some? && |reply.bookings.value| > 0 {
        var mostRecent := reply.bookings.value[0];
        if mostRecent.isPaid {
          polling := false;
          navigations := navigations + ["/" + OrElse(nextUrl, "")];
        }
      }
    }

    /** Two seconds pass. */
    method Advance(reply: PollReply)
      modifies this
      ensures Snapshot() == Tick(old(Snapshot()), reply)
    {
      ghost var before := Snapshot();
      tick := tick + 1;
      ghost var started := Snapshot();
      assert started == before.(tick := before.tick + 1);
      IntervalTimeout(reply);
      ghost var polled := Snapshot();
      FallbackTimeout();
      ghost var fallen := Snapshot();
      assert fallen == FallbackFires(polled);
      RedirectTimeout();
    }

    /** The interval's callback, when the interval is armed. */
    method IntervalTimeout(reply: PollReply)
      modifies this
      ensures Snapshot() == IntervalFires(old(Snapshot()), reply)
    {
      if intervalOn {
        PollOnce(reply);
      }
    }

    /** The thirty-second timeout, when it is due. */
    method FallbackTimeout()
      modifies this
      ensures Snapshot() == FallbackFires(old(Snapshot()))
    {
      if fallbackOn && tick == fallbackAt {
        polling, fallbackOn := false, false;
        navigations := navigations + ["/" + OrElse(nextUrl, "")];
      }
    }

    /** The eight-second timeouts that are due. */
    method RedirectTimeout()
      modifies this
      ensures Snapshot() == RedirectFires(old(Snapshot()))
    {
      if tick in redirects {
        var due := redirects[tick];
        redirects := redirects[tick := 0];
        navigations := navigations + Repeat("/" + OrElse(nextUrl, DefaultTarget), due);
      }
    }

    /** The effect's cleanup. */
    method Cleanup()
      modifies this
      ensures Snapshot() == Unmount(old(Snapshot()))
    {
      intervalOn, fallbackOn := false, false;
    }
  }
}
