/**
 * The polling loop of public/app.js (`fetchNowPlaying` and `scheduleNextFetch`) over the
 * display: the page asks the relay for its snapshot, shows it, and arms the next request.
 */
module Polling {
  import opened Wrappers
  import opened Types
  import opened Http
  import opened DisplayModel

  const DefaultRefreshMs := 5000
  /** The delay after a failed request: twice the default. */
  const RetryDelayMs := DefaultRefreshMs * 2

  /**
   * `refreshHandle` while its timer is pending, with the delay it was armed for, and whether
   * a request is awaiting its answer.
   */
  datatype Poll = Poll(timer: Option<int>, inFlight: bool)

  /** Everything the page script keeps. */
  datatype Client = Client(view: View, poll: Poll)

  /**
   * With a slug, exactly one of the refresh timer and a request is pending, so the loop
   * neither stalls nor overlaps; without one, nothing ever is.
   */
  predicate PollValid(slug: Option<string>, poll: Poll) {
    if Truthy(slug) then poll.timer.Some? != poll.inFlight else poll.timer.None? && !poll.inFlight
  }

  predicate ClientValid(slug: Option<string>, c: Client) {
    ViewInvariant(c.view) && PollValid(slug, c.poll)
  }

  /** `scheduleNextFetch`: clear any pending timer and arm one for the delay. */
  function ScheduleNextFetch(poll: Poll, delay: int): (r: Poll)
    ensures r.timer == Some(delay) && r.inFlight == poll.inFlight
  {
    poll.(timer := Some(delay))
  }

  /** `fetchNowPlaying` up to its `await`: nothing without a slug, else a request goes out. */
  function FetchNowPlaying(poll: Poll, slug: Option<string>): Poll {
    if Truthy(slug) then poll.(inFlight := true) else poll
  }

  /** The refresh timer fires and runs `fetchNowPlaying`; a timer that is not pending never fires. */
  function RefreshTimerFired(poll: Poll, slug: Option<string>): (r: Poll)
    ensures r.timer.None?
    ensures poll.timer.None? ==> r == poll
    ensures poll.timer.Some? ==> (r.inFlight <==> poll.inFlight || Truthy(slug))
  {
    if poll.timer.None? then poll else FetchNowPlaying(poll.(timer := None), slug)
  }

  /**
   * The rest of `fetchNowPlaying` once its request settles: an ok answer is shown and the
   * next request is armed for the snapshot's interval (or the default); a failed one leaves
   * the display as it is and retries after twice the default.
   */
  function FetchCompleted(c: Client, outcome: FetchOutcome<Snapshot>, art: Artwork): (r: Client)
    ensures !c.poll.inFlight ==> r == c
    ensures c.poll.inFlight ==> !r.poll.inFlight && r.poll.timer.Some?
    ensures c.poll.inFlight && !(outcome.Received? && outcome.response.Ok()) ==>
      r.view == c.view && r.poll.timer == Some(RetryDelayMs)
  {
    if !c.poll.inFlight then c
    else
      var idle := c.poll.(inFlight := false);
      match outcome
      case Received(response) =>
        if response.Ok() then
          Client(UpdateNowPlaying(c.view, response.body, art),
                 ScheduleNextFetch(idle, response.body.refreshIntervalMs.GetOr(DefaultRefreshMs)))
        else
          Client(c.view, ScheduleNextFetch(idle, RetryDelayMs))
      case NetworkFailure(_) => Client(c.view, ScheduleNextFetch(idle, RetryDelayMs))
  }

  /** The page once its script has run: the initial display and, with a slug, the first request in flight. */
  function InitialClient(slug: Option<string>): (r: Client)
    ensures ClientValid(slug, r)
    ensures r.poll.inFlight <==> Truthy(slug)
    ensures r.poll.timer.None?
  {
    Client(InitialView(), FetchNowPlaying(Poll(None, false), slug))
  }

  /** Timers and answers keep the client invariant. */
  lemma PollingPreservesValid(slug: Option<string>, c: Client, outcome: FetchOutcome<Snapshot>, art: Artwork)
    requires ClientValid(slug, c)
    ensures ClientValid(slug, c.(poll := RefreshTimerFired(c.poll, slug)))
    ensures ClientValid(slug, FetchCompleted(c, outcome, art))
  {
    if c.poll.inFlight && outcome.Received? && outcome.response.Ok() {
      UpdatePreservesInvariant(c.view, outcome.response.body, art);
    }
  }

  /**
   * With a slug the loop keeps going: a pending timer turns into a request, and a settled
   * request into a pending timer, whatever its outcome.
   */
  lemma PollingNeverStalls(slug: Option<string>, c: Client, outcome: FetchOutcome<Snapshot>, art: Artwork)
    requires Truthy(slug) && ClientValid(slug, c)
    ensures c.poll.timer.Some? ==> RefreshTimerFired(c.poll, slug) == Poll(None, true)
    ensures c.poll.inFlight ==> var r := FetchCompleted(c, outcome, art).poll; r.timer.Some? && !r.inFlight
  {
  }

  /** Without a slug no request is ever sent and no timer ever armed. */
  lemma NoSlugNoPolling(slug: Option<string>, c: Client, outcome: FetchOutcome<Snapshot>, art: Artwork)
    requires !Truthy(slug) && PollValid(slug, c.poll)
    ensures InitialClient(slug).poll == Poll(None, false)
    ensures RefreshTimerFired(c.poll, slug) == c.poll
    ensures FetchCompleted(c, outcome, art) == c
  {
  }

  /** A failed request (network error or a status outside 2xx) keeps the display and retries after 10 s. */
  lemma FailedPollKeepsDisplay(c: Client, outcome: FetchOutcome<Snapshot>, art: Artwork)
    requires c.poll.inFlight
    requires outcome.NetworkFailure? || !outcome.response.Ok()
    ensures FetchCompleted(c, outcome, art) == Client(c.view, Poll(Some(10000), false))
  {
  }

  /** An ok answer is shown as `updateNowPlaying` shows it, and the next request waits for its interval or 5 s. */
  lemma SuccessfulPollShowsSnapshot(c: Client, response: Response<Snapshot>, art: Artwork)
    requires c.poll.inFlight && response.Ok()
    ensures var r := FetchCompleted(c, Received(response), art);
      && r.view == UpdateNowPlaying(c.view, response.body, art)
      && r.poll == Poll(Some(if response.body.refreshIntervalMs.Some? then response.body.refreshIntervalMs.value else 5000), false)
  {
  }

  /** An answer received again (the relay's snapshot unchanged) leaves the display as the first one did. */
  lemma RepeatedSnapshotIsStable(c: Client, response: Response<Snapshot>, art: Artwork)
    requires c.poll.inFlight && response.Ok()
    ensures var once := FetchCompleted(c, Received(response), art);
      var twice := FetchCompleted(once.(poll := once.poll.(timer := None, inFlight := true)), Received(response), art);
      twice == once
  {
    UpdateNowPlayingIdempotent(c.view, response.body, art);
  }
}
