/** The runtime: the startup fetch and one iteration of the event loop,
    with the terminal, the event channel and the weather service abstracted
    away. The next event and the answer the weather service would give are
    inputs. */
module Runtime {
  import opened Connection
  import opened AppModel
  import opened Handler
  import Application

  /** What the event channel delivers. */
  datatype Event = Key(code: KeyCode) | Mouse | Resize(width: u16, height: u16) | Tick

  /** One receive from the event channel: an event, or a receive error. */
  datatype Received = Got(event: Event) | RecvError(reason: string)

  predicate EventSafe(s: AppState, r: Received)
  {
    r.Got? && r.event.Key? ==> KeySafe(s, r.event.code)
  }

  /** The event dispatch of one loop iteration. */
  function Dispatch(s: AppState, r: Received): (t: AppState)
    requires EventSafe(s, r)
    ensures ValidSelection(s) ==> ValidSelection(t)
    ensures t.running ==> s.running
  {
    match r
    case RecvError(_) => s
    case Got(e) =>
      match e
      case Key(k) => HandleKey(s, k)
      case Mouse => s
      case Resize(w, h) => HandleResize(s, w, h)
      case Tick => AppModel.Tick(s)
  }

  /** The state after servicing the fetch request, and the city the weather
      service was asked about (None when it was not called). */
  datatype Serviced = Serviced(state: AppState, queried: Option<string>)

  /** If a fetch is requested, fetch once; either way the request is down
      afterwards. */
  function ServiceFetch(s: AppState, outcome: FetchResult): (v: Serviced)
    ensures !v.state.fetchRequested
    ensures v.queried.Some? ==> s.fetchRequested
    ensures v.state == s.(currentWeather := v.state.currentWeather, fetchRequested := false)
    ensures ValidSelection(s) ==> ValidSelection(v.state)
  {
    if s.fetchRequested then
      var f := FetchWeather(s, outcome);
      Serviced(f.state.(fetchRequested := false), f.queried)
    else
      Serviced(s, None)
  }

  /** One iteration of the loop body: dispatch the received event, then
      service the fetch request. */
  function Iteration(s: AppState, r: Received, outcome: FetchResult): (v: Serviced)
    requires EventSafe(s, r)
    ensures ValidSelection(s) ==> ValidSelection(v.state)
    ensures v.state.running ==> s.running
    ensures !v.state.fetchRequested
  {
    ServiceFetch(Dispatch(s, r), outcome)
  }

  /** Before the loop: build the application, request a fetch, fetch, and
      lower the request whatever the fetch returned. */
  function Startup(outcome: FetchResult): (v: Serviced)
    ensures ValidSelection(v.state) && v.state.running
  {
    var f := FetchWeather(RequestWeatherFetch(Initial()), outcome);
    Serviced(f.state.(fetchRequested := false), f.queried)
  }

  function Queried(q: Option<string>): (cs: seq<string>)
    ensures |cs| <= 1
  {
    match q
    case None => []
    case Some(city) => [city]
  }

  /** Where a run of the loop ends: the final state, the number of events it
      took from the channel, and the cities the weather service was asked
      about, in order. */
  datatype Trace = Trace(final: AppState, processed: nat, queries: seq<string>)

  /** The loop `while running`, fed a finite sequence of received events and,
      for each, the answer the weather service gives if it is called in that
      iteration. */
  function Run(s: AppState, events: seq<Received>, outcomes: seq<FetchResult>): (t: Trace)
    requires |outcomes| == |events| && ValidSelection(s)
    ensures ValidSelection(t.final) && t.processed <= |events|
    decreases |events|
  {
    if !s.running || events == [] then Trace(s, 0, [])
    else
      var v := Iteration(s, events[0], outcomes[0]);
      var t := Run(v.state, events[1..], outcomes[1..]);
      Trace(t.final, t.processed + 1, Queried(v.queried) + t.queries)
  }

  /** The whole program: the startup fetch, then the loop. */
  function Session(initial: FetchResult, events: seq<Received>, outcomes: seq<FetchResult>): (t: Trace)
    requires |outcomes| == |events|
    ensures ValidSelection(t.final) && t.processed <= |events|
    ensures t.queries != [] && t.queries[0] == "Bucharest"
  {
    var v := Startup(initial);
    var t := Run(v.state, events, outcomes);
    Trace(t.final, t.processed, Queried(v.queried) + t.queries)
  }

  // ---------------------------------------------------------------------
  // One iteration

  /** An iteration calls the weather service at most once, exactly when the
      dispatched event left a request up and a city selected, and asks about
      that city; the request is down at the end of every iteration. */
  lemma IterationFetchesOnce(s: AppState, r: Received, outcome: FetchResult)
    requires EventSafe(s, r)
    ensures var d := Dispatch(s, r);
      Iteration(s, r, outcome).queried
        == if d.fetchRequested && d.selectedCity < |d.cities| then Some(d.cities[d.selectedCity]) else None
    ensures !Iteration(s, r, outcome).state.fetchRequested
  {
  }

  /** A resize records the new size and changes nothing else. */
  lemma ResizeOnlyRecordsSize(s: AppState, w: u16, h: u16, outcome: FetchResult)
    requires !s.fetchRequested
    ensures Iteration(s, Got(Resize(w, h)), outcome) == Serviced(s.(terminalSize := Some((w, h))), None)
  {
  }

  /** Ticks, mouse events and receive errors change nothing. */
  lemma QuietEventsChangeNothing(s: AppState, r: Received, outcome: FetchResult)
    requires !s.fetchRequested
    requires r.RecvError? || r == Got(Tick) || r == Got(Mouse)
    ensures Iteration(s, r, outcome) == Serviced(s, None)
  {
  }

  /** A failed fetch keeps the weather the dispatch left, and does not stop
      the loop; a successful one stores its record. */
  lemma FetchOutcomeInIteration(s: AppState, r: Received, outcome: FetchResult)
    requires EventSafe(s, r)
    ensures var d := Dispatch(s, r);
      outcome.FetchFailed? ==> Iteration(s, r, outcome).state == d.(fetchRequested := false)
    ensures var d := Dispatch(s, r);
      outcome.Fetched? && d.fetchRequested && d.selectedCity < |d.cities| ==>
        Iteration(s, r, outcome).state == d.(currentWeather := Some(outcome.info), fetchRequested := false)
  {
  }

  // ---------------------------------------------------------------------
  // The loop

  /** A stopped application takes no more events. */
  lemma RunHalted(s: AppState, events: seq<Received>, outcomes: seq<FetchResult>)
    requires |outcomes| == |events| && ValidSelection(s) && !s.running
    ensures Run(s, events, outcomes) == Trace(s, 0, [])
  {
  }

  /** The loop stops early only because the application stopped, and a
      stopped application never starts again. */
  lemma {:induction false} RunStopsOnlyWhenHalted(s: AppState, events: seq<Received>, outcomes: seq<FetchResult>)
    requires |outcomes| == |events| && ValidSelection(s)
    ensures var t := Run(s, events, outcomes);
      (t.processed < |events| ==> !t.final.running)
      && (t.final.running ==> s.running)
    decreases |events|
  {
    if s.running && events != [] {
      var v := Iteration(s, events[0], outcomes[0]);
      RunStopsOnlyWhenHalted(v.state, events[1..], outcomes[1..]);
    }
  }

  /** After any iteration the fetch request is down. */
  lemma {:induction false} RunClearsRequest(s: AppState, events: seq<Received>, outcomes: seq<FetchResult>)
    requires |outcomes| == |events| && ValidSelection(s)
    ensures var t := Run(s, events, outcomes);
      t.processed > 0 ==> !t.final.fetchRequested
    decreases |events|
  {
    if s.running && events != [] {
      var v := Iteration(s, events[0], outcomes[0]);
      RunClearsRequest(v.state, events[1..], outcomes[1..]);
    }
  }

  /** The weather service is called at most once per iteration. */
  lemma {:induction false} RunFetchBound(s: AppState, events: seq<Received>, outcomes: seq<FetchResult>)
    requires |outcomes| == |events| && ValidSelection(s)
    ensures |Run(s, events, outcomes).queries| <= Run(s, events, outcomes).processed
    decreases |events|
  {
    if s.running && events != [] {
      var v := Iteration(s, events[0], outcomes[0]);
      RunFetchBound(v.state, events[1..], outcomes[1..]);
    }
  }

  /** Running on two batches of events one after the other is running on
      their concatenation; a run that stops inside the first batch takes
      nothing from the second. */
  lemma {:induction false} RunAppend(s: AppState, e1: seq<Received>, o1: seq<FetchResult>,
                                     e2: seq<Received>, o2: seq<FetchResult>)
    requires |o1| == |e1| && |o2| == |e2| && ValidSelection(s)
    ensures var t1 := Run(s, e1, o1);
      Run(s, e1 + e2, o1 + o2)
        == if t1.processed < |e1| then t1
           else var t2 := Run(t1.final, e2, o2);
             Trace(t2.final, t1.processed + t2.processed, t1.queries + t2.queries)
    decreases |e1|
  {
    if !s.running {
    } else if e1 == [] {
      assert e1 + e2 == e2 && o1 + o2 == o2;
    } else {
      var e, o := e1 + e2, o1 + o2;
      var v := Iteration(s, e1[0], o1[0]);
      assert e[0] == e1[0] && o[0] == o1[0];
      assert e[1..] == e1[1..] + e2 && o[1..] == o1[1..] + o2;
      RunFrom(s, e1, o1, 0);
      RunFrom(s, e, o, 0);
      RunAppend(v.state, e1[1..], o1[1..], e2, o2);
      var u := Run(v.state, e1[1..], o1[1..]);
      if u.processed == |e1[1..]| {
        AfterAfter(0, Queried(v.queried), u.queries, Run(u.final, e2, o2));
      }
    }
  }

  // ---------------------------------------------------------------------
  // Startup and the whole session

  /** The startup fetch asks about the first default city; on success the
      record is shown, on failure the application is exactly as built. */
  lemma StartupFetch(outcome: FetchResult)
    ensures Startup(outcome).queried == Some("Bucharest")
    ensures !Startup(outcome).state.fetchRequested
    ensures outcome.Fetched? ==> Startup(outcome).state == Initial().(currentWeather := Some(outcome.info))
    ensures outcome.FetchFailed? ==> Startup(outcome).state == Initial()
  {
  }

  /** However the session goes, the request is down at its end, the first
      question to the weather service is the startup one, and there is at
      most one question per event plus the startup one. */
  lemma {:induction false} SessionProperties(initial: FetchResult, events: seq<Received>, outcomes: seq<FetchResult>)
    requires |outcomes| == |events|
    ensures var t := Session(initial, events, outcomes);
      && !t.final.fetchRequested
      && t.queries != [] && t.queries[0] == "Bucharest"
      && |t.queries| <= t.processed + 1
  {
    var v := Startup(initial);
    RunClearsRequest(v.state, events, outcomes);
    RunFetchBound(v.state, events, outcomes);
  }

  // ---------------------------------------------------------------------
  // The imperative loop

  /** One loop iteration on the application object. */
  method RunIteration(app: Application.App, received: Received, outcome: FetchResult)
      returns (queried: Option<string>)
    requires EventSafe(app.State(), received)
    modifies app
    ensures Serviced(app.State(), queried) == Iteration(old(app.State()), received, outcome)
  {
    match received {
      case RecvError(_) =>
      case Got(event) =>
        match event {
          case Key(k) =>
            var result := HandleKeyEvents(k, app);
          case Mouse =>
          case Resize(w, h) =>
            app.HandleResize(w, h);
          case Tick =>
            app.Tick();
        }
    }
    queried := None;
    if app.fetchRequested {
      var result;
      result, queried := app.FetchWeather(outcome);
      app.fetchRequested := false;
    }
  }

  /** `n` iterations already done, with questions `qs`, followed by the
      rest of a run. */
  function After(n: nat, qs: seq<string>, t: Trace): (r: Trace)
  {
    Trace(t.final, n + t.processed, qs + t.queries)
  }

  /** A running application takes the next event, then runs on the rest. */
  lemma RunFrom(s: AppState, events: seq<Received>, outcomes: seq<FetchResult>, p: nat)
    requires |outcomes| == |events| && ValidSelection(s) && s.running && p < |events|
    ensures var v := Iteration(s, events[p], outcomes[p]);
      Run(s, events[p..], outcomes[p..])
        == After(1, Queried(v.queried), Run(v.state, events[p + 1..], outcomes[p + 1..]))
  {
    assert events[p..][1..] == events[p + 1..];
    assert outcomes[p..][1..] == outcomes[p + 1..];
  }

  lemma AfterAfter(n: nat, qs: seq<string>, q: seq<string>, t: Trace)
    ensures After(n, qs, After(1, q, t)) == After(n + 1, qs + q, t)
  {
    assert qs + (q + t.queries) == qs + q + t.queries;
  }

  /** The loop `while app.running`, over the given events. */
  method RunLoop(app: Application.App, events: seq<Received>, outcomes: seq<FetchResult>)
      returns (processed: nat, queries: seq<string>)
    requires |outcomes| == |events| && app.Valid()
    modifies app
    ensures Trace(app.State(), processed, queries) == Run(old(app.State()), events, outcomes)
  {
    ghost var whole := Run(app.State(), events, outcomes);
    processed, queries := 0, [];
    while app.running && processed < |events|
      invariant processed <= |events| && app.Valid()
      invariant whole == After(processed, queries, Run(app.State(), events[processed..], outcomes[processed..]))
      decreases |events| - processed
    {
      ghost var before := app.State();
      var q := RunIteration(app, events[processed], outcomes[processed]);
      RunFrom(before, events, outcomes, processed);
      AfterAfter(processed, queries, Queried(q), Run(app.State(), events[processed + 1..], outcomes[processed + 1..]));
      queries := queries + Queried(q);
      processed := processed + 1;
    }
    assert events[processed..] == [] || !app.running;
  }

  /** The program from start to the end of the given events. */
  method Launch(initial: FetchResult, events: seq<Received>, outcomes: seq<FetchResult>)
      returns (app: Application.App, processed: nat, queries: seq<string>)
    requires |outcomes| == |events|
    ensures Trace(app.State(), processed, queries) == Session(initial, events, outcomes)
  {
    app := new Application.App();
    app.RequestWeatherFetch();
    var result, q := app.FetchWeather(initial);
    app.fetchRequested := false;
    var n, qs := RunLoop(app, events, outcomes);
    processed, queries := n, Queried(q) + qs;
  }
}
