/** The `App` object: its fields are updated in place by its methods, each
    of which is proved to compute the corresponding `AppModel` transition. */
module Application {
  import opened Connection
  import opened Text
  import M = AppModel

  class App {
    var running: bool
    var inputMode: M.InputMode
    var input: string
    var cities: seq<string>
    var selectedCity: nat
    var currentWeather: M.Option<CityInfo>
    var fetchRequested: bool
    var terminalSize: M.Option<(M.u16, M.u16)>

    /** The abstract value of this object. */
    function State(): M.AppState
      reads this
    {
      M.AppState(running, inputMode, input, cities, selectedCity,
                 currentWeather, fetchRequested, terminalSize)
    }

    /** The selection invariant, which every method preserves. */
    ghost predicate Valid()
      reads this
    {
      M.ValidSelection(State())
    }

    /** `App::new`: running, in Normal mode, the ten default cities, the
        first one selected, no weather, no pending fetch. */
    constructor ()
      ensures State() == M.Initial() && Valid()
    {
      running := true;
      inputMode := M.Normal;
      input := [];
      cities := M.DefaultCities;
      selectedCity := 0;
      currentWeather := M.None;
      fetchRequested := false;
      terminalSize := M.None;
    }

    method EnterEditMode()
      modifies this
      ensures State() == M.EnterEditMode(old(State()))
      ensures old(Valid()) ==> Valid()
    {
      inputMode := M.Editing;
      input := [];
    }

    method ExitEditMode()
      modifies this
      ensures State() == M.ExitEditMode(old(State()))
      ensures old(Valid()) ==> Valid()
    {
      inputMode := M.Normal;
      input := [];
    }

    method AddCity()
      modifies this
      ensures State() == M.AddCity(old(State()))
      ensures old(Valid()) ==> Valid()
    {
      var trimmed := Trim(input);
      if trimmed != [] {
        cities := cities + [trimmed];
        selectedCity := |cities| - 1;
        RequestWeatherFetch();
      }
      inputMode := M.Normal;
      input := [];
    }

    method HandleInput(key: char)
      modifies this
      ensures State() == M.HandleInput(old(State()), key)
      ensures old(Valid()) ==> Valid()
    {
      input := input + [key];
    }

    method DeleteChar()
      modifies this
      ensures State() == M.DeleteChar(old(State()))
      ensures old(Valid()) ==> Valid()
    {
      if input != [] {
        input := input[..|input| - 1];
      }
    }

    method NextCity()
      modifies this
      ensures State() == M.NextCity(old(State()))
      ensures old(Valid()) ==> Valid()
    {
      if cities != [] {
        selectedCity := (selectedCity + 1) % |cities|;
        RequestWeatherFetch();
      }
    }

    method PreviousCity()
      modifies this
      ensures State() == M.PreviousCity(old(State()))
      ensures old(Valid()) ==> Valid()
    {
      if cities != [] {
        selectedCity := if selectedCity > 0 then selectedCity - 1 else |cities| - 1;
        RequestWeatherFetch();
      }
    }

    method HandleResize(width: M.u16, height: M.u16)
      modifies this
      ensures State() == M.HandleResize(old(State()), width, height)
      ensures old(Valid()) ==> Valid()
    {
      terminalSize := M.Some((width, height));
    }

    method Tick()
      modifies this
      ensures State() == M.Tick(old(State()))
    {
    }

    /** `fetch_weather`, with `outcome` standing for what the weather
        service answers; `queried` is the city name it is asked about. */
    method FetchWeather(outcome: FetchResult) returns (result: M.AppResult, queried: M.Option<string>)
      modifies this
      ensures M.Fetch(State(), result, queried) == M.FetchWeather(old(State()), outcome)
      ensures old(Valid()) ==> Valid()
    {
      if selectedCity < |cities| {
        var city := cities[selectedCity];
        queried := M.Some(city);
        match outcome
        case Fetched(weather) =>
          currentWeather := M.Some(weather);
          result := M.Ok;
        case FetchFailed(e) =>
          result := M.Err(e);
      } else {
        result, queried := M.Ok, M.None;
      }
    }

    method RequestWeatherFetch()
      modifies this
      ensures State() == M.RequestWeatherFetch(old(State()))
      ensures old(Valid()) ==> Valid()
    {
      fetchRequested := true;
    }

    method RefreshWeather()
      modifies this
      ensures State() == M.RefreshWeather(old(State()))
      ensures old(Valid()) ==> Valid()
    {
      RequestWeatherFetch();
    }

    method RemoveSelectedCity()
      requires M.SelectionInRange(State())
      modifies this
      ensures State() == M.RemoveSelectedCity(old(State()))
      ensures old(Valid()) ==> Valid()
    {
      if cities != [] {
        cities := M.RemoveAt(cities, selectedCity);
        if selectedCity >= |cities| && cities != [] {
          selectedCity := |cities| - 1;
        }
        if cities != [] {
          RequestWeatherFetch();
        } else {
          currentWeather := M.None;
        }
      }
    }
  }
}
