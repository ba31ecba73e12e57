/** The application state of the dashboard as a value, and every operation
    of `App` as a function from the old state to the new one. The class
    `Application.App` implements these operations in place and is proved
    against them; the lemmas here state what the operations promise. */
module AppModel {
  import opened Connection
  import opened Text

  newtype u16 = x: int | 0 <= x < 0x1_0000

  datatype Option<T> = None | Some(value: T)

  datatype InputMode = Normal | Editing

  /** `AppResult<()>`: success, or an error carrying its message. */
  datatype AppResult = Ok | Err(reason: string)

  /** The fields of `App` that carry behaviour. */
  datatype AppState = AppState(
    running: bool,
    inputMode: InputMode,
    input: string,
    cities: seq<string>,
    selectedCity: nat,
    currentWeather: Option<CityInfo>,
    fetchRequested: bool,
    terminalSize: Option<(u16, u16)>)

  /** The selection invariant: the index names a city, or the list is empty
      and the index is 0. */
  predicate ValidSelection(s: AppState)
  {
    s.selectedCity < |s.cities| || (s.cities == [] && s.selectedCity == 0)
  }

  /** What `Vec::remove(selected_city)` needs in order not to panic. */
  predicate SelectionInRange(s: AppState)
  {
    s.cities != [] ==> s.selectedCity < |s.cities|
  }

  const DefaultCities: seq<string> := [
    "Bucharest", "London", "New York", "Budapest", "Tokyo",
    "Paris", "Berlin", "Moscow", "Sydney", "Toronto"]

  /** `App::new`. */
  function Initial(): (s: AppState)
    ensures ValidSelection(s) && s.running && s.inputMode == Normal
    ensures s.cities == DefaultCities && s.cities[s.selectedCity] == "Bucharest"
    ensures s.input == [] && !s.fetchRequested
    ensures s.currentWeather == None && s.terminalSize == None
  {
    AppState(true, Normal, [], DefaultCities, 0, None, false, None)
  }

  function EnterEditMode(s: AppState): (r: AppState)
    ensures ValidSelection(s) ==> ValidSelection(r)
  {
    s.(inputMode := Editing, input := [])
  }

  function ExitEditMode(s: AppState): (r: AppState)
    ensures ValidSelection(s) ==> ValidSelection(r)
  {
    s.(inputMode := Normal, input := [])
  }

  function RequestWeatherFetch(s: AppState): (r: AppState)
    ensures ValidSelection(s) ==> ValidSelection(r)
  {
    s.(fetchRequested := true)
  }

  /** `refresh_weather` only raises the fetch request. */
  function RefreshWeather(s: AppState): (r: AppState)
    ensures ValidSelection(s) ==> ValidSelection(r)
  {
    RequestWeatherFetch(s)
  }

  /** Commits the trimmed input as a new city, if it is not blank. */
  function AddCity(s: AppState): (r: AppState)
    ensures ValidSelection(s) ==> ValidSelection(r)
  {
    var trimmed := Trim(s.input);
    var t := if trimmed != [] then
        RequestWeatherFetch(s.(cities := s.cities + [trimmed], selectedCity := |s.cities|))
      else s;
    t.(inputMode := Normal, input := [])
  }

  function HandleInput(s: AppState, c: char): (r: AppState)
    ensures ValidSelection(s) ==> ValidSelection(r)
  {
    s.(input := s.input + [c])
  }

  /** `String::pop`: drops the last character, if there is one. */
  function DeleteChar(s: AppState): (r: AppState)
    ensures ValidSelection(s) ==> ValidSelection(r)
  {
    if s.input == [] then s else s.(input := s.input[..|s.input| - 1])
  }

  function NextCity(s: AppState): (r: AppState)
    ensures ValidSelection(s) ==> ValidSelection(r)
  {
    if s.cities == [] then s
    else RequestWeatherFetch(s.(selectedCity := (s.selectedCity + 1) % |s.cities|))
  }

  function PreviousCity(s: AppState): (r: AppState)
    ensures ValidSelection(s) ==> ValidSelection(r)
  {
    if s.cities == [] then s
    else
      var i := if s.selectedCity > 0 then s.selectedCity - 1 else |s.cities| - 1;
      RequestWeatherFetch(s.(selectedCity := i))
  }

  function HandleResize(s: AppState, width: u16, height: u16): (r: AppState)
    ensures ValidSelection(s) ==> ValidSelection(r)
  {
    s.(terminalSize := Some((width, height)))
  }

  /** The tick hook does nothing yet. */
  function Tick(s: AppState): (r: AppState)
    ensures ValidSelection(s) ==> ValidSelection(r)
  {
    s
  }

  /** `Vec::remove`: the sequence without its element at `i`. */
  function RemoveAt<T>(xs: seq<T>, i: nat): (r: seq<T>)
    requires i < |xs|
    ensures |r| == |xs| - 1
    ensures forall j :: 0 <= j < i ==> r[j] == xs[j]
    ensures forall j :: i <= j < |r| ==> r[j] == xs[j + 1]
    ensures multiset(r) + multiset{xs[i]} == multiset(xs)
  {
    assert xs == xs[..i] + [xs[i]] + xs[i + 1..];
    xs[..i] + xs[i + 1..]
  }

  /** The removal shared by `remove_selected_city` and the delete key:
      drop the selected city and pull the index back onto the last city if
      it fell off the end. */
  function DropSelected(s: AppState): (r: AppState)
    requires s.cities != [] && s.selectedCity < |s.cities|
    ensures ValidSelection(r)
  {
    var cities := RemoveAt(s.cities, s.selectedCity);
    var i := if s.selectedCity >= |cities| && cities != [] then |cities| - 1 else s.selectedCity;
    s.(cities := cities, selectedCity := i)
  }

  function RemoveSelectedCity(s: AppState): (r: AppState)
    requires SelectionInRange(s)
    ensures ValidSelection(s) ==> ValidSelection(r)
  {
    if s.cities == [] then s
    else
      var t := DropSelected(s);
      if t.cities != [] then RequestWeatherFetch(t) else t.(currentWeather := None)
  }

  /** What `fetch_weather` leaves behind: the new state, the value it
      returns, and the city name it asked the weather service about
      (None when no city is selected and the service is not called). */
  datatype Fetch = Fetch(state: AppState, result: AppResult, queried: Option<string>)

  /** `fetch_weather`, given what the weather service answers for the
      selected city. */
  function FetchWeather(s: AppState, outcome: FetchResult): (f: Fetch)
    ensures f.state == s.(currentWeather := f.state.currentWeather)
    ensures ValidSelection(s) ==> ValidSelection(f.state)
  {
    if s.selectedCity < |s.cities| then
      var city := s.cities[s.selectedCity];
      match outcome
      case Fetched(w) => Fetch(s.(currentWeather := Some(w)), Ok, Some(city))
      case FetchFailed(e) => Fetch(s, Err(e), Some(city))
    else
      Fetch(s, Ok, None)
  }

  // ---------------------------------------------------------------------
  // Navigation

  /** `next_city` applied `k` times. */
  function NextTimes(s: AppState, k: nat): (r: AppState)
  {
    if k == 0 then s else NextCity(NextTimes(s, k - 1))
  }

  lemma MulAtLeast(d: int, n: int)
    requires d >= 1 && n > 0
    ensures d * n >= n
  {
  }

  lemma MulSmall(d: int, n: int)
    requires n > 0 && -n < d * n < n
    ensures d == 0
  {
    if d > 0 {
      MulAtLeast(d, n);
    } else if d < 0 {
      MulAtLeast(-d, n);
    }
  }

  /** The remainder is determined by any quotient-remainder split. */
  lemma ModUnique(a: int, n: int, q: int, r: int)
    requires n > 0 && 0 <= r < n && a == q * n + r
    ensures a % n == r
  {
    assert (q - a / n) * n == a % n - r;
    MulSmall(q - a / n, n);
  }

  lemma ModSucc(a: nat, n: nat)
    requires n > 0
    ensures (a % n + 1) % n == (a + 1) % n
  {
    var q, r := a / n, a % n;
    if r + 1 < n {
      ModUnique(a + 1, n, q, r + 1);
      ModUnique(r + 1, n, 0, r + 1);
    } else {
      ModUnique(a + 1, n, q + 1, 0);
      ModUnique(r + 1, n, 1, 0);
    }
  }

  lemma ModAddSelf(i: nat, n: nat)
    requires i < n
    ensures (i + n) % n == i
  {
    ModUnique(i + n, n, 1, i);
  }

  /** On a non-empty list, `next_city` moves the selection forward by one,
      wrapping past the end, keeps the list and raises the fetch request. */
  lemma NextCityStep(s: AppState)
    requires s.cities != []
    ensures NextCity(s).cities == s.cities
    ensures NextCity(s).selectedCity == (s.selectedCity + 1) % |s.cities|
    ensures NextCity(s).fetchRequested
    ensures NextCity(s) == s.(selectedCity := NextCity(s).selectedCity, fetchRequested := true)
  {
  }

  /** `k` steps forward from a valid selection land at index
      `(selected + k) mod len`, with the list unchanged. */
  lemma {:induction false} NextTimesIndex(s: AppState, k: nat)
    requires s.selectedCity < |s.cities|
    ensures NextTimes(s, k).cities == s.cities
    ensures NextTimes(s, k).selectedCity == (s.selectedCity + k) % |s.cities|
    ensures k > 0 ==> NextTimes(s, k).fetchRequested
  {
    if k > 0 {
      var p := NextTimes(s, k - 1);
      NextTimesIndex(s, k - 1);
      NextCityStep(p);
      ModSucc(s.selectedCity + (k - 1), |s.cities|);
    }
  }

  /** Navigation changes only the selection and the fetch request. */
  lemma {:induction false} NextTimesFrame(s: AppState, k: nat)
    ensures NextTimes(s, k) == s.(selectedCity := NextTimes(s, k).selectedCity,
                                  fetchRequested := NextTimes(s, k).fetchRequested)
  {
    if k > 0 {
      NextTimesFrame(s, k - 1);
    }
  }

  /** Navigation is cyclic: `len` steps forward return to the start, with
      only the fetch request raised. */
  lemma {:induction false} NextCityCycle(s: AppState)
    requires s.selectedCity < |s.cities|
    ensures NextTimes(s, |s.cities|) == s.(fetchRequested := true)
  {
    var n := |s.cities|;
    NextTimesIndex(s, n);
    NextTimesFrame(s, n);
    ModAddSelf(s.selectedCity, n);
  }

  /** On a non-empty list, `previous_city` moves back by one, wrapping from
      0 to the last city, keeps the list and raises the fetch request. */
  lemma PreviousCityStep(s: AppState)
    requires s.cities != []
    ensures PreviousCity(s).cities == s.cities
    ensures PreviousCity(s).selectedCity
      == if s.selectedCity == 0 then |s.cities| - 1 else s.selectedCity - 1
    ensures PreviousCity(s).fetchRequested
    ensures PreviousCity(s) == s.(selectedCity := PreviousCity(s).selectedCity, fetchRequested := true)
  {
  }

  /** Stepping back undoes stepping forward, and the other way round. */
  lemma PreviousUndoesNext(s: AppState)
    requires s.selectedCity < |s.cities|
    ensures PreviousCity(NextCity(s)) == s.(fetchRequested := true)
    ensures NextCity(PreviousCity(s)) == s.(fetchRequested := true)
  {
    var n := |s.cities|;
    if s.selectedCity + 1 < n {
      ModUnique(s.selectedCity + 1, n, 0, s.selectedCity + 1);
    } else {
      ModUnique(n, n, 1, 0);
    }
    ModUnique(s.selectedCity, n, 0, s.selectedCity);
    if s.selectedCity == 0 {
      ModUnique(n, n, 1, 0);
    }
  }

  /** On an empty list, navigation changes nothing, not even the request. */
  lemma NavigationOnEmptyIsNoop(s: AppState)
    requires s.cities == []
    ensures NextCity(s) == s && PreviousCity(s) == s
  {
  }

  // ---------------------------------------------------------------------
  // Editing

  /** Entering and leaving edit mode set the mode, empty the buffer and
      touch nothing else. */
  lemma EditModeSwitches(s: AppState)
    ensures EnterEditMode(s) == s.(inputMode := Editing, input := [])
    ensures ExitEditMode(s) == s.(inputMode := Normal, input := [])
  {
  }

  /** Typing appends exactly the typed character and touches nothing else;
      deleting drops exactly the last character, or changes nothing on an
      empty buffer; and typing then deleting restores the state. */
  lemma TypeThenDeleteRestores(s: AppState, c: char)
    ensures var r := HandleInput(s, c);
      && r == s.(input := r.input)
      && |r.input| == |s.input| + 1
      && r.input[..|s.input|] == s.input && r.input[|s.input|] == c
    ensures s.input == [] ==> DeleteChar(s) == s
    ensures s.input != [] ==>
      && DeleteChar(s) == s.(input := DeleteChar(s).input)
      && DeleteChar(s).input + [s.input[|s.input| - 1]] == s.input
    ensures DeleteChar(HandleInput(s, c)) == s
  {
    assert (s.input + [c])[..|s.input|] == s.input;
  }

  /** Committing blank input leaves the list and the selection alone. */
  lemma AddCityBlank(s: AppState)
    requires AllWhitespace(s.input)
    ensures AddCity(s) == s.(inputMode := Normal, input := [])
  {
    TrimSpec(s.input);
  }

  /** Committing input with a visible character appends its trimmed form,
      selects it and raises the fetch request. */
  lemma AddCityCommits(s: AppState)
    requires !AllWhitespace(s.input)
    ensures var r := AddCity(s);
      && r.cities == s.cities + [Trim(s.input)]
      && r.selectedCity == |r.cities| - 1
      && r.fetchRequested
      && r.inputMode == Normal && r.input == []
      && r.running == s.running && r.currentWeather == s.currentWeather
      && r.terminalSize == s.terminalSize
    ensures var name := AddCity(s).cities[|s.cities|];
      name != [] && !IsWhitespace(name[0]) && !IsWhitespace(name[|name| - 1])
  {
    TrimSpec(s.input);
  }

  // ---------------------------------------------------------------------
  // Removal

  /** On a non-empty list, `remove_selected_city` removes exactly the
      selected city, keeps the others in order, clamps the index, and then
      either raises the fetch request or, when the list is now empty,
      forgets the weather. On an empty list it does nothing. */
  lemma RemoveSelectedCityEffect(s: AppState)
    requires SelectionInRange(s)
    ensures s.cities == [] ==> RemoveSelectedCity(s) == s
    ensures s.cities != [] ==>
      var r := RemoveSelectedCity(s);
      && r.cities == s.cities[..s.selectedCity] + s.cities[s.selectedCity + 1..]
      && r.selectedCity == (if s.selectedCity < |r.cities| then s.selectedCity
                            else if r.cities == [] then s.selectedCity else |r.cities| - 1)
      && (r.cities != [] ==> r.fetchRequested && r.currentWeather == s.currentWeather)
      && (r.cities == [] ==> r.currentWeather == None && r.fetchRequested == s.fetchRequested)
      && r.inputMode == s.inputMode && r.input == s.input && r.running == s.running
      && r.terminalSize == s.terminalSize
  {
    if s.cities != [] {
      var t := DropSelected(s);
      assert t == s.(cities := s.cities[..s.selectedCity] + s.cities[s.selectedCity + 1..],
                     selectedCity := t.selectedCity);
    }
  }

  /** Deleting the last remaining city empties the list and forgets the
      weather. */
  lemma RemoveLastCity(s: AppState)
    requires |s.cities| == 1 && s.selectedCity == 0
    ensures RemoveSelectedCity(s).cities == []
    ensures RemoveSelectedCity(s).currentWeather == None
    ensures ValidSelection(RemoveSelectedCity(s))
  {
  }

  // ---------------------------------------------------------------------
  // Fetching

  /** `fetch_weather` with no city at the index does nothing and succeeds;
      on success it stores the record; on failure it keeps the old record
      and returns the error. It asks about the selected city only. */
  lemma FetchWeatherOutcomes(s: AppState, outcome: FetchResult)
    ensures s.selectedCity >= |s.cities| ==> FetchWeather(s, outcome) == Fetch(s, Ok, None)
    ensures s.selectedCity < |s.cities| ==>
      FetchWeather(s, outcome).queried == Some(s.cities[s.selectedCity])
    ensures s.selectedCity < |s.cities| && outcome.Fetched? ==>
      FetchWeather(s, outcome).state == s.(currentWeather := Some(outcome.info))
      && FetchWeather(s, outcome).result == Ok
    ensures outcome.FetchFailed? ==>
      FetchWeather(s, outcome).state == s
      && (s.selectedCity < |s.cities| ==> FetchWeather(s, outcome).result == Err(outcome.reason))
  {
  }

  /** Raising the fetch request is a flag, not a counter. */
  lemma RequestWeatherFetchIdempotent(s: AppState)
    ensures RequestWeatherFetch(RequestWeatherFetch(s)) == RequestWeatherFetch(s)
    ensures RefreshWeather(s) == RequestWeatherFetch(s)
  {
  }
}
