/** The key dispatcher: which `App` operation each key runs, in each input
    mode. */
module Handler {
  import opened AppModel
  import Application

  /** The key codes the dispatcher tells apart; every other code is `Other`. */
  datatype KeyCode = Char(c: char) | Esc | Enter | Backspace | Up | Down | Other

  /** The delete key removes the selected city with `Vec::remove`, which
      needs an index in range when the list is not empty. */
  predicate KeySafe(s: AppState, key: KeyCode)
  {
    s.inputMode == Normal && key == Char('d') ==> SelectionInRange(s)
  }

  /** The new state after one key press. */
  function HandleKey(s: AppState, key: KeyCode): (r: AppState)
    requires KeySafe(s, key)
    ensures ValidSelection(s) ==> ValidSelection(r)
    ensures r.running ==> s.running
    ensures s.inputMode == Editing ==> r.running == s.running
  {
    match s.inputMode
    case Normal =>
      (match key
       case Char('q') => s.(running := false)
       case Esc => s.(running := false)
       case Up => PreviousCity(s)
       case Down => NextCity(s)
       case Char('a') => EnterEditMode(s)
       case Char('d') => if s.cities != [] then DropSelected(s) else s
       case Char('r') => s
       case _ => s)
    case Editing =>
      match key
      case Esc => ExitEditMode(s)
      case Enter => AddCity(s)
      case Backspace => DeleteChar(s)
      case Char(c) => HandleInput(s, c)
      case _ => s
  }

  /** `handle_key_events`: applies the key to the application in place and
      always succeeds. */
  method HandleKeyEvents(key: KeyCode, app: Application.App) returns (r: AppResult)
    requires KeySafe(app.State(), key)
    modifies app
    ensures app.State() == HandleKey(old(app.State()), key)
    ensures r == Ok
  {
    match app.inputMode {
      case Normal =>
        match key {
          case Char('q') =>
            app.running := false;
          case Esc =>
            app.running := false;
          case Up =>
            app.PreviousCity();
          case Down =>
            app.NextCity();
          case Char('a') =>
            app.EnterEditMode();
          case Char('d') =>
            if app.cities != [] {
              app.cities := RemoveAt(app.cities, app.selectedCity);
              if app.selectedCity >= |app.cities| && app.cities != [] {
                app.selectedCity := |app.cities| - 1;
              }
            }
          case Char('r') =>
          case _ =>
        }
      case Editing =>
        match key {
          case Esc =>
            app.ExitEditMode();
          case Enter =>
            app.AddCity();
          case Backspace =>
            app.DeleteChar();
          case Char(c) =>
            app.HandleInput(c);
          case _ =>
        }
    }
    r := Ok;
  }

  /** In Normal mode, 'q' and Esc stop the application and change nothing
      else. */
  lemma NormalQuit(s: AppState, key: KeyCode)
    requires s.inputMode == Normal && (key == Char('q') || key == Esc)
    ensures HandleKey(s, key) == s.(running := false)
  {
  }

  /** In Normal mode, Up is `previous_city`, Down is `next_city` and 'a' is
      `enter_edit_mode`. */
  lemma NormalOperations(s: AppState)
    requires s.inputMode == Normal
    ensures HandleKey(s, Up) == PreviousCity(s)
    ensures HandleKey(s, Down) == NextCity(s)
    ensures HandleKey(s, Char('a')) == EnterEditMode(s)
  {
  }

  /** In Normal mode, 'd' removes the selected city and clamps the index,
      but neither raises the fetch request nor touches the weather, unlike
      `remove_selected_city`. On an empty list it does nothing. */
  lemma NormalDelete(s: AppState)
    requires s.inputMode == Normal && SelectionInRange(s)
    ensures s.cities == [] ==> HandleKey(s, Char('d')) == s
    ensures s.cities != [] ==>
      var r := HandleKey(s, Char('d'));
      && r.cities == RemoveSelectedCity(s).cities
      && r.selectedCity == RemoveSelectedCity(s).selectedCity
      && r == s.(cities := r.cities, selectedCity := r.selectedCity)
  {
  }

  /** The difference from `remove_selected_city`: with two or more cities
      and no pending request, 'd' leaves the request down where
      `remove_selected_city` raises it; with one city, 'd' keeps the weather
      that `remove_selected_city` forgets. */
  lemma {:induction false} NormalDeleteDiffers(s: AppState)
    requires s.inputMode == Normal && s.selectedCity < |s.cities| && !s.fetchRequested
    ensures |s.cities| >= 2 ==>
      !HandleKey(s, Char('d')).fetchRequested && RemoveSelectedCity(s).fetchRequested
    ensures |s.cities| == 1 ==>
      HandleKey(s, Char('d')).currentWeather == s.currentWeather
      && RemoveSelectedCity(s).currentWeather == None
  {
  }

  /** In Normal mode, 'r' and every key without a binding change nothing. */
  lemma NormalUnboundKeys(s: AppState, key: KeyCode)
    requires s.inputMode == Normal
    requires key !in {Char('q'), Esc, Up, Down, Char('a'), Char('d')}
    ensures HandleKey(s, key) == s
  {
  }

  /** In Editing mode, Esc cancels, Enter commits, Backspace deletes, every
      character (including 'q') is typed, other keys do nothing, and the
      application keeps running. */
  lemma EditingKeys(s: AppState, key: KeyCode)
    requires s.inputMode == Editing
    ensures key == Esc ==> HandleKey(s, key) == ExitEditMode(s)
    ensures key == Enter ==> HandleKey(s, key) == AddCity(s)
    ensures key == Backspace ==> HandleKey(s, key) == DeleteChar(s)
    ensures key.Char? ==> HandleKey(s, key) == HandleInput(s, key.c)
    ensures key in {Up, Down, Other} ==> HandleKey(s, key) == s
    ensures HandleKey(s, key).running == s.running
  {
  }
}
