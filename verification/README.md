# Weather dashboard application state machine

A Dafny model of the deterministic core of a terminal weather dashboard:
the `App` state and its operations (`src/app.rs`), the two-mode key
dispatcher (`src/handler.rs`), and the startup fetch plus one iteration of
the runtime loop (`src/main.rs`), with the terminal, the event channel and
the weather service abstracted away.

Layout:

- `connection.dfy` (`Connection`): the weather record `CityInfo`, reduced to
  three of its text fields (name, country, description), and `FetchResult`, what one call to the weather service
  answers (`Fetched(record)` or `FetchFailed(reason)`).
- `text.dfy` (`Text`): `str::trim` over Unicode White_Space.
- `app_model.dfy` (`AppModel`): the application state as a value
  (`AppState`), each `App` operation as a function of the old state, the
  selection invariant `ValidSelection` (the index names a city, or the list
  is empty and the index is 0), and the lemmas stating what each operation
  promises.
- `app.dfy` (`Application`): the class `App`. Its fields are updated in
  place by its methods, each proved to compute its `AppModel` function and
  to keep the selection invariant.
- `handler.dfy` (`Handler`): `KeyCode`, the dispatch table `HandleKey`, the
  in-place `HandleKeyEvents`, and lemmas per key and mode.
- `runtime.dfy` (`Runtime`): received events, one loop iteration
  (`Iteration`: dispatch, then service the fetch request), the loop `Run`
  driven by `running`, the whole program `Session`, and the imperative
  `RunIteration`, `RunLoop` and `Launch` proved against them.

The loop takes the events it will receive as a finite sequence. With each
event comes the answer the weather service gives if that iteration calls it.
Each run reports the cities the service was asked about, so "at most one
fetch per iteration" is a statement about that list.

Behaviour of the code that the model keeps as written:

- The delete key ('d') removes the selected city inline
  (src/handler.rs:29-36) instead of calling `remove_selected_city`
  (src/app.rs:166-179). It neither raises the fetch request nor clears the
  weather (`Handler.NormalDeleteDiffers`).
- The refresh key ('r') does nothing: the arm under the comment "Refresh
  weather data for current city" (src/handler.rs:39-44) has an empty body,
  with its call to `refresh_weather` commented out.
- The loop awaits each fetch (src/main.rs:66-72) before taking the next
  event, so at most one fetch runs at a time and its result is applied in
  the same iteration that serviced the request.
- The event channel also delivers mouse events, and a receive can fail
  (src/main.rs:40-65). Both leave the state unchanged.

## Model

| member | source | states |
|---|---|---|
| Text.TrimStart | src/app.rs:86 | drops the leading whitespace and never lengthens the string; `TrimStartSpec` states which suffix it leaves |
| Text.TrimEnd | src/app.rs:86 | drops the trailing whitespace and never lengthens the string; `TrimEndSpec` states which prefix it leaves |
| Text.Trim | src/app.rs:86 | `str::trim` as leading-then-trailing removal, never longer than its input; `TrimSpec` and `TrimIdempotent` state what it leaves |
| Text.TrimStartSuffix | src/app.rs:86 | dropping leading whitespace leaves a suffix of the input that is empty or starts with a non-whitespace character |
| Text.TrimStartDropsWhitespace | src/app.rs:86 | every character dropped from the front is whitespace |
| Text.TrimStartSpec | src/app.rs:86 | dropping leading whitespace leaves the suffix of the input after its leading whitespace, which does not start with whitespace |
| Text.TrimEndSpec | src/app.rs:86 | dropping trailing whitespace leaves the prefix of the input before its trailing whitespace, which does not end with whitespace |
| Text.TrimSpec | src/app.rs:86-87 | the trimmed name is the contiguous slice between the leading and the trailing whitespace; its ends are not whitespace; it is empty exactly when the input is all whitespace |
| Text.TrimIdempotent | src/app.rs:86 | trimming a trimmed name changes nothing |
| AppModel.Initial | src/app.rs:40-63 | a new application is running in Normal mode with the ten default cities, "Bucharest" selected, empty input, no weather, no pending fetch, no size, and satisfies the selection invariant |
| AppModel.EnterEditMode | src/app.rs:73-76 | keeps the selection invariant |
| AppModel.ExitEditMode | src/app.rs:79-82 | keeps the selection invariant |
| AppModel.EditModeSwitches | src/app.rs:73-82 | entering and leaving edit mode set the mode to Editing or Normal and empty the input, touching nothing else |
| AppModel.AddCity | src/app.rs:85-95 | keeps the selection invariant |
| AppModel.AddCityBlank | src/app.rs:85-95 | committing all-whitespace input leaves cities and selection alone and only returns to Normal with empty input |
| AppModel.AddCityCommits | src/app.rs:85-95 | committing input with a visible character appends its trimmed form, selects it (index = length - 1), raises the fetch request, returns to Normal with empty input; the stored name has no surrounding whitespace |
| AppModel.HandleInput | src/app.rs:98-100 | keeps the selection invariant |
| AppModel.DeleteChar | src/app.rs:103-105 | keeps the selection invariant |
| AppModel.TypeThenDeleteRestores | src/app.rs:98-105 | typing appends exactly the typed character and changes nothing else; backspace on empty input is a no-op, otherwise it drops exactly the last character and changes nothing else; typing then backspace restores the state |
| AppModel.NextCity | src/app.rs:108-114 | keeps the selection invariant |
| AppModel.NextCityStep | src/app.rs:108-114 | on a non-empty list the index becomes (index + 1) mod length, the list is kept and only the index and the fetch request change |
| AppModel.NextTimesIndex | src/app.rs:108-114 | k forward steps from a valid index land on (index + k) mod length with the list unchanged and the request raised |
| AppModel.NextTimesFrame | src/app.rs:108-114 | any number of forward steps change only the selection and the fetch request |
| AppModel.NextCityCycle | src/app.rs:108-114 | length forward steps return to the original state, with only the fetch request raised |
| AppModel.PreviousCity | src/app.rs:117-127 | keeps the selection invariant |
| AppModel.PreviousCityStep | src/app.rs:117-127 | on a non-empty list the index moves back by one, wrapping from 0 to the last city, and only the index and the fetch request change |
| AppModel.PreviousUndoesNext | src/app.rs:108-127 | from a valid index, previous after next and next after previous give back the state with the request raised |
| AppModel.NavigationOnEmptyIsNoop | src/app.rs:109 | on an empty list next and previous change nothing, not even the fetch request |
| AppModel.HandleResize | src/app.rs:130-132 | keeps the selection invariant |
| AppModel.Tick | src/app.rs:135-138 | keeps the selection invariant |
| AppModel.RequestWeatherFetch | src/app.rs:156-158 | keeps the selection invariant |
| AppModel.RefreshWeather | src/app.rs:161-163 | keeps the selection invariant |
| AppModel.RequestWeatherFetchIdempotent | src/app.rs:156-163 | raising the request twice is raising it once; refreshing is raising the request |
| AppModel.RemoveAt | src/app.rs:168 | removing index i shortens the list by one, keeps the elements before i, shifts those after i down by one, and removes exactly one occurrence of the element at i |
| AppModel.DropSelected | src/app.rs:168-171 | removing the selected city and clamping the index yields a valid selection |
| AppModel.RemoveSelectedCity | src/app.rs:166-179 | keeps the selection invariant |
| AppModel.RemoveSelectedCityEffect | src/app.rs:166-179 | on a non-empty list removes exactly the selected city, keeps the rest in order, clamps the index to the last city, then raises the request or, when the list became empty, forgets the weather, and changes nothing else; on an empty list nothing changes |
| AppModel.RemoveLastCity | src/app.rs:166-179 | deleting the only city leaves an empty list, no weather and a valid selection |
| AppModel.FetchWeather | src/app.rs:141-153 | only the weather may change, and the selection invariant is kept |
| AppModel.FetchWeatherOutcomes | src/app.rs:141-153 | with no city at the index nothing changes, the service is not asked and Ok is returned; otherwise the selected city is asked about, success stores the record and returns Ok, failure keeps the state and returns the error |
| Application.App.constructor | src/app.rs:40-63 | the new object's state is the initial state |
| Application.App.EnterEditMode | src/app.rs:73-76 | updates the object as EnterEditMode says and keeps the invariant |
| Application.App.ExitEditMode | src/app.rs:79-82 | updates the object as ExitEditMode says and keeps the invariant |
| Application.App.AddCity | src/app.rs:85-95 | updates the object as AddCity says and keeps the invariant |
| Application.App.HandleInput | src/app.rs:98-100 | updates the object as HandleInput says and keeps the invariant |
| Application.App.DeleteChar | src/app.rs:103-105 | updates the object as DeleteChar says and keeps the invariant |
| Application.App.NextCity | src/app.rs:108-114 | updates the object as NextCity says and keeps the invariant |
| Application.App.PreviousCity | src/app.rs:117-127 | updates the object as PreviousCity says and keeps the invariant |
| Application.App.HandleResize | src/app.rs:130-132 | updates the object as HandleResize says and keeps the invariant |
| Application.App.Tick | src/app.rs:135-138 | leaves the object as it was |
| Application.App.FetchWeather | src/app.rs:141-153 | updates the object, returns the result and asks about the city as FetchWeather says |
| Application.App.RequestWeatherFetch | src/app.rs:156-158 | raises the fetch request only |
| Application.App.RefreshWeather | src/app.rs:161-163 | raises the fetch request only |
| Application.App.RemoveSelectedCity | src/app.rs:166-179 | updates the object as RemoveSelectedCity says and keeps the invariant |
| Handler.HandleKey | src/handler.rs:5-74 | every key keeps the selection invariant; no key sets running back to true; in Editing mode running never changes |
| Handler.HandleKeyEvents | src/handler.rs:5-74 | updates the application as HandleKey says and always returns Ok |
| Handler.NormalQuit | src/handler.rs:9-14 | in Normal mode 'q' and Esc stop the application and change nothing else |
| Handler.NormalOperations | src/handler.rs:17-27 | in Normal mode Up is previous_city, Down is next_city, 'a' is enter_edit_mode |
| Handler.NormalDelete | src/handler.rs:30-37 | in Normal mode 'd' on a non-empty list removes the selected city and clamps the index exactly as remove_selected_city does, changing nothing else; on an empty list it is a no-op |
| Handler.NormalDeleteDiffers | src/handler.rs:30-37 | unlike remove_selected_city, 'd' raises no fetch request with two or more cities and keeps the weather when the last city goes |
| Handler.NormalUnboundKeys | src/handler.rs:40-46 | in Normal mode 'r' and every unbound key change nothing |
| Handler.EditingKeys | src/handler.rs:49-71 | in Editing mode Esc is exit_edit_mode, Enter is add_city, Backspace is delete_char, every character (also 'q') is handle_input, other keys do nothing, running is unchanged |
| Runtime.Dispatch | src/main.rs:40-65 | dispatching an event keeps the selection invariant and never sets running back to true |
| Runtime.ServiceFetch | src/main.rs:66-72 | afterwards the request is down; the service is asked only if the request was up; only the weather and the request change |
| Runtime.IterationFetchesOnce | src/main.rs:40-72 | an iteration asks the service at most once, exactly when the dispatched event left the request up and a city selected, about that city; the request is down after every iteration |
| Runtime.ResizeOnlyRecordsSize | src/main.rs:52-55 | a resize records the new size and changes nothing else |
| Runtime.QuietEventsChangeNothing | src/main.rs:46-64 | ticks, mouse events and receive errors change nothing |
| Runtime.FetchOutcomeInIteration | src/main.rs:66-72 | a failed fetch keeps the weather and the running flag that the dispatch left; a successful one stores its record |
| Runtime.Iteration | src/main.rs:40-72 | one loop body (dispatch, then service the request) keeps the selection invariant, never sets running back to true, and leaves the request down |
| Runtime.Startup | src/main.rs:28-33 | after the startup fetch the application is running and satisfies the selection invariant |
| Runtime.StartupFetch | src/main.rs:28-33 | the startup fetch asks about "Bucharest"; the request is down whether it succeeded or not; on failure the state is exactly the initial one |
| Runtime.Run | src/main.rs:35-73 | every state the loop reaches satisfies the selection invariant, and it takes no more events than it is given |
| Runtime.RunHalted | src/main.rs:35 | a stopped application takes no more events |
| Runtime.RunStopsOnlyWhenHalted | src/main.rs:35-73 | the loop stops before the events run out only because running became false, and running never becomes true again |
| Runtime.RunClearsRequest | src/main.rs:66-72 | after any iteration the fetch request is down |
| Runtime.RunFetchBound | src/main.rs:66-72 | the service is asked at most once per iteration |
| Runtime.RunAppend | src/main.rs:35-73 | running on two batches of events in turn is running on their concatenation; a run that stopped within the first batch takes nothing from the second |
| Runtime.Session | src/main.rs:12-73 | the whole program (startup fetch, then the loop) ends in a valid selection, takes no more events than it is given, and first asks the service about "Bucharest" |
| Runtime.SessionProperties | src/main.rs:28-73 | at the end of every session the request is down, the first question is the startup one about "Bucharest", and there is at most one question per event besides it |
| Runtime.RunFrom | src/main.rs:35-73 | a running application takes the next event and then runs on the rest |
| Runtime.RunIteration | src/main.rs:40-72 | one iteration on the object computes Iteration |
| Runtime.RunLoop | src/main.rs:35-73 | the while-running loop on the object computes Run |
| Runtime.Launch | src/main.rs:12-73 | the whole program on a fresh object computes Session |

## Left out

- Runtime.RunLoop: the loop stops when the given events are exhausted. The program instead blocks waiting for the next event, so only finite prefixes of a session are modelled.
- Runtime.Launch: ends when the given events run out. Terminal teardown is not modelled.
- Runtime.Session: terminal-setup failure is not modelled, and the same holds for `Runtime.Launch` and `Runtime.SessionProperties`. `Terminal::new(backend)?` at src/main.rs:16 and `tui.init()?` at src/main.rs:25 return from `main` on error, before the startup fetch at src/main.rs:28-33, so the weather service is then never asked about anything. The model assumes terminal setup succeeds, so "the first question is about Bucharest" holds only for runs that reach the startup fetch.
- Runtime.RunStopsOnlyWhenHalted: a drawing failure is not modelled. At src/main.rs:37 `tui.draw(...).expect(...)` panics when drawing fails, which ends the program with `running` still true. The lemma's "the loop stops early only because running became false" holds for the model, which assumes every draw succeeds.
- The out-of-range panic of `Vec::remove` (src/app.rs:168, src/handler.rs:32) is not modelled as behaviour. It becomes a precondition instead: `requires SelectionInRange` on `AppModel.RemoveSelectedCity` and `Application.App.RemoveSelectedCity`, and `KeySafe`/`EventSafe` on the key and event dispatch. `ValidSelection` holds in every state `Run` reaches and implies both preconditions, so within the loop the panic cannot happen.
- Rendering (`tui.draw`, src/ui.rs) and terminal setup and teardown (src/tui.rs) are terminal I/O. They do not change the application state.
- The event publisher (timer task, input producer, channel) is concurrency and I/O. The model takes the received events as input.
- The HTTP request and the JSON field extraction of `get_data` (src/connection.rs) are network I/O and parsing. A fetch is an input value `Fetched(record)` or `FetchFailed(reason)`. The record keeps only the strings `name`, `country` and `description`. Left out of it are the strings `weather_main` and `icon`; the floating-point readings (`temperature`, `feels_like`, `temp_min`, `temp_max`, `wind_speed`); the integers `humidity` (u8), `pressure` (u32), `wind_direction` (u16), `visibility` (u32) and `clouds` (u8); the sunrise, sunset and calculation timestamps; and the hourly series. The model only stores and replaces the record, so none of these fields affects the behaviour it states.
- The diagnostic messages written to standard error on a failed fetch or receive are not modelled.
- `App::list_state` and `api_key`: library-facing state with no behaviour. The key is only passed to the weather service.
- Key modifiers and key event kinds are not modelled: the dispatcher reads only the key code. Codes the dispatcher does not name are `Other`.
- `usize` overflow is not modelled. The index is at most the list length, and `selected_city + 1` cannot overflow for any list that fits in memory.
