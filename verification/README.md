# CreatePoint form state, modelled in Dafny

The `CreatePoint` page of the Ecoleta front end registers a collect point. The user gives a
name, an email and a WhatsApp number. They pick a state and a city from lists served by the
IBGE geo-division service, click the point's position on a map and choose the recyclable item
categories collected there. Then they submit the form as a POST to `points`.

This project models the component's local state and its handlers as a reducer:

- `Selection` holds the item selection as a sequence of ids. The click handler toggles an id:
  `findIndex` looks it up, `filter` removes every occurrence of a selected id, and an
  unselected id is appended at the end.
- `Geo` holds the IBGE response records and the two renaming maps the page applies to them.
- `CreatePoint` holds the `FormState` record (one field per `useState` slot) and one pure
  transition per handler and fetch callback. It also holds the submit payload.
- `Events` folds the transitions over a sequence of events. It proves properties of whole
  runs: the selection never repeats an id, only item clicks change it, an id's
  membership follows the parity of its clicks, and the last map click decides the position.

Two behaviours of the code are easy to expect otherwise, and the model keeps both as written:

- Choosing a new state does not clear or revalidate the chosen city. `SelectState` and
  `CitiesLoaded` keep `selectedCity`, and `StaleCityKept` states this.
- The selection plays the role of a set, but the code keeps it as an array in click order, and the payload sends that array as is. The model keeps the order, and
  `TogglePresentTwice` shows that re-selecting an id moves it to the end.

Item ids are `int`, since the core compares them only with `===` and `!==`. Coordinates are `real`
and are only ever copied.

## Model

| member | source | states |
|---|---|---|
| Selection.FindIndex | src/pages/CreatePoint/index.tsx:106 | the result is -1 exactly when the id is absent; otherwise it is the first position holding the id |
| Selection.Remove | src/pages/CreatePoint/index.tsx:109 | the id is gone, every other id keeps its membership and its number of occurrences, and the result is a subsequence of the input (relative order kept) |
| Selection.RemoveUnique | src/pages/CreatePoint/index.tsx:109 | the filter is fully described by its contract: any order-preserving selection from the input that drops exactly the occurrences of the id equals the filter's result |
| Selection.Toggle | src/pages/CreatePoint/index.tsx:105-115 | the toggled id's membership flips, every other id's membership is unchanged, and the set of ids is the symmetric difference with that id |
| Selection.ToggleAbsentAppends | src/pages/CreatePoint/index.tsx:112-113 | toggling an absent id appends it as the last element and leaves the earlier elements in place |
| Selection.TogglePresentRemoves | src/pages/CreatePoint/index.tsx:106-111 | toggling a present id removes all of its occurrences and nothing else, keeping the remaining ids in their original relative order |
| Selection.ToggleKeepsNoDup | src/pages/CreatePoint/index.tsx:105-115 | a selection without duplicates still has none after a toggle |
| Selection.ToggleAbsentTwice | src/pages/CreatePoint/index.tsx:105-115 | toggling an absent id twice restores exactly the original sequence |
| Selection.TogglePresentTwice | src/pages/CreatePoint/index.tsx:105-115 | toggling a present id twice gives the filtered sequence with the id appended at the end, so the same set of ids |
| Selection.TogglePresentTwiceMultiset | src/pages/CreatePoint/index.tsx:105-115 | when the selection has no duplicates, toggling a present id twice keeps the multiset of ids: the id is only moved to the end |
| Selection.ToggleCommutesAsSets | src/pages/CreatePoint/index.tsx:105-115 | two clicks in either order select the same set of ids |
| Geo.ToStates | src/pages/CreatePoint/index.tsx:71 | the state map keeps length and order, copies the id and renames `sigla` to `initials` and `nome` to `name` |
| Geo.CityNames | src/pages/CreatePoint/index.tsx:78 | the city map keeps length and order and yields each city's `nome` |
| Geo.StatesRoundTrip | src/pages/CreatePoint/index.tsx:71 | the state renaming is a bijection: the inverse renaming undoes it in both directions |
| Geo.CitiesRoundTrip | src/pages/CreatePoint/index.tsx:78 | the city map is a bijection between city records and names |
| CreatePoint.Initial | src/pages/CreatePoint/index.tsx:37-52 | on mount all three text fields are empty, the lists are empty, state and city are "0", the selection is empty (so free of duplicates) and both positions are (0, 0) |
| CreatePoint.SetField | src/pages/CreatePoint/index.tsx:100-103 | the named field takes the value, the other two fields keep theirs, and the rest of the state is unchanged |
| CreatePoint.SetFieldLastWins | src/pages/CreatePoint/index.tsx:100-103 | two writes to one field leave the second value |
| CreatePoint.SetFieldCommutes | src/pages/CreatePoint/index.tsx:100-103 | writes to different fields can be applied in either order |
| CreatePoint.SelectState | src/pages/CreatePoint/index.tsx:83-86 | only the selected state changes; in particular the selected city and the city list are untouched |
| CreatePoint.SelectCity | src/pages/CreatePoint/index.tsx:88-91 | only the selected city changes |
| CreatePoint.MapClick | src/pages/CreatePoint/index.tsx:93-98 | the selected position becomes exactly (lat, lng) and nothing else changes |
| CreatePoint.SelectItem | src/pages/CreatePoint/index.tsx:105-115 | the clicked id's membership flips, other ids keep theirs, no duplicates appear, and nothing outside the selection changes |
| CreatePoint.PositionFound | src/pages/CreatePoint/index.tsx:57-60 | the geolocation callback sets the initial position and nothing else |
| CreatePoint.ItemsLoaded | src/pages/CreatePoint/index.tsx:64-66 | the catalog is stored as received and nothing else changes (the selection in particular) |
| CreatePoint.StatesLoaded | src/pages/CreatePoint/index.tsx:70-72 | the state list is replaced by the renamed response, element by element, and nothing else changes |
| CreatePoint.CitiesLoaded | src/pages/CreatePoint/index.tsx:77-79 | the city list is replaced by the response's names, element by element; the selected city is not revalidated and nothing else changes |
| CreatePoint.Submit | src/pages/CreatePoint/index.tsx:120-135 | the payload's name, email, whatsapp, state, city, latitude, longitude and collectItems come from the matching state slots, and the items keep the selection order |
| CreatePoint.SubmitExact | src/pages/CreatePoint/index.tsx:120-135 | two states give the same payload if and only if they agree on form data, state, city, selected position and selection: the payload drops nothing and adds nothing |
| CreatePoint.StaleCityKept | src/pages/CreatePoint/index.tsx:76-91 | after a state change and the new city list, the previous city is still selected and is what gets submitted |
| CreatePoint.SubmitExample | src/pages/CreatePoint/index.tsx:117-135 | on a fresh form, clicking items 2 then 5 and choosing "SP" / "São Paulo" submits `collectItems` [2, 5], state "SP" and city "São Paulo" |
| Events.Step | src/pages/CreatePoint/index.tsx:57-244 | each event reaches the handler it is bound to (inputs :170, :180, :188 to `handleInputChange`; map :201 to `handleMapClick`; selects :213, :222 to the state and city handlers; items :244 to `handleSelectedItem`; the callbacks at :57-60, :64-66, :70-72, :77-79) and makes that handler's write: the toggle, the clicked position, the typed field with the other two text fields kept, the chosen state or city, the device position, the catalog as received, the renamed states, the city names. Every other slot, the selection and the selected position included, is unchanged, and the selection stays free of duplicates |
| Events.RunKeepsNoDup | src/pages/CreatePoint/index.tsx:105-115 | no sequence of events puts an id twice into a selection that had no duplicates |
| Events.SubmittedItemsDistinct | src/pages/CreatePoint/index.tsx:124-134 | from the initial state, the submitted `collectItems` never repeat an id, whatever the events |
| Events.RunSelection | src/pages/CreatePoint/index.tsx:105-115 | after any run, the selection is the initial one toggled by the item clicks in order; no other event touches it |
| Events.ToggleAllParity | src/pages/CreatePoint/index.tsx:105-115 | after a series of clicks an id is selected if and only if its initial membership differs from "clicked an odd number of times" |
| Events.RunParity | src/pages/CreatePoint/index.tsx:105-115 | after any run of events, an id is selected if and only if its initial membership differs from "clicked an odd number of times in the run" |
| Events.RunConcat | src/pages/CreatePoint/index.tsx:36-142 | delivering two batches of events one after the other is the same as delivering them as one run: the reducer is a fold |
| Events.LastClickInRunWins | src/pages/CreatePoint/index.tsx:93-98 | anywhere in a run, a map click followed by no other map click gives the payload's latitude and longitude |
| Events.LastClickWins | src/pages/CreatePoint/index.tsx:93-98 | when no other map click follows a click, the payload's latitude and longitude are that click's |
| Events.RunKeepsPosition | src/pages/CreatePoint/index.tsx:93-98 | events other than map clicks never change the selected position |

## Left out

- The HTTP requests themselves are not modelled: the `items` GET, the two IBGE GETs and the `points` POST (lines 64, 70, 77, 137). They are network I/O. Only the callbacks that store their results are modelled, and they take the response data as a parameter.
- The device-position read (lines 57-58) is not modelled, because it is a browser API. The callback that stores its result is `PositionFound`.
- The `alert` and the navigation to `/` after a submit (lines 139-141) are user-interface side effects. `preventDefault` (line 118) is left out for the same reason.
- Unhandled promise rejections are left out. No handler in the source reacts to a failed fetch or a failed POST, so a failure leaves the state as it was, which is the same as not delivering the event.
- Overlapping city fetches are not modelled as a race. A fetch can resolve after a later state change. `Events` delivers callbacks in any order the caller lists, so a stale list is just a `CitiesFetched` event that comes late. The source keeps no request generation to model.
- The rendering in lines 144-262 is presentation only and is left out: the markup, the Leaflet map and tile layer, the styles, the option lists, and the `includes` test that highlights a selected item. The event bindings in that JSX are modelled, by `Events.Step`.
- Floating-point coordinates are modelled as `real`, because the code only copies them.
- CreatePoint.SetField: the `[name]: value` merge accepts any key, but the model takes only the three names the inputs use (lines 166-188). An unknown key would add a new property to the form data.
- Selection.FindIndex: JavaScript number equality (NaN, -0) is not modelled. Ids are integers compared by value.
