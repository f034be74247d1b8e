/**
 The form as a reducer: every UI event and every fetch callback is an `Event`,
 and a run of the form is the left fold of `Step` over the events in the order
 they are delivered.
 */
module Events {
  import Selection
  import Geo
  import opened CreatePoint

  datatype Event =
    | InputChanged(field: Field, value: string)
    | StateSelected(uf: string)
    | CitySelected(city: string)
    | MapClicked(lat: real, lng: real)
    | ItemClicked(id: int)
    | GeolocationResolved(lat: real, lng: real)
    | ItemsFetched(items: seq<CollectItem>)
    | StatesFetched(states: seq<Geo.IbgeState>)
    | CitiesFetched(cities: seq<Geo.IbgeCity>)

  /** The transition of one event: the handler or callback it reaches, which
      touches only its own slot of the state. */
  function Step(st: FormState, e: Event): (r: FormState)
    ensures e.ItemClicked? ==> r.selectedItems == Selection.Toggle(st.selectedItems, e.id)
    ensures !e.ItemClicked? ==> r.selectedItems == st.selectedItems
    ensures Selection.NoDup(st.selectedItems) ==> Selection.NoDup(r.selectedItems)
    ensures e.MapClicked? ==> r.selectedPosition == LatLng(e.lat, e.lng)
    ensures !e.MapClicked? ==> r.selectedPosition == st.selectedPosition
    ensures e.InputChanged? ==> Get(r.formData, e.field) == e.value
    ensures e.InputChanged? ==> forall g :: g != e.field ==> Get(r.formData, g) == Get(st.formData, g)
    ensures !e.InputChanged? ==> r.formData == st.formData
    ensures e.StateSelected? ==> r.selectedState == e.uf
    ensures !e.StateSelected? ==> r.selectedState == st.selectedState
    ensures e.CitySelected? ==> r.selectedCity == e.city
    ensures !e.CitySelected? ==> r.selectedCity == st.selectedCity
    ensures e.GeolocationResolved? ==> r.initialPosition == LatLng(e.lat, e.lng)
    ensures !e.GeolocationResolved? ==> r.initialPosition == st.initialPosition
    ensures e.ItemsFetched? ==> r.collectItems == e.items
    ensures e.StatesFetched? ==> r.states == Geo.ToStates(e.states)
    ensures e.CitiesFetched? ==> r.cities == Geo.CityNames(e.cities)
    ensures !e.ItemsFetched? ==> r.collectItems == st.collectItems
    ensures !e.StatesFetched? ==> r.states == st.states
    ensures !e.CitiesFetched? ==> r.cities == st.cities
  {
    match e
    case InputChanged(f, v) => SetField(st, f, v)
    case StateSelected(uf) => SelectState(st, uf)
    case CitySelected(c) => SelectCity(st, c)
    case MapClicked(lat, lng) => MapClick(st, lat, lng)
    case ItemClicked(id) => SelectItem(st, id)
    case GeolocationResolved(lat, lng) => PositionFound(st, lat, lng)
    case ItemsFetched(items) => ItemsLoaded(st, items)
    case StatesFetched(resp) => StatesLoaded(st, resp)
    case CitiesFetched(resp) => CitiesLoaded(st, resp)
  }

  /** The state after delivering `evs`, first to last. */
  function Run(st: FormState, evs: seq<Event>): FormState
    decreases |evs|
  {
    if evs == [] then st else Run(Step(st, evs[0]), evs[1..])
  }

  /** The ids of the item clicks among `evs`, in order. */
  function ClickedIds(evs: seq<Event>): seq<int> {
    if evs == [] then []
    else if evs[0].ItemClicked? then [evs[0].id] + ClickedIds(evs[1..])
    else ClickedIds(evs[1..])
  }

  /** The selection after toggling each of `ids`, first to last. */
  function ToggleAll(s: seq<int>, ids: seq<int>): seq<int>
    decreases |ids|
  {
    if ids == [] then s else ToggleAll(Selection.Toggle(s, ids[0]), ids[1..])
  }

  /** No run of the form ever puts an id twice into a selection that had no duplicates. */
  lemma {:induction false} RunKeepsNoDup(st: FormState, evs: seq<Event>)
    requires Selection.NoDup(st.selectedItems)
    ensures Selection.NoDup(Run(st, evs).selectedItems)
    decreases |evs|
  {
    if evs != [] {
      RunKeepsNoDup(Step(st, evs[0]), evs[1..]);
    }
  }

  /** Hence the submitted item list never repeats an id. */
  lemma SubmittedItemsDistinct(evs: seq<Event>)
    ensures Selection.NoDup(Submit(Run(Initial(), evs)).collectItems)
  {
    RunKeepsNoDup(Initial(), evs);
  }

  /** Only item clicks touch the selection, and they act on it one toggle at a time. */
  lemma {:induction false} RunSelection(st: FormState, evs: seq<Event>)
    ensures Run(st, evs).selectedItems == ToggleAll(st.selectedItems, ClickedIds(evs))
    decreases |evs|
  {
    if evs != [] {
      RunSelection(Step(st, evs[0]), evs[1..]);
    }
  }

  /** After a sequence of clicks an id is selected exactly when it was selected
      before and was clicked an even number of times, or was not selected and
      was clicked an odd number of times. */
  lemma {:induction false} ToggleAllParity(s: seq<int>, ids: seq<int>, x: int)
    ensures x in ToggleAll(s, ids) <==> (x in s) != (multiset(ids)[x] % 2 == 1)
    decreases |ids|
  {
    if ids != [] {
      var t := Selection.Toggle(s, ids[0]);
      ToggleAllParity(t, ids[1..], x);
      HeadCount(ids, x);
      if ids[0] == x {
        OddStep(multiset(ids[1..])[x]);
      }
    }
  }

  /** The count of `x` in `ids`, split into its head and its tail. */
  lemma HeadCount(ids: seq<int>, x: int)
    requires ids != []
    ensures multiset(ids)[x] == multiset(ids[1..])[x] + (if ids[0] == x then 1 else 0)
  {
    assert ids == [ids[0]] + ids[1..];
  }

  /** One more click flips the parity. */
  lemma OddStep(n: nat)
    ensures ((n + 1) % 2 == 1) == (n % 2 != 1)
  {
  }

  /** Over a whole run, an id is selected exactly when its initial membership
      differs from "clicked an odd number of times". */
  lemma RunParity(st: FormState, evs: seq<Event>, x: int)
    ensures x in Run(st, evs).selectedItems <==>
            (x in st.selectedItems) != (multiset(ClickedIds(evs))[x] % 2 == 1)
  {
    RunSelection(st, evs);
    ToggleAllParity(st.selectedItems, ClickedIds(evs), x);
  }

  /** Delivering `a` and then `b` is the same as delivering `a + b`. */
  lemma {:induction false} RunConcat(st: FormState, a: seq<Event>, b: seq<Event>)
    ensures Run(st, a + b) == Run(Run(st, a), b)
    decreases |a|
  {
    if a != [] {
      assert (a + b)[0] == a[0];
      assert (a + b)[1..] == a[1..] + b;
      RunConcat(Step(st, a[0]), a[1..], b);
    } else {
      assert a + b == b;
    }
  }

  /** Anywhere in a run, a map click not followed by another one decides the
      submitted position. */
  lemma LastClickInRunWins(st: FormState, pre: seq<Event>, post: seq<Event>, lat: real, lng: real)
    requires forall i :: 0 <= i < |post| ==> !post[i].MapClicked?
    ensures Submit(Run(st, pre + [MapClicked(lat, lng)] + post)).latitude == lat
    ensures Submit(Run(st, pre + [MapClicked(lat, lng)] + post)).longitude == lng
  {
    assert pre + [MapClicked(lat, lng)] + post == pre + ([MapClicked(lat, lng)] + post);
    RunConcat(st, pre, [MapClicked(lat, lng)] + post);
    LastClickWins(Run(st, pre), post, lat, lng);
  }

  /** The submitted position is the last map click, if there was one. */
  lemma {:induction false} LastClickWins(st: FormState, evs: seq<Event>, lat: real, lng: real)
    requires forall i :: 0 <= i < |evs| ==> !evs[i].MapClicked?
    ensures Submit(Run(st, [MapClicked(lat, lng)] + evs)).latitude == lat
    ensures Submit(Run(st, [MapClicked(lat, lng)] + evs)).longitude == lng
  {
    var st' := MapClick(st, lat, lng);
    assert ([MapClicked(lat, lng)] + evs)[1..] == evs;
    RunKeepsPosition(st', evs);
  }

  /** Events other than map clicks leave the selected position alone. */
  lemma {:induction false} RunKeepsPosition(st: FormState, evs: seq<Event>)
    requires forall i :: 0 <= i < |evs| ==> !evs[i].MapClicked?
    ensures Run(st, evs).selectedPosition == st.selectedPosition
    decreases |evs|
  {
    if evs != [] {
      assert !evs[0].MapClicked?;
      RunKeepsPosition(Step(st, evs[0]), evs[1..]);
    }
  }
}
