/**
 The state of the CreatePoint form and the handlers that change it, each
 handler a pure function from the state before the event to the state after.
 The `.then` callbacks of the data fetches are transitions that take the
 response data as a parameter.
 */
module CreatePoint {
  import Selection
  import Geo

  /** The three text inputs of the form. */
  datatype FormData = FormData(name: string, email: string, whatsapp: string)

  /** The `name` attribute of the input that fired a change event. */
  datatype Field = Name | Email | Whatsapp

  /** An element of the item catalog. */
  datatype CollectItem = CollectItem(id: int, title: string, imageUrl: string)

  /** A `[latitude, longitude]` pair; coordinates are only copied, never computed with. */
  datatype LatLng = LatLng(lat: real, lng: real)

  datatype FormState = FormState(
    formData: FormData,
    collectItems: seq<CollectItem>,
    states: seq<Geo.GeoState>,
    cities: seq<string>,
    selectedState: string,
    selectedCity: string,
    selectedItems: seq<int>,
    initialPosition: LatLng,
    selectedPosition: LatLng)

  /** The body of the POST to `points`. */
  datatype PointPayload = PointPayload(
    name: string,
    email: string,
    whatsapp: string,
    state: string,
    city: string,
    latitude: real,
    longitude: real,
    collectItems: seq<int>)

  /** The value the select elements show before anything is chosen. */
  const Unselected: string := "0"

  /** Reads one text field. */
  function Get(d: FormData, f: Field): string {
    match f
    case Name => d.name
    case Email => d.email
    case Whatsapp => d.whatsapp
  }

  /** The state when the form is mounted. */
  function Initial(): (st: FormState)
    ensures forall f :: Get(st.formData, f) == ""
    ensures st.collectItems == [] && st.states == [] && st.cities == []
    ensures st.selectedState == Unselected && st.selectedCity == Unselected
    ensures st.selectedItems == [] && Selection.NoDup(st.selectedItems)
    ensures st.initialPosition == LatLng(0.0, 0.0) && st.selectedPosition == LatLng(0.0, 0.0)
  {
    FormState(FormData("", "", ""), [], [], [], Unselected, Unselected, [],
              LatLng(0.0, 0.0), LatLng(0.0, 0.0))
  }

  /** handleInputChange: `{...formData, [name]: value}` for one of the three inputs. */
  function SetField(st: FormState, f: Field, value: string): (r: FormState)
    ensures Get(r.formData, f) == value
    ensures forall g :: g != f ==> Get(r.formData, g) == Get(st.formData, g)
    ensures r.(formData := st.formData) == st
  {
    var d := st.formData;
    var d' := match f
      case Name => d.(name := value)
      case Email => d.(email := value)
      case Whatsapp => d.(whatsapp := value);
    st.(formData := d')
  }

  /** handleSelectedState: only the selected state changes; the selected city is kept. */
  function SelectState(st: FormState, value: string): (r: FormState)
    ensures r.selectedState == value
    ensures r.selectedCity == st.selectedCity && r.cities == st.cities
    ensures r.(selectedState := st.selectedState) == st
  {
    st.(selectedState := value)
  }

  /** handleSelectedCity: only the selected city changes. */
  function SelectCity(st: FormState, value: string): (r: FormState)
    ensures r.selectedCity == value
    ensures r.(selectedCity := st.selectedCity) == st
  {
    st.(selectedCity := value)
  }

  /** handleMapClick: the clicked point becomes the selected position. */
  function MapClick(st: FormState, lat: real, lng: real): (r: FormState)
    ensures r.selectedPosition.lat == lat && r.selectedPosition.lng == lng
    ensures r.(selectedPosition := st.selectedPosition) == st
  {
    st.(selectedPosition := LatLng(lat, lng))
  }

  /** handleSelectedItem: toggles `id` in the selection and touches nothing else. */
  function SelectItem(st: FormState, id: int): (r: FormState)
    ensures id in r.selectedItems <==> id !in st.selectedItems
    ensures forall y :: y != id ==> (y in r.selectedItems <==> y in st.selectedItems)
    ensures Selection.NoDup(st.selectedItems) ==> Selection.NoDup(r.selectedItems)
    ensures r.(selectedItems := st.selectedItems) == st
  {
    Selection.ToggleKeepsNoDup(st.selectedItems, id);
    st.(selectedItems := Selection.Toggle(st.selectedItems, id))
  }

  /** The geolocation callback: stores the device position as the map centre. */
  function PositionFound(st: FormState, lat: real, lng: real): (r: FormState)
    ensures r.initialPosition == LatLng(lat, lng)
    ensures r.(initialPosition := st.initialPosition) == st
  {
    st.(initialPosition := LatLng(lat, lng))
  }

  /** The callback of the `items` fetch: the catalog is stored as received. */
  function ItemsLoaded(st: FormState, items: seq<CollectItem>): (r: FormState)
    ensures r.collectItems == items
    ensures r.(collectItems := st.collectItems) == st
  {
    st.(collectItems := items)
  }

  /** The callback of the `estados` fetch: the renamed states replace the list. */
  function StatesLoaded(st: FormState, resp: seq<Geo.IbgeState>): (r: FormState)
    ensures |r.states| == |resp|
    ensures forall i :: 0 <= i < |resp| ==>
      r.states[i] == Geo.GeoState(resp[i].id, resp[i].sigla, resp[i].nome)
    ensures r.(states := st.states) == st
  {
    st.(states := Geo.ToStates(resp))
  }

  /** The callback of the `municipios` fetch: the city names replace the list;
      the selected city is not revalidated against it. */
  function CitiesLoaded(st: FormState, resp: seq<Geo.IbgeCity>): (r: FormState)
    ensures |r.cities| == |resp|
    ensures forall i :: 0 <= i < |resp| ==> r.cities[i] == resp[i].nome
    ensures r.selectedCity == st.selectedCity
    ensures r.(cities := st.cities) == st
  {
    st.(cities := Geo.CityNames(resp))
  }

  /** handleSubmit: the payload assembled from the current state. */
  function Submit(st: FormState): (p: PointPayload)
    ensures p.name == st.formData.name && p.email == st.formData.email
    ensures p.whatsapp == st.formData.whatsapp
    ensures p.state == st.selectedState && p.city == st.selectedCity
    ensures p.latitude == st.selectedPosition.lat && p.longitude == st.selectedPosition.lng
    ensures p.collectItems == st.selectedItems
  {
    PointPayload(st.formData.name, st.formData.email, st.formData.whatsapp,
                 st.selectedState, st.selectedCity,
                 st.selectedPosition.lat, st.selectedPosition.lng,
                 st.selectedItems)
  }

  /** The slice of the state that the payload is an exact copy of. */
  ghost predicate SameSubmittedSlice(a: FormState, b: FormState) {
    a.formData == b.formData && a.selectedState == b.selectedState &&
    a.selectedCity == b.selectedCity && a.selectedPosition == b.selectedPosition &&
    a.selectedItems == b.selectedItems
  }

  /** Two states produce the same payload exactly when they agree on the
      submitted slice: the payload drops nothing of it and adds nothing. */
  lemma SubmitExact(a: FormState, b: FormState)
    ensures Submit(a) == Submit(b) <==> SameSubmittedSlice(a, b)
  {
  }

  /** Writing a field twice: the last write wins. */
  lemma SetFieldLastWins(st: FormState, f: Field, v: string, w: string)
    ensures SetField(SetField(st, f, v), f, w) == SetField(st, f, w)
  {
  }

  /** Writes to different fields do not interfere: their order does not matter. */
  lemma SetFieldCommutes(st: FormState, f: Field, g: Field, v: string, w: string)
    requires f != g
    ensures SetField(SetField(st, f, v), g, w) == SetField(SetField(st, g, w), f, v)
  {
  }

  /** Changing the state keeps a previously chosen city even when the new
      city list does not contain it. */
  lemma StaleCityKept(st: FormState, uf: string, resp: seq<Geo.IbgeCity>)
    ensures CitiesLoaded(SelectState(st, uf), resp).selectedCity == st.selectedCity
    ensures Submit(CitiesLoaded(SelectState(st, uf), resp)).city == st.selectedCity
  {
  }

  /** The example of an SP point with items 2 and 5 chosen on a fresh form. */
  lemma SubmitExample(name: string, lat: real, lng: real)
    ensures var st := SelectCity(SelectState(SelectItem(SelectItem(
                        SetField(MapClick(Initial(), lat, lng), Name, name), 2), 5), "SP"), "São Paulo");
            Submit(st) == PointPayload(name, "", "", "SP", "São Paulo", lat, lng, [2, 5])
  {
  }
}
