/**
 The two responses of the IBGE geo-division service and the renaming maps the
 form applies to them before storing them: states keep their id and have
 `sigla`/`nome` renamed to `initials`/`name`; cities are reduced to their name.
 */
module Geo {

  /** One element of the `estados` response. */
  datatype IbgeState = IbgeState(id: int, sigla: string, nome: string)

  /** One element of the `municipios` response. */
  datatype IbgeCity = IbgeCity(nome: string)

  /** A state as the form stores it. */
  datatype GeoState = GeoState(id: int, initials: string, name: string)

  /** The map applied to the `estados` response. */
  function ToStates(resp: seq<IbgeState>): (r: seq<GeoState>)
    ensures |r| == |resp|
    ensures forall i :: 0 <= i < |resp| ==>
      r[i].id == resp[i].id && r[i].initials == resp[i].sigla && r[i].name == resp[i].nome
  {
    if resp == [] then []
    else [GeoState(resp[0].id, resp[0].sigla, resp[0].nome)] + ToStates(resp[1..])
  }

  /** The map applied to the `municipios` response. */
  function CityNames(resp: seq<IbgeCity>): (r: seq<string>)
    ensures |r| == |resp|
    ensures forall i :: 0 <= i < |resp| ==> r[i] == resp[i].nome
  {
    if resp == [] then [] else [resp[0].nome] + CityNames(resp[1..])
  }

  /** The renaming read backwards: recovers the service's state records. */
  function FromStates(states: seq<GeoState>): (r: seq<IbgeState>)
    ensures |r| == |states|
    ensures forall i :: 0 <= i < |states| ==>
      r[i].id == states[i].id && r[i].sigla == states[i].initials && r[i].nome == states[i].name
  {
    if states == [] then []
    else [IbgeState(states[0].id, states[0].initials, states[0].name)] + FromStates(states[1..])
  }

  /** Wraps city names back into the service's city records. */
  function FromCityNames(names: seq<string>): (r: seq<IbgeCity>)
    ensures |r| == |names|
    ensures forall i :: 0 <= i < |names| ==> r[i].nome == names[i]
  {
    if names == [] then [] else [IbgeCity(names[0])] + FromCityNames(names[1..])
  }

  /** The state renaming loses nothing: it is undone by `FromStates`, both ways. */
  lemma StatesRoundTrip(resp: seq<IbgeState>, states: seq<GeoState>)
    ensures FromStates(ToStates(resp)) == resp
    ensures ToStates(FromStates(states)) == states
  {
  }

  /** The city map keeps every name, in order: it is undone by `FromCityNames`. */
  lemma CitiesRoundTrip(resp: seq<IbgeCity>, names: seq<string>)
    ensures FromCityNames(CityNames(resp)) == resp
    ensures CityNames(FromCityNames(names)) == names
  {
  }
}
