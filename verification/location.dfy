/**
 * The location line of the home view. It starts as a loading placeholder;
 * one lookup later it holds either a label built from the reverse-geocoded
 * address or the fixed default city. The browser's geolocation callback and
 * the geocoding request are abstracted into the `Lookup` outcome they
 * deliver.
 */
module Location {
  import opened Optional

  /** The address fields of a reverse-geocoding answer the view reads. */
  datatype Address = Address(
    city: Option<string>,
    town: Option<string>,
    village: Option<string>,
    municipality: Option<string>,
    state: Option<string>,
    region: Option<string>)

  /** How the asynchronous lookup ended. */
  datatype Lookup =
    | NoGeolocation              // the browser offers no geolocation
    | GeolocationError           // the position request failed
    | RequestThrew               // the request or reading its body threw
    | ResponseNotOk              // the server answered with a non-2xx status
    | ResponseOk(address: Option<Address>)  // a body, with or without `address`

  datatype HomeLocation = HomeLocation(text: string, loading: bool)

  const Placeholder: string := "Obteniendo ubicación..."
  const DefaultLabel: string := "Cali, Valle del Cauca"
  const CityFallback: string := "Ubicación"

  /** JavaScript truthiness of a string-valued field: present and non-empty. */
  predicate Truthy(f: Option<string>) {
    f.Some? && f.value != ""
  }

  /** `f0 || f1 || ... || fallback`: the first truthy field, else the fallback. */
  function FirstTruthy(fields: seq<Option<string>>, fallback: string): (r: string)
    ensures (forall i :: 0 <= i < |fields| ==> !Truthy(fields[i])) ==> r == fallback
    ensures forall k :: 0 <= k < |fields| && Truthy(fields[k])
                        && (forall i :: 0 <= i < k ==> !Truthy(fields[i]))
                        ==> r == fields[k].value
  {
    if |fields| == 0 then fallback
    else if Truthy(fields[0]) then fields[0].value
    else
      assert forall i :: 1 <= i < |fields| ==> fields[i] == fields[1..][i - 1];
      FirstTruthy(fields[1..], fallback)
  }

  /** The first truthy field, or the fallback: what `||` returns, characterised. */
  lemma FirstTruthyChoice(fields: seq<Option<string>>, fallback: string)
    ensures var r := FirstTruthy(fields, fallback);
      r == fallback || exists k :: 0 <= k < |fields| && Truthy(fields[k]) && r == fields[k].value
  {
    if exists k :: 0 <= k < |fields| && Truthy(fields[k]) {
      var k := FirstIndex(fields);
    }
  }

  /** The position of the first truthy field. */
  function FirstIndex(fields: seq<Option<string>>): (k: nat)
    requires exists k :: 0 <= k < |fields| && Truthy(fields[k])
    ensures k < |fields| && Truthy(fields[k])
    ensures forall i :: 0 <= i < k ==> !Truthy(fields[i])
  {
    if Truthy(fields[0]) then 0
    else
      assert exists k :: 0 <= k < |fields[1..]| && Truthy(fields[1..][k]) by {
        var k :| 0 <= k < |fields| && Truthy(fields[k]);
        assert fields[1..][k - 1] == fields[k];
      }
      1 + FirstIndex(fields[1..])
  }

  function City(a: Address): (c: string)
    ensures c != ""
  {
    FirstTruthy([a.city, a.town, a.village, a.municipality], CityFallback)
  }

  function State(a: Address): string {
    FirstTruthy([a.state, a.region], "")
  }

  /** `state ? city + ", " + state : city` */
  function AddressLabel(a: Address): (l: string)
    ensures l != ""
    ensures State(a) == "" ==> l == City(a)
    ensures State(a) != "" ==> l == City(a) + ", " + State(a)
  {
    var city := City(a);
    var state := State(a);
    if state != "" then city + ", " + state else city
  }

  /** The state the view mounts in. */
  function Initial(): (h: HomeLocation)
    ensures h.loading && h.text == Placeholder
  {
    HomeLocation(Placeholder, true)
  }

  predicate IsFailure(o: Lookup) {
    !(o.ResponseOk? && o.address.Some?)
  }

  /** The state once the lookup has ended. */
  function Resolve(o: Lookup): (h: HomeLocation)
    ensures !h.loading
    ensures IsFailure(o) ==> h.text == DefaultLabel
    ensures !IsFailure(o) ==> h.text == AddressLabel(o.address.value)
  {
    match o
    case ResponseOk(Some(a)) => HomeLocation(AddressLabel(a), false)
    case _ => HomeLocation(DefaultLabel, false)
  }

  /** The text shown next to the pin. */
  function Shown(h: HomeLocation): (t: string)
    ensures h.loading ==> t == Placeholder
    ensures !h.loading ==> t == h.text
  {
    if h.loading then Placeholder else h.text
  }

  /** After any lookup the line shows the stored label, which is never blank. */
  lemma ResolvedShowsLabel(o: Lookup)
    ensures Shown(Resolve(o)) != ""
    ensures Shown(Resolve(o)) == Resolve(o).text
  {
  }

  /** The city is the first truthy of city, town, village, municipality. */
  lemma CityFallbackChain(a: Address)
    ensures Truthy(a.city) ==> City(a) == a.city.value
    ensures !Truthy(a.city) && Truthy(a.town) ==> City(a) == a.town.value
    ensures !Truthy(a.city) && !Truthy(a.town) && Truthy(a.village) ==> City(a) == a.village.value
    ensures !Truthy(a.city) && !Truthy(a.town) && !Truthy(a.village) && Truthy(a.municipality)
            ==> City(a) == a.municipality.value
    ensures !Truthy(a.city) && !Truthy(a.town) && !Truthy(a.village) && !Truthy(a.municipality)
            ==> City(a) == CityFallback
  {
    var fs := [a.city, a.town, a.village, a.municipality];
    assert fs[0] == a.city && fs[1] == a.town && fs[2] == a.village && fs[3] == a.municipality;
  }

  /** The state is the first truthy of state and region, else empty. */
  lemma StateFallbackChain(a: Address)
    ensures Truthy(a.state) ==> State(a) == a.state.value
    ensures !Truthy(a.state) && Truthy(a.region) ==> State(a) == a.region.value
    ensures !Truthy(a.state) && !Truthy(a.region) ==> State(a) == ""
  {
    var fs := [a.state, a.region];
    assert fs[0] == a.state && fs[1] == a.region;
  }
}
