/** The decision logic of `searchMedicalProfessionals` (app/actions.ts) with every
    service response given as an input: the fatal status checks, the per-place record
    assembly with its field fallbacks, the drop of places whose details lookup failed,
    and the stable sort by distance. */
module Actions {
  import opened Wrappers
  import opened Types
  import opened Seqs
  import DistanceMatrix

  datatype GeocodeResponse = GeocodeResponse(status: string, results: seq<GeoLocation>)

  /** A nearby-search candidate. */
  datatype Place = Place(placeId: string, name: string, vicinity: string, geometry: GeoLocation)

  datatype PlacesResponse = PlacesResponse(status: string, results: seq<Place>)

  /** The requested detail fields; an absent text field is the empty string. */
  datatype PlaceDetails = PlaceDetails(
    name: string,
    formattedAddress: string,
    formattedPhoneNumber: string,
    geometry: Option<GeoLocation>)

  datatype DetailsResponse = DetailsResponse(status: string, result: PlaceDetails)

  /** The errors that abort a whole search. */
  datatype SearchError = MissingApiKey | GeocodeFailed | PlacesError(status: string)

  const PhoneFallback := "Not available"

  /** `a || b` for strings: the empty string is falsy. */
  function OrElse(a: string, b: string): string {
    if a != "" then a else b
  }

  /** `a || b` for coordinates: zero is falsy. */
  function CoordOrElse(a: int, b: int): int {
    if a != 0 then a else b
  }

  /** `details.geometry?.location.lat || place.geometry.location.lat`, and the same for
      the longitude, each coordinate falling back on its own. */
  function ResolvedLocation(details: PlaceDetails, place: Place): GeoLocation {
    match details.geometry
    case Some(g) => GeoLocation(CoordOrElse(g.lat, place.geometry.lat), CoordOrElse(g.lng, place.geometry.lng))
    case None => place.geometry
  }

  /** The callback of `placesData.results.map`: `None` (the source's `null`) when the
      details lookup failed, otherwise the assembled record. */
  function AssemblePlace(
    specialty: string, origin: GeoLocation, place: Place,
    details: string -> DetailsResponse,
    matrix: (GeoLocation, GeoLocation) -> DistanceMatrix.Response): (r: Option<MedicalProfessional>)
    ensures r.None? <==> details(place.placeId).status != "OK"
    ensures r.Some? ==>
      var d, p := details(place.placeId).result, r.value;
      && p.workplace == place.name
      && p.specialty == specialty
      && p.name == (if d.name != "" then d.name else place.name)
      && p.address == (if d.formattedAddress != "" then d.formattedAddress else place.vicinity)
      && p.phone == (if d.formattedPhoneNumber != "" then d.formattedPhoneNumber else PhoneFallback)
      && p.phone != ""
      && (if d.geometry.Some? && d.geometry.value.lat != 0 then p.latitude == d.geometry.value.lat
          else p.latitude == place.geometry.lat)
      && (if d.geometry.Some? && d.geometry.value.lng != 0 then p.longitude == d.geometry.value.lng
          else p.longitude == place.geometry.lng)
      && p.distance == Some(DistanceMatrix.SmallestDistance(matrix(origin, GeoLocation(p.latitude, p.longitude))).distance)
      && p.id.None? && p.createdAt.None?
  {
    var response := details(place.placeId);
    if response.status != "OK" then None
    else
      var d := response.result;
      var location := ResolvedLocation(d, place);
      var smallest := DistanceMatrix.SmallestDistance(matrix(origin, location));
      Some(MedicalProfessional(
        None,
        OrElse(d.name, place.name),
        OrElse(d.formattedAddress, place.vicinity),
        place.name,
        OrElse(d.formattedPhoneNumber, PhoneFallback),
        location.lat,
        location.lng,
        specialty,
        Some(smallest.distance),
        None))
  }

  predicate IsPresent(o: Option<MedicalProfessional>) {
    o.Some?
  }

  /** `professionals.filter(Boolean)`: the records of the lookups that succeeded, in order. */
  function Present(s: seq<Option<MedicalProfessional>>): (r: seq<MedicalProfessional>)
    ensures |r| == |Filter(s, IsPresent)|
    ensures forall i :: 0 <= i < |r| ==> Some(r[i]) == Filter(s, IsPresent)[i]
    ensures forall p :: p in r <==> Some(p) in s
    decreases |s|
  {
    if s == [] then []
    else
      var init := Present(s[..|s| - 1]);
      match s[|s| - 1]
      case Some(p) => init + [p]
      case None => init
  }

  // ---- The distance sort ----

  /** `a.distance || 0`: a missing distance sorts as 0. */
  function SortKey(p: MedicalProfessional): Distance {
    if p.distance.Some? then p.distance.value else Finite(0)
  }

  predicate SortedByDistance(s: seq<MedicalProfessional>) {
    forall i, j :: 0 <= i < j < |s| ==> DistanceLe(SortKey(s[i]), SortKey(s[j]))
  }

  /** Places `x` before the first element whose key is not below `x`'s. */
  function Insert(x: MedicalProfessional, s: seq<MedicalProfessional>): (r: seq<MedicalProfessional>)
    ensures multiset(r) == multiset(s) + multiset{x}
    ensures forall i :: 0 <= i < |r| ==> r[i] == x || r[i] in s
  {
    if s == [] || DistanceLe(SortKey(x), SortKey(s[0])) then [x] + s
    else
      var rest := Insert(x, s[1..]);
      assert s == [s[0]] + s[1..];
      [s[0]] + rest
  }

  lemma DistanceLeTotal(a: Distance, b: Distance)
    ensures DistanceLe(a, b) || DistanceLe(b, a)
  {
  }

  lemma DistanceLeTrans(a: Distance, b: Distance, c: Distance)
    requires DistanceLe(a, b) && DistanceLe(b, c)
    ensures DistanceLe(a, c)
  {
  }

  /** Prepending an element whose key is at most every key keeps a sorted list sorted. */
  lemma SortedCons(x: MedicalProfessional, s: seq<MedicalProfessional>)
    requires SortedByDistance(s)
    requires forall i :: 0 <= i < |s| ==> DistanceLe(SortKey(x), SortKey(s[i]))
    ensures SortedByDistance([x] + s)
  {
    var r := [x] + s;
    forall i, j | 0 <= i < j < |r|
      ensures DistanceLe(SortKey(r[i]), SortKey(r[j]))
    {
      if i == 0 {
        assert r[j] == s[j - 1];
      } else {
        assert r[i] == s[i - 1] && r[j] == s[j - 1];
      }
    }
  }

  /** Inserting into a sorted list keeps it sorted. */
  lemma {:induction false} InsertSorted(x: MedicalProfessional, s: seq<MedicalProfessional>)
    requires SortedByDistance(s)
    ensures SortedByDistance(Insert(x, s))
    decreases |s|
  {
    if s == [] || DistanceLe(SortKey(x), SortKey(s[0])) {
      forall i | 0 <= i < |s|
        ensures DistanceLe(SortKey(x), SortKey(s[i]))
      {
        if i > 0 {
          DistanceLeTrans(SortKey(x), SortKey(s[0]), SortKey(s[i]));
        }
      }
      SortedCons(x, s);
    } else {
      var tail := s[1..];
      var rest := Insert(x, tail);
      assert SortedByDistance(tail) by {
        forall i, j | 0 <= i < j < |tail|
          ensures DistanceLe(SortKey(tail[i]), SortKey(tail[j]))
        {
          assert tail[i] == s[i + 1] && tail[j] == s[j + 1];
        }
      }
      InsertSorted(x, tail);
      DistanceLeTotal(SortKey(x), SortKey(s[0]));
      forall i | 0 <= i < |rest|
        ensures DistanceLe(SortKey(s[0]), SortKey(rest[i]))
      {
        if rest[i] != x {
          var k :| 0 <= k < |tail| && tail[k] == rest[i];
          assert s[k + 1] == rest[i];
        }
      }
      SortedCons(s[0], rest);
    }
  }

  /** `Array.prototype.sort` with the comparator `(a.distance || 0) - (b.distance || 0)`,
      which is stable. */
  function SortByDistance(s: seq<MedicalProfessional>): (r: seq<MedicalProfessional>)
    ensures SortedByDistance(r)
    ensures multiset(r) == multiset(s)
  {
    if s == [] then []
    else
      assert s == [s[0]] + s[1..];
      var sortedTail := SortByDistance(s[1..]);
      InsertSorted(s[0], sortedTail);
      Insert(s[0], sortedTail)
  }

  function WithKey(k: Distance): MedicalProfessional -> bool {
    p => SortKey(p) == k
  }

  /** Insertion moves `x` only past elements with a different key. */
  lemma {:induction false} InsertStable(x: MedicalProfessional, s: seq<MedicalProfessional>, k: Distance)
    ensures Filter(Insert(x, s), WithKey(k)) == Filter([x] + s, WithKey(k))
    decreases |s|
  {
    if !(s == [] || DistanceLe(SortKey(x), SortKey(s[0]))) {
      var f := WithKey(k);
      var rest := s[1..];
      assert s == [s[0]] + rest;
      assert SortKey(x) != SortKey(s[0]);
      InsertStable(x, rest, k);
      assert Insert(x, s) == [s[0]] + Insert(x, rest);
      FilterCons(s[0], Insert(x, rest), f);
      FilterCons(s[0], [x] + rest, f);
      FilterSwap(s[0], x, rest, f);
    }
  }

  /** The sort is stable: the records sharing any one sort key keep their input order. */
  lemma {:induction false} SortIsStable(s: seq<MedicalProfessional>, k: Distance)
    ensures Filter(SortByDistance(s), WithKey(k)) == Filter(s, WithKey(k))
  {
    if s != [] {
      var f := WithKey(k);
      SortIsStable(s[1..], k);
      InsertStable(s[0], SortByDistance(s[1..]), k);
      FilterConcat([s[0]], SortByDistance(s[1..]), f);
      FilterConcat([s[0]], s[1..], f);
      assert s == [s[0]] + s[1..];
    }
  }

  // ---- The search ----

  /** `searchMedicalProfessionals` once the service responses are known: `details`
      answers a place id, `matrix` answers an (origin, destination) pair. */
  function Search(
    apiKeyConfigured: bool, params: SearchParams,
    geocode: GeocodeResponse, places: PlacesResponse,
    details: string -> DetailsResponse,
    matrix: (GeoLocation, GeoLocation) -> DistanceMatrix.Response): (r: Result<seq<MedicalProfessional>, SearchError>)
    ensures r == Failure(MissingApiKey) <==> !apiKeyConfigured
    ensures r.Success? ==> SortedByDistance(r.value) && |r.value| <= |places.results|
  {
    if !apiKeyConfigured then Failure(MissingApiKey)
    else if geocode.status != "OK" || |geocode.results| == 0 then Failure(GeocodeFailed)
    else if places.status != "OK" then Failure(PlacesError(places.status))
    else
      var professionals := AssembleAll(params.specialty, geocode.results[0], places.results, details, matrix);
      SortedMembers(Present(professionals));
      Success(SortByDistance(Present(professionals)))
  }

  /** `placesData.results.map(...)`, one lookup per place, in place order. */
  function AssembleAll(
    specialty: string, origin: GeoLocation, places: seq<Place>,
    details: string -> DetailsResponse,
    matrix: (GeoLocation, GeoLocation) -> DistanceMatrix.Response): (r: seq<Option<MedicalProfessional>>)
    ensures |r| == |places|
    ensures forall k :: 0 <= k < |places| ==> r[k] == AssemblePlace(specialty, origin, places[k], details, matrix)
  {
    seq(|places|, k requires 0 <= k < |places| => AssemblePlace(specialty, origin, places[k], details, matrix))
  }

  /** The whole search fails exactly when the key is missing, the geocode status is
      not "OK" or it found nothing, or the nearby-search status is not "OK". */
  lemma SearchFailsOnlyFatally(
    apiKeyConfigured: bool, params: SearchParams,
    geocode: GeocodeResponse, places: PlacesResponse,
    details: string -> DetailsResponse,
    matrix: (GeoLocation, GeoLocation) -> DistanceMatrix.Response)
    ensures Search(apiKeyConfigured, params, geocode, places, details, matrix).Failure? <==>
      !apiKeyConfigured || geocode.status != "OK" || geocode.results == [] || places.status != "OK"
    ensures Search(apiKeyConfigured, params, geocode, places, details, matrix) == Failure(GeocodeFailed) <==>
      apiKeyConfigured && (geocode.status != "OK" || geocode.results == [])
  {
  }

  /** A search that passes the fatal checks (see SearchFailsOnlyFatally) succeeds and
      returns records sorted by distance, exactly the records of the
      places whose details lookup succeeded (none dropped, none duplicated), each
      assembled from its own place; records of equal distance keep the order of their
      places. */
  lemma SearchResult(
    apiKeyConfigured: bool, params: SearchParams,
    geocode: GeocodeResponse, places: PlacesResponse,
    details: string -> DetailsResponse,
    matrix: (GeoLocation, GeoLocation) -> DistanceMatrix.Response)
    requires apiKeyConfigured && geocode.status == "OK" && geocode.results != [] && places.status == "OK"
    ensures Search(apiKeyConfigured, params, geocode, places, details, matrix).Success?
    ensures var rs := Search(apiKeyConfigured, params, geocode, places, details, matrix).value;
      && SortedByDistance(rs)
      && |rs| == |Filter(places.results, DetailsOk(details))|
      && (forall p :: p in rs <==>
            exists k :: (0 <= k < |places.results| && details(places.results[k].placeId).status == "OK"
                         && AssemblePlace(params.specialty, geocode.results[0], places.results[k], details, matrix) == Some(p)))
    ensures var rs := Search(apiKeyConfigured, params, geocode, places, details, matrix).value;
      var present := Present(AssembleAll(params.specialty, geocode.results[0], places.results, details, matrix));
      && multiset(rs) == multiset(present)
      && (forall k :: Filter(rs, WithKey(k)) == Filter(present, WithKey(k)))
  {
    var assembled := AssembleAll(params.specialty, geocode.results[0], places.results, details, matrix);
    var rs := SortByDistance(Present(assembled));
    SortedMembers(Present(assembled));
    PresentCount(places.results, details, assembled, params.specialty, geocode.results[0], matrix);
    forall k
      ensures Filter(rs, WithKey(k)) == Filter(Present(assembled), WithKey(k))
    {
      SortIsStable(Present(assembled), k);
    }
  }

  /** Sorting neither adds nor removes records. */
  lemma SortedMembers(s: seq<MedicalProfessional>)
    ensures |SortByDistance(s)| == |s|
    ensures forall p :: p in SortByDistance(s) <==> p in s
  {
    var r := SortByDistance(s);
    assert |r| == |multiset(r)| == |multiset(s)| == |s|;
    forall p
      ensures p in r <==> p in s
    {
      assert p in r <==> p in multiset(r);
      assert p in s <==> p in multiset(s);
    }
  }

  function DetailsOk(details: string -> DetailsResponse): Place -> bool {
    (place: Place) => details(place.placeId).status == "OK"
  }

  /** One record for every place whose details lookup succeeded. */
  lemma {:induction false} PresentCount(
    ps: seq<Place>, details: string -> DetailsResponse, assembled: seq<Option<MedicalProfessional>>,
    specialty: string, origin: GeoLocation,
    matrix: (GeoLocation, GeoLocation) -> DistanceMatrix.Response)
    requires |assembled| == |ps|
    requires forall k :: 0 <= k < |ps| ==> assembled[k] == AssemblePlace(specialty, origin, ps[k], details, matrix)
    ensures |Present(assembled)| == |Filter(ps, DetailsOk(details))|
    decreases |ps|
  {
    if ps != [] {
      PresentCount(ps[..|ps| - 1], details, assembled[..|assembled| - 1], specialty, origin, matrix);
    }
  }

  /** When every details lookup fails the search still succeeds, with no records. */
  lemma SearchAllDetailsFailed(
    apiKeyConfigured: bool, params: SearchParams,
    geocode: GeocodeResponse, places: PlacesResponse,
    details: string -> DetailsResponse,
    matrix: (GeoLocation, GeoLocation) -> DistanceMatrix.Response)
    requires apiKeyConfigured && geocode.status == "OK" && geocode.results != [] && places.status == "OK"
    requires forall place :: place in places.results ==> details(place.placeId).status != "OK"
    ensures Search(apiKeyConfigured, params, geocode, places, details, matrix) == Success([])
  {
    SearchResult(apiKeyConfigured, params, geocode, places, details, matrix);
    FilterNone(places.results, DetailsOk(details));
  }
}
