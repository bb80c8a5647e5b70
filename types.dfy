/** The records and configurations shared by the search, the filters and the
    export (lib/types.ts). */
module Types {
  import opened Wrappers

  /** A point; the source's floating-point degrees are modelled as integers. */
  datatype GeoLocation = GeoLocation(lat: int, lng: int)

  /** A distance in whole metres, as the distance-matrix service reports it, or the
      JavaScript `Infinity` that stands for "no distance found". */
  datatype Distance = Finite(metres: nat) | Infinite

  /** The total order the distance sort uses: every finite distance comes before
      `Infinite`. */
  predicate DistanceLe(a: Distance, b: Distance) {
    match (a, b)
    case (Finite(x), Finite(y)) => x <= y
    case (_, Infinite) => true
    case (Infinite, Finite(_)) => false
  }

  /** An assembled search result; `id` and `createdAt` are only set once saved. */
  datatype MedicalProfessional = MedicalProfessional(
    id: Option<string>,
    name: string,
    address: string,
    workplace: string,
    phone: string,
    latitude: int,
    longitude: int,
    specialty: string,
    distance: Option<Distance>,
    createdAt: Option<string>)

  /** The form's submission; the radius stays the text the user typed. */
  datatype SearchParams = SearchParams(address: string, radius: string, specialty: string)

  datatype FilterConfig = FilterConfig(excludeEmptyFields: bool, excludedKeywords: seq<string>)

  datatype FilteredResults = FilteredResults(
    included: seq<MedicalProfessional>,
    excluded: seq<MedicalProfessional>)

  const NoResults := FilteredResults([], [])
}
