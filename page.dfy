/** The search page's session state (app/page.tsx): what a search, a failed search,
    a filter-configuration change and a quick-filter keystroke do to the raw results,
    the displayed partition and the map centre. */
module SearchPage {
  import opened Wrappers
  import opened Types
  import opened Text
  import opened Seqs
  import opened FilterUtils
  import FilterSettings
  import Actions

  const SearchFailedMessage := "An error occurred while searching. Please try again."

  /** A record matches a quick-filter term when its lowercased name, specialty,
      workplace or address contains the term. */
  predicate MatchesTerm(p: MedicalProfessional, term: string) {
    Contains(Lower(p.name), term) || Contains(Lower(p.specialty), term)
    || Contains(Lower(p.workplace), term) || Contains(Lower(p.address), term)
  }

  /** A record matches exactly when the term occurs at some position of its lowercased
      name, specialty, workplace or address; a term holding an upper-case letter
      matches no record. */
  lemma MatchesTermSpec(p: MedicalProfessional, term: string)
    ensures MatchesTerm(p, term) <==>
      exists i :: OccursAt(Lower(p.name), term, i) || OccursAt(Lower(p.specialty), term, i)
        || OccursAt(Lower(p.workplace), term, i) || OccursAt(Lower(p.address), term, i)
    ensures (exists k :: 0 <= k < |term| && IsUpper(term[k])) ==> !MatchesTerm(p, term)
  {
    ContainsAt(Lower(p.name), term);
    ContainsAt(Lower(p.specialty), term);
    ContainsAt(Lower(p.workplace), term);
    ContainsAt(Lower(p.address), term);
    if k :| 0 <= k < |term| && IsUpper(term[k]) {
      LowerContainsNoUpper(p.name, term, k);
      LowerContainsNoUpper(p.specialty, term, k);
      LowerContainsNoUpper(p.workplace, term, k);
      LowerContainsNoUpper(p.address, term, k);
    }
  }

  function Matching(term: string): MedicalProfessional -> bool {
    p => MatchesTerm(p, term)
  }

  /** The quick filter: narrows the included records by the term and passes the
      excluded ones through. */
  function QuickFilter(filtered: FilteredResults, term: string): (r: FilteredResults)
    ensures r.excluded == filtered.excluded
    ensures |r.included| <= |filtered.included|
  {
    FilteredResults(Filter(filtered.included, Matching(term)), filtered.excluded)
  }

  /** An empty term keeps every included record. */
  lemma QuickFilterEmptyTerm(filtered: FilteredResults)
    ensures QuickFilter(filtered, "") == filtered
  {
    forall p | p in filtered.included
      ensures MatchesTerm(p, "")
    {
      ContainsEmpty(Lower(p.name));
    }
    FilterAll(filtered.included, Matching(""));
  }

  /** Kept by the configuration and matched by the term. */
  function KeptMatching(config: FilterConfig, term: string): MedicalProfessional -> bool {
    p => !ShouldExclude(p, config) && MatchesTerm(p, term)
  }

  /** The quick-filtered records are the raw results the configuration keeps and the
      term matches, in their order and each as often as it occurs; the excluded list is
      the configuration's. */
  lemma QuickFilterSpec(results: seq<MedicalProfessional>, config: FilterConfig, term: string)
    ensures var r := QuickFilter(Partition(results, config), term);
      && IsSubsequence(r.included, Partition(results, config).included)
      && (forall p :: p in r.included <==> p in results && !ShouldExclude(p, config) && MatchesTerm(p, term))
      && r.included == Filter(results, KeptMatching(config, term))
      && r.excluded == Partition(results, config).excluded
  {
    var kept := Partition(results, config).included;
    FilterIsSubsequence(kept, Matching(term));
    FilterOfFilter(results, Keeps(config), KeptMatching(config, term));
    FilterAgree(kept, Matching(term), KeptMatching(config, term));
  }

  /** Where the map centres after a search that returned `professionals`: the first
      included record, else the first result, else where it was. */
  function NewCenter(professionals: seq<MedicalProfessional>, config: FilterConfig, previous: Option<GeoLocation>): (r: Option<GeoLocation>)
    ensures r != previous ==>
      exists i :: 0 <= i < |professionals| && r == Some(GeoLocation(professionals[i].latitude, professionals[i].longitude))
  {
    var included := Partition(professionals, config).included;
    if |included| > 0 then Some(GeoLocation(included[0].latitude, included[0].longitude))
    else if |professionals| > 0 then Some(GeoLocation(professionals[0].latitude, professionals[0].longitude))
    else previous
  }

  /** The centre is the first record the filters keep, or the first record when they
      keep none; it moves only when there is a result. */
  lemma NewCenterSpec(professionals: seq<MedicalProfessional>, config: FilterConfig, previous: Option<GeoLocation>)
    ensures professionals == [] ==> NewCenter(professionals, config, previous) == previous
    ensures (exists i :: 0 <= i < |professionals| && !ShouldExclude(professionals[i], config)) ==>
      exists i :: 0 <= i < |professionals| && !ShouldExclude(professionals[i], config)
        && (forall j :: 0 <= j < i ==> ShouldExclude(professionals[j], config))
        && NewCenter(professionals, config, previous)
           == Some(GeoLocation(professionals[i].latitude, professionals[i].longitude))
    ensures professionals != [] && (forall i :: 0 <= i < |professionals| ==> ShouldExclude(professionals[i], config)) ==>
      NewCenter(professionals, config, previous)
      == Some(GeoLocation(professionals[0].latitude, professionals[0].longitude))
  {
    var keeps := Keeps(config);
    var included := Filter(professionals, keeps);
    if exists i :: 0 <= i < |professionals| && !ShouldExclude(professionals[i], config) {
      var i :| 0 <= i < |professionals| && !ShouldExclude(professionals[i], config);
      assert keeps(professionals[i]);
      assert included != [];
      FilterHead(professionals, keeps);
      var k :| 0 <= k < |professionals| && professionals[k] == included[0] && keeps(professionals[k])
        && forall j :: 0 <= j < k ==> !keeps(professionals[j]);
      assert forall j :: 0 <= j < k ==> ShouldExclude(professionals[j], config);
      assert NewCenter(professionals, config, previous)
        == Some(GeoLocation(professionals[k].latitude, professionals[k].longitude));
    }
    if forall i :: 0 <= i < |professionals| ==> ShouldExclude(professionals[i], config) {
      assert forall x :: x in professionals ==> !keeps(x);
      FilterNone(professionals, keeps);
    }
  }

  class Session {
    var results: seq<MedicalProfessional>
    var filteredResults: FilteredResults
    var isLoading: bool
    var error: Option<string>
    var mapCenter: Option<GeoLocation>
    var filterConfig: FilterConfig
    var quickSearchTerm: string

    /** The displayed partition is the config partition of the raw results, narrowed
        by the quick-filter term when one was applied, and the term is lowercase. */
    predicate Valid()
      reads this
    {
      && IsLower(quickSearchTerm)
      && (filteredResults == Partition(results, filterConfig)
          || filteredResults == QuickFilter(Partition(results, filterConfig), quickSearchTerm))
    }

    constructor ()
      ensures results == [] && filteredResults == NoResults && !isLoading && error == None
      ensures mapCenter == None && filterConfig == FilterSettings.DefaultConfig && quickSearchTerm == ""
      ensures Valid()
    {
      results := [];
      filteredResults := NoResults;
      isLoading := false;
      error := None;
      mapCenter := None;
      filterConfig := FilterSettings.DefaultConfig;
      quickSearchTerm := "";
    }

    /** `handleSearch` before the await: loading starts, the error clears, and the
        configuration of the moment is what the handler's closure holds. */
    method BeginSearch() returns (captured: FilterConfig)
      modifies this
      ensures captured == filterConfig
      ensures isLoading && error == None
      ensures results == old(results) && filteredResults == old(filteredResults) && mapCenter == old(mapCenter)
      ensures filterConfig == old(filterConfig) && quickSearchTerm == old(quickSearchTerm)
      ensures old(Valid()) ==> Valid()
    {
      isLoading := true;
      error := None;
      captured := filterConfig;
    }

    /** `handleSearch` after the await, as written: on success the results, their
        partition under the configuration captured when the search began and the new map
        centre; on failure the error message and empty results, the map centre untouched.
        Loading ends either way. */
    method FinishSearchAsWritten(captured: FilterConfig, outcome: Result<seq<MedicalProfessional>, Actions.SearchError>)
      modifies this
      ensures outcome.Success? ==>
        && results == outcome.value
        && filteredResults == Partition(outcome.value, captured)
        && mapCenter == NewCenter(outcome.value, captured, old(mapCenter))
        && error == old(error)
      ensures outcome.Failure? ==>
        && results == [] && filteredResults == NoResults
        && mapCenter == old(mapCenter) && error == Some(SearchFailedMessage)
      ensures !isLoading
      ensures filterConfig == old(filterConfig) && quickSearchTerm == old(quickSearchTerm)
    {
      match outcome {
        case Success(professionals) =>
          results := professionals;
          var filtered := FilterResults(professionals, captured);
          filteredResults := filtered;
          if |filtered.included| > 0 {
            mapCenter := Some(GeoLocation(filtered.included[0].latitude, filtered.included[0].longitude));
          } else if |professionals| > 0 {
            mapCenter := Some(GeoLocation(professionals[0].latitude, professionals[0].longitude));
          }
        case Failure(_) =>
          error := Some(SearchFailedMessage);
          results := [];
          filteredResults := NoResults;
      }
      isLoading := false;
    }

    /** `handleSearch` after the await, partitioning under the configuration in force
        when the response arrives: the display is then always the configuration's
        partition of the results on screen. */
    method FinishSearch(outcome: Result<seq<MedicalProfessional>, Actions.SearchError>)
      modifies this
      ensures outcome.Success? ==>
        && results == outcome.value
        && filteredResults == Partition(outcome.value, filterConfig)
        && mapCenter == NewCenter(outcome.value, filterConfig, old(mapCenter))
        && error == old(error)
      ensures outcome.Failure? ==>
        && results == [] && filteredResults == NoResults
        && mapCenter == old(mapCenter) && error == Some(SearchFailedMessage)
      ensures !isLoading
      ensures filterConfig == old(filterConfig) && quickSearchTerm == old(quickSearchTerm)
      ensures old(IsLower(quickSearchTerm)) ==> Valid()
    {
      FinishSearchAsWritten(filterConfig, outcome);
    }

    /** `handleSearch` when nothing else happens during the await: on success the
        results, their partition under the configuration (any quick-filter term is not
        re-applied) and the new map centre; on failure the error message and empty
        results, the map centre untouched. Loading ends either way. */
    method HandleSearch(outcome: Result<seq<MedicalProfessional>, Actions.SearchError>)
      modifies this
      ensures outcome.Success? ==>
        && results == outcome.value
        && filteredResults == Partition(outcome.value, filterConfig)
        && mapCenter == NewCenter(outcome.value, filterConfig, old(mapCenter))
        && error == None
      ensures outcome.Failure? ==>
        && results == [] && filteredResults == NoResults
        && mapCenter == old(mapCenter) && error == Some(SearchFailedMessage)
      ensures !isLoading
      ensures filterConfig == old(filterConfig) && quickSearchTerm == old(quickSearchTerm)
      ensures old(IsLower(quickSearchTerm)) ==> Valid()
    {
      var _ := BeginSearch();
      FinishSearch(outcome);
    }

    /** `updateFilterConfig`: the new configuration, and with results on screen their
        partition under it, dropping any quick-filter narrowing. */
    method UpdateFilterConfig(newConfig: FilterConfig)
      modifies this
      ensures filterConfig == newConfig
      ensures results != [] ==> filteredResults == Partition(results, newConfig)
      ensures results == [] ==> filteredResults == old(filteredResults)
      ensures results == old(results) && quickSearchTerm == old(quickSearchTerm)
      ensures mapCenter == old(mapCenter) && error == old(error) && isLoading == old(isLoading)
      ensures old(Valid()) ==> Valid()
    {
      filterConfig := newConfig;
      if |results| > 0 {
        filteredResults := FilterResults(results, newConfig);
      } else {
        PartitionOfNothing(old(filterConfig), quickSearchTerm);
        PartitionOfNothing(newConfig, quickSearchTerm);
      }
    }

    /** `handleQuickSearch`: stores the lowercased input as the term and, with results
        on screen, recomputes the display from the raw results and the configuration:
        the plain partition for an empty term, the quick-filtered one otherwise. */
    method HandleQuickSearch(input: string)
      modifies this
      ensures quickSearchTerm == Lower(input)
      ensures results != [] && Lower(input) == "" ==> filteredResults == Partition(results, filterConfig)
      ensures results != [] && Lower(input) != "" ==>
        filteredResults == QuickFilter(Partition(results, filterConfig), Lower(input))
      ensures results == [] ==> filteredResults == old(filteredResults)
      ensures results == old(results) && filterConfig == old(filterConfig)
      ensures mapCenter == old(mapCenter) && error == old(error) && isLoading == old(isLoading)
      ensures old(Valid()) ==> Valid()
    {
      var term := Lower(input);
      LowerIsLower(input);
      quickSearchTerm := term;
      if |results| > 0 {
        if term == "" {
          filteredResults := FilterResults(results, filterConfig);
        } else {
          var regularFiltered := FilterResults(results, filterConfig);
          filteredResults := QuickFilter(regularFiltered, term);
        }
      } else {
        PartitionOfNothing(filterConfig, old(quickSearchTerm));
        PartitionOfNothing(filterConfig, term);
      }
    }
  }

  /** A configuration change while a search is in flight: the handler as written shows
      the new results partitioned under the configuration it captured, so the record the
      configuration now in force keeps is listed as excluded, and the session invariant
      fails. */
  method StaleConfigScenario() returns (s: Session, b: MedicalProfessional)
    ensures s.results == [b] && s.filterConfig == FilterConfig(false, [])
    ensures s.filteredResults.excluded == [b] && Partition(s.results, s.filterConfig).excluded == []
    ensures !s.Valid()
  {
    s := new Session();
    var captured := s.BeginSearch();
    s.UpdateFilterConfig(FilterConfig(false, []));
    b := MedicalProfessional(None, "Das", "Pune", "Care", "", 0, 0, "surgeon", None, None);
    FilterSingleton(b, Keeps(captured));
    FilterSingleton(b, Excludes(captured));
    FilterSingleton(b, Keeps(FilterConfig(false, [])));
    FilterSingleton(b, Excludes(FilterConfig(false, [])));
    s.FinishSearchAsWritten(captured, Success([b]));
  }

  /** With no results every display the session can hold is empty. */
  lemma PartitionOfNothing(config: FilterConfig, term: string)
    ensures Partition([], config) == NoResults
    ensures QuickFilter(Partition([], config), term) == NoResults
  {
  }

  /** In every valid state (no configuration change while a search was pending; see
      `StaleConfigScenario` for the state the handler as written can reach otherwise),
      the excluded list on screen is exactly the records the configuration excludes, and
      the included list is drawn, in order, from the records it keeps. */
  lemma DisplayedPartition(s: Session)
    requires s.Valid()
    ensures s.filteredResults.excluded == Partition(s.results, s.filterConfig).excluded
    ensures IsSubsequence(s.filteredResults.included, Partition(s.results, s.filterConfig).included)
  {
    var kept := Partition(s.results, s.filterConfig).included;
    if s.filteredResults == Partition(s.results, s.filterConfig) {
      SubsequenceRefl(kept);
    } else {
      FilterIsSubsequence(kept, Matching(s.quickSearchTerm));
    }
  }
}
