/** The filter engine (lib/filter-utils.ts): splits a result list into the records
    kept and the records excluded by a FilterConfig. */
module FilterUtils {
  import opened Types
  import opened Text
  import opened Seqs
  import opened Wrappers

  /** One of the four required text fields is empty (falsy). */
  predicate HasEmptyRequiredField(p: MedicalProfessional) {
    p.name == "" || p.address == "" || p.workplace == "" || p.phone == ""
  }

  /** The keyword occurs, ignoring case, in the name, the address or the workplace. */
  predicate KeywordMatches(p: MedicalProfessional, keyword: string) {
    var k := Lower(keyword);
    Contains(Lower(p.name), k) || Contains(Lower(p.address), k) || Contains(Lower(p.workplace), k)
  }

  predicate MatchesAnyKeyword(p: MedicalProfessional, keywords: seq<string>) {
    exists k :: k in keywords && KeywordMatches(p, k)
  }

  /** The decision the engine takes for one record. */
  predicate ShouldExclude(p: MedicalProfessional, config: FilterConfig) {
    (config.excludeEmptyFields && HasEmptyRequiredField(p))
    || MatchesAnyKeyword(p, config.excludedKeywords)
  }

  function Excludes(config: FilterConfig): MedicalProfessional -> bool {
    p => ShouldExclude(p, config)
  }

  function Keeps(config: FilterConfig): MedicalProfessional -> bool {
    p => !ShouldExclude(p, config)
  }

  /** The partition the engine computes: kept and excluded records, each in input order. */
  function Partition(results: seq<MedicalProfessional>, config: FilterConfig): FilteredResults {
    FilteredResults(Filter(results, Keeps(config)), Filter(results, Excludes(config)))
  }

  /** The body of `filterResults` for one record: the empty-field rule, then the
      keyword loop that stops at the first match. */
  method DecideExclusion(professional: MedicalProfessional, config: FilterConfig)
    returns (shouldExclude: bool)
    ensures shouldExclude == ShouldExclude(professional, config)
  {
    shouldExclude := false;

    if config.excludeEmptyFields {
      if professional.name == "" || professional.address == ""
         || professional.workplace == "" || professional.phone == "" {
        shouldExclude := true;
      }
    }

    if !shouldExclude && |config.excludedKeywords| > 0 {
      var nameLower := Lower(professional.name);
      var addressLower := Lower(professional.address);
      var workplaceLower := Lower(professional.workplace);
      var j := 0;
      while j < |config.excludedKeywords|
        invariant 0 <= j <= |config.excludedKeywords|
        invariant !shouldExclude
        invariant forall k :: 0 <= k < j ==> !KeywordMatches(professional, config.excludedKeywords[k])
      {
        var keywordLower := Lower(config.excludedKeywords[j]);
        if Contains(nameLower, keywordLower) || Contains(addressLower, keywordLower)
           || Contains(workplaceLower, keywordLower) {
          assert KeywordMatches(professional, config.excludedKeywords[j]);
          shouldExclude := true;
          break;
        }
        j := j + 1;
      }
    }
    if !shouldExclude {
      forall k | k in config.excludedKeywords
        ensures !KeywordMatches(professional, k)
      {
        var idx :| 0 <= idx < |config.excludedKeywords| && config.excludedKeywords[idx] == k;
      }
    }
  }

  /** `filterResults`: one pass over the results, each record pushed onto the list its
      decision picks. */
  method FilterResults(results: seq<MedicalProfessional>, config: FilterConfig)
    returns (r: FilteredResults)
    ensures r == Partition(results, config)
  {
    var included: seq<MedicalProfessional> := [];
    var excluded: seq<MedicalProfessional> := [];
    var i := 0;
    while i < |results|
      invariant 0 <= i <= |results|
      invariant included == Filter(results[..i], Keeps(config))
      invariant excluded == Filter(results[..i], Excludes(config))
    {
      var professional := results[i];
      var shouldExclude := DecideExclusion(professional, config);
      assert results[..i + 1][..i] == results[..i];
      if shouldExclude {
        excluded := excluded + [professional];
      } else {
        included := included + [professional];
      }
      i := i + 1;
    }
    assert results[..i] == results;
    r := FilteredResults(included, excluded);
  }

  /** Every record lands in exactly one of the two lists: nothing lost, nothing
      duplicated. */
  lemma PartitionIsSplit(results: seq<MedicalProfessional>, config: FilterConfig)
    ensures var r := Partition(results, config);
      |r.included| + |r.excluded| == |results|
      && multiset(r.included) + multiset(r.excluded) == multiset(results)
  {
    FilterSplit(results, Keeps(config), Excludes(config));
  }

  /** Both lists keep the input's relative order. */
  lemma PartitionKeepsOrder(results: seq<MedicalProfessional>, config: FilterConfig)
    ensures IsSubsequence(Partition(results, config).included, results)
    ensures IsSubsequence(Partition(results, config).excluded, results)
  {
    FilterIsSubsequence(results, Keeps(config));
    FilterIsSubsequence(results, Excludes(config));
  }

  /** A record is excluded exactly when the rules exclude it, and included otherwise. */
  lemma PartitionMembership(results: seq<MedicalProfessional>, config: FilterConfig, p: MedicalProfessional)
    ensures p in Partition(results, config).excluded <==> p in results && ShouldExclude(p, config)
    ensures p in Partition(results, config).included <==> p in results && !ShouldExclude(p, config)
  {
  }

  /** With the empty-field rule off and no keywords, the engine keeps everything. */
  lemma PartitionIdentity(results: seq<MedicalProfessional>, config: FilterConfig)
    requires !config.excludeEmptyFields && config.excludedKeywords == []
    ensures Partition(results, config) == FilteredResults(results, [])
  {
    FilterAll(results, Keeps(config));
    PartitionIsSplit(results, config);
  }

  /** Under the empty-field rule a record missing its name, address, workplace or phone
      is excluded; its specialty plays no part. */
  lemma EmptyFieldRule(p: MedicalProfessional, config: FilterConfig, specialty: string)
    ensures config.excludeEmptyFields && HasEmptyRequiredField(p) ==> ShouldExclude(p, config)
    ensures ShouldExclude(p.(specialty := specialty), config) == ShouldExclude(p, config)
  {
    assert forall k :: KeywordMatches(p.(specialty := specialty), k) == KeywordMatches(p, k);
  }

  /** A record that passes the empty-field rule is excluded exactly when some keyword,
      lower-cased, occurs in its lower-cased name, address or workplace; the phone is
      never searched. */
  lemma KeywordRule(p: MedicalProfessional, config: FilterConfig, phone: string)
    requires !(config.excludeEmptyFields && HasEmptyRequiredField(p))
    ensures ShouldExclude(p, config) <==>
      exists i :: 0 <= i < |config.excludedKeywords|
        && var k := Lower(config.excludedKeywords[i]);
           (Contains(Lower(p.name), k) || Contains(Lower(p.address), k) || Contains(Lower(p.workplace), k))
    ensures MatchesAnyKeyword(p.(phone := phone), config.excludedKeywords)
      == MatchesAnyKeyword(p, config.excludedKeywords)
  {
    var kws := config.excludedKeywords;
    assert forall k :: KeywordMatches(p.(phone := phone), k) == KeywordMatches(p, k);
    if ShouldExclude(p, config) {
      var k :| k in kws && KeywordMatches(p, k);
      var i :| 0 <= i < |kws| && kws[i] == k;
    }
    if exists i :: 0 <= i < |kws| && KeywordMatches(p, kws[i]) {
      var i :| 0 <= i < |kws| && KeywordMatches(p, kws[i]);
      assert kws[i] in kws;
    }
  }

  /** Keyword lists with the same lower-cased words decide one record alike. */
  lemma SameWordsSameMatch(p: MedicalProfessional, keywords: seq<string>, keywords': seq<string>)
    requires forall k :: k in keywords ==> exists k' :: k' in keywords' && Lower(k') == Lower(k)
    ensures MatchesAnyKeyword(p, keywords) ==> MatchesAnyKeyword(p, keywords')
  {
    if MatchesAnyKeyword(p, keywords) {
      var k :| k in keywords && KeywordMatches(p, k);
      var k' :| k' in keywords' && Lower(k') == Lower(k);
      assert KeywordMatches(p, k');
    }
  }

  lemma SameDecision(p: MedicalProfessional, config: FilterConfig, keywords: seq<string>)
    requires forall k :: k in config.excludedKeywords ==> exists k' :: k' in keywords && Lower(k') == Lower(k)
    requires forall k' :: k' in keywords ==> exists k :: k in config.excludedKeywords && Lower(k) == Lower(k')
    ensures ShouldExclude(p, config) == ShouldExclude(p, config.(excludedKeywords := keywords))
  {
    SameWordsSameMatch(p, config.excludedKeywords, keywords);
    SameWordsSameMatch(p, keywords, config.excludedKeywords);
  }

  /** Two keyword lists with the same lower-cased words, in any order, with any case and
      any repetition, filter every result list alike. */
  lemma {:induction false} KeywordsUpToCaseAndOrder(results: seq<MedicalProfessional>, config: FilterConfig, keywords: seq<string>)
    requires forall k :: k in config.excludedKeywords ==> exists k' :: k' in keywords && Lower(k') == Lower(k)
    requires forall k' :: k' in keywords ==> exists k :: k in config.excludedKeywords && Lower(k) == Lower(k')
    ensures Partition(results, config) == Partition(results, config.(excludedKeywords := keywords))
  {
    var config' := config.(excludedKeywords := keywords);
    forall p | p in results
      ensures Keeps(config)(p) == Keeps(config')(p) && Excludes(config)(p) == Excludes(config')(p)
    {
      SameDecision(p, config, keywords);
    }
    FilterAgree(results, Keeps(config), Keeps(config'));
    FilterAgree(results, Excludes(config), Excludes(config'));
  }

  /** Records whose searched fields differ only in letter case get the same decision. */
  lemma RecordCaseInsensitive(p: MedicalProfessional, q: MedicalProfessional, config: FilterConfig)
    requires Lower(p.name) == Lower(q.name) && Lower(p.address) == Lower(q.address)
    requires Lower(p.workplace) == Lower(q.workplace) && p.phone == q.phone
    ensures ShouldExclude(p, config) == ShouldExclude(q, config)
  {
    LowerEmpty(p.name); LowerEmpty(q.name);
    LowerEmpty(p.address); LowerEmpty(q.address);
    LowerEmpty(p.workplace); LowerEmpty(q.workplace);
    assert forall k :: KeywordMatches(p, k) == KeywordMatches(q, k);
  }

  /** A record with every required field filled and each searched field shorter than
      the one keyword passes both rules. */
  lemma ShortRecordKept(p: MedicalProfessional, keyword: string)
    requires !HasEmptyRequiredField(p)
    requires |p.name| < |keyword| && |p.address| < |keyword| && |p.workplace| < |keyword|
    ensures !ShouldExclude(p, FilterConfig(true, [keyword]))
  {
  }

  /** "apollo" excludes a record whose workplace starts with "Apollo". */
  lemma ApolloWorkplace(p: MedicalProfessional, config: FilterConfig)
    requires config.excludedKeywords == ["apollo"]
    requires |p.workplace| >= 6 && p.workplace[..6] == "Apollo"
    ensures ShouldExclude(p, config)
  {
    assert Lower("apollo") == "apollo";
    assert Lower(p.workplace)[..6] == "apollo";
    assert OccursAt(Lower(p.workplace), "apollo", 0);
    ContainsAt(Lower(p.workplace), "apollo");
    assert KeywordMatches(p, config.excludedKeywords[0]);
  }

  /** Three records of which only the first is kept. */
  lemma PartitionFirstOfThree(a: MedicalProfessional, b: MedicalProfessional, c: MedicalProfessional, config: FilterConfig)
    requires !ShouldExclude(a, config) && ShouldExclude(b, config) && ShouldExclude(c, config)
    ensures Partition([a, b, c], config) == FilteredResults([a], [b, c])
  {
    var keep, drop := Keeps(config), Excludes(config);
    assert keep(a) && !keep(b) && !keep(c);
    assert !drop(a) && drop(b) && drop(c);
    FilterThree(a, b, c, keep);
    FilterThree(a, b, c, drop);
  }

  /** An example: with the empty-field rule on and the keyword "apollo", a
      complete record is kept, while a record without a phone and one whose workplace
      is "Apollo Health" are excluded, in their original order. */
  lemma ApolloExample()
    ensures
      var a := MedicalProfessional(None, "Rao", "Pune", "Care", "12345", 0, 0, "surgeon", None, None);
      var b := MedicalProfessional(None, "Das", "Pune", "Care", "", 0, 0, "surgeon", None, None);
      var c := MedicalProfessional(None, "Sen", "Pune", "Apollo Health", "12345", 0, 0, "surgeon", None, None);
      Partition([a, b, c], FilterConfig(true, ["apollo"])) == FilteredResults([a], [b, c])
  {
    var a := MedicalProfessional(None, "Rao", "Pune", "Care", "12345", 0, 0, "surgeon", None, None);
    var b := MedicalProfessional(None, "Das", "Pune", "Care", "", 0, 0, "surgeon", None, None);
    var c := MedicalProfessional(None, "Sen", "Pune", "Apollo Health", "12345", 0, 0, "surgeon", None, None);
    var config := FilterConfig(true, ["apollo"]);
    ShortRecordKept(a, "apollo");
    ApolloWorkplace(c, config);
    PartitionFirstOfThree(a, b, c, config);
  }
}
