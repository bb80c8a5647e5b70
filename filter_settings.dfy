/** The filter-config editor (components/filter-settings.tsx): toggling the empty-field
    rule, adding a keyword from the input box and removing a keyword. */
module FilterSettings {
  import opened Wrappers
  import opened Types
  import opened Text
  import opened Seqs

  /** The configuration the page starts with. */
  const DefaultConfig := FilterConfig(true, ["cloudnine", "apollo"])

  /** The editor keeps the keyword list lower-case and free of duplicates. */
  predicate WellFormedKeywords(keywords: seq<string>) {
    (forall i :: 0 <= i < |keywords| ==> IsLower(keywords[i])) && NoDuplicates(keywords)
  }

  /** `handleToggleEmptyFields`. */
  function ToggleEmptyFields(config: FilterConfig): (r: FilterConfig)
    ensures r.excludeEmptyFields != config.excludeEmptyFields
    ensures r.excludedKeywords == config.excludedKeywords
  {
    config.(excludeEmptyFields := !config.excludeEmptyFields)
  }

  /** Whether `handleAddKeyword` accepts the typed text: it is not empty and its
      lower-case form is not listed yet. */
  predicate Accepts(config: FilterConfig, newKeyword: string) {
    newKeyword != "" && Lower(newKeyword) !in config.excludedKeywords
  }

  /** The configuration `handleAddKeyword` hands on: the lower-cased keyword appended
      at the end when accepted, the same configuration otherwise. */
  function AddKeyword(config: FilterConfig, newKeyword: string): (r: FilterConfig)
    ensures r.excludeEmptyFields == config.excludeEmptyFields
    ensures Accepts(config, newKeyword) ==> r.excludedKeywords == config.excludedKeywords + [Lower(newKeyword)]
    ensures !Accepts(config, newKeyword) ==> r == config
  {
    if Accepts(config, newKeyword) then
      config.(excludedKeywords := config.excludedKeywords + [Lower(newKeyword)])
    else config
  }

  /** `handleRemoveKeyword`: `filter((k) => k !== keyword)`. */
  function RemoveKeyword(config: FilterConfig, keyword: string): (r: FilterConfig)
    ensures r.excludeEmptyFields == config.excludeEmptyFields
    ensures keyword !in r.excludedKeywords
    ensures forall k :: k in r.excludedKeywords <==> k in config.excludedKeywords && k != keyword
    ensures IsSubsequence(r.excludedKeywords, config.excludedKeywords)
    ensures multiset(r.excludedKeywords) == multiset(config.excludedKeywords)[keyword := 0]
  {
    FilterIsSubsequence(config.excludedKeywords, Other(keyword));
    FilterOutMultiset(config.excludedKeywords, keyword, Other(keyword));
    config.(excludedKeywords := Filter(config.excludedKeywords, Other(keyword)))
  }

  function Other(keyword: string): string -> bool {
    k => k != keyword
  }

  /** Toggling twice restores the configuration. */
  lemma ToggleTwice(config: FilterConfig)
    ensures ToggleEmptyFields(ToggleEmptyFields(config)) == config
  {
  }

  lemma DefaultIsWellFormed()
    ensures WellFormedKeywords(DefaultConfig.excludedKeywords)
  {
    assert Lower("cloudnine") == "cloudnine";
    assert Lower("apollo") == "apollo";
  }

  /** Adding keeps the keyword list lower-case and duplicate-free. */
  lemma AddKeepsWellFormed(config: FilterConfig, newKeyword: string)
    requires WellFormedKeywords(config.excludedKeywords)
    ensures WellFormedKeywords(AddKeyword(config, newKeyword).excludedKeywords)
  {
    if Accepts(config, newKeyword) {
      var kws := config.excludedKeywords;
      var k := Lower(newKeyword);
      LowerIsLower(newKeyword);
      var r := kws + [k];
      forall i, j | 0 <= i < j < |r|
        ensures r[i] != r[j]
      {
        if j == |kws| {
          assert r[i] in kws;
        }
      }
    }
  }

  /** Removing keeps the keyword list lower-case and duplicate-free. */
  lemma RemoveKeepsWellFormed(config: FilterConfig, keyword: string)
    requires WellFormedKeywords(config.excludedKeywords)
    ensures WellFormedKeywords(RemoveKeyword(config, keyword).excludedKeywords)
  {
    var kws := config.excludedKeywords;
    FilterNoDuplicates(kws, Other(keyword));
    var r := Filter(kws, Other(keyword));
    forall i | 0 <= i < |r|
      ensures IsLower(r[i])
    {
      assert r[i] in kws;
    }
  }

  /** Removing a keyword that was just added restores the configuration. */
  lemma AddThenRemove(config: FilterConfig, newKeyword: string)
    requires Accepts(config, newKeyword)
    ensures RemoveKeyword(AddKeyword(config, newKeyword), Lower(newKeyword)) == config
  {
    var kws := config.excludedKeywords;
    var k := Lower(newKeyword);
    assert (kws + [k])[..|kws|] == kws;
    FilterAll(kws, Other(k));
  }

  /** The input box of the editor; its text is cleared once a keyword is added. */
  class KeywordInput {
    var newKeyword: string

    constructor ()
      ensures newKeyword == ""
    {
      newKeyword := "";
    }

    /** The input box's `onChange`. */
    method SetNewKeyword(text: string)
      modifies this
      ensures newKeyword == text
    {
      newKeyword := text;
    }

    /** `handleAddKeyword`: hands the new configuration on (`Some`) and clears the box
        only when the keyword is accepted; otherwise nothing happens. */
    method HandleAddKeyword(config: FilterConfig) returns (change: Option<FilterConfig>)
      modifies this
      ensures Accepts(config, old(newKeyword)) ==> change == Some(AddKeyword(config, old(newKeyword))) && newKeyword == ""
      ensures !Accepts(config, old(newKeyword)) ==> change == None && newKeyword == old(newKeyword)
    {
      if newKeyword != "" && Lower(newKeyword) !in config.excludedKeywords {
        change := Some(config.(excludedKeywords := config.excludedKeywords + [Lower(newKeyword)]));
        newKeyword := "";
      } else {
        change := None;
      }
    }
  }
}
