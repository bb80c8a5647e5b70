/** The search form (components/search-form.tsx): its fields, the switch between a
    listed specialty and a custom one, the submit guard and the submit button. */
module SearchForm {
  import opened Wrappers
  import opened Types

  /** The select's value that switches the form to a custom specialty. */
  const CustomChoice := "custom"

  class Form {
    var address: string
    var radius: string
    var specialty: string
    var customSpecialty: string
    var isCustom: bool

    /** In custom mode no listed specialty is held. */
    predicate Valid()
      reads this
    {
      isCustom ==> specialty == ""
    }

    constructor ()
      ensures address == "" && radius == "10" && specialty == "" && customSpecialty == "" && !isCustom
      ensures Valid()
    {
      address, radius, specialty, customSpecialty := "", "10", "", "";
      isCustom := false;
    }

    method SetAddress(value: string)
      modifies this
      ensures address == value
      ensures radius == old(radius) && specialty == old(specialty)
      ensures customSpecialty == old(customSpecialty) && isCustom == old(isCustom)
    {
      address := value;
    }

    method SetRadius(value: string)
      modifies this
      ensures radius == value
      ensures address == old(address) && specialty == old(specialty)
      ensures customSpecialty == old(customSpecialty) && isCustom == old(isCustom)
    {
      radius := value;
    }

    method SetCustomSpecialty(value: string)
      modifies this
      ensures customSpecialty == value
      ensures address == old(address) && radius == old(radius)
      ensures specialty == old(specialty) && isCustom == old(isCustom)
    {
      customSpecialty := value;
    }

    /** `handleSpecialtyChange`: "custom" enters custom mode and clears the listed
        specialty; any other value leaves custom mode and becomes the specialty. The
        custom text is kept either way. */
    method HandleSpecialtyChange(value: string)
      modifies this
      ensures value == CustomChoice ==> isCustom && specialty == ""
      ensures value != CustomChoice ==> !isCustom && specialty == value
      ensures customSpecialty == old(customSpecialty)
      ensures address == old(address) && radius == old(radius)
      ensures Valid()
    {
      if value == CustomChoice {
        isCustom := true;
        specialty := "";
      } else {
        isCustom := false;
        specialty := value;
      }
    }

    /** What the form hands to the search once its guard passes. */
    function Submission(): SearchParams
      reads this
    {
      SearchParams(address, radius, if isCustom then customSpecialty else specialty)
    }

    /** The submit guard: an address, a radius and some specialty text, listed or custom. */
    predicate GuardPasses()
      reads this
    {
      address != "" && radius != "" && (specialty != "" || customSpecialty != "")
    }

    /** The submit button's enable condition. */
    predicate SubmitEnabled(isLoading: bool)
      reads this
    {
      !isLoading && (specialty != "" || (isCustom && customSpecialty != ""))
    }

    /** `handleSubmit`: nothing when the guard fails, otherwise the search parameters,
        carrying the custom text in custom mode and the listed specialty otherwise. */
    method HandleSubmit() returns (submitted: Option<SearchParams>)
      ensures submitted.None? <==> (address == "" || radius == "" || (specialty == "" && customSpecialty == ""))
      ensures submitted.Some? ==> submitted.value.address == address && submitted.value.radius == radius
      ensures submitted.Some? && isCustom ==> submitted.value.specialty == customSpecialty
      ensures submitted.Some? && !isCustom ==> submitted.value.specialty == specialty
    {
      if address == "" || radius == "" || !(specialty != "" || customSpecialty != "") {
        return None;
      }
      submitted := Some(Submission());
    }

    /** With the button enabled, its specialty condition is the guard's: the button is
        the stricter of the two. */
    lemma EnabledSpecialtyPassesGuard(isLoading: bool)
      requires SubmitEnabled(isLoading) && address != "" && radius != ""
      ensures GuardPasses()
    {
    }

    /** In a valid state the button is enabled exactly when no search is running and
        the form would submit a non-empty specialty. */
    lemma SubmitEnabledSpec(isLoading: bool)
      requires Valid()
      ensures SubmitEnabled(isLoading) <==> !isLoading && Submission().specialty != ""
    {
    }
  }

  /** On the state alone, the guard can pass with no listed specialty while custom text
      is kept, and the submission then carries an empty specialty; the button is
      disabled in that state. The form itself never reaches it: the select offers no
      empty value, so leaving custom mode always picks a listed specialty
      (components/search-form.tsx:97-118). */
  lemma GuardPassesWithEmptySpecialty(f: Form)
    requires !f.isCustom && f.specialty == "" && f.customSpecialty != ""
    requires f.address != "" && f.radius != ""
    ensures f.GuardPasses() && f.Submission().specialty == ""
    ensures forall isLoading :: !f.SubmitEnabled(isLoading)
  {
  }
}
