/** The advanced filter panel: its form state, Apply, which reports the form
    and closes the panel, and Reset, which restores and reports the defaults. */
module AdvancedFilters {
  import opened Base

  /** The panel's state; the minimum volume is the raw text of its input. */
  datatype FormState = FormState(
    isOpen: bool,
    searchTerm: string,
    selectedTier: string,
    minVolume: string,
    timeRange: string,
    sortBy: string,
    showVerifiedOnly: bool)

  /** The object passed to `onFilterChange`. */
  datatype Filters = Filters(
    searchTerm: string,
    selectedTier: string,
    minVolume: JsNumber,
    timeRange: string,
    sortBy: string,
    showVerifiedOnly: bool)

  /** The filters `resetFilters` reports. */
  const DefaultFilters: Filters := Filters("", "all", Finite(0.0), "24h", "volume", false)

  /** The state on mount: closed, every field at its default. */
  function InitialForm(): (r: FormState)
    ensures !r.isOpen && !r.showVerifiedOnly && r.minVolume == ""
    ensures r.searchTerm == DefaultFilters.searchTerm && r.selectedTier == DefaultFilters.selectedTier
    ensures r.timeRange == DefaultFilters.timeRange && r.sortBy == DefaultFilters.sortBy
  {
    FormState(false, "", "all", "", "24h", "volume", false)
  }

  /** `handleApplyFilters`: reports the form, reading the minimum volume
      with `parseFloat` unless the field is empty, and closes the panel. */
  function ApplyFilters(s: FormState, parseFloat: string -> JsNumber): (r: (FormState, Filters))
    ensures r.0 == s.(isOpen := false)
    ensures r.1.searchTerm == s.searchTerm && r.1.selectedTier == s.selectedTier
    ensures r.1.timeRange == s.timeRange && r.1.sortBy == s.sortBy
    ensures r.1.showVerifiedOnly == s.showVerifiedOnly
    ensures s.minVolume == "" ==> r.1.minVolume == Finite(0.0)
    ensures s.minVolume != "" ==> r.1.minVolume == parseFloat(s.minVolume)
  {
    var minVolume := if s.minVolume != "" then parseFloat(s.minVolume) else Finite(0.0);
    (s.(isOpen := false),
     Filters(s.searchTerm, s.selectedTier, minVolume, s.timeRange, s.sortBy, s.showVerifiedOnly))
  }

  /** `resetFilters`: every field back to its default, the panel left as it
      is, and the defaults reported. */
  function ResetFilters(s: FormState): (r: (FormState, Filters))
    ensures r.0 == InitialForm().(isOpen := s.isOpen)
    ensures r.1 == DefaultFilters
  {
    (s.(searchTerm := "", selectedTier := "all", minVolume := "", timeRange := "24h",
        sortBy := "volume", showVerifiedOnly := false),
     DefaultFilters)
  }

  /** Resetting twice is resetting once. */
  lemma ResetIdempotent(s: FormState)
    ensures ResetFilters(ResetFilters(s).0) == ResetFilters(s)
  {
  }

  /** After a reset, Apply reports exactly what the reset reported, whatever
      `parseFloat` does. */
  lemma ApplyAfterReset(s: FormState, parseFloat: string -> JsNumber)
    ensures ApplyFilters(ResetFilters(s).0, parseFloat).1 == ResetFilters(s).1
  {
  }

  /** A tier button. */
  function SelectTier(s: FormState, tier: string): (r: FormState)
    ensures r.selectedTier == tier && r.(selectedTier := s.selectedTier) == s
  {
    s.(selectedTier := tier)
  }

  /** The "verified only" switch. */
  function ToggleVerified(s: FormState): (r: FormState)
    ensures r.showVerifiedOnly != s.showVerifiedOnly
    ensures r.(showVerifiedOnly := s.showVerifiedOnly) == s
  {
    s.(showVerifiedOnly := !s.showVerifiedOnly)
  }

  /** The filter button next to the search box. */
  function TogglePanel(s: FormState): (r: FormState)
    ensures r.isOpen != s.isOpen && r.(isOpen := s.isOpen) == s
  {
    s.(isOpen := !s.isOpen)
  }

  /** What the controls set is what Apply reports, and the switch flipped
      twice reports what it did before. */
  lemma ControlsReachApply(s: FormState, tier: string, parseFloat: string -> JsNumber)
    ensures ApplyFilters(SelectTier(s, tier), parseFloat).1.selectedTier == tier
    ensures ApplyFilters(ToggleVerified(s), parseFloat).1.showVerifiedOnly != s.showVerifiedOnly
    ensures ApplyFilters(ToggleVerified(ToggleVerified(s)), parseFloat) == ApplyFilters(s, parseFloat)
  {
  }
}
