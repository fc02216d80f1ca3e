/** The filter panel's state: its initial value, the merge of a new initial value, reset and single-field edits. */
module TaskFilters {
  import opened Wrappers
  import Dashboard

  type Filters = map<string, string>

  const InitialFilters: Filters := map[
    "status" := "", "priority" := "", "sortBy" := "createdAt", "sortOrder" := "desc",
    "dueFrom" := "", "dueTo" := "", "q" := ""]

  /** The panel's defaults are the dashboard's, so the page and the panel start from the same query. */
  lemma InitialFiltersAreDashboardDefaults()
    ensures InitialFilters == Dashboard.DefaultFilters
  {
  }

  class FilterPanel {
    var filters: Filters

    /** The state starts as the given initial value, or the defaults without one. */
    constructor (initialValue: Option<Filters>)
      ensures filters == initialValue.GetOr(InitialFilters)
    {
      filters := initialValue.GetOr(InitialFilters);
    }

    /** The effect on `initialValue`: its keys override, every other key keeps its value. */
    method MergeInitialValue(initialValue: Option<Filters>)
      modifies this
      ensures filters.Keys == old(filters).Keys + initialValue.GetOr(map[]).Keys
      ensures initialValue.Some? ==> forall k :: k in initialValue.value ==> filters[k] == initialValue.value[k]
      ensures forall k :: k in old(filters) && k !in initialValue.GetOr(map[]) ==> filters[k] == old(filters)[k]
    {
      filters := filters + initialValue.GetOr(map[]);
    }

    /** `resetFilters`: the defaults, whatever came before. */
    method Reset()
      modifies this
      ensures filters == InitialFilters
    {
      filters := InitialFilters;
    }

    /** `handleInputChange`: the named key takes the new value, the others keep theirs. */
    method HandleInputChange(name: string, value: string)
      modifies this
      ensures filters.Keys == old(filters).Keys + {name} && filters[name] == value
      ensures forall k :: k in old(filters) && k != name ==> filters[k] == old(filters)[k]
    {
      filters := filters[name := value];
    }
  }
}
