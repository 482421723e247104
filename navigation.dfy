/** The page navigation context (src/Navigation.tsx): which page is shown and the params it
    was opened with. The provider's `navigate` overwrites both; the context default that a
    component sees outside the provider never changes. */
module Navigation {
  import opened Wrappers

  /** The three pages; a `Page` value is always one of them. */
  datatype Page = Dashboard | HabitForm | HabitTrackerForm

  /** `NavigationParams[page]`: the habit form takes an optional habit id, the other pages
      take nothing (`undefined`). */
  datatype Params = NoParams | HabitFormParams(habitId: Option<int>)

  /** The overloads of `navigate` that type-check: params only with, and always with, the
      habit form. */
  predicate ParamsFit(page: Page, params: Params)
  {
    if page == HabitForm then params.HabitFormParams? else params == NoParams
  }

  /** The habit id a page reads as `params?.habitId`. */
  function HabitIdParam(params: Params): (r: Option<int>)
    ensures r.Some? <==> params.HabitFormParams? && params.habitId.Some?
    ensures r.Some? ==> r == params.habitId
  {
    match params
    case NoParams => None
    case HabitFormParams(id) => id
  }

  class NavigationContext {
    var page: Page
    var params: Params
    /** Whether this is the provider's value (true) or the context default (false). */
    const isProvider: bool

    predicate Valid()
      reads this
    {
      ParamsFit(page, params)
    }

    /** `NavigationProvider`: the dashboard, with no params. */
    constructor Provider()
      ensures page == Dashboard && params == NoParams && isProvider
      ensures Valid()
    {
      page := Dashboard;
      params := NoParams;
      isProvider := true;
    }

    /** The `createContext` default: the dashboard, with no params. */
    constructor Default()
      ensures page == Dashboard && params == NoParams && !isProvider
      ensures Valid()
    {
      page := Dashboard;
      params := NoParams;
      isProvider := false;
    }

    /** `navigate(newPage, navigationParams)`: the provider shows the requested page with
        the given params (`NoParams` when they are omitted); the default does nothing. */
    method Navigate(newPage: Page, navigationParams: Params)
      requires Valid() && ParamsFit(newPage, navigationParams)
      modifies this
      ensures Valid()
      ensures isProvider ==> page == newPage && params == navigationParams
      ensures !isProvider ==> page == old(page) && params == old(params)
    {
      if isProvider {
        page := newPage;
        params := navigationParams;
      }
    }
  }

  /** Opening the habit form for habit 7 from the dashboard and going back. */
  method NavigationScenario() returns (formPage: Page, formHabit: Option<int>, backPage: Page, backHabit: Option<int>)
    ensures formPage == HabitForm && formHabit == Some(7)
    ensures backPage == Dashboard && backHabit == None
  {
    var nav := new NavigationContext.Provider();
    nav.Navigate(HabitForm, HabitFormParams(Some(7)));
    formPage, formHabit := nav.page, HabitIdParam(nav.params);
    nav.Navigate(Dashboard, NoParams);
    backPage, backHabit := nav.page, HabitIdParam(nav.params);
  }
}
