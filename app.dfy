/**
 * The application shell (App.tsx) as a small transition system: which view
 * is open, who is signed in, the current results and whether the first load
 * is still pending. Navigation to the admin view is gated on a signed-in
 * user, and the admin panel is rendered only for a signed-in user.
 */
module App {
  import opened Wrappers
  import opened Types
  import opened DataService

  datatype View = Home | Admin | LoginPage

  /** The view `handleNavigate` opens for `target`. */
  function NavigateTo(user: Option<User>, target: View): (v: View)
    ensures v == Admin ==> user.Some?
    ensures v != target <==> target == Admin && user.None?
    ensures v != target ==> v == LoginPage
  {
    if target == Admin && user.None? then LoginPage else target
  }

  class AppState {
    var view: View
    var user: Option<User>
    var results: seq<Result>
    var loading: bool

    constructor ()
      ensures view == Home && user == None && results == [] && loading
    {
      view := Home;
      user := None;
      results := [];
      loading := true;
    }

    /** The admin panel is rendered: loaded, on the admin view, with a user. */
    predicate ShowsAdminPanel()
      reads this
      ensures ShowsAdminPanel() ==> view == Admin && user.Some?
    {
      !loading && view == Admin && user.Some?
    }

    /** `handleNavigate`: the admin view without a user opens the login view instead. */
    method HandleNavigate(target: View)
      modifies this
      ensures view == NavigateTo(old(user), target)
      ensures user == old(user) && results == old(results) && loading == old(loading)
      ensures target == Admin ==> (ShowsAdminPanel() <==> !loading && user.Some?)
    {
      if target == Admin && user.None? {
        view := LoginPage;
      } else {
        view := target;
      }
    }

    /** The auth subscription's callback. */
    method OnAuthChange(u: Option<User>)
      modifies this
      ensures user == u
      ensures view == old(view) && results == old(results) && loading == old(loading)
    {
      user := u;
    }

    /** The results subscription's callback: new results, and the first load is over. */
    method OnResults(data: seq<Result>)
      modifies this
      ensures results == data && !loading
      ensures view == old(view) && user == old(user)
    {
      results := data;
      loading := false;
    }

    /** The local-update listener's callback: new results only. */
    method OnLocalUpdate(data: seq<Result>)
      modifies this
      ensures results == data
      ensures view == old(view) && user == old(user) && loading == old(loading)
    {
      results := data;
    }

    /** The login view's success callback. */
    method OnLoginSuccess()
      modifies this
      ensures view == Admin
      ensures user == old(user) && results == old(results) && loading == old(loading)
    {
      view := Admin;
    }

    /**
     * `handleLogout` in local mode: the sign-out removes the flag and notifies
     * the auth listener, which reads that no one is signed in; then the home
     * view opens.
     */
    method HandleLogout(store: LocalStore)
      modifies this, store
      ensures view == Home && user == None && !ShowsAdminPanel()
      ensures store.authItem == None && store.resultsItem == old(store.resultsItem)
      ensures results == old(results) && loading == old(loading)
    {
      store.LogoutAdmin();
      OnAuthChange(store.CurrentUser());
      view := Home;
    }
  }

}
