/**
 * App.jsx: the single-page router. `currentPage` and `selectedNovel` are
 * the router's state; an effect corrects the page whenever the
 * authentication state settles, `navigate` moves between pages, and the
 * page shown is chosen from the current page, with the dashboard and the
 * editor behind `ProtectedRoute`.
 */
module AppRouter {
  import opened Js

  const Home := "home"
  const LoginName := "login"
  const SignupName := "signup"
  const DashboardName := "dashboard"
  const EditorName := "editor"

  predicate IsProtected(page: string)
  {
    page == DashboardName || page == EditorName
  }

  /** What the router renders. */
  datatype View =
    | Spinner                   // `ProtectedRoute` while authentication is loading
    | Landing
    | Login
    | Signup
    | Dashboard
    | Editor(novel: Value)

  /**
   * The page the effect moves to: nothing happens while authentication is
   * loading; a signed-in user leaves `home` for the dashboard; a signed-out
   * user is sent home from the dashboard or the editor; every other page
   * stays.
   */
  function Redirect(loading: bool, authenticated: bool, page: string): (r: string)
    ensures loading ==> r == page
    ensures !loading && authenticated && page == Home ==> r == DashboardName
    ensures !loading && !authenticated && IsProtected(page) ==> r == Home
    ensures r != page ==> !loading && ((authenticated && page == Home) || (!authenticated && IsProtected(page)))
  {
    if loading then page
    else if authenticated && page == Home then DashboardName
    else if !authenticated && IsProtected(page) then Home
    else page
  }

  /**
   * The effect runs again when the page it set changes; that second run
   * changes nothing, so the router never loops.
   */
  lemma RedirectSettles(loading: bool, authenticated: bool, page: string)
    ensures Redirect(loading, authenticated, Redirect(loading, authenticated, page)) == Redirect(loading, authenticated, page)
  {
  }

  /** Once authentication has settled, a signed-out user is never left on a protected page, nor a signed-in one at home. */
  lemma RedirectGuards(authenticated: bool, page: string)
    ensures !authenticated ==> !IsProtected(Redirect(false, false, page))
    ensures authenticated ==> Redirect(false, true, page) != Home
  {
  }

  /** `ProtectedRoute`: a spinner while loading, then the children for a signed-in user and the fallback otherwise. */
  function ProtectedRoute(loading: bool, authenticated: bool, children: View, fallback: View): (r: View)
    ensures loading ==> r == Spinner
    ensures !loading && authenticated ==> r == children
    ensures !loading && !authenticated ==> r == fallback
  {
    if loading then Spinner else if authenticated then children else fallback
  }

  /** `renderPage`: the view for the current page; an unknown page shows the landing page. */
  function RenderPage(page: string, loading: bool, authenticated: bool, selectedNovel: Value): (r: View)
    ensures page == Home ==> r == Landing
    ensures page == LoginName ==> r == Login
    ensures page == SignupName ==> r == Signup
    ensures page == DashboardName ==> r == ProtectedRoute(loading, authenticated, Dashboard, Landing)
    ensures page == EditorName ==> r == ProtectedRoute(loading, authenticated, Editor(selectedNovel), Landing)
    ensures page !in {Home, LoginName, SignupName, DashboardName, EditorName} ==> r == Landing
  {
    if page == Home then Landing
    else if page == LoginName then Login
    else if page == SignupName then Signup
    else if page == DashboardName then ProtectedRoute(loading, authenticated, Dashboard, Landing)
    else if page == EditorName then ProtectedRoute(loading, authenticated, Editor(selectedNovel), Landing)
    else Landing
  }

  /** The dashboard and the editor are only ever rendered for a signed-in user whose authentication has settled. */
  lemma ProtectedViewsNeedAuthentication(page: string, loading: bool, authenticated: bool, selectedNovel: Value)
    ensures var v := RenderPage(page, loading, authenticated, selectedNovel);
      (v.Dashboard? || v.Editor?) ==> authenticated && !loading
    ensures RenderPage(page, loading, authenticated, selectedNovel).Editor? ==>
      RenderPage(page, loading, authenticated, selectedNovel).novel == selectedNovel
  {
  }

  /** The navbar is shown on every page except the editor. */
  function ShowNavbar(page: string): (r: bool)
    ensures r <==> page != EditorName
  {
    page !in [EditorName]
  }

  class Router {
    var currentPage: string
    var selectedNovel: Value

    constructor ()
      ensures currentPage == Home && selectedNovel == Null
    {
      currentPage, selectedNovel := Home, Null;
    }

    /** The `useEffect` run after a render with the given authentication state. */
    method Effect(loading: bool, authenticated: bool)
      modifies this
      ensures currentPage == Redirect(loading, authenticated, old(currentPage))
      ensures selectedNovel == old(selectedNovel)
    {
      if !loading {
        if authenticated && currentPage == Home {
          currentPage := DashboardName;
        } else if !authenticated && currentPage in [DashboardName, EditorName] {
          currentPage := Home;
        }
      }
    }

    /** `navigate(page, data)`: the page always changes; the selected novel only for truthy data. */
    method Navigate(page: string, data: Value)
      modifies this
      ensures currentPage == page
      ensures Truthy(data) ==> selectedNovel == data
      ensures !Truthy(data) ==> selectedNovel == old(selectedNovel)
    {
      currentPage := page;
      if Truthy(data) {
        selectedNovel := data;
      }
    }
  }
}
