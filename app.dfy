/** The top-level page of the browser client: which view is shown, whether the
    visitor is logged in as admin, whether the login box is open, and which archived
    tournament is on display. The admin form is reachable only while logged in. */
module App {
  import opened Wrappers
  import opened Domain

  /** `currentView`. */
  datatype View = Landing | Admin | Ongoing | Archive | ArchivedTournament

  /** The entries of the menu, the only caller of the navigation handler. */
  datatype MenuItem = HomeItem | AdminItem | OngoingItem | ArchiveItem

  function ViewOf(item: MenuItem): View {
    match item
    case HomeItem => Landing
    case AdminItem => Admin
    case OngoingItem => Ongoing
    case ArchiveItem => Archive
  }

  /** The four state fields of the page. */
  datatype Shell = Shell(isAdmin: bool, showLogin: bool, view: View, selected: Option<Tournament>)

  /** What the user or the backend can do to the page. `Fetched` is the answer to
      the request for an archived tournament: the tournament, or None on failure. */
  datatype Event =
    | Logout
    | Navigate(item: MenuItem)
    | LoginClick
    | LoginSuccess
    | Fetched(answer: Option<Tournament>)
    | BackToArchive

  const Initial := Shell(false, false, Landing, None)

  /** The admin view only while logged in, and the archived-tournament view only
      with a tournament selected. */
  predicate Consistent(s: Shell) {
    (s.view == Admin ==> s.isAdmin) && (s.view == ArchivedTournament ==> s.selected.Some?)
  }

  /** The page after one event. The login box calls its handler only while it is
      rendered, on the landing view; anywhere else a login success changes nothing. */
  function Step(s: Shell, e: Event): (r: Shell)
    ensures r.isAdmin == (e != Logout && (s.isAdmin || (e == LoginSuccess && s.view == Landing && s.showLogin)))
    ensures (e == LoginSuccess && !(s.view == Landing && s.showLogin)) || e == Fetched(None) ==> r == s
  {
    match e
    case Logout => Shell(false, false, Landing, None)
    case Navigate(item) =>
      if item == AdminItem && !s.isAdmin then s.(showLogin := true, view := Landing)
      else s.(view := ViewOf(item), selected := None)
    case LoginClick => s.(showLogin := true, view := Landing)
    case LoginSuccess =>
      if s.view == Landing && s.showLogin then s.(isAdmin := true, showLogin := false, view := Admin)
      else s
    case Fetched(answer) =>
      if answer.Some? then s.(selected := answer, view := ArchivedTournament) else s
    case BackToArchive => s.(selected := None, view := Archive)
  }

  /** The page after a sequence of events. */
  function Run(s: Shell, events: seq<Event>): Shell
    decreases |events|
  {
    if |events| == 0 then s else Run(Step(s, events[0]), events[1..])
  }

  /** Every event keeps the page consistent. */
  lemma StepKeepsConsistent(s: Shell, e: Event)
    requires Consistent(s)
    ensures Consistent(Step(s, e))
  {
  }

  /** Whatever happens from the first render, the admin view is shown only to an
      admin, and the archived-tournament view only with a tournament to show. */
  lemma {:induction false} RunKeepsConsistent(s: Shell, events: seq<Event>)
    requires Consistent(s)
    ensures Consistent(Run(s, events))
    decreases |events|
  {
    if |events| > 0 {
      StepKeepsConsistent(s, events[0]);
      RunKeepsConsistent(Step(s, events[0]), events[1..]);
    }
  }

  lemma ReachableIsConsistent(events: seq<Event>)
    ensures var s := Run(Initial, events);
      (s.view == Admin ==> s.isAdmin) && (s.view == ArchivedTournament ==> s.selected.Some?)
  {
    RunKeepsConsistent(Initial, events);
  }

  /** Asking for the admin view without being logged in opens the login box on the
      landing view and keeps the selection; as an admin it opens the admin view. */
  lemma AdminGate(s: Shell)
    ensures !s.isAdmin ==> Step(s, Navigate(AdminItem)) == s.(showLogin := true, view := Landing)
    ensures s.isAdmin ==> Step(s, Navigate(AdminItem)).view == Admin
  {
  }

  /** Every navigation except the refused admin one clears the selection, and a
      navigation never changes who is logged in. */
  lemma NavigationClearsSelection(s: Shell, item: MenuItem)
    ensures Step(s, Navigate(item)).isAdmin == s.isAdmin
    ensures (item == AdminItem && !s.isAdmin) || Step(s, Navigate(item)).selected.None?
    ensures Step(s, Navigate(item)).view == (if item == AdminItem && !s.isAdmin then Landing else ViewOf(item))
  {
  }

  /** Only a successful fetch enters the archived-tournament view, with what was
      fetched; a failed one changes nothing. */
  lemma FetchEntersArchivedView(s: Shell, e: Event)
    requires s.view != ArchivedTournament && Step(s, e).view == ArchivedTournament
    ensures e.Fetched? && e.answer.Some? && Step(s, e).selected == e.answer
  {
  }

  /** The only way to become admin is a login success while the login box shows. */
  lemma AdminOnlyByLogin(s: Shell, e: Event)
    requires !s.isAdmin && Step(s, e).isAdmin
    ensures e == LoginSuccess && s.view == Landing && s.showLogin
    ensures Step(s, e).view == Admin && !Step(s, e).showLogin
  {
  }

  /** What the page renders. */
  datatype Screen =
    | LandingPage(loginBox: bool)
    | AdminFormPage
    | OngoingPage
    | ArchivePage
    | ArchivedPage(tournament: Tournament)
    | Nothing

  function Render(s: Shell): (r: Screen)
    ensures r.AdminFormPage? <==> s.view == Admin && s.isAdmin
    ensures r.Nothing? <==> (s.view == Admin && !s.isAdmin) || (s.view == ArchivedTournament && s.selected.None?)
  {
    match s.view
    case Landing => LandingPage(s.showLogin)
    case Admin => if s.isAdmin then AdminFormPage else Nothing
    case Ongoing => OngoingPage
    case Archive => ArchivePage
    case ArchivedTournament => if s.selected.Some? then ArchivedPage(s.selected.value) else Nothing
  }

  /** A reachable page always renders something, and renders the admin form exactly
      when the admin view is current. */
  lemma {:induction false} ReachableRendersSomething(events: seq<Event>)
    ensures !Render(Run(Initial, events)).Nothing?
    ensures Render(Run(Initial, events)).AdminFormPage? <==> Run(Initial, events).view == Admin
  {
    RunKeepsConsistent(Initial, events);
  }

  /** The page state of the running client. */
  class AppState {
    var isAdmin: bool
    var showLogin: bool
    var currentView: View
    var selected: Option<Tournament>

    function Snapshot(): Shell
      reads this
    {
      Shell(isAdmin, showLogin, currentView, selected)
    }

    ghost predicate Valid()
      reads this
    {
      Consistent(Snapshot())
    }

    constructor()
      ensures Valid() && Snapshot() == Initial
    {
      isAdmin, showLogin, currentView, selected := false, false, Landing, None;
    }

    /** `handleLogout`. */
    method HandleLogout()
      requires Valid()
      modifies this
      ensures Valid() && Snapshot() == Step(old(Snapshot()), Logout)
    {
      isAdmin := false;
      showLogin := false;
      currentView := Landing;
      selected := None;
    }

    /** `handleNavigation`. */
    method HandleNavigation(item: MenuItem)
      requires Valid()
      modifies this
      ensures Valid() && Snapshot() == Step(old(Snapshot()), Navigate(item))
    {
      if item == AdminItem && !isAdmin {
        showLogin := true;
        currentView := Landing;
      } else if item == AdminItem && isAdmin {
        currentView := Admin;
        selected := None;
      } else {
        currentView := ViewOf(item);
        selected := None;
      }
    }

    /** The menu's login entry. */
    method HandleLoginClick()
      requires Valid()
      modifies this
      ensures Valid() && Snapshot() == Step(old(Snapshot()), LoginClick)
    {
      showLogin := true;
      currentView := Landing;
    }

    /** The login box's success callback; the box is rendered only on the landing
        view while `showLogin` holds. */
    method HandleLoginSuccess()
      requires Valid() && currentView == Landing && showLogin
      modifies this
      ensures Valid() && Snapshot() == Step(old(Snapshot()), LoginSuccess)
    {
      isAdmin := true;
      showLogin := false;
      currentView := Admin;
    }

    /** `handleViewArchivedTournament`, given the backend's answer to the fetch. */
    method HandleViewArchivedTournament(answer: Option<Tournament>)
      requires Valid()
      modifies this
      ensures Valid() && Snapshot() == Step(old(Snapshot()), Fetched(answer))
    {
      if answer.Some? {
        selected := answer;
        currentView := ArchivedTournament;
      }
    }

    /** `handleBackToArchive`. */
    method HandleBackToArchive()
      requires Valid()
      modifies this
      ensures Valid() && Snapshot() == Step(old(Snapshot()), BackToArchive)
    {
      selected := None;
      currentView := Archive;
    }
  }
}
