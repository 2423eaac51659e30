// The hash router of the EHS front end (js/router.js): the hash is split on
// '/', the first piece names the route, a numeric second piece becomes
// `params.id`, a hash equal to the current route is not rendered again, an
// unknown name shows the Not Found page and a view that throws shows the
// error page.

module HashRouter {
  import opened JsText

  datatype RouteKey =
    | Dashboard | IncidentsRoute | RisksRoute | InspectionsRoute | AuditsRoute
    | ChecklistsRoute | ComplianceRoute | ContractorsRoute | EwpRoute
    | TrainingRoute | ConfigurationRoute

  /** The property name of each route in the route table. */
  function Name(k: RouteKey): string
  {
    match k
    case Dashboard => "dashboard"
    case IncidentsRoute => "incidents"
    case RisksRoute => "risks"
    case InspectionsRoute => "inspections"
    case AuditsRoute => "audits"
    case ChecklistsRoute => "checklists"
    case ComplianceRoute => "compliance"
    case ContractorsRoute => "contractors"
    case EwpRoute => "ewp"
    case TrainingRoute => "training"
    case ConfigurationRoute => "configuration"
  }

  /** The page title of each route. */
  function Title(k: RouteKey): string
  {
    match k
    case Dashboard => "Dashboard"
    case IncidentsRoute => "Incident Management"
    case RisksRoute => "Risk Assessment"
    case InspectionsRoute => "Inspections"
    case AuditsRoute => "Audits"
    case ChecklistsRoute => "Checklist Management"
    case ComplianceRoute => "Compliance Management"
    case ContractorsRoute => "Contractor Management"
    case EwpRoute => "Electronic Work Permits"
    case TrainingRoute => "Training & Compliance"
    case ConfigurationRoute => "Configuration"
  }

  /** What `routes[path]` yields. */
  datatype Lookup = Route(key: RouteKey) | InheritedMember | Missing

  function LookupRoute(path: string): (r: Lookup)
    ensures r.Route? ==> Name(r.key) == path
    ensures r.InheritedMember? <==> PrototypeMember(path)
  {
    if path == "dashboard" then Route(Dashboard)
    else if path == "incidents" then Route(IncidentsRoute)
    else if path == "risks" then Route(RisksRoute)
    else if path == "inspections" then Route(InspectionsRoute)
    else if path == "audits" then Route(AuditsRoute)
    else if path == "checklists" then Route(ChecklistsRoute)
    else if path == "compliance" then Route(ComplianceRoute)
    else if path == "contractors" then Route(ContractorsRoute)
    else if path == "ewp" then Route(EwpRoute)
    else if path == "training" then Route(TrainingRoute)
    else if path == "configuration" then Route(ConfigurationRoute)
    else if PrototypeMember(path) then InheritedMember
    else Missing
  }

  /** Every route name is found under its own key, and nothing else is. */
  lemma LookupName(k: RouteKey, path: string)
    ensures LookupRoute(Name(k)) == Route(k)
    ensures Name(k) == path <==> LookupRoute(path) == Route(k)
    ensures !PrototypeMember(Name(k))
  {
    match k
    case Dashboard =>
    case IncidentsRoute =>
    case RisksRoute =>
    case InspectionsRoute =>
    case AuditsRoute =>
    case ChecklistsRoute =>
    case ComplianceRoute =>
    case ContractorsRoute =>
    case EwpRoute =>
    case TrainingRoute =>
    case ConfigurationRoute =>
  }

  /** Route names are single path pieces. */
  lemma NameHasNoSlash(k: RouteKey)
    ensures '/' !in Name(k) && |Name(k)| > 0
  {
    match k
    case Dashboard =>
    case IncidentsRoute =>
    case RisksRoute =>
    case InspectionsRoute =>
    case AuditsRoute =>
    case ChecklistsRoute =>
    case ComplianceRoute =>
    case ContractorsRoute =>
    case EwpRoute =>
    case TrainingRoute =>
    case ConfigurationRoute =>
  }

  /** `window.location.hash.slice(1) || '/dashboard'`. */
  function HashOf(locationHash: string): (h: string)
    ensures h != ""
  {
    var rest := if |locationHash| == 0 then "" else locationHash[1..];
    if rest == "" then "/dashboard" else rest
  }

  /** The route parameters: `params.id` when the second piece is a run of
    * digits. */
  datatype Params = NoId | Id(text: string)

  /** Route name and parameters from the pieces of the hash. */
  function ParamsOf(pieces: seq<string>): (p: Params)
    ensures p.Id? ==> |pieces| >= 2 && p.text == pieces[1] && AllDigits(p.text)
    ensures |pieces| >= 2 && AllDigits(pieces[1]) ==> p.Id?
  {
    if |pieces| >= 2 && AllDigits(pieces[1]) then Id(pieces[1]) else NoId
  }

  /** `const [path, ...paramParts] = hash.split('/')` as written: the first
    * piece is the text before the first '/'. */
  function PathAsWritten(hash: string): string
  {
    Split(hash, '/')[0]
  }

  /** A hash that starts with '/' (every hash the application links to, and
    * the default '/dashboard') yields the empty path, which names no route. */
  lemma LeadingSlashGivesEmptyPath(hash: string)
    requires |hash| > 0 && hash[0] == '/'
    ensures PathAsWritten(hash) == ""
    ensures LookupRoute(PathAsWritten(hash)).Missing?
  {
  }

  /** The pieces of the hash with one leading '/' removed first, as the
    * route table's keys ('dashboard', not '/dashboard') require. */
  function Pieces(hash: string): (pieces: seq<string>)
    ensures |pieces| >= 1
  {
    var body := if |hash| > 0 && hash[0] == '/' then hash[1..] else hash;
    Split(body, '/')
  }

  /** `#/name` reaches the route called `name`, without an id. */
  lemma PiecesOfRouteHash(k: RouteKey)
    ensures Pieces("/" + Name(k)) == [Name(k)]
    ensures LookupRoute(Pieces("/" + Name(k))[0]) == Route(k)
    ensures ParamsOf(Pieces("/" + Name(k))) == NoId
  {
    var n := Name(k);
    NameHasNoSlash(k);
    LookupName(k, n);
    SplitHead(n, '/');
    assert ("/" + n)[1..] == n;
  }

  /** `#/name/123` reaches the route called `name` with the number as
    * `params.id`. */
  lemma PiecesOfRouteIdHash(k: RouteKey, id: string)
    requires AllDigits(id)
    ensures Pieces("/" + Name(k) + "/" + id) == [Name(k), id]
    ensures ParamsOf(Pieces("/" + Name(k) + "/" + id)) == Id(id)
  {
    var n := Name(k);
    NameHasNoSlash(k);
    var h := "/" + n + "/" + id;
    assert h[1..] == n + "/" + id;
    assert '/' !in id;
    SplitAround(n, id, '/');
  }

  /** Splitting `a + [sep] + b` where neither part holds the separator. */
  lemma SplitAround(a: string, b: string, sep: char)
    requires sep !in a && sep !in b
    ensures Split(a + [sep] + b, sep) == [a, b]
  {
    SplitPrefix(a, b, sep);
    SplitHead(b, sep);
  }

  /** The parameters a view function sees. As written, the incidents and
    * risks entries call `renderIncidents(appRoot, params)` and
    * `renderRisks(appRoot, params)` although both take `params` only: the
    * view receives the app-root element, whose `id` is 'app-root'. */
  function ViewParamsAsWritten(k: RouteKey, params: Params): Params
  {
    if k == IncidentsRoute || k == RisksRoute then Id("app-root") else params
  }

  /** The parameters passed through unchanged. */
  function ViewParams(k: RouteKey, params: Params): (p: Params)
    ensures p == params
  {
    params
  }

  /** As written, the incidents list is never shown: the view always looks
    * for an incident whose id is 'app-root', which `parseInt` turns into NaN. */
  lemma IncidentListUnreachableAsWritten(params: Params)
    ensures ViewParamsAsWritten(IncidentsRoute, params) == Id("app-root")
    ensures ParseInt("app-root").None?
  {
    assert TrimStart("app-root") == "app-root";
    assert DigitPrefixLen("app-root") == 0;
  }

  /** `initializeView(path)` as written draws the dashboard charts when the
    * path is '/dashboard'. */
  predicate ChartsAsWritten(path: string)
  {
    path == "/dashboard"
  }

  /** No path taken from a split on '/' contains '/', so the charts branch
    * never runs. */
  lemma ChartsNeverAsWritten(hash: string)
    ensures !ChartsAsWritten(PathAsWritten(hash))
    ensures !ChartsAsWritten(Pieces(hash)[0])
  {
    assert '/' !in PathAsWritten(hash);
    assert '/' !in Pieces(hash)[0];
    assert "/dashboard"[0] == '/';
  }

  /** The charts are drawn on the dashboard route. */
  predicate Charts(path: string)
  {
    path == Name(Dashboard)
  }

  /** The base path of a navigation link `href` (its first piece after the
    * '#' and a leading '/'), and whether the link is marked active. */
  function LinkPath(href: string): string
  {
    Pieces(if |href| == 0 then "" else href[1..])[0]
  }

  /** As written, links and routes both keep the leading '/', so both paths
    * come out empty and every `#/...` link is marked active on every page. */
  lemma AllLinksActiveAsWritten(href: string, hash: string)
    requires |href| >= 2 && href[1] == '/' && |hash| > 0 && hash[0] == '/'
    ensures PathAsWritten(href[1..]) == PathAsWritten(hash)
  {
  }

  /** A link `#/name` is active exactly on the route called `name`. */
  lemma LinkActiveOnItsRoute(k: RouteKey, j: RouteKey)
    ensures (LinkPath("#/" + Name(k)) == Pieces("/" + Name(j))[0]) <==> k == j
  {
    LinkPathOfRoute(k);
    PiecesOfRouteHash(j);
    LookupName(j, Name(j));
    LookupName(k, Name(j));
  }

  /** The path of the link `#/name` is the route's name. */
  lemma LinkPathOfRoute(k: RouteKey)
    ensures LinkPath("#/" + Name(k)) == Name(k)
  {
    NameHasNoSlash(k);
    LinkPathOfName(Name(k));
  }

  /** The path of the link `#/n`, for a name without a '/', is the name. */
  lemma LinkPathOfName(n: string)
    requires '/' !in n
    ensures LinkPath("#/" + n) == n
  {
    var href := "#/" + n;
    assert href[1..] == "/" + n;
    assert ("/" + n)[1..] == n;
    SplitHead(n, '/');
  }

  /** What a call of `router()` puts on screen. */
  datatype Page =
    | View(key: RouteKey, title: string, params: Params, active: seq<bool>, charts: bool)
    | NotFoundPage(title: string, active: seq<bool>)
    | ErrorPage

  datatype Outcome = Skipped | Shown(page: Page)

  /** The active flag of each navigation link for a path. */
  function ActiveLinks(links: seq<string>, path: string): (r: seq<bool>)
    ensures |r| == |links|
    ensures forall i :: 0 <= i < |links| ==> r[i] == (LinkPath(links[i]) == path)
  {
    if links == [] then [] else [LinkPath(links[0]) == path] + ActiveLinks(links[1..], path)
  }

  /** The base path of a navigation link as written:
    * `href.slice(1).split('/')[0]`. */
  function LinkPathAsWritten(href: string): string
  {
    Split(if |href| == 0 then "" else href[1..], '/')[0]
  }

  /** The active flags `updateNavLinks(path)` sets as written. */
  function ActiveLinksAsWritten(links: seq<string>, path: string): (r: seq<bool>)
    ensures |r| == |links|
    ensures forall i :: 0 <= i < |links| ==> r[i] == (LinkPathAsWritten(links[i]) == path)
  {
    if links == [] then [] else [LinkPathAsWritten(links[0]) == path] + ActiveLinksAsWritten(links[1..], path)
  }

  /** The page `router()` shows, as written, for a hash that differs from
    * the current route: the route name is the text before the first '/',
    * the incidents and risks views receive the app-root element, links and
    * charts are compared as written. `viewThrows` stands for a view
    * function that raises: the error page is shown. */
  function PageForAsWritten(hash: string, links: seq<string>, viewThrows: bool): (p: Page)
    ensures p.View? ==>
      LookupRoute(PathAsWritten(hash)) == Route(p.key) && p.title == Title(p.key) &&
      p.params == ViewParamsAsWritten(p.key, ParamsOf(Split(hash, '/'))) && !p.charts &&
      p.active == ActiveLinksAsWritten(links, PathAsWritten(hash))
    ensures LookupRoute(PathAsWritten(hash)).Route? && !viewThrows ==> p.View?
    ensures LookupRoute(PathAsWritten(hash)).InheritedMember? ==> p == ErrorPage
    ensures LookupRoute(PathAsWritten(hash)).Missing? ==>
      p == NotFoundPage("Not Found", ActiveLinksAsWritten(links, PathAsWritten(hash)))
  {
    var pieces := Split(hash, '/');
    var path := pieces[0];
    ChartsNeverAsWritten(hash);
    match LookupRoute(path)
    case Route(k) =>
      if viewThrows then ErrorPage
      else View(k, Title(k), ViewParamsAsWritten(k, ParamsOf(pieces)),
                ActiveLinksAsWritten(links, path), ChartsAsWritten(path))
    case InheritedMember => ErrorPage
    case Missing => NotFoundPage("Not Found", ActiveLinksAsWritten(links, path))
  }

  /** As written, every hash that starts with '/' (all the application's
    * own links and the default '/dashboard') shows the Not Found page, with
    * every `#/...` navigation link marked active. */
  lemma SlashHashNotFoundAsWritten(hash: string, links: seq<string>, viewThrows: bool)
    requires |hash| > 0 && hash[0] == '/'
    requires forall i :: 0 <= i < |links| ==> |links[i]| >= 2 && links[i][1] == '/'
    ensures var p := PageForAsWritten(hash, links, viewThrows);
      p.NotFoundPage? && p.title == "Not Found" && |p.active| == |links|
      && forall i :: 0 <= i < |p.active| ==> p.active[i]
  {
    LeadingSlashGivesEmptyPath(hash);
    forall i | 0 <= i < |links|
      ensures LinkPathAsWritten(links[i]) == ""
    {
      AllLinksActiveAsWritten(links[i], hash);
    }
  }

  /** As written, a hash without the leading '/' (`#incidents`) reaches the
    * route of that name: the view is shown under its title, but the
    * incidents and risks views receive the app-root element. */
  lemma BareNameHashShowsViewAsWritten(k: RouteKey, links: seq<string>)
    ensures var p := PageForAsWritten(Name(k), links, false);
      p.View? && p.key == k && p.title == Title(k) && !p.charts
      && p.params == (if k == IncidentsRoute || k == RisksRoute then Id("app-root") else NoId)
  {
    NameHasNoSlash(k);
    SplitHead(Name(k), '/');
    LookupName(k, Name(k));
  }

  /** The page the corrected router would show for a hash that differs from
    * the current route: one leading '/' is removed before the split, every
    * view receives the parsed parameters and the charts are drawn on the
    * dashboard. */
  function PageFor(hash: string, links: seq<string>, viewThrows: bool): (p: Page)
    ensures p.View? ==> LookupRoute(Pieces(hash)[0]) == Route(p.key) && p.title == Title(p.key)
    ensures LookupRoute(Pieces(hash)[0]).InheritedMember? ==> p == ErrorPage
    ensures LookupRoute(Pieces(hash)[0]).Missing? ==> p.NotFoundPage? && p.title == "Not Found"
  {
    var pieces := Pieces(hash);
    var path := pieces[0];
    match LookupRoute(path)
    case Route(k) =>
      if viewThrows then ErrorPage
      else View(k, Title(k), ViewParams(k, ParamsOf(pieces)), ActiveLinks(links, path), Charts(path))
    case InheritedMember => ErrorPage
    case Missing => NotFoundPage("Not Found", ActiveLinks(links, path))
  }

  /** `#/name/123` shows the view of the route called `name` with the
    * number as its id, under the route's title; `#/name` shows it without
    * an id, and draws the charts exactly on the dashboard. */
  lemma RouteHashShowsItsView(k: RouteKey, id: string, links: seq<string>)
    requires AllDigits(id)
    ensures var p := PageFor("/" + Name(k) + "/" + id, links, false);
      p.View? && p.key == k && p.title == Title(k) && p.params == Id(id)
    ensures var p := PageFor("/" + Name(k), links, false);
      p.View? && p.key == k && p.params == NoId && (p.charts <==> k == Dashboard)
  {
    PiecesOfRouteIdHash(k, id);
    PiecesOfRouteHash(k);
    LookupName(k, Name(k));
    LookupName(Dashboard, Name(k));
  }

  class Router {
    var currentRoute: string
    var shown: seq<Page>

    /** The router starts on '/dashboard' with nothing shown. */
    constructor ()
      ensures currentRoute == "/dashboard" && shown == []
    {
      currentRoute := "/dashboard";
      shown := [];
    }

    /** `router()` for the current `location.hash` and the navigation links
      * `links`: a hash equal to the current route is skipped; otherwise it
      * becomes the current route and its page is shown. */
    method Route(locationHash: string, links: seq<string>, viewThrows: bool) returns (outcome: Outcome)
      modifies this
      ensures var hash := HashOf(locationHash);
        if hash == old(currentRoute) then
          outcome == Skipped && currentRoute == old(currentRoute) && shown == old(shown)
        else
          outcome == Shown(PageForAsWritten(hash, links, viewThrows)) &&
          currentRoute == hash && shown == old(shown) + [outcome.page]
    {
      var hash := HashOf(locationHash);
      if hash == currentRoute {
        return Skipped;
      }
      currentRoute := hash;
      var page := PageForAsWritten(hash, links, viewThrows);
      shown := shown + [page];
      outcome := Shown(page);
    }

    /** `getCurrentRoute()`. */
    function GetCurrentRoute(): string
      reads this
    {
      currentRoute
    }
  }

  /** Loading the application without a hash, or with '#/dashboard', renders
    * nothing: the hash equals the initial current route. */
  lemma InitialLoadSkipped(locationHash: string)
    requires locationHash == "" || locationHash == "#" || locationHash == "#/dashboard"
    ensures HashOf(locationHash) == "/dashboard"
  {
  }

  /** Routing the same hash twice in a row shows its page once. */
  method RouteTwice(locationHash: string, links: seq<string>) returns (first: Outcome, second: Outcome)
    ensures second == Skipped
  {
    var r := new Router();
    first := r.Route(locationHash, links, false);
    second := r.Route(locationHash, links, false);
  }
}
