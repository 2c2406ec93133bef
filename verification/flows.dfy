/**
  Properties of requests in sequence: the routed handlers as `main` in net/net.go
  mounts them, redirects that lead to further routes, and pages that a save makes
  visible to later views and to the index.
 */
module Flows {
  import opened Wrappers
  import opened Bytes
  import opened Route
  import opened Wiki
  import opened Handlers
  import FilePath

  /** The handler mounted under "/edit/", "/save/" and "/view/". */
  function Mounted(v: Verb): RoutedHandler {
    match v
    case Edit => EditHandler
    case Save => SaveHandler
    case View => ViewHandler
  }

  /**
    Every redirect a routed handler emits is itself a valid route for the title of
    the request: view leads to edit, save leads to view, and edit never redirects.
   */
  lemma RedirectTargetsAreRoutes(v: Verb, fs: Store, req: Request, fault: Option<Fault>)
    ensures var x := MakeHandler(Mounted(v), fs, req, fault);
      x.response.Redirect? ==>
        && x.response.code == StatusFound
        && ParseRoute(req.path).Some?
        && ParseRoute(x.response.target) == Some((if v == View then Edit else View, ParseRoute(req.path).value.1))
    ensures v == Edit ==> !MakeHandler(Mounted(v), fs, req, fault).response.Redirect?
  {
    ParseRouteAcceptsExactly(req.path);
    match ParseRoute(req.path)
    case None =>
    case Some((_, t)) =>
      ParseFormat(Edit, t);
      ParseFormat(View, t);
  }

  /**
    Saving a body through the save route redirects to the view route of the title,
    and following that redirect renders exactly the saved body.
   */
  lemma SaveThenView(fs: Store, t: seq<byte>, form: map<seq<byte>, seq<byte>>,
                     form': map<seq<byte>, seq<byte>>, fault': Option<Fault>)
    requires ValidTitle(t)
    ensures var req := Request(FormatRoute(Save, t), form);
      var save := MakeHandler(SaveHandler, fs, req, None);
      && save.response == Redirect(StatusFound, FormatRoute(View, t))
      && MakeHandler(ViewHandler, save.store, Request(save.response.target, form'), fault').response
         == Render(ViewTemplate, Page(t, FormValue(req, BodyField)))
  {
  }

  /**
    Viewing a missing page redirects to its edit route, and following that redirect
    renders the edit form on an empty page of the same title, touching nothing.
   */
  lemma ViewMissingThenEdit(fs: Store, t: seq<byte>, req: Request, fault: Option<Fault>,
                            form': map<seq<byte>, seq<byte>>, fault': Option<Fault>)
    requires ValidTitle(t) && req.path == FormatRoute(View, t)
    requires FileName(t) !in fs
    ensures var view := MakeHandler(ViewHandler, fs, req, fault);
      && view == Exchange(fs, Redirect(StatusFound, FormatRoute(Edit, t)))
      && MakeHandler(EditHandler, fs, Request(view.response.target, form'), fault')
         == Exchange(fs, Render(EditTemplate, Page(t, [])))
  {
  }

  /**
    `newDocHandler` stores a page whatever its title; when the title is not a valid
    route title, none of the routed handlers can reach the page: each answers 404.
   */
  lemma NewDocBypassesRoutes(fs: Store, req: Request, v: Verb,
                             form': map<seq<byte>, seq<byte>>, fault': Option<Fault>)
    requires !ValidTitle(FormValue(req, TitleField))
    ensures var title := FormValue(req, TitleField);
      var x := NewDocHandler(fs, req, None);
      && LoadPage(x.store, title).Success?
      && MakeHandler(Mounted(v), x.store, Request(FormatRoute(v, title), form'), fault')
         == Exchange(x.store, NotFound)
  {
  }

  /** A page saved under a title without a separator is listed by the index. */
  lemma SavedPageIsListed(fs: Store, p: Page)
    requires FilePath.NoSlashIn(p.title, 0, |p.title|)
    ensures Some(p) in IndexHandler(SavePage(fs, p, None).value).response.docs
  {
  }
}
