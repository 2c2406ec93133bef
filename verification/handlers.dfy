/**
  The request handlers of net/net.go, each a transition from the directory before a
  request to the directory after it and the response written back. Rendering is
  left opaque: a response records which template was executed on which page.
 */
module Handlers {
  import opened Wrappers
  import opened Bytes
  import opened Route
  import opened Wiki
  import FilePath

  const StatusOK := 200
  const StatusFound := 302
  const StatusNotFound := 404
  const StatusInternalServerError := 500

  /** The templates the handlers execute. */
  datatype Template = ViewTemplate | EditTemplate

  /** What a handler writes back to the client. */
  datatype Response =
    | Render(template: Template, page: Page)       // tmpl.RenderTemplate
    | Redirect(code: int, target: seq<byte>)       // http.Redirect
    | HttpError(code: int, message: seq<byte>)     // http.Error
    | NotFound                                     // http.NotFound
    | Listing(docs: set<Option<Page>>)             // "docs" once per page file, then "main"

  /** The status line a response carries. */
  function Status(r: Response): (code: int)
    ensures r.Redirect? ==> code == r.code
    ensures r.HttpError? ==> code == r.code
    ensures r.NotFound? ==> code == StatusNotFound
    ensures r.Render? || r.Listing? ==> code == StatusOK
  {
    match r
    case Render(_, _) => StatusOK
    case Redirect(code, _) => code
    case HttpError(code, _) => code
    case NotFound => StatusNotFound
    case Listing(_) => StatusOK
  }

  /** A request: its URL path and its decoded form fields (first value of each). */
  datatype Request = Request(path: seq<byte>, form: map<seq<byte>, seq<byte>>)

  /** `r.FormValue(key)`: the field's value, or "" when the form lacks it. */
  function FormValue(req: Request, key: seq<byte>): (v: seq<byte>)
    ensures key !in req.form ==> v == []
    ensures key in req.form ==> v == req.form[key]
  {
    if key in req.form then req.form[key] else []
  }

  const TitleField: seq<byte> := Ascii("title")
  const BodyField: seq<byte> := Ascii("body")

  /** The directory after a request, and the response to it. */
  datatype Exchange = Exchange(store: Store, response: Response)

  /**
    A handler that `makeHandler` wraps: besides the request it is given the title the
    route validator extracted, and the fault (if any) the operating system reports
    for the one write the handler may attempt.
   */
  type RoutedHandler = (Store, Request, Option<Fault>, seq<byte>) -> Exchange

  /**
    `makeHandler(fn)` applied to a request: a path outside the route pattern gets
    404 and `fn` never runs; a path in it runs `fn` with the path's title.
   */
  function MakeHandler(fn: RoutedHandler, fs: Store, req: Request, fault: Option<Fault>): (x: Exchange)
    ensures !Matches(req.path) ==> x == Exchange(fs, NotFound) && Status(x.response) == StatusNotFound
    ensures forall v, t :: ValidTitle(t) && req.path == FormatRoute(v, t) ==> x == fn(fs, req, fault, t)
  {
    ParseRouteAcceptsExactly(req.path);
    forall v, t | ValidTitle(t) && req.path == FormatRoute(v, t)
      ensures ParseRoute(req.path) == Some((v, t))
    {
      ParseFormat(v, t);
    }
    match ParseRoute(req.path)
    case None => Exchange(fs, NotFound)
    case Some((_, title)) => fn(fs, req, fault, title)
  }

  /** The literal "/edit/" of `viewHandler`'s redirect is the edit route's prefix. */
  lemma EditPrefixIsRoute(t: seq<byte>)
    ensures Ascii("/edit/") + t == FormatRoute(Edit, t)
  {
  }

  /** The literal "/view/" of `saveHandler`'s redirect is the view route's prefix. */
  lemma ViewPrefixIsRoute(t: seq<byte>)
    ensures Ascii("/view/") + t == FormatRoute(View, t)
  {
  }

  /**
    `viewHandler`: render the stored page, or, when there is none, send the client
    to the edit route of the same title. The directory is not touched.
   */
  function ViewHandler(fs: Store, req: Request, fault: Option<Fault>, title: seq<byte>): (x: Exchange)
    ensures x.store == fs
    ensures FileName(title) in fs ==> x.response == Render(ViewTemplate, Page(title, fs[FileName(title)]))
    ensures FileName(title) !in fs ==> x.response == Redirect(StatusFound, FormatRoute(Edit, title))
  {
    EditPrefixIsRoute(title);
    match LoadPage(fs, title)
    case Failure(_) => Exchange(fs, Redirect(StatusFound, Ascii("/edit/") + title))
    case Success(p) => Exchange(fs, Render(ViewTemplate, p))
  }

  /**
    `editHandler`: render the edit form on the stored page, or on an empty page with
    the requested title when there is none. The directory is not touched.
   */
  function EditHandler(fs: Store, req: Request, fault: Option<Fault>, title: seq<byte>): (x: Exchange)
    ensures x.store == fs
    ensures x.response.Render? && x.response.template == EditTemplate
    ensures x.response.page.title == title
    ensures FileName(title) in fs ==> x.response.page.body == fs[FileName(title)]
    ensures FileName(title) !in fs ==> x.response.page.body == []
  {
    var p := match LoadPage(fs, title)
      case Failure(_) => Page(title, [])
      case Success(p) => p;
    Exchange(fs, Render(EditTemplate, p))
  }

  /**
    `saveHandler`: store the form's body under the route's title. On success every
    other page is untouched and the client is sent to the view route of the title;
    on failure the directory is unchanged and the response is a 500 carrying the
    error's text.
   */
  function SaveHandler(fs: Store, req: Request, fault: Option<Fault>, title: seq<byte>): (x: Exchange)
    ensures fault.None? ==> LoadPage(x.store, title) == Success(Page(title, FormValue(req, BodyField)))
    ensures fault.None? ==> forall t :: t != title ==> LoadPage(x.store, t) == LoadPage(fs, t)
    ensures fault.None? ==> x.response == Redirect(StatusFound, FormatRoute(View, title))
    ensures fault.None? ==> x.store == SavePage(fs, Page(title, FormValue(req, BodyField)), None).value
    ensures fault.Some? ==> x.store == fs
    ensures fault.Some? ==>
      x.response == HttpError(StatusInternalServerError, PathError(fault.value.op, FileName(title), fault.value.cause).Text())
  {
    var p := Page(title, FormValue(req, BodyField));
    forall t | t != title ensures LoadPage(fs[FileName(title) := p.body], t) == LoadPage(fs, t) {
      SaveKeepsOtherPages(fs, p, t);
    }
    ViewPrefixIsRoute(title);
    match SavePage(fs, p, fault)
    case Failure(e) => Exchange(fs, HttpError(StatusInternalServerError, e.Text()))
    case Success(fs') => Exchange(fs', Redirect(StatusFound, Ascii("/view/") + title))
  }

  /** The index route "/", where `newDocHandler` sends the client. */
  const Root: seq<byte> := [Slash]

  /**
    `newDocHandler`: store a page built from the form's title and body, with no check
    of the title against the route pattern, then send the client to "/". On failure
    the directory is unchanged and the response is a 500 carrying the error's text.
   */
  function NewDocHandler(fs: Store, req: Request, fault: Option<Fault>): (x: Exchange)
    ensures fault.None? ==>
      LoadPage(x.store, FormValue(req, TitleField)) == Success(Page(FormValue(req, TitleField), FormValue(req, BodyField)))
    ensures fault.None? ==> forall t :: t != FormValue(req, TitleField) ==> LoadPage(x.store, t) == LoadPage(fs, t)
    ensures fault.None? ==> x.response == Redirect(StatusFound, Root)
    ensures fault.None? ==>
      x.store == SavePage(fs, Page(FormValue(req, TitleField), FormValue(req, BodyField)), None).value
    ensures fault.Some? ==> x.store == fs
    ensures fault.Some? ==>
      x.response == HttpError(StatusInternalServerError, PathError(fault.value.op, FileName(FormValue(req, TitleField)), fault.value.cause).Text())
  {
    var p := Page(FormValue(req, TitleField), FormValue(req, BodyField));
    forall t | t != p.title ensures LoadPage(fs[FileName(p.title) := p.body], t) == LoadPage(fs, t) {
      SaveKeepsOtherPages(fs, p, t);
    }
    match SavePage(fs, p, fault)
    case Failure(e) => Exchange(fs, HttpError(StatusInternalServerError, e.Text()))
    case Success(fs') => Exchange(fs', Redirect(StatusFound, Root))
  }

  /** A page the index lists: its file is in the directory itself, not below it. */
  predicate Listed(fs: Store, p: Page) {
    && FileName(p.title) in fs
    && FilePath.NoSlashIn(p.title, 0, |p.title|)
    && p.body == fs[FileName(p.title)]
  }

  /** A file name the glob returns is the file name of the title `TrimExt` recovers. */
  lemma GlobbedIsFileName(name: seq<byte>)
    requires FilePath.MatchesTxtGlob(name)
    ensures FileName(FilePath.TrimExt(name)) == name
    ensures FilePath.NoSlashIn(FilePath.TrimExt(name), 0, |FilePath.TrimExt(name)|)
  {
  }

  /** The file of a title without a separator matches the glob. */
  lemma FileNameGlobbed(title: seq<byte>)
    requires FilePath.NoSlashIn(title, 0, |title|)
    ensures FilePath.MatchesTxtGlob(FileName(title))
  {
  }

  /** A loaded page, or `nil` when the load failed. */
  function PageOrNil(r: Result<Page, PathError>): Option<Page> {
    match r
    case Success(p) => Some(p)
    case Failure(_) => None
  }

  /** What the index loads for one globbed file name: `LoadPage` of the stripped name. */
  function LoadListed(fs: Store, name: seq<byte>): Option<Page> {
    PageOrNil(LoadPage(fs, FilePath.TrimExt(name)))
  }

  /** Every globbed file loads, as the page of its stripped name with the file's bytes. */
  lemma LoadListedSucceeds(fs: Store, name: seq<byte>)
    requires name in fs && FilePath.MatchesTxtGlob(name)
    ensures LoadListed(fs, name) == Some(Page(FilePath.TrimExt(name), fs[name]))
  {
    GlobbedIsFileName(name);
  }

  /** The pages the index renders, one per file the glob "*.txt" matches. */
  function Docs(fs: Store): set<Option<Page>> {
    set name | name in fs && FilePath.MatchesTxtGlob(name) :: LoadListed(fs, name)
  }

  /** The index renders no nil page, and only pages whose files sit in the directory. */
  lemma DocsSound(fs: Store, d: Option<Page>)
    requires d in Docs(fs)
    ensures d.Some? && Listed(fs, d.value)
  {
    var name :| name in fs && FilePath.MatchesTxtGlob(name) && d == LoadListed(fs, name);
    LoadListedSucceeds(fs, name);
    GlobbedIsFileName(name);
  }

  /** The index renders every page whose file sits in the directory. */
  lemma DocsComplete(fs: Store, p: Page)
    requires Listed(fs, p)
    ensures Some(p) in Docs(fs)
  {
  }

  /**
    `handler`, the index: for every file the glob "*.txt" matches, strip the extension,
    load that title and render it. Every such load succeeds, and the pages rendered
    are exactly the stored pages whose files sit in the directory itself.
   */
  function IndexHandler(fs: Store): (x: Exchange)
    ensures x.store == fs && x.response.Listing?
    ensures None !in x.response.docs
    ensures forall p :: Some(p) in x.response.docs <==> Listed(fs, p)
  {
    var docs := Docs(fs);
    forall d | d in docs ensures d.Some? && Listed(fs, d.value) {
      DocsSound(fs, d);
    }
    forall p | Listed(fs, p) ensures Some(p) in docs {
      DocsComplete(fs, p);
    }
    Exchange(fs, Listing(docs))
  }
}
