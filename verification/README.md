# A verified model of the go-tut wiki core

The repository is a small wiki server in Go. Pages live in the working directory,
one file per title named `title + ".txt"`. Routed handlers view, edit and save a
page. Their paths must match `^/(edit|save|view)/([a-zA-Z0-9]+)$`. A `/new/` handler
creates a page from a form, and the index `/` lists every page file.

This project models that core in Dafny:

- `bytes.dfy` (module `Bytes`): Go strings and byte slices as `seq<byte>`. A Go
  string is a byte sequence, so `[]byte(s)` is the identity here.
- `route.dfy` (module `Route`): the route pattern as a hand-written parser
  `ParseRoute`, its inverse `FormatRoute`, and an independent statement of the
  pattern's language, `Matches`.
- `filepath.dfy` (module `FilePath`): the parts of Go's `path/filepath` that the
  index uses. These are `Ext` and the glob `*.txt` on a Unix system.
- `wiki.dfy` (module `Wiki`): `Page`, `Page.Save` (as `SavePage`) and `LoadPage`. The directory is
  a map from file name to contents.
- `handlers.dfy` (module `Handlers`): `makeHandler` and the view, edit, save,
  new-document and index handlers. Each is a transition from the directory before
  a request to the directory after it, plus an abstract response.
- `flows.dfy` (module `Flows`): properties of requests in sequence.

Inputs the program gets from its environment are parameters of the model:

- The operating system's answer to a write is an `Option<Fault>`. `None` means
  the write succeeded. `Some(Fault(op, cause))` means it failed. The error text is
  that of Go's `*os.PathError`: `op + " " + file + ": " + cause`.
- The decoded form of a request is a map from field name to its first value.

Two consequences of the code are worth stating:

- `newDocHandler` saves whatever title the form carries and never checks it
  against the route pattern. `Flows.NewDocBypassesRoutes` shows that such a page
  is stored, yet every routed handler answers 404 for its title.
- A title with a dash is rejected by the pattern, so `/view/missing-title` is 404,
  not a redirect. The redirect-to-edit property holds for alphanumeric titles
  (`Flows.ViewMissingThenEdit`).

## Model

| member | source | states |
|---|---|---|
| Route.VerbNamed | net/net.go:16 | the first group accepts exactly the spellings "edit", "save" and "view", and recognises each as its own verb |
| Route.AllAlnum | net/net.go:16 | the scan accepts a title exactly when every byte is an ASCII letter or digit |
| Route.ParseRoute | net/net.go:16 | a path the validator accepts has the form "/" + verb + "/" + title, with a non-empty alphanumeric title, and the title returned is the second group |
| Route.ParseFormat | net/net.go:40-45 | round trip: formatting any verb with any non-empty alphanumeric title and parsing the result gives back that verb and title |
| Route.ParseRouteAcceptsExactly | net/net.go:16 | the parser accepts a path if and only if the path is in the pattern's language |
| Route.FormatRouteInjective | net/net.go:16 | two different routes never share a path, whatever their titles |
| Route.RejectsBadByte | net/net.go:16 | a title holding any byte outside `[a-zA-Z0-9]`, such as a dash, is rejected |
| Route.RejectsEmptyTitle | net/net.go:16 | a route with an empty title is rejected |
| Route.RejectsTrailingSlash | net/net.go:16 | a route followed by a trailing slash is rejected |
| FilePath.LastDotOfBase | net/net.go:27 | the backward scan of `filepath.Ext` finds the last dot that no separator follows, or reports that the final element has no dot |
| FilePath.Ext | net/net.go:27 | the extension is a suffix of the path that is empty or starts with its only dot, and it holds no separator; it is empty only when every dot of the path has a separator after it, that is, when the final element has no dot |
| FilePath.TrimExt | net/net.go:27 | the expression that strips the extension leaves exactly the file name without its extension: the result followed by the extension is the file name |
| FilePath.ExtOfTxt | net/net.go:27 | the extension of `stem + ".txt"` is ".txt" for every stem, even one that holds dots |
| FilePath.TrimExtOfTxt | net/net.go:27 | stripping the extension from `title + ".txt"` gives back the title |
| Wiki.FileName | gowiki/wiki.go:13 | the file of a page is its title followed by ".txt", and stripping the extension recovers the title |
| Wiki.FileNameInjective | gowiki/wiki.go:13 | different titles are stored under different file names |
| Wiki.SavePage | gowiki/wiki.go:12-15 | a write succeeds exactly when the system reports no fault; on success the page's file holds exactly the body and every other key of the map keeps its contents (see Left out for titles holding a separator); on failure the error names the page's file and carries the reported operation and cause |
| Wiki.LoadPage | gowiki/wiki.go:17-24 | a load succeeds exactly when the page's file exists; it then returns the requested title and the file's bytes, and otherwise a not-exist error naming the file |
| Wiki.SaveThenLoad | gowiki/wiki.go:26-35 | round trip: a page that was saved loads back equal to itself |
| Wiki.SaveKeepsOtherPages | gowiki/wiki.go:12-15 | saving a page leaves every other title loading as before |
| Wiki.LastWriteWins | gowiki/wiki.go:14 | saving a title twice gives the same directory as saving only the second body, and a load returns the second body |
| Wiki.SaveFailureNamesFile | gowiki/wiki.go:12-15 | a failed save reports a non-empty error text that contains the page's file name |
| Handlers.MakeHandler | net/net.go:38-47 | a path outside the pattern's language gets the status 404 and leaves the directory alone, whatever the wrapped handler would do; a path in it runs the wrapped handler with the path's title |
| Handlers.EditPrefixIsRoute | net/net.go:52 | the literal "/edit/" followed by a title is the edit route of that title |
| Handlers.ViewPrefixIsRoute | net/net.go:95 | the literal "/view/" followed by a title is the view route of that title |
| Handlers.ViewHandler | net/net.go:49-57 | view renders the stored body under the requested title; when the page is missing it answers 302 to the edit route of the same title; the directory never changes |
| Handlers.EditHandler | net/net.go:59-66 | edit always renders the edit template on a page with the requested title, holding the stored body or an empty body when the page is missing; the directory never changes |
| Handlers.SaveHandler | net/net.go:85-96 | on success the title then loads with the form's body, the directory afterwards is exactly the one a successful `SavePage` of that page gives, so no other file is created, removed or changed, and the answer is 302 to the view route; on failure the directory is unchanged and the answer is 500 with the error text, never a redirect |
| Handlers.NewDocHandler | net/net.go:72-83 | on success the form's title, never checked against the route pattern, then loads with the form's body, the directory afterwards is exactly the one a successful `SavePage` of that page gives, so no other key of the map is created, removed or changed (see Left out for titles holding a separator), and the answer is 302 to "/"; on failure the directory is unchanged and the answer is 500 whose message is the error text naming the page's file |
| Handlers.GlobbedIsFileName | net/net.go:20-27 | every name the glob returns is the file of the title that stripping its extension gives, and that title has no separator |
| Handlers.FileNameGlobbed | net/net.go:20-27 | the file of every title without a separator matches the glob |
| Handlers.LoadListedSucceeds | net/net.go:27-32 | the load the index makes for a globbed file succeeds with the stripped title and the file's bytes |
| Handlers.DocsSound | net/net.go:25-33 | every page the index renders is non-nil and is a stored page whose file sits in the working directory |
| Handlers.DocsComplete | net/net.go:25-33 | every stored page whose file sits in the working directory is rendered by the index |
| Handlers.IndexHandler | net/net.go:18-36 | every load the index makes succeeds, so no nil page is rendered; the pages rendered are exactly the stored pages whose files sit in the working directory, with their stored bodies |
| Flows.RedirectTargetsAreRoutes | net/net.go:49-96 | every redirect a mounted routed handler emits is 302 to a valid route for the title of the request: view leads to edit and save leads to view, while edit never redirects |
| Flows.SaveThenView | net/net.go:49-96 | saving a body through the save route redirects to the view route, and following that redirect renders exactly the saved body |
| Flows.ViewMissingThenEdit | net/net.go:49-66 | viewing a missing page redirects to its edit route, and following it renders an empty page of the same title with the directory unchanged |
| Flows.NewDocBypassesRoutes | net/net.go:72-83 | a page created with a title the route pattern rejects is stored, yet every routed handler answers 404 for its route |
| Flows.SavedPageIsListed | net/net.go:18-36 | a page saved under a title without a separator is listed by the index with its body |

## Left out

- `formHandler` (`/create/`) only executes a template with no data, so it has no logic to model.
- `main`, `http.ListenAndServe`, the logging and the mux registration are real HTTP I/O. `Flows.Mounted` models only which handler each routed prefix receives. The mux's own path cleaning and URL decoding are not modelled.
- Template execution is opaque. `tmpl.RenderTemplate` answering 500 when a template fails is not modelled, so rendering always succeeds.
- `http.Error` appends a newline to the message and sets headers, and `http.NotFound` writes a fixed body text. Responses record only the status and the message.
- `http.Redirect` cleans every target that has no scheme and no host. Every target the handlers emit is already a clean absolute path, so cleaning leaves it unchanged and the model keeps the targets as emitted.
- `Handlers.IndexHandler` returns the listing as a set. `filepath.Glob` sorts the names, and that order is not modelled. The glob's error branch is not modelled either, because it fails only on a malformed pattern and "./*.txt" is well formed.
- `Wiki.LoadPage` fails only for a missing file. Unreadable files and read errors are not modelled.
- `Wiki.SavePage` leaves the directory unchanged on every failure. A write that fails after the file was opened and truncated can leave a partial file, and that case is not modelled.
- The file mode 0600 and the operating system's real errors are not modelled. Faults are supplied as a parameter.
- The directory is a map keyed by the literal file name, and names are not normalised. A title that holds a separator or ".." can name the same file as another title, such as `./Foo` and `Foo`, or a file in another directory. The map treats such names as different keys.
- Wiki.SavePage: for titles that hold a separator, "every other file keeps its contents" describes the map, not the real directory. Saving `./Foo` overwrites the file of `Foo`. The same limit applies to `Wiki.SaveKeepsOtherPages`.
- Handlers.NewDocHandler: the form's title is never checked, so it can hold a separator. For such a title, "other titles are unchanged" describes the map, not the real directory. Creating `./Foo` replaces the body that `/view/Foo` and the index then show.
- `FormValue` yields the first value of a field. The merge of query and body values that `ParseForm` performs is not modelled.
- hello/hello.go and greetings/greetings_test.go exercise code that is not part of this model.
- Concurrent requests are not modelled. The handlers share no memory, and racing writes to one file are left to the filesystem.
