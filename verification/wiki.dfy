/**
  The page store of gowiki/wiki.go. The working directory is a map from file name to
  file contents; a page titled T lives in the file T + ".txt".
 */
module Wiki {
  import opened Wrappers
  import opened Bytes
  import FilePath

  /** `gowiki.Page`: a title and the raw bytes of its body. */
  datatype Page = Page(title: seq<byte>, body: seq<byte>)

  /** The files of the working directory, by name. */
  type Store = map<seq<byte>, seq<byte>>

  /** The name of the file holding the page titled `title`. */
  function FileName(title: seq<byte>): (name: seq<byte>)
    ensures |name| == |title| + 4
    ensures name[..|title|] == title
    ensures name[|title|..] == FilePath.TxtExt
    ensures FilePath.TrimExt(name) == title
  {
    FilePath.TrimExtOfTxt(title);
    title + FilePath.TxtExt
  }

  /** Different titles are kept in different files. */
  lemma FileNameInjective(t1: seq<byte>, t2: seq<byte>)
    requires FileName(t1) == FileName(t2)
    ensures t1 == t2
  {
  }

  /** What the operating system reports when a file operation fails. */
  datatype Fault = Fault(op: seq<byte>, cause: seq<byte>)

  /** Go's `*os.PathError`, the error every failing file call of `os` returns. */
  datatype PathError = PathError(op: seq<byte>, path: seq<byte>, cause: seq<byte>) {

    /** `Error()`: "op path: cause". It names the file and is never empty. */
    function Text(): (text: seq<byte>)
      ensures |text| == |op| + |path| + |cause| + 3
      ensures text[|op| + 1..|op| + 1 + |path|] == path
    {
      op + Ascii(" ") + path + Ascii(": ") + cause
    }
  }

  /** The error `os.ReadFile` reports for a file that does not exist. */
  const NotExistCause: seq<byte> := Ascii("no such file or directory")

  /**
    `Page.Save` as `SavePage`: write the body to the page's file, replacing whatever it held. The
    write either succeeds, giving the new directory, or fails with the fault the
    operating system reports, leaving the directory as it was.
   */
  function SavePage(fs: Store, p: Page, fault: Option<Fault>): (r: Result<Store, PathError>)
    ensures r.Success? <==> fault.None?
    ensures r.Success? ==> r.value.Keys == fs.Keys + {FileName(p.title)}
    ensures r.Success? ==> r.value[FileName(p.title)] == p.body
    ensures r.Success? ==> forall k :: k in fs && k != FileName(p.title) ==> r.value[k] == fs[k]
    ensures r.Failure? ==> r.error.path == FileName(p.title)
    ensures r.Failure? ==> r.error.op == fault.value.op && r.error.cause == fault.value.cause
  {
    var name := FileName(p.title);
    match fault
    case None => Success(fs[name := p.body])
    case Some(f) => Failure(PathError(f.op, name, f.cause))
  }

  /**
    `LoadPage`: read the page's file. A missing file is an error and gives no page;
    a present one gives a page carrying the requested title and the file's bytes.
   */
  function LoadPage(fs: Store, title: seq<byte>): (r: Result<Page, PathError>)
    ensures r.Success? <==> FileName(title) in fs
    ensures r.Success? ==> r.value.title == title && r.value.body == fs[FileName(title)]
    ensures r.Failure? ==> r.error.path == FileName(title) && r.error.cause == NotExistCause
  {
    var name := FileName(title);
    if name in fs then Success(Page(title, fs[name]))
    else Failure(PathError(Ascii("open"), name, NotExistCause))
  }

  /** Round trip: a page that was saved loads back unchanged. */
  lemma SaveThenLoad(fs: Store, p: Page)
    ensures SavePage(fs, p, None).Success?
    ensures LoadPage(SavePage(fs, p, None).value, p.title) == Success(p)
  {
  }

  /** Saving a page leaves every other title loading exactly as before. */
  lemma SaveKeepsOtherPages(fs: Store, p: Page, t: seq<byte>)
    requires t != p.title
    ensures LoadPage(SavePage(fs, p, None).value, t) == LoadPage(fs, t)
  {
  }

  /** Two saves of one title: the second body wins, as if the first never happened. */
  lemma LastWriteWins(fs: Store, t: seq<byte>, b1: seq<byte>, b2: seq<byte>)
    ensures SavePage(SavePage(fs, Page(t, b1), None).value, Page(t, b2), None)
         == SavePage(fs, Page(t, b2), None)
    ensures LoadPage(SavePage(SavePage(fs, Page(t, b1), None).value, Page(t, b2), None).value, t)
         == Success(Page(t, b2))
  {
    var k := FileName(t);
    assert fs[k := b1][k := b2] == fs[k := b2];
  }

  /** A failed save reports an error that names the page's file and is not empty. */
  lemma SaveFailureNamesFile(fs: Store, p: Page, f: Fault)
    ensures SavePage(fs, p, Some(f)).Failure?
    ensures |SavePage(fs, p, Some(f)).error.Text()| > 0
    ensures SavePage(fs, p, Some(f)).error.Text()[|f.op| + 1..|f.op| + 1 + |p.title| + 4]
         == FileName(p.title)
  {
  }
}
