/** Page storage of the wiki. The filesystem is an immutable map from file
    name to file contents; `getFilename`, `Page.save` and `loadPage` become
    pure functions over it. */
module Storage {
  import opened Results

  newtype byte = x: int | 0 <= x < 256

  /** The `data/` directory: file name to raw contents. */
  type Store = map<string, seq<byte>>

  /** A wiki page: its title and its raw body bytes. */
  datatype Page = Page(title: string, body: seq<byte>)

  /** An I/O error, carrying the text its `Error()` method would give. */
  datatype IoError = IoError(message: string)

  const Dir: string := "data/"
  const Ext: string := ".txt"

  /** Models `getFilename`: the file a page is kept in. */
  function Filename(title: string): (f: string)
    ensures |f| == |Dir| + |title| + |Ext|
    ensures f[..|Dir|] == Dir && f[|f| - |Ext|..] == Ext
    ensures f[|Dir|..|f| - |Ext|] == title
  {
    Dir + title + Ext
  }

  /** Recovers the title from a page's file name, if it has that shape. */
  function TitleOf(f: string): (r: Option<string>)
    ensures r.Some? ==> Filename(r.value) == f
  {
    if |f| >= |Dir| + |Ext| && f[..|Dir|] == Dir && f[|f| - |Ext|..] == Ext then
      var t := f[|Dir|..|f| - |Ext|];
      assert f == f[..|Dir|] + t + f[|f| - |Ext|..];
      Some(t)
    else None
  }

  /** `TitleOf` inverts `Filename`. */
  lemma TitleOfFilename(t: string)
    ensures TitleOf(Filename(t)) == Some(t)
  {
  }

  /** Distinct titles give distinct file names. */
  lemma FilenameInjective(t1: string, t2: string)
    ensures Filename(t1) == Filename(t2) <==> t1 == t2
  {
  }

  /** The text of the error reading a file that does not exist. */
  function NotExist(f: string): IoError {
    IoError("open " + f + ": no such file or directory")
  }

  /** Models `Page.save`: writes the body to the page's file, overwriting it.
      `fault` is the error the filesystem reports for this write, if any;
      on a fault the store is left as it was. The second component is the
      returned error. */
  function SavePage(s: Store, p: Page, fault: Option<IoError>): (r: (Store, Option<IoError>))
    ensures r.1 == fault
    ensures fault.None? ==> Filename(p.title) in r.0 && r.0[Filename(p.title)] == p.body
    ensures fault.None? ==> r.0.Keys == s.Keys + {Filename(p.title)}
    ensures fault.Some? ==> r.0 == s
    ensures forall f :: f in s && f != Filename(p.title) ==> f in r.0 && r.0[f] == s[f]
  {
    match fault
    case None => (s[Filename(p.title) := p.body], None)
    case Some(e) => (s, Some(e))
  }

  /** Models `loadPage`: reads the page's file; fails exactly when there is no
      such file, and then yields no page. */
  function LoadPage(s: Store, title: string): (r: Result<Page, IoError>)
    ensures r.Success? <==> Filename(title) in s
    ensures r.Success? ==> r.value.title == title && r.value.body == s[Filename(title)]
    ensures r.Failure? ==> r.error == NotExist(Filename(title))
  {
    var f := Filename(title);
    if f in s then Success(Page(title, s[f])) else Failure(NotExist(f))
  }

  /** Round trip: after a successful save, loading the title yields the same
      title and exactly the saved body. */
  lemma SaveLoadRoundTrip(s: Store, t: string, b: seq<byte>)
    ensures LoadPage(SavePage(s, Page(t, b), None).0, t) == Success(Page(t, b))
  {
  }

  /** Frame: saving one page leaves the load of every other title unchanged. */
  lemma SaveFrame(s: Store, p: Page, fault: Option<IoError>, other: string)
    requires other != p.title
    ensures LoadPage(SavePage(s, p, fault).0, other) == LoadPage(s, other)
  {
  }
}
