/** The request handlers of the wiki and the wrapper that validates a path
    before calling one. A handler is a pure function from the state of the
    world, the request and the title to an `Effect`: the calls it makes on the
    response writer, in order, and the store it leaves behind. */
module Handlers {
  import opened Results
  import opened Router
  import opened Storage

  const StatusOK: int := 200
  const StatusFound: int := 302
  const StatusNotFound: int := 404
  const StatusInternalServerError: int := 500

  /** One call on the response writer. `Render` is the execution of a named
      template on a page; the template itself is not modelled. */
  datatype Reply =
    | Redirect(url: string, code: int)
    | Render(template: string, page: Page)
    | Error(message: string, code: int)
    | NotFound
  {
    /** The status code the call writes. */
    function Status(): int {
      match this
      case Redirect(_, code) => code
      case Render(_, _) => StatusOK
      case Error(_, code) => code
      case NotFound => StatusNotFound
    }
  }

  /** Submitted form values: each key with the list of its values. */
  type Form = map<string, seq<seq<byte>>>

  datatype Request = Request(path: string, form: Form)

  /** The store, and the error the filesystem would report for a write, if any. */
  datatype World = World(store: Store, writeFault: Option<IoError>)

  datatype Effect = Effect(replies: seq<Reply>, store: Store)

  /** Models `FormValue`: the first value for the key, or empty when the key
      is absent or has no values. */
  function FormValue(form: Form, key: string): (v: seq<byte>)
    ensures key !in form ==> v == []
    ensures key in form && |form[key]| == 0 ==> v == []
    ensures key in form && |form[key]| > 0 ==> v == form[key][0]
  {
    if key in form && |form[key]| > 0 then form[key][0] else []
  }

  /** The status the client receives: the first call that writes a header
      fixes it, later ones are ignored; no call at all means 200. */
  function FirstStatus(replies: seq<Reply>): int {
    if |replies| == 0 then StatusOK else replies[0].Status()
  }

  /** Calls made after the first one cannot change the status the client sees. */
  lemma FirstStatusKeepsFirst(first: seq<Reply>, later: seq<Reply>)
    requires |first| > 0
    ensures FirstStatus(first + later) == FirstStatus(first)
  {
  }

  /** Models `viewHandler`: a missing page redirects to its editor, an
      existing one is rendered with the view template. */
  function ViewHandler(w: World, r: Request, title: string): (e: Effect)
    ensures e.store == w.store
    ensures Filename(title) !in w.store ==> e.replies == [Redirect("/edit/" + title, StatusFound)]
    ensures Filename(title) in w.store ==>
              e.replies == [Render("view", Page(title, w.store[Filename(title)]))]
  {
    match LoadPage(w.store, title)
    case Failure(_) => Effect([Redirect("/edit/" + title, StatusFound)], w.store)
    case Success(page) => Effect([Render("view", page)], w.store)
  }

  /** Models `editHandler`: the edit template is always rendered, on the
      stored page or, when there is none, on a page with an empty body. */
  function EditHandler(w: World, r: Request, title: string): (e: Effect)
    ensures e.store == w.store
    ensures Filename(title) !in w.store ==> e.replies == [Render("edit", Page(title, []))]
    ensures Filename(title) in w.store ==>
              e.replies == [Render("edit", Page(title, w.store[Filename(title)]))]
  {
    var page := match LoadPage(w.store, title)
                case Failure(_) => Page(title, [])
                case Success(p) => p;
    Effect([Render("edit", page)], w.store)
  }

  /** Models `saveHandler`: stores the form's `body` value under the title and
      always ends with a redirect to the page's view; a failed write adds a 500
      error before that redirect, since `saveHandler` does not return after it. */
  function SaveHandler(w: World, r: Request, title: string): (e: Effect)
    ensures |e.replies| > 0 && e.replies[|e.replies| - 1] == Redirect("/view/" + title, StatusFound)
    ensures w.writeFault.None? ==>
              |e.replies| == 1
              && Filename(title) in e.store && e.store[Filename(title)] == FormValue(r.form, "body")
              && e.store.Keys == w.store.Keys + {Filename(title)}
              && forall f :: f in w.store && f != Filename(title) ==> f in e.store && e.store[f] == w.store[f]
    ensures w.writeFault.Some? ==>
              e.store == w.store
              && e.replies == [Error(w.writeFault.value.message, StatusInternalServerError),
                               Redirect("/view/" + title, StatusFound)]
  {
    var page := Page(title, FormValue(r.form, "body"));
    var (store', err) := SavePage(w.store, page, w.writeFault);
    var errors := match err
                  case Some(e) => [Error(e.message, StatusInternalServerError)]
                  case None => [];
    Effect(errors + [Redirect("/view/" + title, StatusFound)], store')
  }

  /** The title the web root shows. */
  const FrontPage: string := "FrontPage"

  /** Models `rootHandler`: the view handler on the front page. */
  function RootHandler(w: World, r: Request): (e: Effect)
    ensures e.store == w.store
    ensures "data/FrontPage.txt" !in w.store ==> e.replies == [Redirect("/edit/FrontPage", StatusFound)]
    ensures "data/FrontPage.txt" in w.store ==>
              e.replies == [Render("view", Page("FrontPage", w.store["data/FrontPage.txt"]))]
  {
    assert Filename(FrontPage) == "data/FrontPage.txt";
    assert "/edit/" + FrontPage == "/edit/FrontPage";
    ViewHandler(w, r, FrontPage)
  }

  /** Models `makeHandler`: validates the path first; on a path outside the
      pattern the answer is 404 and `fn` is never consulted, otherwise `fn`
      runs on the extracted title. */
  function MakeHandler(fn: (World, Request, string) -> Effect, w: World, r: Request): (e: Effect)
    ensures !Accepted(r.path) ==> e == Effect([NotFound], w.store)
    ensures forall a, t :: IsTitle(t) && r.path == Url(a, t) ==> e == fn(w, r, t)
  {
    match GetTitle(r.path)
    case Failure(_) => Effect([NotFound], w.store)
    case Success(t) =>
      assert forall a, t' :: IsTitle(t') && r.path == Url(a, t') ==> t' == t by {
        forall a, t' | IsTitle(t') && r.path == Url(a, t')
          ensures t' == t
        {
          var a0 :| r.path == Url(a0, t);
          UrlInjective(a, t', a0, t);
        }
      }
      fn(w, r, t)
  }
}
