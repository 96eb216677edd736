/** Whole-request behaviour of the wiki: a path goes through the validating
    wrapper into one of the handlers, and the store carries over from one
    request to the next. */
module Scenarios {
  import opened Results
  import opened Router
  import opened Storage
  import opened Handlers

  /** An accepted path reaches the wrapped handler with its own title. */
  lemma Dispatch(fn: (World, Request, string) -> Effect, w: World, r: Request, a: Action, t: string)
    requires IsTitle(t) && r.path == Url(a, t)
    ensures MakeHandler(fn, w, r) == fn(w, r, t)
  {
  }

  /** Saving body `b` under `t` and then viewing `t` renders exactly `b`. */
  lemma SaveThenView(w: World, form: Form, t: string, b: seq<byte>, nextFault: Option<IoError>, viewForm: Form)
    requires IsTitle(t)
    requires w.writeFault.None?
    requires "body" in form && |form["body"]| > 0 && form["body"][0] == b
    ensures var saved := MakeHandler(SaveHandler, w, Request(Url(Save, t), form));
            && FirstStatus(saved.replies) == StatusFound
            && MakeHandler(ViewHandler, World(saved.store, nextFault), Request(Url(View, t), viewForm)).replies
               == [Render("view", Page(t, b))]
  {
  }

  /** Viewing a page that does not exist redirects to `/edit/<title>`, a path
      the validator accepts and that reaches the editor with the same title. */
  lemma ViewMissingRedirectsToEdit(w: World, r: Request, t: string)
    requires IsTitle(t) && r.path == Url(View, t)
    requires Filename(t) !in w.store
    ensures MakeHandler(ViewHandler, w, r).replies == [Redirect(Url(Edit, t), StatusFound)]
    ensures GetTitle(Url(Edit, t)) == Success(t)
  {
    assert MakeHandler(ViewHandler, w, r) == ViewHandler(w, r, t);
    UrlLiterals(t);
    assert GetTitle(Url(Edit, t)) == Success(t) by {
      ParseComplete(Edit, t);
    }
  }

  /** Editing a page that does not exist renders the edit form on a page with
      that title and an empty body. */
  lemma EditMissingIsBlank(w: World, r: Request, t: string)
    requires IsTitle(t) && r.path == Url(Edit, t)
    requires Filename(t) !in w.store
    ensures MakeHandler(EditHandler, w, r) == Effect([Render("edit", Page(t, []))], w.store)
  {
  }

  /** A path whose title holds a character outside `[a-zA-Z0-9]` is answered
      404 and reaches no handler. */
  lemma BadTitleNotFound(fn: (World, Request, string) -> Effect, w: World, form: Form)
    ensures MakeHandler(fn, w, Request("/view/bad title!", form)) == Effect([NotFound], w.store)
  {
    var p := "/view/bad title!";
    assert p[9] == ' ';
    forall a, t | IsTitle(t)
      ensures Url(a, t) != p
    {
      var u := Url(a, t);
      assert |ActionName(a)| == 4;
      if |t| > 3 {
        assert u[9] == t[3];
      } else {
        assert |u| != |p|;
      }
    }
  }

  /** A save whose form has no `body` value stores an empty file and succeeds. */
  lemma EmptyBodySave(w: World, r: Request, t: string)
    requires IsTitle(t) && r.path == Url(Save, t)
    requires w.writeFault.None?
    requires "body" !in r.form
    ensures var e := MakeHandler(SaveHandler, w, r);
            && e.replies == [Redirect(Url(View, t), StatusFound)]
            && LoadPage(e.store, t) == Success(Page(t, []))
  {
    var e := SaveHandler(w, r, t);
    Dispatch(SaveHandler, w, r, Save, t);
    UrlLiterals(t);
    assert |e.replies| == 1 && e.replies[0] == Redirect(Url(View, t), StatusFound);
    assert e.replies == [Redirect(Url(View, t), StatusFound)];
    var body: seq<byte> := FormValue(r.form, "body");
    assert body == [];
    assert Filename(t) in e.store && e.store[Filename(t)] == body;
    assert LoadPage(e.store, t) == Success(Page(t, body));
  }

  /** A failed write leaves the store alone and the client sees status 500
      with the error's text, although a redirect is issued after it. */
  lemma SaveFailureIs500(w: World, r: Request, t: string)
    requires IsTitle(t) && r.path == Url(Save, t)
    requires w.writeFault.Some?
    ensures var e := MakeHandler(SaveHandler, w, r);
            && e.store == w.store
            && FirstStatus(e.replies) == StatusInternalServerError
            && e.replies[0] == Error(w.writeFault.value.message, StatusInternalServerError)
            && e.replies[|e.replies| - 1] == Redirect(Url(View, t), StatusFound)
  {
  }

  /** Whichever handler serves a path, only the page named by its title can
      change: every other title loads as before. */
  lemma HandlersFrame(w: World, r: Request, a: Action, t: string, other: string)
    requires IsTitle(t) && r.path == Url(a, t)
    requires other != t
    ensures LoadPage(MakeHandler(ViewHandler, w, r).store, other) == LoadPage(w.store, other)
    ensures LoadPage(MakeHandler(EditHandler, w, r).store, other) == LoadPage(w.store, other)
    ensures LoadPage(MakeHandler(SaveHandler, w, r).store, other) == LoadPage(w.store, other)
  {
  }

  /** A validated title only ever names a file directly inside `data/`: the
      characters between the directory and the extension are title characters. */
  lemma FilenameStaysInDataDir(t: string)
    requires IsTitle(t)
    ensures var f := Filename(t);
            && f[..5] == "data/"
            && forall i :: 5 <= i < |f| - 4 ==> IsTitleChar(f[i])
  {
  }
}
