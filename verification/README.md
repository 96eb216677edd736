# gowiki in Dafny

A verified model of the core of gowiki, a small web wiki written in Go
(`wiki.go`). Pages are flat files named after their titles. A client views,
edits and saves them through three routes. The model covers three parts:

- **Router** (`router.dfy`). This is the path validator `validPath`, the
  pattern `^/(view|edit|save)/([a-zA-Z0-9]+)$`, together with `getTitle`. The
  accepted language is written out directly as `Accepted`: some action word
  and some non-empty run of ASCII letters and digits, joined as
  `"/" + action + "/" + title`, with nothing before or after. `Parse` is an
  explicit scanner, and it is proved to recognise exactly that language and
  to return the groups the path was built from. Go's `$` without the
  multi-line flag matches only at the very end of the text, so a trailing
  newline is rejected. The model keeps that.
- **Storage** (`storage.dfy`). This is `getFilename`, `Page.save` and
  `loadPage`. The `data/` directory is an immutable `map<string, seq<byte>>`
  from file name to contents. A write failure is given as a parameter: the
  error the filesystem would report for this write, if any.
- **Handlers** (`handlers.dfy`). This is `viewHandler`, `editHandler`,
  `saveHandler`, `rootHandler` and `makeHandler`. Each is a pure function.
  It returns the calls the handler makes on the response writer, in order,
  and the store it leaves behind. `saveHandler` keeps its quirk: after
  `http.Error` it does not return, so a failed write yields a 500 error
  followed by the redirect to `/view/<title>`. `FirstStatus` models the rule
  that the first header written wins, so the client still sees status 500.
- **Scenarios** (`scenarios.dfy`). These are whole-request properties: a path
  goes through the validating wrapper into a handler, and the store carries
  over to the next request.

`results.dfy` holds the `Option` and `Result` types, which stand in for Go's
nil values and `(value, error)` pairs.

Three facts about the code shape the model:

- Pages are stored at `data/<title>.txt`.
- `Page` does not validate its title; only request paths are validated.
  `FilenameStaysInDataDir` states what that gives for validated titles.
- `saveHandler` redirects even after it has answered 500.

## Model

| member | source | states |
|---|---|---|
| Router.ActionOf | wiki.go:17 | reading an action word back is the inverse of writing it, and it accepts only `view`, `edit` and `save` |
| Router.AllTitleChars | wiki.go:17 | the scan succeeds exactly when every character is in `[a-zA-Z0-9]` |
| Router.Parse | wiki.go:17 | soundness: a match has a non-empty alphanumeric title, and the whole path is `"/" + action + "/" + title` |
| Router.ParseComplete | wiki.go:17 | completeness: every path of the pattern's language is matched, with its own action and title |
| Router.ParseCorrect | wiki.go:17 | a path matches with groups (a, t) if and only if t is a title and the path is exactly `"/" + a + "/" + t`, anchored at both ends |
| Router.UrlInjective | wiki.go:82-88 | the action and title extracted from a path are unique |
| Router.GetTitle | wiki.go:81-89 | succeeds exactly on accepted paths and returns the second group, a valid title of that path; otherwise it returns the error "Invalid page title" |
| Storage.Filename | wiki.go:91-93 | the file name is the directory `data/`, then exactly the title, then the extension `.txt` |
| Storage.TitleOf | wiki.go:91-93 | any stem it recovers rebuilds the file name it came from |
| Storage.TitleOfFilename | wiki.go:91-93 | the title can be recovered from `data/<title>.txt`, so `TitleOf` inverts `getFilename` |
| Storage.FilenameInjective | wiki.go:91-93 | two titles share a file name if and only if they are equal |
| Storage.SavePage | wiki.go:24-27 | a successful save puts the body at the page's file name and adds no other key; a failed save returns its error and leaves the store unchanged; every other entry is unchanged either way |
| Storage.LoadPage | wiki.go:29-36 | succeeds exactly when the page's file exists, and then returns that title with the stored bytes; otherwise it returns the not-exist error and no page |
| Storage.SaveLoadRoundTrip | wiki.go:24-36 | after a successful save of (t, b), loading t returns a page with title t and body exactly b |
| Storage.SaveFrame | wiki.go:24-27 | saving one page leaves the load of every other title unchanged, whether or not the write fails |
| Handlers.FormValue | wiki.go:64 | returns the first value given for the key, or empty when the key is missing or has no values |
| Handlers.FirstStatusKeepsFirst | wiki.go:67-70 | once a call has written a status, later calls such as the redirect after the 500 error do not change the status the client sees |
| Handlers.ViewHandler | wiki.go:43-51 | a missing page gives one 302 redirect to `/edit/<title>`; an existing page renders `view` with the stored page; the store is unchanged |
| Handlers.EditHandler | wiki.go:53-60 | always renders `edit`: with the stored page, or with the title and an empty body when the page is missing; the store is unchanged |
| Handlers.SaveHandler | wiki.go:62-71 | always ends with a 302 redirect to `/view/<title>`; on success the form body is stored under the title, no other key is added and no other entry changes; on a failed write the store is unchanged and a 500 error with the error text comes before the redirect |
| Handlers.RootHandler | wiki.go:38-41 | behaves as the view handler on `FrontPage`: it redirects to `/edit/FrontPage` or renders `data/FrontPage.txt` |
| Handlers.MakeHandler | wiki.go:95-103 | a path outside the pattern is answered 404 with the store unchanged, whatever the wrapped handler; an accepted path runs the wrapped handler on its title |
| Scenarios.SaveThenView | wiki.go:43-71 | saving body b under t redirects with 302, and viewing t afterwards renders exactly b |
| Scenarios.ViewMissingRedirectsToEdit | wiki.go:45-48 | viewing a missing page redirects to `/edit/<title>`, a path the validator accepts with the same title |
| Scenarios.EditMissingIsBlank | wiki.go:55-59 | editing a missing page renders the edit form on that title with an empty body |
| Scenarios.BadTitleNotFound | wiki.go:95-100 | `/view/bad title!` is answered 404, and no handler is reached |
| Scenarios.EmptyBodySave | wiki.go:64-70 | a save with no `body` field stores an empty file and redirects to the view |
| Scenarios.SaveFailureIs500 | wiki.go:66-70 | on a failed write the client sees status 500 with the error text, the redirect still follows, and the store is unchanged |
| Scenarios.HandlersFrame | wiki.go:43-71 | whichever handler serves a path, every title other than the path's own loads as before |
| Scenarios.FilenameStaysInDataDir | wiki.go:91-93 | a validated title names a file directly inside `data/`: between the directory and the extension there are only title characters |

## Left out

- The HTTP server is not modelled: the route registration on the mux, `ListenAndServe` and the `SERVING_PORT`/`DEFAULT_PORT` lookup (wiki.go:105-116). This is I/O plumbing. Which handler a path reaches is therefore chosen by the caller of `MakeHandler`.
- Template parsing and execution (wiki.go:16, wiki.go:73-79) come from a foreign library. Rendering is the opaque reply `Render(name, page)`, and a template failure (a 500 response) is not modelled.
- Logging calls are not modelled. They are side effects only.
- Filesystem details are not modelled: the `0600` permission, partial writes, and races between concurrent saves. A write either replaces the entry or fails as a whole, as the `writeFault` parameter decides. File names are compared as exact strings, as on a case-sensitive filesystem; on a case-insensitive one, titles that differ only in letter case share a file, so `FilenameInjective`, `SaveFrame` and `HandlersFrame` hold there only for titles that differ other than in case.
- Storage.LoadPage: fails only when the file is missing. A file that exists but cannot be read is not modelled, because the store has no notion of permissions.
- The bodies of responses written after the first status are not modelled. Only the order of the calls and the first status are modelled.
- The request body arrives as bytes. Go's string to `[]byte` conversion keeps the bytes unchanged, so no text encoding is modelled.
- Go's `regexp` engine is not modelled. The pattern's language is specified directly.
