/** The request-path validator of the wiki: the pattern
    `^/(view|edit|save)/([a-zA-Z0-9]+)$` and the title extraction built on it.
    The accepted language is stated directly (`Accepted`), and `Parse` is a
    scanner proved to recognise exactly that language. */
module Router {
  import opened Results

  /** The first capture group of the pattern. */
  datatype Action = View | Edit | Save

  function ActionName(a: Action): string {
    match a
    case View => "view"
    case Edit => "edit"
    case Save => "save"
  }

  /** Reads an action word back; the inverse of `ActionName`. */
  function ActionOf(segment: string): (r: Option<Action>)
    ensures r.Some? ==> ActionName(r.value) == segment
    ensures forall a :: ActionName(a) == segment ==> r == Some(a)
  {
    if segment == "view" then Some(View)
    else if segment == "edit" then Some(Edit)
    else if segment == "save" then Some(Save)
    else None
  }

  /** The character class `[a-zA-Z0-9]`. */
  predicate IsTitleChar(c: char) {
    'a' <= c <= 'z' || 'A' <= c <= 'Z' || '0' <= c <= '9'
  }

  /** The second capture group `[a-zA-Z0-9]+`: non-empty, title characters only. */
  ghost predicate IsTitle(t: string) {
    |t| > 0 && forall i :: 0 <= i < |t| ==> IsTitleChar(t[i])
  }

  /** The path a request for action `a` on page `t` carries. */
  function Url(a: Action, t: string): string {
    "/" + ActionName(a) + "/" + t
  }

  /** The paths of the three actions, as the handlers spell them. */
  lemma UrlLiterals(t: string)
    ensures Url(View, t) == "/view/" + t
    ensures Url(Edit, t) == "/edit/" + t
    ensures Url(Save, t) == "/save/" + t
  {
  }

  /** The language of the anchored pattern: the whole path, nothing before or after. */
  ghost predicate Accepted(p: string) {
    exists a: Action, t: string :: IsTitle(t) && p == Url(a, t)
  }

  /** The two capture groups of a successful match. */
  datatype Match = Match(action: Action, title: string)

  /** Character-by-character check of `[a-zA-Z0-9]*`. */
  function AllTitleChars(s: string): (r: bool)
    ensures r <==> forall i :: 0 <= i < |s| ==> IsTitleChar(s[i])
  {
    if |s| == 0 then true else IsTitleChar(s[0]) && AllTitleChars(s[1..])
  }

  /** Index of the first '/' at or after `from`, or -1 when there is none. */
  function FindSlash(p: string, from: nat): (k: int)
    requires from <= |p|
    ensures k == -1 || from <= k < |p|
    ensures k == -1 ==> forall j :: from <= j < |p| ==> p[j] != '/'
    ensures k != -1 ==> p[k] == '/' && forall j :: from <= j < k ==> p[j] != '/'
    decreases |p| - from
  {
    if from == |p| then -1
    else if p[from] == '/' then from
    else FindSlash(p, from + 1)
  }

  /** Scans a request path: a leading '/', an action word up to the next '/',
      then a non-empty run of title characters reaching the end of the path. */
  function Parse(p: string): (r: Option<Match>)
    ensures r.Some? ==> IsTitle(r.value.title) && p == Url(r.value.action, r.value.title)
  {
    if |p| == 0 || p[0] != '/' then None
    else
      var k := FindSlash(p, 1);
      if k < 0 then None
      else
        match ActionOf(p[1..k])
        case None => None
        case Some(a) =>
          var t := p[k + 1..];
          if |t| > 0 && AllTitleChars(t) then
            assert p == "/" + p[1..k] + "/" + t;
            Some(Match(a, t))
          else None
  }

  /** Every path of the pattern's language is recognised, with its own groups. */
  lemma {:induction false} ParseComplete(a: Action, t: string)
    requires IsTitle(t)
    ensures Parse(Url(a, t)) == Some(Match(a, t))
  {
    var p := Url(a, t);
    var n := ActionName(a);
    assert |n| == 4;
    assert p[0] == '/';
    assert p[5] == '/';
    forall j | 1 <= j < 5
      ensures p[j] != '/'
    {
      assert p[j] == n[j - 1];
    }
    var k := FindSlash(p, 1);
    assert k == 5;
    assert p[1..5] == n;
    assert p[6..] == t;
  }

  /** `Parse` recognises exactly the language of the pattern, and the groups
      it returns are the ones the path was built from. */
  lemma ParseCorrect(p: string, a: Action, t: string)
    ensures Parse(p) == Some(Match(a, t)) <==> IsTitle(t) && p == Url(a, t)
  {
    if IsTitle(t) && p == Url(a, t) {
      ParseComplete(a, t);
    }
  }

  /** A path names its action and title uniquely. */
  lemma UrlInjective(a1: Action, t1: string, a2: Action, t2: string)
    requires Url(a1, t1) == Url(a2, t2)
    ensures a1 == a2 && t1 == t2
  {
    var p := Url(a1, t1);
    assert p[1..5] == ActionName(a1) && p[1..5] == ActionName(a2);
    assert p[6..] == t1 && p[6..] == t2;
  }

  /** Models `getTitle`: the second group of a match, or the error `getTitle`
      returns (after answering 404) when the path is not of the pattern. */
  function GetTitle(path: string): (r: Result<string, string>)
    ensures r.Success? <==> Accepted(path)
    ensures r.Success? ==> IsTitle(r.value) && exists a :: path == Url(a, r.value)
    ensures r.Failure? ==> r.error == "Invalid page title"
  {
    match Parse(path)
    case None =>
      assert !Accepted(path) by {
        if Accepted(path) {
          var a, t :| IsTitle(t) && path == Url(a, t);
          ParseComplete(a, t);
          assert false;
        }
      }
      Failure("Invalid page title")
    case Some(m) => Success(m.title)
  }
}
