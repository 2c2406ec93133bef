/**
  The route validator of net/net.go: the pattern `^/(edit|save|view)/([a-zA-Z0-9]+)$`
  written as a hand-made parser, together with the route formatter it inverts.
 */
module Route {
  import opened Wrappers
  import opened Bytes

  /** The three alternatives of the pattern's first group. */
  datatype Verb = Edit | Save | View

  /** How a verb is spelled in a path. Every verb is four bytes long. */
  function VerbName(v: Verb): (s: seq<byte>)
    ensures |s| == 4
  {
    match v
    case Edit => Ascii("edit")
    case Save => Ascii("save")
    case View => Ascii("view")
  }

  /** Verbs are told apart by their first byte: 'e', 's', 'v'. */
  lemma VerbNameInjective(v1: Verb, v2: Verb)
    requires VerbName(v1) == VerbName(v2)
    ensures v1 == v2
  {
    assert VerbName(v1)[0] == VerbName(v2)[0];
  }

  /** The verb spelled by `s`, if `s` spells one. */
  function VerbNamed(s: seq<byte>): (r: Option<Verb>)
    ensures r.Some? ==> VerbName(r.value) == s
    ensures forall v :: VerbName(v) == s ==> r == Some(v)
  {
    forall v1, v2 | VerbName(v1) == VerbName(v2) ensures v1 == v2 {
      VerbNameInjective(v1, v2);
    }
    if s == VerbName(Edit) then Some(Edit)
    else if s == VerbName(Save) then Some(Save)
    else if s == VerbName(View) then Some(View)
    else None
  }

  /** A title the second group accepts: one or more ASCII letters or digits. */
  predicate ValidTitle(t: seq<byte>) {
    |t| > 0 && forall i :: 0 <= i < |t| ==> IsAlnum(t[i])
  }

  /** A left-to-right scan of `t` for bytes outside `[a-zA-Z0-9]`. */
  function AllAlnum(t: seq<byte>): (b: bool)
    ensures b <==> forall i :: 0 <= i < |t| ==> IsAlnum(t[i])
  {
    if |t| == 0 then true
    else IsAlnum(t[0]) && AllAlnum(t[1..])
  }

  /** The path naming `title` under `verb`: "/" + verb + "/" + title. */
  function FormatRoute(verb: Verb, title: seq<byte>): (p: seq<byte>)
    ensures |p| == 6 + |title|
    ensures p[0] == Slash && p[5] == Slash
    ensures p[1..5] == VerbName(verb)
    ensures p[6..] == title
  {
    [Slash] + VerbName(verb) + [Slash] + title
  }

  /** The language of the pattern, stated independently of the parser. */
  ghost predicate Matches(path: seq<byte>) {
    exists v: Verb, t: seq<byte> :: ValidTitle(t) && path == FormatRoute(v, t)
  }

  /**
    What `validatePath.FindStringSubmatch` yields: the first and second groups on a
    match, nothing otherwise. The pattern is anchored at both ends and every verb has
    four bytes, so a match has "/" at offsets 0 and 5, a verb in between and the
    title from offset 6 to the end.
   */
  function ParseRoute(path: seq<byte>): (r: Option<(Verb, seq<byte>)>)
    ensures r.Some? ==> ValidTitle(r.value.1) && path == FormatRoute(r.value.0, r.value.1)
  {
    if |path| < 7 || path[0] != Slash || path[5] != Slash then None
    else match VerbNamed(path[1..5])
      case None => None
      case Some(v) => if AllAlnum(path[6..]) then Some((v, path[6..])) else None
  }

  /** Round trip: every verb and valid title is recovered from its formatted route. */
  lemma ParseFormat(v: Verb, t: seq<byte>)
    requires ValidTitle(t)
    ensures ParseRoute(FormatRoute(v, t)) == Some((v, t))
  {
  }

  /** The parser accepts exactly the language of the pattern. */
  lemma ParseRouteAcceptsExactly(path: seq<byte>)
    ensures ParseRoute(path).Some? <==> Matches(path)
  {
  }

  /** Distinct routes never share a path, whatever their titles. */
  lemma FormatRouteInjective(v1: Verb, t1: seq<byte>, v2: Verb, t2: seq<byte>)
    requires FormatRoute(v1, t1) == FormatRoute(v2, t2)
    ensures v1 == v2 && t1 == t2
  {
    VerbNameInjective(v1, v2);
  }

  /** A title with a byte outside `[a-zA-Z0-9]` (a dash, a dot, a slash) is rejected. */
  lemma RejectsBadByte(v: Verb, t: seq<byte>, i: nat)
    requires i < |t| && !IsAlnum(t[i])
    ensures ParseRoute(FormatRoute(v, t)) == None
  {
  }

  /** A route with an empty title is rejected. */
  lemma RejectsEmptyTitle(v: Verb)
    ensures ParseRoute(FormatRoute(v, [])) == None
  {
  }

  /** A route followed by a trailing slash is rejected. */
  lemma RejectsTrailingSlash(v: Verb, t: seq<byte>)
    ensures ParseRoute(FormatRoute(v, t) + [Slash]) == None
  {
    var p := FormatRoute(v, t) + [Slash];
    assert p[|p| - 1] == Slash;
    RejectsBadByte(v, t + [Slash], |t|);
    assert FormatRoute(v, t + [Slash]) == p;
  }
}
