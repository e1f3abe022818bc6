/**
 * The part of `pathlib.PurePosixPath` the checker relies on: how a path
 * string is cut into an anchor and parts, and how `str()` renders it.
 */
module PosixPaths {
  import opened Text

  /** A parsed path: its anchor ("", "/" or "//") and its non-empty parts. */
  datatype PurePath = PurePath(anchor: string, parts: seq<string>)

  /** A part as `Path` keeps it: not empty, not ".", and without '/'. */
  predicate IsPart(p: string)
  {
    p != "" && p != "." && '/' !in p
  }

  predicate Normal(path: PurePath)
  {
    && (path.anchor == "" || path.anchor == "/" || path.anchor == "//")
    && forall i :: 0 <= i < |path.parts| ==> IsPart(path.parts[i])
  }

  /** The root of a path string: exactly two leading slashes are kept apart, any other run of them is one root. */
  function Anchor(s: string): (r: string)
    ensures |r| <= |s| && r == s[..|r|]
  {
    if |s| >= 2 && s[..2] == "//" && (|s| == 2 || s[2] != '/') then "//"
    else if |s| >= 1 && s[0] == '/' then "/"
    else ""
  }

  /** The pieces between slashes that are neither empty nor ".". */
  function Keep(pieces: seq<string>): (r: seq<string>)
    ensures forall i :: 0 <= i < |r| ==> r[i] in pieces && r[i] != "" && r[i] != "."
  {
    if pieces == [] then []
    else
      var rest := Keep(pieces[1..]);
      if pieces[0] == "" || pieces[0] == "." then rest else [pieces[0]] + rest
  }

  /** `Path(s)`: always in normal form, its anchor taken from the front of `s`. */
  function Parse(s: string): (r: PurePath)
    ensures Normal(r)
    ensures |r.anchor| <= |s| && r.anchor == s[..|r.anchor|]
  {
    var a := Anchor(s);
    var pieces := Split(s[|a|..], '/');
    PurePath(a, Keep(pieces))
  }

  /** The parts of a parsed path are the pieces between slashes that are neither empty nor ".". */
  lemma ParseNormal(s: string)
    ensures forall p :: p in Parse(s).parts <==> p in Split(s[|Anchor(s)|..], '/') && p != "" && p != "."
  {
    var pieces := Split(s[|Anchor(s)|..], '/');
    forall p
      ensures p in Keep(pieces) <==> p in pieces && p != "" && p != "."
    {
      KeepMembers(pieces, p);
    }
  }

  /**
   * `str(path)`: the anchor and the parts joined by '/', or "." for the
   * empty relative path. It is never empty, starts with the anchor and
   * ends with the last part.
   */
  function Render(path: PurePath): (r: string)
    ensures r != ""
    ensures |path.anchor| <= |r| && (path.anchor != "" ==> r[..|path.anchor|] == path.anchor)
    ensures path.parts != [] ==> EndsWith(r, path.parts[|path.parts| - 1])
  {
    var s := path.anchor + Join(path.parts, "/");
    assert path.parts != [] ==> EndsWith(s, path.parts[|path.parts| - 1]) by {
      if path.parts != [] {
        JoinEnds(path.parts, "/");
        var j := Join(path.parts, "/");
        var last := path.parts[|path.parts| - 1];
        assert s[|s| - |last|..] == j[|j| - |last|..];
      }
    }
    if s == "" then "." else s
  }

  /** `path / part1 / part2 / ...`. */
  function Child(path: PurePath, rel: seq<string>): PurePath
  {
    PurePath(path.anchor, path.parts + rel)
  }

  /** `str(Path(s))` for a string already in normal form is that string. */
  lemma NormalRoundTrip(parts: seq<string>)
    requires |parts| > 0
    requires forall i :: 0 <= i < |parts| ==> IsPart(parts[i])
    ensures Render(Parse(Join(parts, "/"))) == Join(parts, "/")
  {
    var s := Join(parts, "/");
    assert IsPart(parts[0]);
    JoinStart(parts, "/");
    assert s != "" && s[0] != '/';
    assert |s| >= 2 ==> s[..2][0] == s[0];
    assert Anchor(s) == "";
    assert s[|Anchor(s)|..] == s;
    NoSlashInParts(parts);
    SplitJoin(parts, '/');
    KeepParts(parts);
    assert Parse(s) == PurePath("", parts);
    assert "" + s == s;
  }

  lemma NoSlashInParts(parts: seq<string>)
    requires forall i :: 0 <= i < |parts| ==> IsPart(parts[i])
    ensures forall p :: p in parts ==> '/' !in p
  {
  }

  /** A join of parts that do not start with '/' does not start with '/' either. */
  lemma JoinStart(parts: seq<string>, sep: string)
    requires |parts| > 0 && parts[0] != "" && parts[0][0] != '/'
    ensures Join(parts, sep) != "" && Join(parts, sep)[0] == parts[0][0]
  {
  }

  lemma {:induction false} KeepParts(parts: seq<string>)
    requires forall i :: 0 <= i < |parts| ==> IsPart(parts[i])
    ensures Keep(parts) == parts
  {
    if parts != [] {
      KeepParts(parts[1..]);
    }
  }

  /** Parsing drops empty and "." pieces and nothing else. */
  lemma {:induction false} KeepMembers(pieces: seq<string>, p: string)
    ensures p in Keep(pieces) <==> p in pieces && p != "" && p != "."
  {
    if pieces != [] {
      KeepMembers(pieces[1..], p);
      assert p in pieces <==> p == pieces[0] || p in pieces[1..];
    }
  }
}
