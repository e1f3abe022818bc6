/**
 * `collectionChecker.py`: which files under the given paths hold a Postman
 * collection, judged by its top-level shape only.
 */
module CollectionChecker {
  import opened Wrappers
  import opened Text
  import opened PyValues
  import opened FileSystem
  import opened Documents
  import opened PosixPaths
  import opened Seqs

  /** The shape test: a dict with `info` and `item` keys whose `info` is a dict. */
  predicate IsCollection(v: Value)
  {
    && v.Dict?
    && Lookup(v.dict, "info").Some?
    && Lookup(v.dict, "item").Some?
    && Lookup(v.dict, "info").value.Dict?
  }

  /**
   * `is_valid_postman_collection(file_path)`. A file is valid exactly when
   * it opens and parses to a dict whose `info` is a dict and which has an
   * `item`: a file that cannot be read, that is not JSON, or whose document
   * is a list, a string, a number, a boolean or null is invalid.
   */
  predicate IsValidPostmanCollection(files: Files, p: string): (r: bool)
    ensures r <==>
      exists ms, info, item :: p in files && files[p] == Parsed(Dict(ms))
        && Lookup(ms, "info") == Some(Dict(info)) && Lookup(ms, "item") == Some(item)
  {
    match Load(files, p)
    case Parsed(doc) => IsCollection(doc)
    case _ => false
  }

  /** Whatever `item` holds, only its presence matters. */
  lemma ItemNotInspected(ms: seq<Member>, item: Value)
    ensures IsCollection(Dict(Store(ms, "item", item))) <==>
      Lookup(ms, "info").Some? && Lookup(ms, "info").value.Dict?
  {
    LookupStore(ms, "item", item, "item");
    LookupStore(ms, "item", item, "info");
  }

  /** A relative path of at least one part whose last part ends in ".json". */
  predicate JsonRel(rel: seq<string>)
  {
    |rel| > 0 && EndsWith(rel[|rel| - 1], ".json")
  }

  /** The relative paths of the entries of one directory listing that match "*.json", in listing order. */
  function Matches(entries: seq<Entry>): (r: seq<seq<string>>)
    ensures forall i :: 0 <= i < |r| ==> JsonRel(r[i])
  {
    if entries == [] then []
    else
      var rest := Matches(entries[1..]);
      if EndsWith(entries[0].name, ".json") then [[entries[0].name]] + rest else rest
  }

  /** The relative paths under `name` of the matches found below it. */
  function Under(name: string, rels: seq<seq<string>>): seq<seq<string>>
  {
    seq(|rels|, i requires 0 <= i < |rels| => [name] + rels[i])
  }

  /**
   * `rglob('*.json')` below a directory with the given listing, as
   * relative paths: the directory's own matches first, then those of
   * each subdirectory in listing order, each subdirectory walked the same
   * way. A match may itself be a directory or any other kind of entry.
   */
  function Walk(entries: seq<Entry>): (r: seq<seq<string>>)
    ensures forall i :: 0 <= i < |r| ==> JsonRel(r[i])
    decreases entries, 1
  {
    Matches(entries) + SubWalks(entries)
  }

  /** The walks of the subdirectories in a listing, in listing order. */
  function SubWalks(entries: seq<Entry>): (r: seq<seq<string>>)
    ensures forall i :: 0 <= i < |r| ==> JsonRel(r[i])
    decreases entries, 0
  {
    if entries == [] then []
    else
      var below := if entries[0].node.Dir? then Under(entries[0].name, Walk(entries[0].node.entries)) else [];
      below + SubWalks(entries[1..])
  }

  /**
   * The relative path `rel` leads through directories of the listing to
   * an entry whose name ends in ".json".
   */
  predicate IsJsonPath(entries: seq<Entry>, rel: seq<string>)
    decreases |rel|, 1
  {
    |rel| >= 1 && exists i :: 0 <= i < |entries| && Reaches(entries, i, rel)
  }

  /** Entry `i` of the listing is the first step of `rel`: the ".json" entry itself, or a directory below which the rest leads to one. */
  predicate Reaches(entries: seq<Entry>, i: int, rel: seq<string>)
    requires |rel| >= 1
    decreases |rel|, 0
  {
    && 0 <= i < |entries| && entries[i].name == rel[0]
    && if |rel| == 1 then EndsWith(rel[0], ".json")
       else entries[i].node.Dir? && IsJsonPath(entries[i].node.entries, rel[1..])
  }

  /** Some entry of the listing has the given name. */
  predicate Listed(entries: seq<Entry>, name: string)
  {
    exists i :: 0 <= i < |entries| && entries[i].name == name
  }

  lemma ListedTail(entries: seq<Entry>, name: string)
    requires entries != []
    ensures Listed(entries, name) <==> entries[0].name == name || Listed(entries[1..], name)
  {
  }

  lemma {:induction false} MatchesMembers(entries: seq<Entry>, rel: seq<string>)
    ensures rel in Matches(entries) <==> |rel| == 1 && EndsWith(rel[0], ".json") && Listed(entries, rel[0])
  {
    if entries != [] {
      MatchesMembers(entries[1..], rel);
      if |rel| >= 1 {
        ListedTail(entries, rel[0]);
      }
      if |rel| == 1 {
        assert rel == [rel[0]];
      }
    }
  }

  lemma UnderMembers(name: string, rels: seq<seq<string>>, rel: seq<string>)
    ensures rel in Under(name, rels) <==> |rel| >= 1 && rel[0] == name && rel[1..] in rels
  {
    var r := Under(name, rels);
    if rel in r {
      var i :| 0 <= i < |r| && r[i] == rel;
      assert rel[1..] == rels[i];
    }
    if |rel| >= 1 && rel[0] == name && rel[1..] in rels {
      var i :| 0 <= i < |rels| && rels[i] == rel[1..];
      assert r[i] == rel;
    }
  }

  /** A relative path is found by the walk exactly when it leads through directories to a ".json" entry. */
  lemma {:induction false} WalkMembers(entries: seq<Entry>, rel: seq<string>)
    ensures rel in Walk(entries) <==> IsJsonPath(entries, rel)
    decreases entries, 1
  {
    MatchesMembers(entries, rel);
    SubWalksMembers(entries, rel);
    if |rel| == 1 {
      if Listed(entries, rel[0]) && EndsWith(rel[0], ".json") {
        var i :| 0 <= i < |entries| && entries[i].name == rel[0];
        assert Reaches(entries, i, rel);
      }
    } else if |rel| >= 2 {
      if i :| Reaches(entries, i, rel) {
        assert LeadsDown(entries, i, rel);
      }
      if i :| LeadsDown(entries, i, rel) {
        assert Reaches(entries, i, rel);
      }
    }
  }

  /** Entry `i` of the listing is a directory named `rel[0]` below which the rest of `rel` is a ".json" path. */
  predicate LeadsDown(entries: seq<Entry>, i: int, rel: seq<string>)
  {
    && 0 <= i < |entries| && |rel| >= 2 && entries[i].name == rel[0]
    && entries[i].node.Dir? && IsJsonPath(entries[i].node.entries, rel[1..])
  }

  lemma {:induction false} SubWalksMembers(entries: seq<Entry>, rel: seq<string>)
    ensures rel in SubWalks(entries) <==> exists i :: LeadsDown(entries, i, rel)
    decreases entries, 0
  {
    if entries != [] {
      var e := entries[0];
      SubWalksMembers(entries[1..], rel);
      var below := if e.node.Dir? then Under(e.name, Walk(e.node.entries)) else [];
      if e.node.Dir? {
        UnderMembers(e.name, Walk(e.node.entries), rel);
        if |rel| >= 1 {
          WalkMembers(e.node.entries, rel[1..]);
        }
      }
      assert rel in below <==> LeadsDown(entries, 0, rel);
      if i :| LeadsDown(entries, i, rel) {
        if i > 0 {
          assert entries[1..][i - 1] == entries[i];
          assert LeadsDown(entries[1..], i - 1, rel);
        }
      }
      if j :| LeadsDown(entries[1..], j, rel) {
        assert entries[j + 1] == entries[1..][j];
        assert LeadsDown(entries, j + 1, rel);
      }
    }
  }

  /** Every relative path the walk finds ends with a ".json" name. */
  lemma {:induction false} JsonPathEnds(entries: seq<Entry>, rel: seq<string>)
    requires IsJsonPath(entries, rel)
    ensures EndsWith(rel[|rel| - 1], ".json")
    decreases |rel|
  {
    var i :| 0 <= i < |entries| && Reaches(entries, i, rel);
    if |rel| > 1 {
      JsonPathEnds(entries[i].node.entries, rel[1..]);
    }
  }

  /** The relative paths no deeper than `maxDepth` parts, in order. */
  function Within(rels: seq<seq<string>>, maxDepth: int): (r: seq<seq<string>>)
    ensures forall i :: 0 <= i < |r| ==> r[i] in rels && |r[i]| <= maxDepth
  {
    if rels == [] then []
    else
      var rest := Within(rels[1..], maxDepth);
      if |rels[0]| <= maxDepth then [rels[0]] + rest else rest
  }

  lemma {:induction false} WithinMembers(rels: seq<seq<string>>, maxDepth: int, rel: seq<string>)
    ensures rel in Within(rels, maxDepth) <==> rel in rels && |rel| <= maxDepth
  {
    if rels != [] {
      WithinMembers(rels[1..], maxDepth, rel);
      assert rel in rels <==> rel == rels[0] || rel in rels[1..];
    }
  }

  /** The strings of the paths `path / rel` for each `rel`, in order: each ends with the last part of its `rel`. */
  function RenderAll(path: PurePath, rels: seq<seq<string>>): (r: seq<string>)
    ensures |r| == |rels|
    ensures forall i :: 0 <= i < |rels| && rels[i] != [] ==> EndsWith(r[i], rels[i][|rels[i]| - 1])
  {
    seq(|rels|, i requires 0 <= i < |rels| => Render(Child(path, rels[i])))
  }

  /**
   * `find_json_files(input_path, max_depth)`: the file itself when the
   * path names a regular file, whatever its name; the depth-bounded
   * ".json" matches when it names a directory; nothing otherwise.
   */
  function FindJsonFiles(fs: Resolver, input: string, maxDepth: int): (r: seq<string>)
    ensures IsFile(fs, Render(Parse(input))) ==> r == [Render(Parse(input))]
    ensures !IsFile(fs, Render(Parse(input))) ==> forall x :: x in r ==> EndsWith(x, ".json")
    ensures !IsFile(fs, Render(Parse(input))) && !IsDir(fs, Render(Parse(input))) ==> r == []
  {
    var path := Parse(input);
    var key := Render(path);
    if IsFile(fs, key) then [key]
    else if IsDir(fs, key) then
      var found := Within(Walk(fs[key].entries), maxDepth);
      RenderedJson(path, found);
      RenderAll(path, found)
    else []
  }

  /** Rendering relative paths whose last part ends in ".json" gives strings ending in ".json". */
  lemma RenderedJson(path: PurePath, rels: seq<seq<string>>)
    requires forall i :: 0 <= i < |rels| ==> JsonRel(rels[i])
    ensures forall x :: x in RenderAll(path, rels) ==> EndsWith(x, ".json")
  {
  }

  /**
   * What a directory yields: exactly the paths below it that lead to a
   * ".json" entry within `maxDepth` parts, each ending in ".json".
   */
  lemma FindInDirectory(fs: Resolver, input: string, maxDepth: int, x: string)
    requires IsDir(fs, Render(Parse(input)))
    ensures x in FindJsonFiles(fs, input, maxDepth) <==>
      exists rel :: IsJsonPath(fs[Render(Parse(input))].entries, rel) && |rel| <= maxDepth
        && x == Render(Child(Parse(input), rel))
    ensures x in FindJsonFiles(fs, input, maxDepth) ==> EndsWith(x, ".json")
  {
    var path := Parse(input);
    var entries := fs[Render(path)].entries;
    var r := RenderAll(path, Within(Walk(entries), maxDepth));
    assert FindJsonFiles(fs, input, maxDepth) == r;
    if x in r {
      FoundIsJsonPath(path, entries, maxDepth, x);
    }
    if exists rel :: IsJsonPath(entries, rel) && |rel| <= maxDepth && x == Render(Child(path, rel)) {
      JsonPathIsFound(path, entries, maxDepth, x);
    }
  }

  lemma FoundIsJsonPath(path: PurePath, entries: seq<Entry>, maxDepth: int, x: string)
    requires x in RenderAll(path, Within(Walk(entries), maxDepth))
    ensures exists rel :: IsJsonPath(entries, rel) && |rel| <= maxDepth && x == Render(Child(path, rel))
  {
    var found := Within(Walk(entries), maxDepth);
    var r := RenderAll(path, found);
    var i :| 0 <= i < |r| && r[i] == x;
    var rel := found[i];
    assert x == Render(Child(path, rel));
    WithinMembers(Walk(entries), maxDepth, rel);
    WalkMembers(entries, rel);
  }

  lemma JsonPathIsFound(path: PurePath, entries: seq<Entry>, maxDepth: int, x: string)
    requires exists rel :: IsJsonPath(entries, rel) && |rel| <= maxDepth && x == Render(Child(path, rel))
    ensures x in RenderAll(path, Within(Walk(entries), maxDepth))
  {
    var found := Within(Walk(entries), maxDepth);
    var r := RenderAll(path, found);
    var rel :| IsJsonPath(entries, rel) && |rel| <= maxDepth && x == Render(Child(path, rel));
    WalkMembers(entries, rel);
    WithinMembers(Walk(entries), maxDepth, rel);
    var i :| 0 <= i < |found| && found[i] == rel;
    assert r[i] == x;
  }

  lemma EndsWithLonger(s: string, t: string, u: string)
    requires EndsWith(s, t) && EndsWith(t, u)
    ensures EndsWith(s, u)
  {
  }

  /** With a depth of zero or less a directory yields nothing: every match is at least one part deep. */
  lemma NoDepthNoMatches(fs: Resolver, input: string, maxDepth: int)
    requires maxDepth <= 0 && !IsFile(fs, Render(Parse(input)))
    ensures FindJsonFiles(fs, input, maxDepth) == []
  {
  }

  /** A path in normal form that names a regular file yields exactly itself, whatever its extension and the depth. */
  lemma FileYieldsItself(fs: Resolver, parts: seq<string>, maxDepth: int)
    requires |parts| > 0 && forall i :: 0 <= i < |parts| ==> IsPart(parts[i])
    requires IsFile(fs, Join(parts, "/"))
    ensures FindJsonFiles(fs, Join(parts, "/"), maxDepth) == [Join(parts, "/")]
  {
    NormalRoundTrip(parts);
  }

  /** The files of several inputs: each input's files in turn, in input order. */
  function Discover(fs: Resolver, inputs: seq<string>, maxDepth: int): seq<string>
  {
    ConcatMap(p => FindJsonFiles(fs, p, maxDepth), inputs)
  }

  /** Discovery works input by input: nothing is reordered or removed as a duplicate. */
  lemma DiscoverAppend(fs: Resolver, a: seq<string>, b: seq<string>, maxDepth: int)
    ensures Discover(fs, a + b, maxDepth) == Discover(fs, a, maxDepth) + Discover(fs, b, maxDepth)
  {
    ConcatMapAppend(p => FindJsonFiles(fs, p, maxDepth), a, b);
  }

  /** The paths judged valid, in their order. */
  function ValidOnly(files: Files, paths: seq<string>): seq<string>
  {
    Filter(p => IsValidPostmanCollection(files, p), paths)
  }

  /** A path is kept exactly when it is one of the paths and is valid. */
  lemma ValidOnlyMembers(files: Files, paths: seq<string>, p: string)
    ensures p in ValidOnly(files, paths) <==> p in paths && IsValidPostmanCollection(files, p)
  {
    FilterMembers(q => IsValidPostmanCollection(files, q), paths, p);
  }

  /** Filtering runs path by path, so the valid paths keep their order and multiplicity. */
  lemma ValidOnlyAppend(files: Files, a: seq<string>, b: seq<string>)
    ensures ValidOnly(files, a + b) == ValidOnly(files, a) + ValidOnly(files, b)
  {
    FilterAppend(q => IsValidPostmanCollection(files, q), a, b);
  }

  /** What the checker leaves behind. */
  datatype Report =
    | NothingFound                                                        // "No files found to check!"
    | Checked(found: seq<string>, results: seq<string>, written: Option<Written>)

  /** The output file and its text. */
  datatype Written = Written(path: string, text: string)

  /**
   * `main` of the checker after argument parsing: find the files of every
   * input, judge each, and write the valid ones, one per line, when an
   * output path is given and some file is valid.
   */
  method CheckCollections(fs: Resolver, files: Files, inputs: seq<string>, maxDepth: int, output: Option<string>)
    returns (report: Report)
    ensures report == NothingFound <==> Discover(fs, inputs, maxDepth) == []
    ensures report.Checked? ==>
      && report.found == Discover(fs, inputs, maxDepth)
      && report.results == ValidOnly(files, report.found)
      && (report.written.Some? <==> output.Some? && output.value != "" && report.results != [])
      && (report.written.Some? ==> report.written.value == Written(output.value, Join(report.results, "\n")))
  {
    var found: seq<string> := [];
    for i := 0 to |inputs|
      invariant found == Discover(fs, inputs[..i], maxDepth)
    {
      assert inputs[..i + 1][..i] == inputs[..i];
      found := found + FindJsonFiles(fs, inputs[i], maxDepth);
    }
    assert inputs[..|inputs|] == inputs;
    if |found| == 0 {
      return NothingFound;
    }

    var results: seq<string> := [];
    for i := 0 to |found|
      invariant results == ValidOnly(files, found[..i])
    {
      assert found[..i + 1][..i] == found[..i];
      if IsValidPostmanCollection(files, found[i]) {
        results := results + [found[i]];
      }
    }
    assert found[..|found|] == found;

    var written := None;
    if output.Some? && output.value != "" && results != [] {
      written := Some(Written(output.value, Join(results, "\n")));
    }
    return Checked(found, results, written);
  }
}
