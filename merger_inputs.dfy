/**
 * How the merger turns its arguments into the list of collection files:
 * `get_collection_files`, the path-list file read by `-f`, and the default
 * output file name.
 */
module MergerInputs {
  import opened Wrappers
  import opened Text
  import opened FileSystem
  import opened Seqs

  /**
   * `os.path.join(a, b)` on POSIX: an absolute `b` replaces `a`; otherwise
   * one '/' goes between them unless `a` is empty or already ends with one.
   * Either way the result ends with `b`.
   */
  function PathJoin(a: string, b: string): (r: string)
    ensures EndsWith(r, b)
    ensures |b| > 0 && b[0] == '/' ==> r == b
    ensures !(|b| > 0 && b[0] == '/') ==> |a| <= |r| && r[..|a|] == a
    ensures !(|b| > 0 && b[0] == '/') && a != "" && b != "" ==> |a| < |r| && (r[|a| - 1] == '/' || r[|a|] == '/')
  {
    if |b| > 0 && b[0] == '/' then b
    else if a == "" || a[|a| - 1] == '/' then a + b
    else a + "/" + b
  }

  /** `[os.path.join(path, f) for f in names if f.endswith('.json')]`. */
  function JsonEntries(path: string, names: seq<string>): seq<string>
  {
    if names == [] then []
    else
      var rest := JsonEntries(path, names[1..]);
      if EndsWith(names[0], ".json") then [PathJoin(path, names[0])] + rest else rest
  }

  /** A directory contributes one path per listed name ending in ".json", in listing order, and nothing else. */
  lemma {:induction false} JsonEntriesMembers(path: string, names: seq<string>, p: string)
    ensures p in JsonEntries(path, names) <==> exists f :: f in names && EndsWith(f, ".json") && p == PathJoin(path, f)
    ensures |JsonEntries(path, names)| <= |names|
  {
    if names != [] {
      JsonEntriesMembers(path, names[1..], p);
      assert forall f :: f in names <==> f == names[0] || f in names[1..];
    }
  }

  /** Every path taken from a directory names a ".json" file. */
  lemma {:induction false} JsonEntriesEndWithJson(path: string, names: seq<string>)
    ensures forall p :: p in JsonEntries(path, names) ==> EndsWith(p, ".json")
  {
    if names != [] {
      JsonEntriesEndWithJson(path, names[1..]);
      if EndsWith(names[0], ".json") {
        var p := PathJoin(path, names[0]);
        assert p[|p| - 5..] == names[0][|names[0]| - 5..];
      }
    }
  }

  /** What one input path stands for: the ".json" entries of a directory, or the path itself. */
  function ExpandPath(fs: Resolver, p: string): seq<string>
  {
    if IsDir(fs, p) then JsonEntries(p, Names(fs[p].entries)) else [p]
  }

  /** The files `get_collection_files` lists for the given paths. */
  function Expand(fs: Resolver, paths: seq<string>): seq<string>
  {
    ConcatMap(p => ExpandPath(fs, p), paths)
  }

  /** `get_collection_files(input_paths)`. */
  method GetCollectionFiles(fs: Resolver, paths: seq<string>) returns (files: seq<string>)
    ensures files == Expand(fs, paths)
  {
    if |paths| == 0 {
      return [];
    }
    files := [];
    for i := 0 to |paths|
      invariant files == Expand(fs, paths[..i])
    {
      var path := paths[i];
      assert paths[..i + 1][..i] == paths[..i];
      if IsDir(fs, path) {
        files := files + JsonEntries(path, Names(fs[path].entries));
      } else {
        files := files + [path];
      }
    }
    assert paths[..|paths|] == paths;
  }

  /** Expansion works path by path: the order of the input is kept and nothing is removed as a duplicate. */
  lemma ExpandAppend(fs: Resolver, a: seq<string>, b: seq<string>)
    ensures Expand(fs, a + b) == Expand(fs, a) + Expand(fs, b)
  {
    ConcatMapAppend(p => ExpandPath(fs, p), a, b);
  }

  /** Paths that are not directories come back verbatim and in order. */
  lemma {:induction false} ExpandNoDirectories(fs: Resolver, paths: seq<string>)
    requires forall i :: 0 <= i < |paths| ==> !IsDir(fs, paths[i])
    ensures Expand(fs, paths) == paths
  {
    if paths != [] {
      var init := paths[..|paths| - 1];
      ExpandNoDirectories(fs, init);
      assert paths == init + [paths[|paths| - 1]];
    }
  }

  /** A listed file is either an input that is not a directory, or a ".json" entry of an input directory. */
  lemma ExpandMembers(fs: Resolver, paths: seq<string>, f: string)
    ensures f in Expand(fs, paths) <==>
      exists p :: p in paths && if IsDir(fs, p) then f in JsonEntries(p, Names(fs[p].entries)) else f == p
  {
    ConcatMapMembers(p => ExpandPath(fs, p), paths, f);
  }

  /**
   * Python reads a text file with universal newlines: "\r\n" and a lone
   * "\r" both become "\n" before the text is cut into lines.
   */
  function UniversalNewlines(s: string): (r: string)
    ensures '\r' !in r
  {
    if s == [] then []
    else if s[0] == '\r' then
      if |s| > 1 && s[1] == '\n' then "\n" + UniversalNewlines(s[2..]) else "\n" + UniversalNewlines(s[1..])
    else [s[0]] + UniversalNewlines(s[1..])
  }

  /** Text without a carriage return reads back unchanged. */
  lemma {:induction false} UniversalNewlinesPlain(s: string)
    requires '\r' !in s
    ensures UniversalNewlines(s) == s
  {
    if s != [] {
      assert s == [s[0]] + s[1..];
      UniversalNewlinesPlain(s[1..]);
    }
  }

  /** The lines `for line in f` yields, without their line endings. */
  function Lines(text: string): seq<string>
  {
    Split(UniversalNewlines(text), '\n')
  }

  /** `[line.strip() for line in lines if line.strip()]`: no more entries than lines, each non-empty and without whitespace at either end. */
  function PathEntries(lines: seq<string>): (r: seq<string>)
    ensures |r| <= |lines|
    ensures forall i :: 0 <= i < |r| ==> r[i] != "" && !IsSpace(r[i][0]) && !IsSpace(r[i][|r[i]| - 1])
  {
    if lines == [] then []
    else
      var rest := PathEntries(lines[1..]);
      if Strip(lines[0]) != "" then [Strip(lines[0])] + rest else rest
  }

  /** The paths listed in a path-list file with the given text. */
  function ListedPaths(text: string): seq<string>
  {
    PathEntries(Lines(text))
  }

  /** Lines are filtered one by one, keeping their order. */
  lemma {:induction false} PathEntriesAppend(a: seq<string>, b: seq<string>)
    ensures PathEntries(a + b) == PathEntries(a) + PathEntries(b)
  {
    if a == [] {
      assert a + b == b;
    } else {
      assert (a + b)[1..] == a[1..] + b;
      PathEntriesAppend(a[1..], b);
    }
  }

  /** A line is dropped exactly when it is all whitespace; otherwise it is kept stripped. */
  lemma PathEntriesLine(line: string)
    ensures PathEntries([line]) ==
      if forall k :: 0 <= k < |line| ==> IsSpace(line[k]) then [] else [Strip(line)]
  {
  }

  /** `s.strip()` leaves a string without whitespace at either end as it is. */
  lemma StripTrimmed(s: string)
    requires s != "" && !IsSpace(s[0]) && !IsSpace(s[|s| - 1])
    ensures Strip(s) == s
  {
  }

  /**
   * Writing paths one per line and reading the file back gives the same
   * paths, when each is non-empty, has no whitespace at either end and no
   * line break inside.
   */
  lemma {:induction false} ListedPathsRoundTrip(paths: seq<string>)
    requires |paths| > 0
    requires forall p :: p in paths ==> p != "" && !IsSpace(p[0]) && !IsSpace(p[|p| - 1])
    requires forall p :: p in paths ==> '\n' !in p && '\r' !in p
    ensures ListedPaths(Join(paths, "\n")) == paths
  {
    JoinNoCarriageReturn(paths, "\n");
    UniversalNewlinesPlain(Join(paths, "\n"));
    SplitJoin(paths, '\n');
    PathEntriesTrimmed(paths);
  }

  lemma {:induction false} JoinNoCarriageReturn(parts: seq<string>, sep: string)
    requires '\r' !in sep
    requires forall p :: p in parts ==> '\r' !in p
    ensures '\r' !in Join(parts, sep)
  {
    if |parts| > 1 {
      JoinNoCarriageReturn(parts[1..], sep);
    }
  }

  lemma {:induction false} PathEntriesTrimmed(lines: seq<string>)
    requires forall p :: p in lines ==> p != "" && !IsSpace(p[0]) && !IsSpace(p[|p| - 1])
    ensures PathEntries(lines) == lines
  {
    if lines != [] {
      StripTrimmed(lines[0]);
      PathEntriesTrimmed(lines[1..]);
    }
  }

  /**
   * The file the merged collection is written to: the `-o` argument when
   * it is given and non-empty, otherwise the merged name with every " + "
   * turned into "_", followed by "_merged.json".
   */
  function OutputPath(mergedName: string, output: Option<string>): (r: string)
    ensures output.Some? && output.value != "" ==> r == output.value
    ensures output.None? || output.value == "" ==> EndsWith(r, "_merged.json") && |r| <= |mergedName| + 12
  {
    if output.None? || output.value == "" then Replace(mergedName, " + ", "_") + "_merged.json"
    else output.value
  }

  /** The default name joins the sorted collection names with "_", when no name holds a '+'. */
  lemma DefaultOutputPath(names: seq<string>, output: Option<string>)
    requires output.None? || output.value == ""
    requires forall n :: n in names ==> '+' !in n
    ensures OutputPath(Join(names, " + "), output) == Join(names, "_") + "_merged.json"
  {
    ReplaceJoiner(names);
  }
}
