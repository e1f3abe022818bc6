/**
 * The body of the merger's `main` after argument parsing: gather the
 * input paths, expand them to files, load and merge the collections, and
 * choose the output file.
 */
module MergerMain {
  import opened Wrappers
  import opened Text
  import opened PyValues
  import opened FileSystem
  import opened Documents
  import opened CollectionMerger
  import opened MergeProperties
  import opened MergerInputs

  /** Why the merger stops with "Error: ..." instead of writing a file. */
  datatype RunError =
    | ListUnreadable(listFile: string)  // the `-f` file cannot be opened
    | NoInput                           // "No input provided"
    | NoJsonFiles                       // "No JSON files found in the specified input paths"
    | LoadFailed(path: string)          // a collection file cannot be opened or is not JSON
    | MergeFailed(error: MergeError)    // `merge_collections` raised

  /** The file the merger writes and the collection it holds. */
  datatype Output = Output(path: string, merged: Value)

  /**
   * `args.input` followed by the paths listed in `args.file`; `None` when
   * that file cannot be opened. An empty `-f ""` is ignored, as `if
   * args.file` does. The `-i` paths come first and verbatim; every path
   * taken from the file is non-empty and stripped.
   */
  function RequestedPaths(texts: Texts, input: seq<string>, listFile: Option<string>): (r: Option<seq<string>>)
    ensures r.None? <==> listFile.Some? && listFile.value != "" && listFile.value !in texts
    ensures r.Some? ==> |input| <= |r.value| && r.value[..|input|] == input
    ensures r.Some? ==> forall i :: |input| <= i < |r.value| ==>
      r.value[i] != "" && !IsSpace(r.value[i][0]) && !IsSpace(r.value[i][|r.value[i]| - 1])
  {
    if listFile.None? || listFile.value == "" then Some(input)
    else if listFile.value !in texts then None
    else Some(input + ListedPaths(texts[listFile.value]))
  }

  /** `[load_collection(f) for f in paths]`: the documents, or the first path that fails to load. */
  function LoadAll(files: Files, paths: seq<string>): (r: Result<seq<Value>, string>)
    ensures r.Success? ==> |r.value| == |paths|
  {
    if paths == [] then Success([])
    else
      match Load(files, paths[0])
      case Parsed(doc) =>
        (match LoadAll(files, paths[1..])
         case Success(docs) => Success([doc] + docs)
         case Failure(p) => Failure(p))
      case _ => Failure(paths[0])
  }

  /** Loading fails exactly when some path does not load to a document, and then names the first such path. */
  lemma {:induction false} LoadAllFails(files: Files, paths: seq<string>)
    ensures LoadAll(files, paths).Failure? <==> exists i :: 0 <= i < |paths| && !Load(files, paths[i]).Parsed?
    ensures LoadAll(files, paths).Failure? ==>
      exists i :: 0 <= i < |paths| && paths[i] == LoadAll(files, paths).error && !Load(files, paths[i]).Parsed?
        && forall j :: 0 <= j < i ==> Load(files, paths[j]).Parsed?
    ensures LoadAll(files, paths).Success? ==>
      forall i :: 0 <= i < |paths| ==> Load(files, paths[i]) == Parsed(LoadAll(files, paths).value[i])
  {
    if paths != [] {
      LoadAllFails(files, paths[1..]);
      if Load(files, paths[0]).Parsed? {
        if LoadAll(files, paths[1..]).Failure? {
          var i :| 0 <= i < |paths[1..]| && paths[1..][i] == LoadAll(files, paths[1..]).error
            && !Load(files, paths[1..][i]).Parsed? && forall j :: 0 <= j < i ==> Load(files, paths[1..][j]).Parsed?;
          assert paths[i + 1] == paths[1..][i];
          assert forall j :: 1 <= j < i + 1 ==> paths[j] == paths[1..][j - 1];
        } else {
          assert forall i :: 1 <= i < |paths| ==> paths[i] == paths[1..][i - 1];
        }
      }
    }
  }

  /**
   * `main` of the merger once the arguments are parsed: `input` is
   * `args.input` (empty when absent), `listFile` is `args.file` and
   * `output` is `args.output`.
   */
  method RunMerger(fs: Resolver, texts: Texts, files: Files, input: seq<string>, listFile: Option<string>, output: Option<string>)
    returns (r: Result<Output, RunError>)
    ensures RequestedPaths(texts, input, listFile).None? <==> listFile.Some? && r == Failure(ListUnreadable(listFile.value))
    ensures RequestedPaths(texts, input, listFile) == Some([]) <==> r == Failure(NoInput)
    ensures RequestedPaths(texts, input, listFile).Some? ==>
      var paths := RequestedPaths(texts, input, listFile).value;
      var found := Expand(fs, paths);
      && (paths != [] && found == [] <==> r == Failure(NoJsonFiles))
      && (found != [] ==>
            match LoadAll(files, found)
            case Failure(p) => r == Failure(LoadFailed(p))
            case Success(docs) =>
              match Merge(docs)
              case Failure(e) => r == Failure(MergeFailed(e))
              case Success(merged) => r == Success(Output(OutputPath(MergedName(docs), output), merged)))
  {
    var inputPaths := input;
    if listFile.Some? && listFile.value != "" {
      if listFile.value !in texts {
        return Failure(ListUnreadable(listFile.value));
      }
      inputPaths := inputPaths + ListedPaths(texts[listFile.value]);
    }
    if inputPaths == [] {
      return Failure(NoInput);
    }

    var found := GetCollectionFiles(fs, inputPaths);
    if found == [] {
      return Failure(NoJsonFiles);
    }

    var collections: seq<Value> := [];
    for i := 0 to |found|
      invariant LoadAll(files, found[..i]).Success? && LoadAll(files, found[..i]).value == collections
    {
      LoadAllAppend(files, found[..i], found[i]);
      assert found[..i + 1] == found[..i] + [found[i]];
      match Load(files, found[i]) {
        case Parsed(doc) =>
          collections := collections + [doc];
        case _ =>
          LoadAllPrefix(files, found, i);
          return Failure(LoadFailed(found[i]));
      }
    }
    assert found[..|found|] == found;

    var merged := MergeCollections(collections);
    if merged.Failure? {
      return Failure(MergeFailed(merged.error));
    }
    MergeSetsName(collections);
    var name := Name(merged.value).value.s;
    var outputPath := if output.None? || output.value == "" then Replace(name, " + ", "_") + "_merged.json" else output.value;
    return Success(Output(outputPath, merged.value));
  }

  /** Loading one more path after a run that loaded. */
  lemma {:induction false} LoadAllAppend(files: Files, paths: seq<string>, p: string)
    requires LoadAll(files, paths).Success?
    ensures LoadAll(files, paths + [p]) ==
      match Load(files, p)
      case Parsed(doc) => Success(LoadAll(files, paths).value + [doc])
      case _ => Failure(p)
  {
    if paths != [] {
      assert (paths + [p])[0] == paths[0] && (paths + [p])[1..] == paths[1..] + [p];
      var doc0 := Load(files, paths[0]).doc;
      var rest := LoadAll(files, paths[1..]).value;
      LoadAllAppend(files, paths[1..], p);
      match Load(files, p) {
        case Parsed(doc) => assert [doc0] + (rest + [doc]) == [doc0] + rest + [doc];
        case _ =>
      }
    } else {
      assert paths + [p] == [p] && [p][1..] == [];
      match Load(files, p) {
        case Parsed(doc) => assert [doc] + [] == [] + [doc];
        case _ =>
      }
    }
  }

  /** When the first `i` paths load and path `i` does not, loading the whole list fails at path `i`. */
  lemma {:induction false} LoadAllPrefix(files: Files, paths: seq<string>, i: nat)
    requires i < |paths| && LoadAll(files, paths[..i]).Success? && !Load(files, paths[i]).Parsed?
    ensures LoadAll(files, paths) == Failure(paths[i])
  {
    if i > 0 {
      assert paths[..i][1..] == paths[1..][..i - 1];
      LoadAllPrefix(files, paths[1..], i - 1);
    }
  }
}
