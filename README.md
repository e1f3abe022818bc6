# Postman collection tools, modelled in Dafny

This project models the two command-line tools of `api_toolbox`:

- **The collection merger** (`collectionMerger.py`). It expands its input paths into collection
  files (a directory stands for its entries whose names end in `.json`, whatever kind of entry they are). It reads further paths
  from a path-list file, loads every collection and merges them into one. The merged
  collection is a copy of the first one. Its `info.name` is the sorted distinct names of all
  inputs joined by `" + "`. Its `item` list is the first collection's items followed by those
  of every later collection, in input order. The output file name defaults to that name with
  `" + "` turned into `"_"` plus `"_merged.json"`.
- **The collection checker** (`collectionChecker.py`). It finds `.json` files under each input
  path, up to a maximum depth. It judges each file by its top-level shape: a JSON object with
  `info` and `item` keys whose `info` is an object. It keeps the valid paths in order and
  writes them one per line when an output path is given.

Parsed JSON is the datatype `PyValues.Value`. Integers stand for numbers, and a dict keeps
its members in insertion order, as Python's does. The file system is given as values:

- `FileSystem.Resolver` says what each path argument names: a file, a directory with its
  listing, or something else.
- `Documents.Files` gives the outcome of `json.load` for each path.
- `Documents.Texts` gives the text of each file opened as text.

The code's loops are methods with loop invariants, each proved against a specification
function:

| method | loop | specification |
|---|---|---|
| `CollectionMerger.Merge` | collectionMerger.py:80-108 | Merging fails with `NoCollections` exactly when there are no collections. It succeeds exactly when there is a collection, every name is a str, and every later `item` finds a list to extend and can be iterated. The result is then a dict, and it has an `item` exactly when the first collection has one. |
| `CollectionMerger.MergeCollections` | the whole merge | `Merge` |
| `CollectionMerger.CollectNames` | the name loop | `SortedSet(NameSet(cs))` |
| `CollectionMerger.AppendItems` | the `extend` loop | `Extended` |
| `MergerInputs.GetCollectionFiles` | the path loop | `Expand` |
| `MergerMain.RequestedPaths` | collectionMerger.py:116-124 | It fails exactly when a non-empty `-f` names a file that cannot be opened. Otherwise the `-i` paths come first, verbatim and in order, and every path taken from the file is non-empty and stripped. |
| `MergerMain.RunMerger` | the load loop | `LoadAll` |
| `CollectionChecker.CheckCollections` | both loops of the checker's `main` | `Discover` and `ValidOnly` |

The comprehensions and one-line expressions are functions. The lemmas state what these
functions promise.

The model follows what the code does, in particular:

- The checker returns a bare boolean. It gives no reason for a verdict and has no discovery
  mode: `-d` is parsed and never used.
- A depth of zero or less yields nothing for a directory, because every match is at least one
  part deep.
- Found paths are `str(Path(p))`, that is pathlib-normalised, not the argument as typed. A
  regular file is reported under its normalised name.
- An empty `-o ""` counts as absent in both tools. An empty `-f ""` is ignored.
- A collection whose name is not a str makes the merge fail, in `sorted` or in `join`.

## Model

| member | source | states |
|---|---|---|
| `CollectionMerger.Merge` | collectionMerger.py:80-108 | Merging fails with `NoCollections` exactly when there are no collections. It succeeds exactly when there is a collection, every name is a str, and every later `item` finds a list to extend and can be iterated. The result is then a dict, and it has an `item` exactly when the first collection has one. |
| `CollectionMerger.MergeCollections` | collectionMerger.py:80-108 | The result is exactly `Merge(cs)`. An empty list fails with `NoCollections`. Unreadable or unhashable names fail with `NameUnreadable`. Non-str names fail with `NameNotText`. A later item with no list to extend, or that cannot be iterated, fails accordingly. Otherwise the result is the renamed and extended first collection. |
| `CollectionMerger.CollectNames` | collectionMerger.py:97-101 | The name loop fails on the first unreadable name. Otherwise it fails when some name is not a str. Otherwise it gives the strictly sorted sequence of exactly the distinct names. |
| `CollectionMerger.AppendItems` | collectionMerger.py:104-106 | It succeeds exactly when every later collection that has an `item` finds the first collection's item list and can be iterated. It then appends all contributions in input order. A failure names the first collection that raised: every earlier collection with an `item` was appended. It also gives the matching error. |
| `CollectionMerger.ContributionsAppend` | collectionMerger.py:104-106 | The items of two runs of collections are the items of the first run followed by those of the second: order kept, nothing merged. |
| `CollectionMerger.ExtendedTwice` | collectionMerger.py:106 | Two successive `extend`s are one `extend` by both. |
| `CollectionMerger.ExtendedNothing` | collectionMerger.py:104-106 | Extending by nothing leaves the collection as it was. |
| `CollectionMerger.RenamedKeepsItem` | collectionMerger.py:101 | Setting `info.name` does not touch `item`. |
| `CollectionMerger.ItemOfExtended` | collectionMerger.py:106 | After an `extend`, `item` is the old list followed by the new items. A missing or non-list `item` is left alone. |
| `CollectionMerger.ExtendStep` | collectionMerger.py:104-106 | One turn of the item loop appends what that collection contributes. A collection without `item` contributes nothing and raises nothing. |
| `CollectionMerger.MergeStopsAt` | collectionMerger.py:104-106 | The first later collection whose `item` cannot be appended decides the error: `NoItemList` when the first collection has no item list, otherwise `ItemsNotIterable`. |
| `MergeProperties.MergeKeepsKeys` | collectionMerger.py:94 | A merge keeps the first collection's keys in their order. Every top-level value other than `info` and `item` is the first collection's. Keys of later collections are ignored. |
| `MergeProperties.KeyOfRenamed` | collectionMerger.py:101 | Setting `info.name` leaves every other top-level key as it was. |
| `MergeProperties.KeyOfExtended` | collectionMerger.py:106 | Extending `item` leaves every other top-level key as it was. |
| `MergeProperties.MergeSetsName` | collectionMerger.py:97-101 | The merged `info.name` is the distinct input names, sorted and joined by `" + "`. Every other key of `info` is the first collection's. |
| `MergeProperties.MergeAppendsItems` | collectionMerger.py:94-106 | The merged `item` list is the first collection's items followed by those of every later collection, in input order. When the first collection has no item list, no later collection has an `item`. |
| `MergeProperties.NameSetMembers` | collectionMerger.py:97-99 | A name is in the set exactly when some collection carries it as its str `info.name`. |
| `MergeProperties.NameSetAppend` | collectionMerger.py:97-99 | The names of two runs of collections are the union of their names. |
| `MergeProperties.MergedNameSwap` | collectionMerger.py:97-101 | The merged name does not depend on which run of collections comes first. |
| `MergeProperties.MergeOne` | collectionMerger.py:90-108 | Merging a single collection whose name is a str gives that collection back. |
| `PyValues.LookupStore` | collectionMerger.py:101 | After `d[k] = v`, `d[k]` is `v` and every other key maps as before. |
| `PyValues.StoreStore` | collectionMerger.py:106 | A second assignment to a key overwrites the first. |
| `PyValues.StoreSame` | collectionMerger.py:101 | Assigning a key the value it already has changes nothing. |
| `PyValues.StoreKeepsKeys` | collectionMerger.py:101 | Assigning to a present key keeps the keys and their order. |
| `PyValues.Keys` | collectionMerger.py:106 | `extend` with a dict appends its keys in insertion order. |
| `PyValues.Chars` | collectionMerger.py:106 | `extend` with a str appends its characters, one string each. |
| `PyValues.Iterate` | collectionMerger.py:106 | `extend` accepts exactly lists, dicts and strs. A list contributes its elements. |
| `Text.Insert` | collectionMerger.py:97-99 | Adding a name to a strictly sorted set keeps it strictly sorted and adds exactly that name. |
| `Text.SortedSet` | collectionMerger.py:101 | `sorted` of a set of names is strictly increasing and has exactly the set's elements. |
| `Text.SortedUnique` | collectionMerger.py:101 | Two strictly sorted sequences with the same elements are equal, so `sorted` has one answer. |
| `Text.Less` | collectionMerger.py:101 | In Python's string order a proper prefix comes first, and no string comes before the empty string. |
| `Text.LessTotal` | collectionMerger.py:101 | Python's string order is total: of two different strings one is smaller. |
| `Text.LessTransitive` | collectionMerger.py:101 | Python's string order is transitive. |
| `Text.LessIrreflexive` | collectionMerger.py:101 | No string is smaller than itself. |
| `Text.Replace` | collectionMerger.py:143 | Replacing by something no longer than the pattern never makes the text longer. Replacing a pattern by itself changes nothing. |
| `Text.ReplaceJoiner` | collectionMerger.py:143 | Replacing `" + "` by `"_"` in names joined by `" + "` joins them by `"_"` instead, when no name holds a `'+'`. |
| `Text.ReplaceSkips` | collectionMerger.py:143 | `replace` passes over a prefix free of `'+'` unchanged. |
| `Text.TrimStart` | collectionMerger.py:123 | `lstrip` drops exactly the leading whitespace. |
| `Text.TrimEnd` | collectionMerger.py:123 | `rstrip` drops exactly the trailing whitespace. |
| `Text.Strip` | collectionMerger.py:123 | `strip` leaves no whitespace at either end. |
| `Text.StripEmpty` | collectionMerger.py:123 | A stripped line is empty exactly when the line is all whitespace. |
| `Text.JoinEnds` | collectionMerger.py:101 | `sep.join(parts)` starts with the first part and ends with the last. |
| `Text.Split` | collectionMerger.py:123 | The lines of a text hold no line break and join back to the text. |
| `Text.SplitJoin` | collectionMerger.py:123 | Splitting a join again gives back its parts, when no part holds the separator. |
| `MergerInputs.GetCollectionFiles` | collectionMerger.py:55-77 | The files listed are `Expand(fs, paths)`. There are none for no paths. |
| `MergerInputs.ExpandAppend` | collectionMerger.py:67-77 | Expansion works path by path: input order is kept and duplicates are not removed. |
| `MergerInputs.ExpandNoDirectories` | collectionMerger.py:75-76 | Paths that are not directories come back verbatim and in order. |
| `MergerInputs.ExpandMembers` | collectionMerger.py:68-76 | A listed file is either an input that is not a directory, or a `.json` entry of an input directory. |
| `MergerInputs.JsonEntriesMembers` | collectionMerger.py:71-74 | A directory contributes one joined path per listed name ending in `.json`, and nothing else. |
| `MergerInputs.JsonEntriesEndWithJson` | collectionMerger.py:71-74 | Every path taken from a directory ends in `.json`. |
| `MergerInputs.PathJoin` | collectionMerger.py:72 | `os.path.join(a, b)` ends with `b`. An absolute `b` replaces `a`. Otherwise the result starts with `a`, and when both are non-empty a `/` separates them. |
| `MergerInputs.UniversalNewlines` | collectionMerger.py:122-123 | Reading in text mode leaves no carriage return. |
| `MergerInputs.UniversalNewlinesPlain` | collectionMerger.py:122-123 | Text without a carriage return reads back unchanged. |
| `MergerInputs.PathEntriesAppend` | collectionMerger.py:123 | Lines are filtered one by one, keeping their order. |
| `MergerInputs.PathEntriesLine` | collectionMerger.py:123 | A line is dropped exactly when it is all whitespace. Otherwise it is kept stripped. |
| `MergerInputs.PathEntries` | collectionMerger.py:123 | There are no more entries than lines. Every entry is non-empty and has no whitespace at either end. |
| `MergerInputs.PathEntriesTrimmed` | collectionMerger.py:123 | Lines that are already stripped and non-empty are all kept as they are. |
| `MergerInputs.ListedPathsRoundTrip` | collectionMerger.py:121-124 | Writing paths one per line and reading the file back gives the same paths. This holds when each path is non-empty, has no outer whitespace and no line break, as in the checker's output file. |
| `MergerInputs.OutputPath` | collectionMerger.py:142-146 | A non-empty `-o` is used verbatim. Otherwise the name ends in `"_merged.json"` and is at most 12 characters longer than the merged name. |
| `MergerInputs.DefaultOutputPath` | collectionMerger.py:142-144 | Without `-o`, the output file is the sorted names joined by `"_"` plus `"_merged.json"`, when no name holds a `'+'`. |
| `MergerMain.RequestedPaths` | collectionMerger.py:116-124 | It fails exactly when a non-empty `-f` names a file that cannot be opened. Otherwise the `-i` paths come first, verbatim and in order, and every path taken from the file is non-empty and stripped. |
| `MergerMain.RunMerger` | collectionMerger.py:115-146 | An unreadable `-f` file fails. No requested paths fail with "No input provided". Paths that expand to no files fail with "No JSON files found". Otherwise the first file that does not load fails. Otherwise a merge error fails. Otherwise the output is `Merge` of the loaded documents, written to `OutputPath` of the merged name. |
| `MergerMain.LoadAll` | collectionMerger.py:136 | On success there is one document per path. |
| `MergerMain.LoadAllFails` | collectionMerger.py:136 | Loading fails exactly when some path does not load, and then names the first such path. On success each document is that path's. |
| `MergerMain.LoadAllAppend` | collectionMerger.py:136 | Loading one more path extends the documents or fails at that path. |
| `MergerMain.LoadAllPrefix` | collectionMerger.py:136 | When the first `i` paths load and path `i` does not, loading fails at path `i`. |
| `CollectionChecker.IsValidPostmanCollection` | collectionChecker.py:14-24 | A file is valid exactly when it opens and parses to a dict with an `item` and whose `info` is a dict. Read and parse failures, and lists, strings, numbers, booleans or null at the top, are invalid. |
| `CollectionChecker.ItemNotInspected` | collectionChecker.py:19-22 | Whatever `item` holds, only its presence matters. |
| `CollectionChecker.MatchesMembers` | collectionChecker.py:31 | A directory's own matches are exactly its entries named `*.json`. |
| `CollectionChecker.UnderMembers` | collectionChecker.py:31 | Matches below a subdirectory are prefixed by its name. |
| `CollectionChecker.Walk` | collectionChecker.py:31 | Every relative path `rglob('*.json')` finds has at least one part, and its last part ends in `.json`. |
| `CollectionChecker.WalkMembers` | collectionChecker.py:31 | `rglob('*.json')` finds a relative path exactly when the path leads through directories to an entry named `*.json`. |
| `CollectionChecker.SubWalksMembers` | collectionChecker.py:31 | The subdirectory walks find exactly the paths of two or more parts that lead through a listed subdirectory. |
| `CollectionChecker.JsonPathEnds` | collectionChecker.py:31 | Every path found ends with a `.json` name. |
| `CollectionChecker.WithinMembers` | collectionChecker.py:32 | The depth filter keeps exactly the paths of at most `max_depth` parts. |
| `CollectionChecker.RenderAll` | collectionChecker.py:31 | There is one string per found path. Each ends with the last part of its relative path. |
| `CollectionChecker.FindJsonFiles` | collectionChecker.py:26-32 | A regular file yields exactly its own normalised path, whatever its extension. Otherwise every path yielded ends in `.json`. A path that is neither a file nor a directory yields nothing. |
| `CollectionChecker.FindInDirectory` | collectionChecker.py:31-32 | A directory yields exactly the paths below it that lead to a `.json` entry within `max_depth` parts. Each of them ends in `.json`. |
| `CollectionChecker.NoDepthNoMatches` | collectionChecker.py:31-32 | With `max_depth <= 0`, anything but a regular file yields nothing. |
| `CollectionChecker.FileYieldsItself` | collectionChecker.py:28-30 | A path in normal form that names a regular file yields exactly itself, whatever its extension and the depth. |
| `CollectionChecker.DiscoverAppend` | collectionChecker.py:43-45 | Discovery works input by input: no reordering and no removal of duplicates. |
| `CollectionChecker.ValidOnlyMembers` | collectionChecker.py:52-59 | A path is kept exactly when it was found and is valid. |
| `CollectionChecker.ValidOnlyAppend` | collectionChecker.py:52-59 | Valid paths keep their order and multiplicity. |
| `CollectionChecker.CheckCollections` | collectionChecker.py:42-66 | No files found ends early. Otherwise the found files are the inputs' files concatenated, and the results are exactly the valid ones in order. The results are written, joined by newlines, exactly when a non-empty output path was given and some file is valid. |
| `PosixPaths.Parse` | collectionChecker.py:28 | `Path(s)` is in normal form: its anchor is `""`, `"/"` or `"//"` and is taken from the front of `s`, and no part is empty, `"."` or holds a `/`. |
| `PosixPaths.ParseNormal` | collectionChecker.py:28 | The parts of `Path(s)` are exactly the pieces between slashes that are neither empty nor `"."`. |
| `PosixPaths.KeepMembers` | collectionChecker.py:28 | Parsing drops the empty and `"."` pieces and nothing else. |
| `PosixPaths.NormalRoundTrip` | collectionChecker.py:28-30 | `str(Path(s))` is `s` for a relative path in normal form. |
| `PosixPaths.Render` | collectionChecker.py:30-31 | `str(path)` is never empty, starts with the anchor and ends with the last part, so `str(path / ... / name)` ends with `name`. |
| `Seqs.ConcatMapAppend` | collectionChecker.py:43-45 | `extend` in a loop over two runs is the concatenation of both. |
| `Seqs.ConcatMapMembers` | collectionMerger.py:68-76 | An element of an `extend` loop's result comes from some input element. |
| `Seqs.FilterMembers` | collectionChecker.py:52-59 | A filtered element is one of the inputs that passes. |
| `Seqs.FilterAppend` | collectionChecker.py:52-59 | Filtering two runs concatenates their filtered results. |
| `Seqs.FilterShorter` | collectionChecker.py:52-59 | Filtering adds nothing, and keeps everything when every element passes. |
| `ToolChain.MergedPassesChecker` | collectionChecker.py:19-22 | A merged collection passes the checker exactly when the first input has an `item` key. |

## Left out

- `CollectionMerger.MergeCollections`: works on values, so it does not model the in-place update of the first input. In Python the shallow copy shares the first input's `info` dict and `item` list with the result, and the merge changes them in place: after a success the first input equals the result. A failure while collecting, sorting or joining the names (lines 97-101) comes before any change, so the first input is left as it was. A failure in the item loop (lines 104-106) leaves it with the merged name and the items appended so far. `main` never reads the loaded collections again, so this does not change what is written.
- Argument parsing, including the checker's unused `-d/--discover` flag and the parsing of `--depth` as an integer. The checker's `-i` needs at least one path; `CheckCollections` accepts any list.
- Opening, reading and writing files, `json.load`, `json.dump` and its two-space indentation, and text encodings. Their outcomes are inputs: `Documents.Files` for loading, `Documents.Texts` for the path-list file. `CheckCollections` returns the file it would write; `RunMerger` returns the output path and the merged collection.
- Console output: the checker's per-file "Valid"/"Invalid" lines and messages, the merger's success and error messages, `exit(1)`, and the checker's handling of a failed write.
- JSON numbers with a fraction or an exponent, NaN and infinities. Numbers are integers here. They only ever pass through a merge unchanged or make it fail, as a non-str name.
- A JSON object with a repeated key. `json.load` keeps the last value; the model takes the loaded dict as given.
- Which non-str name makes `sorted` or `join` fail. Both are one error, `NameNotText`.
- Symbolic links inside a directory tree: `rglob` does not descend into linked directories, and the tree here has no links. What a path argument names is given by `FileSystem.Resolver`. The merger looks up the argument as typed; the checker looks up `str(Path(p))`.
- Directories that cannot be listed. pathlib's `rglob` silently skips them. The merger's `os.listdir` raises on one, and the run ends with "Error: ..." and exit status 1. `FileSystem.Node` has no unlistable directory, so neither behaviour is modelled.
- The order of `rglob`. It is modelled as CPython 3.11 walks: a directory's own matches in listing order, then each subdirectory in turn. Other Python versions may order them differently. Listing order comes from the operating system and is taken as given.
- Windows path syntax. Paths are POSIX.
- Strings are sequences of code points; unpaired surrogates and normalisation are not modelled.
