/**
 * What opening and reading a file gives the tools. Reading and parsing are
 * done by the operating system and the `json` library, so the model takes
 * their outcome for each path as given.
 */
module Documents {
  import opened PyValues

  /** The outcome of `json.load(open(p))`. */
  datatype Loaded =
    | Parsed(doc: Value)  // the file holds a JSON document
    | NotJson             // `json.JSONDecodeError` (or a decoding error)
    | Unreadable          // `open` raised: missing file, a directory, no permission

  /** The outcome of loading each path; a path missing from the map cannot be opened. */
  type Files = map<string, Loaded>

  /** The text of each file a tool can open as text; a path missing from the map cannot be opened. */
  type Texts = map<string, string>

  function Load(files: Files, p: string): Loaded
  {
    if p in files then files[p] else Unreadable
  }
}
