/**
 * The part of the file system both tools look at, as a value. What a path
 * argument names is decided by the operating system (following symbolic
 * links), so the model takes that resolution as given.
 */
module FileSystem {

  /** What a path names: a regular file, a directory with its listing, or something else (a device, a FIFO, a socket). */
  datatype Node = File | Dir(entries: seq<Entry>) | Special

  /** One name in a directory listing, in the order the operating system reports it. */
  datatype Entry = Entry(name: string, node: Node)

  /** What each path argument resolves to; a path missing from the map names nothing. */
  type Resolver = map<string, Node>

  /** `os.path.isdir(p)`, `Path(p).is_dir()`. */
  predicate IsDir(fs: Resolver, p: string)
  {
    p in fs && fs[p].Dir?
  }

  /** `Path(p).is_file()`. */
  predicate IsFile(fs: Resolver, p: string)
  {
    p in fs && fs[p].File?
  }

  /** The names of a listing, `os.listdir`. */
  function Names(entries: seq<Entry>): (r: seq<string>)
    ensures |r| == |entries|
    ensures forall i :: 0 <= i < |entries| ==> r[i] == entries[i].name
  {
    if entries == [] then [] else [entries[0].name] + Names(entries[1..])
  }
}
