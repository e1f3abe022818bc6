/**
 * Python objects as `json.load` builds them: `None`, booleans, integers,
 * strings, lists and dicts. A dict keeps its members in insertion order,
 * as Python's does.
 */
module PyValues {
  import opened Wrappers

  /** A value a JSON document loads to; numbers are kept as integers. */
  datatype Value = Null | Bool(b: bool) | Num(n: int) | Str(s: string) | List(list: seq<Value>) | Dict(dict: seq<Member>)

  datatype Member = Member(key: string, value: Value)

  /** `d[k]` when `k in d`, for a dict with members `ms`. */
  function Lookup(ms: seq<Member>, k: string): Option<Value>
  {
    if ms == [] then None
    else if ms[0].key == k then Some(ms[0].value)
    else Lookup(ms[1..], k)
  }

  /** The members after `d[k] = v`: an existing key keeps its place, a new one goes last. */
  function Store(ms: seq<Member>, k: string, v: Value): seq<Member>
  {
    if ms == [] then [Member(k, v)]
    else if ms[0].key == k then [Member(k, v)] + ms[1..]
    else [ms[0]] + Store(ms[1..], k, v)
  }

  /** After `d[k] = v`, `d[k]` is `v` and every other key maps as before. */
  lemma {:induction false} LookupStore(ms: seq<Member>, k: string, v: Value, k': string)
    ensures Lookup(Store(ms, k, v), k') == if k' == k then Some(v) else Lookup(ms, k')
  {
    if ms != [] && ms[0].key != k {
      LookupStore(ms[1..], k, v, k');
    }
  }

  /** A second assignment to the same key overwrites the first. */
  lemma {:induction false} StoreStore(ms: seq<Member>, k: string, v: Value, w: Value)
    ensures Store(Store(ms, k, v), k, w) == Store(ms, k, w)
  {
    if ms != [] && ms[0].key != k {
      StoreStore(ms[1..], k, v, w);
    }
  }

  /** Assigning a key the value it already has changes nothing. */
  lemma {:induction false} StoreSame(ms: seq<Member>, k: string)
    requires Lookup(ms, k).Some?
    ensures Store(ms, k, Lookup(ms, k).value) == ms
  {
    if ms[0].key != k {
      StoreSame(ms[1..], k);
    }
  }

  /** `iter(d)`: the keys of a dict, in insertion order. */
  function Keys(ms: seq<Member>): (r: seq<Value>)
    ensures |r| == |ms|
    ensures forall i :: 0 <= i < |ms| ==> r[i] == Str(ms[i].key)
  {
    if ms == [] then [] else [Str(ms[0].key)] + Keys(ms[1..])
  }

  /** Assigning to a key that is present leaves the keys and their order as they were. */
  lemma {:induction false} StoreKeepsKeys(ms: seq<Member>, k: string, v: Value)
    requires Lookup(ms, k).Some?
    ensures Keys(Store(ms, k, v)) == Keys(ms)
  {
    if ms[0].key != k {
      StoreKeepsKeys(ms[1..], k, v);
    }
  }

  /** `iter(s)`: the characters of a string, each a string of its own. */
  function Chars(s: string): (r: seq<Value>)
    ensures |r| == |s|
    ensures forall i :: 0 <= i < |s| ==> r[i] == Str([s[i]])
  {
    if s == [] then [] else [Str([s[0]])] + Chars(s[1..])
  }

  /**
   * What `lst.extend(v)` appends: the elements of a list, the keys of a
   * dict, the characters of a string; `None` when `v` is not iterable (a
   * `TypeError`).
   */
  function Iterate(v: Value): (r: Option<seq<Value>>)
    ensures r.Some? <==> v.List? || v.Dict? || v.Str?
    ensures v.List? ==> r == Some(v.list)
  {
    match v
    case List(xs) => Some(xs)
    case Dict(ms) => Some(Keys(ms))
    case Str(s) => Some(Chars(s))
    case _ => None
  }
}
