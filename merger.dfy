/**
 * `merge_collections`: one Postman collection from several loaded ones.
 *
 * The merged collection is the first one with its `info.name` replaced by
 * the distinct names of all collections, sorted and joined by " + ", and
 * with the `item` lists of the later collections appended to its own.
 */
module CollectionMerger {
  import opened Wrappers
  import opened Text
  import opened PyValues

  /** What goes between two collection names in the merged name. */
  const Joiner := " + "

  /** The exceptions `merge_collections` can raise. */
  datatype MergeError =
    | NoCollections     // ValueError: the list of collections is empty
    | NameUnreadable    // `collections[0].copy()` raises (neither a dict nor a list), `c['info']['name']` raises, or the name cannot go into a set
    | NameNotText       // `sorted` or `' + '.join` raises on a name that is not a str
    | NoItemList        // `merged['item']` is missing or is not a list
    | ItemsNotIterable  // `collection['item']` cannot be iterated by `extend`

  /** `c[key]`, for a collection that is a dict holding `key`. */
  function Field(c: Value, key: string): Option<Value>
  {
    if c.Dict? then Lookup(c.dict, key) else None
  }

  /** The members of the dict under `c['info']`. */
  function Info(c: Value): Option<seq<Member>>
  {
    match Field(c, "info")
    case Some(Dict(ms)) => Some(ms)
    case _ => None
  }

  /** The list under `c['item']`. */
  function ItemList(c: Value): Option<seq<Value>>
  {
    match Field(c, "item")
    case Some(List(xs)) => Some(xs)
    case _ => None
  }

  /** `c['info']['name']`, when it can be evaluated. */
  function Name(c: Value): Option<Value>
  {
    match Info(c)
    case Some(ms) => Lookup(ms, "name")
    case None => None
  }

  /** The name of `c` can be read and added to a set: dicts and lists are unhashable. */
  predicate NameReadable(c: Value)
  {
    Name(c).Some? && !Name(c).value.List? && !Name(c).value.Dict?
  }

  /** The name of `c` is a str. */
  predicate NameIsText(c: Value)
  {
    Name(c).Some? && Name(c).value.Str?
  }

  predicate AllReadable(cs: seq<Value>)
  {
    forall i :: 0 <= i < |cs| ==> NameReadable(cs[i])
  }

  predicate AllText(cs: seq<Value>)
  {
    forall i :: 0 <= i < |cs| ==> NameIsText(cs[i])
  }

  /** The distinct str names of the collections. */
  function NameSet(cs: seq<Value>): set<string>
  {
    if cs == [] then {}
    else
      var c := cs[|cs| - 1];
      NameSet(cs[..|cs| - 1]) + if NameIsText(c) then {Name(c).value.s} else {}
  }

  /** The merged `info.name`: the distinct names, sorted, joined by " + ". */
  ghost function MergedName(cs: seq<Value>): string
  {
    Join(SortedSet(NameSet(cs)), Joiner)
  }

  /** `'item' in c`. */
  predicate HasItem(c: Value)
  {
    Field(c, "item").Some?
  }

  /** `extend` accepts what `c['item']` holds, or `c` has no item. */
  predicate Extendable(c: Value)
  {
    HasItem(c) ==> Iterate(Field(c, "item").value).Some?
  }

  /** What the merge appends for one later collection. */
  function Contribution(c: Value): seq<Value>
  {
    match Field(c, "item")
    case Some(v) => (match Iterate(v) case Some(xs) => xs case None => [])
    case None => []
  }

  /** The items of the given collections, in order. */
  function Contributions(cs: seq<Value>): seq<Value>
  {
    if cs == [] then [] else Contribution(cs[0]) + Contributions(cs[1..])
  }

  /** Every later collection that has an item finds a list to extend and can be iterated. */
  predicate ItemsMergeable(cs: seq<Value>)
  {
    forall i :: 1 <= i < |cs| && HasItem(cs[i]) ==> ItemList(cs[0]).Some? && Extendable(cs[i])
  }

  /** The members of a collection after `c['info']['name'] = name`. */
  function Renamed(ms: seq<Member>, name: string): seq<Member>
  {
    match Lookup(ms, "info")
    case Some(Dict(info)) => Store(ms, "info", Dict(Store(info, "name", Str(name))))
    case _ => ms
  }

  /** The members of a collection after `c['item'].extend(extra)`, when `c['item']` is a list. */
  function Extended(ms: seq<Member>, extra: seq<Value>): seq<Member>
  {
    match Lookup(ms, "item")
    case Some(List(xs)) => Store(ms, "item", List(xs + extra))
    case _ => ms
  }

  /**
   * What `merge_collections` returns or raises, stated on the whole input
   * at once: the first failing check decides the error.
   */
  ghost function Merge(cs: seq<Value>): (r: Result<Value, MergeError>)
    ensures r == Failure(NoCollections) <==> |cs| == 0
    ensures r.Success? <==> |cs| > 0 && AllText(cs) && ItemsMergeable(cs)
    ensures r.Success? ==> r.value.Dict? && HasItem(r.value) == HasItem(cs[0])
  {
    if |cs| == 0 then Failure(NoCollections)
    else if !AllReadable(cs) then Failure(NameUnreadable)
    else if !AllText(cs) then Failure(NameNotText)
    else if !ItemsMergeable(cs) then Failure(if ItemList(cs[0]).None? then NoItemList else ItemsNotIterable)
    else
      var renamed := Renamed(cs[0].dict, MergedName(cs));
      RenamedKeepsItem(cs[0].dict, MergedName(cs));
      ItemOfExtended(renamed, Contributions(cs[1..]));
      Success(Dict(Extended(renamed, Contributions(cs[1..]))))
  }

  /** Items of consecutive runs of collections concatenate: the order of the input is kept and nothing is dropped or merged. */
  lemma {:induction false} ContributionsAppend(a: seq<Value>, b: seq<Value>)
    ensures Contributions(a + b) == Contributions(a) + Contributions(b)
  {
    if a != [] {
      assert (a + b)[1..] == a[1..] + b;
      ContributionsAppend(a[1..], b);
    } else {
      assert a + b == b;
    }
  }

  /** Extending twice is extending once by both. */
  lemma ExtendedTwice(ms: seq<Member>, a: seq<Value>, b: seq<Value>)
    ensures Extended(Extended(ms, a), b) == Extended(ms, a + b)
  {
    match Lookup(ms, "item")
    case Some(List(xs)) =>
      LookupStore(ms, "item", List(xs + a), "item");
      StoreStore(ms, "item", List(xs + a), List(xs + a + b));
      assert xs + a + b == xs + (a + b);
    case _ =>
  }

  /** Extending by nothing changes nothing. */
  lemma ExtendedNothing(ms: seq<Member>)
    ensures Extended(ms, []) == ms
  {
    match Lookup(ms, "item")
    case Some(List(xs)) =>
      assert xs + [] == xs;
      StoreSame(ms, "item");
    case _ =>
  }

  /** Renaming touches only `info`, so the `item` key is as before. */
  lemma RenamedKeepsItem(ms: seq<Member>, name: string)
    ensures Lookup(Renamed(ms, name), "item") == Lookup(ms, "item")
  {
    match Lookup(ms, "info")
    case Some(Dict(info)) => LookupStore(ms, "info", Dict(Store(info, "name", Str(name))), "item");
    case _ =>
  }

  /** The `item` of a collection after extending it. */
  lemma ItemOfExtended(ms: seq<Member>, extra: seq<Value>)
    ensures Lookup(Extended(ms, extra), "item") ==
      match Lookup(ms, "item")
      case Some(List(xs)) => Some(List(xs + extra))
      case other => other
  {
    match Lookup(ms, "item")
    case Some(List(xs)) => LookupStore(ms, "item", List(xs + extra), "item");
    case _ =>
  }

  /** One turn of the item loop: appending what `c` contributes. */
  lemma ExtendStep(ms: seq<Member>, done: seq<Value>, c: Value)
    requires HasItem(c) ==>
      && Lookup(Extended(ms, done), "item").Some? && Lookup(Extended(ms, done), "item").value.List?
      && Iterate(Field(c, "item").value).Some?
    ensures Extended(ms, done + Contribution(c)) ==
      if HasItem(c) then
        Store(Extended(ms, done), "item", List(Lookup(Extended(ms, done), "item").value.list + Contribution(c)))
      else Extended(ms, done)
  {
    if HasItem(c) {
      ExtendedTwice(ms, done, Contribution(c));
    } else {
      assert done + [] == done;
    }
  }

  /** The first later collection whose item cannot be appended decides the error. */
  lemma MergeStopsAt(cs: seq<Value>, i: int)
    requires AllText(cs) && 1 <= i < |cs| && HasItem(cs[i])
    requires ItemList(cs[0]).None? || !Extendable(cs[i])
    ensures Merge(cs) == Failure(if ItemList(cs[0]).None? then NoItemList else ItemsNotIterable)
  {
  }

  /**
   * The first loop of `merge_collections` and the `sorted` call after it:
   * the distinct names of the collections, in increasing order.
   */
  method CollectNames(cs: seq<Value>) returns (r: Result<seq<string>, MergeError>)
    ensures !AllReadable(cs) ==> r == Failure(NameUnreadable)
    ensures AllReadable(cs) && !AllText(cs) ==> r == Failure(NameNotText)
    ensures AllText(cs) ==> r == Success(SortedSet(NameSet(cs)))
  {
    // The set of names is kept as a strictly increasing sequence, which is also what `sorted` returns.
    var names: seq<string> := [];
    var allText := true;
    for i := 0 to |cs|
      invariant AllReadable(cs[..i])
      invariant allText == AllText(cs[..i])
      invariant StrictlySorted(names)
      invariant forall y :: y in names <==> y in NameSet(cs[..i])
    {
      assert cs[..i + 1][..i] == cs[..i];
      if !NameReadable(cs[i]) {
        assert !AllReadable(cs) by {
          assert cs[i] in cs;
        }
        return Failure(NameUnreadable);
      }
      match Name(cs[i]).value {
        case Str(s) => names := Insert(names, s);
        case _ => allText := false;
      }
    }
    assert cs[..|cs|] == cs;
    if !allText {
      return Failure(NameNotText);
    }
    SortedUnique(names, SortedSet(NameSet(cs)));
    return Success(names);
  }

  /**
   * The second loop of `merge_collections`: `merged['item'].extend(c['item'])`
   * for each later collection `c` that has an item, on a collection `ms`
   * whose `item` is the first collection's. A failure also gives the
   * position of the collection that raised.
   */
  method AppendItems(cs: seq<Value>, ms: seq<Member>) returns (r: Result<seq<Member>, (MergeError, int)>)
    requires |cs| > 0 && Lookup(ms, "item") == Field(cs[0], "item") && cs[0].Dict?
    ensures r.Success? <==> ItemsMergeable(cs)
    ensures r.Success? ==> r.value == Extended(ms, Contributions(cs[1..]))
    ensures r.Failure? ==> 
      var (e, i) := r.error;
      && 1 <= i < |cs| && HasItem(cs[i])
      && (ItemList(cs[0]).None? || !Extendable(cs[i]))
      && (forall j :: 1 <= j < i && HasItem(cs[j]) ==> ItemList(cs[0]).Some? && Extendable(cs[j]))
      && e == if ItemList(cs[0]).None? then NoItemList else ItemsNotIterable
  {
    var merged := ms;
    ExtendedNothing(ms);
    for i := 1 to |cs|
      invariant forall j :: 1 <= j < i && HasItem(cs[j]) ==> ItemList(cs[0]).Some? && Extendable(cs[j])
      invariant merged == Extended(ms, Contributions(cs[1..i]))
    {
      var c := cs[i];
      ContributionsAppend(cs[1..i], [c]);
      assert cs[1..i + 1] == cs[1..i] + [c];
      assert Contributions([c]) == Contribution(c) by {
        assert [c][1..] == [];
      }
      if HasItem(c) {
        ItemOfExtended(ms, Contributions(cs[1..i]));
        var target := Lookup(merged, "item");
        if !(target.Some? && target.value.List?) {
          return Failure((NoItemList, i));
        }
        var more := Iterate(Field(c, "item").value);
        if more.None? {
          return Failure((ItemsNotIterable, i));
        }
        assert ItemList(cs[0]).Some? && Extendable(c);
        assert more.value == Contribution(c);
        ExtendStep(ms, Contributions(cs[1..i]), c);
        merged := Store(merged, "item", List(target.value.list + more.value));
      } else {
        ExtendStep(ms, Contributions(cs[1..i]), c);
      }
    }
    assert cs[1..|cs|] == cs[1..];
    return Success(merged);
  }

  /**
   * `merge_collections(collections)`. The result is a copy of the first
   * collection, so the changes to its `info` and `item` are made on the
   * copy here; see the README for what that leaves out.
   */
  method MergeCollections(cs: seq<Value>) returns (r: Result<Value, MergeError>)
    ensures r == Merge(cs)
  {
    if |cs| == 0 {
      return Failure(NoCollections);
    }
    var merged := cs[0];

    var sorted := CollectNames(cs);
    if sorted.Failure? {
      return Failure(sorted.error);
    }

    assert NameReadable(cs[0]);
    var info := Lookup(merged.dict, "info").value.dict;
    merged := Dict(Store(merged.dict, "info", Dict(Store(info, "name", Str(Join(sorted.value, Joiner))))));
    ghost var named := merged.dict;
    assert named == Renamed(cs[0].dict, MergedName(cs));
    RenamedKeepsItem(cs[0].dict, MergedName(cs));
    var extended := AppendItems(cs, merged.dict);
    if extended.Failure? {
      MergeStopsAt(cs, extended.error.1);
      return Failure(extended.error.0);
    }
    merged := Dict(extended.value);
    return Success(merged);
  }
}

/** What a merge keeps and what it changes. */
module MergeProperties {
  import opened Wrappers
  import opened Text
  import opened PyValues
  import opened CollectionMerger

  /** A merge keeps the first collection's keys, in their order, and every top-level value except `info` and `item`. */
  lemma MergeKeepsKeys(cs: seq<Value>)
    requires Merge(cs).Success?
    ensures Merge(cs).value.Dict?
    ensures Keys(Merge(cs).value.dict) == Keys(cs[0].dict)
    ensures forall k :: k != "info" && k != "item" ==> Lookup(Merge(cs).value.dict, k) == Lookup(cs[0].dict, k)
  {
    var ms := cs[0].dict;
    var named := Renamed(ms, MergedName(cs));
    match Lookup(ms, "info") {
      case Some(Dict(info)) =>
        StoreKeepsKeys(ms, "info", Dict(Store(info, "name", Str(MergedName(cs)))));
      case _ =>
    }
    match Lookup(named, "item") {
      case Some(List(xs)) =>
        StoreKeepsKeys(named, "item", List(xs + Contributions(cs[1..])));
      case _ =>
    }
    forall k | k != "info" && k != "item"
      ensures Lookup(Merge(cs).value.dict, k) == Lookup(ms, k)
    {
      KeyOfRenamed(ms, MergedName(cs), k);
      KeyOfExtended(named, Contributions(cs[1..]), k);
    }
  }

  lemma KeyOfRenamed(ms: seq<Member>, name: string, k: string)
    requires k != "info"
    ensures Lookup(Renamed(ms, name), k) == Lookup(ms, k)
  {
    match Lookup(ms, "info")
    case Some(Dict(info)) => LookupStore(ms, "info", Dict(Store(info, "name", Str(name))), k);
    case _ =>
  }

  lemma KeyOfExtended(ms: seq<Member>, extra: seq<Value>, k: string)
    requires k != "item"
    ensures Lookup(Extended(ms, extra), k) == Lookup(ms, k)
  {
    match Lookup(ms, "item")
    case Some(List(xs)) => LookupStore(ms, "item", List(xs + extra), k);
    case _ =>
  }

  /**
   * The merged collection's `info.name` is the merged name, and every
   * other key of its `info` is the first collection's.
   */
  lemma MergeSetsName(cs: seq<Value>)
    requires Merge(cs).Success?
    ensures Name(Merge(cs).value) == Some(Str(MergedName(cs)))
    ensures Info(Merge(cs).value).Some? && Info(cs[0]).Some?
    ensures forall k :: k != "name" ==> Lookup(Info(Merge(cs).value).value, k) == Lookup(Info(cs[0]).value, k)
  {
    assert NameReadable(cs[0]);
    var ms := cs[0].dict;
    var info := Info(cs[0]).value;
    var named := Renamed(ms, MergedName(cs));
    LookupStore(ms, "info", Dict(Store(info, "name", Str(MergedName(cs)))), "info");
    KeyOfExtended(named, Contributions(cs[1..]), "info");
    forall k
      ensures Lookup(Store(info, "name", Str(MergedName(cs))), k) == if k == "name" then Some(Str(MergedName(cs))) else Lookup(info, k)
    {
      LookupStore(info, "name", Str(MergedName(cs)), k);
    }
  }

  /**
   * The merged collection's items are the first collection's followed by
   * every later collection's, in input order; when the first collection
   * has no item list, no later collection has an item.
   */
  lemma MergeAppendsItems(cs: seq<Value>)
    requires Merge(cs).Success?
    ensures ItemList(cs[0]).Some? ==> ItemList(Merge(cs).value) == Some(ItemList(cs[0]).value + Contributions(cs[1..]))
    ensures ItemList(cs[0]).None? ==>
      && Field(Merge(cs).value, "item") == Field(cs[0], "item")
      && forall i :: 1 <= i < |cs| ==> !HasItem(cs[i])
  {
    var ms := cs[0].dict;
    var named := Renamed(ms, MergedName(cs));
    RenamedKeepsItem(ms, MergedName(cs));
    ItemOfExtended(named, Contributions(cs[1..]));
  }

  /** A name is in the set exactly when some collection carries it as its str `info.name`. */
  lemma {:induction false} NameSetMembers(cs: seq<Value>, n: string)
    ensures n in NameSet(cs) <==> exists i :: 0 <= i < |cs| && Name(cs[i]) == Some(Str(n))
  {
    if cs != [] {
      var init := cs[..|cs| - 1];
      NameSetMembers(init, n);
      if n in NameSet(init) {
        var i :| 0 <= i < |init| && Name(init[i]) == Some(Str(n));
        assert cs[i] == init[i];
      }
      if i :| 0 <= i < |cs| && Name(cs[i]) == Some(Str(n)) {
        if i < |cs| - 1 {
          assert init[i] == cs[i];
        }
      }
    }
  }

  /** The names of two runs of collections are the names of each. */
  lemma {:induction false} NameSetAppend(a: seq<Value>, b: seq<Value>)
    ensures NameSet(a + b) == NameSet(a) + NameSet(b)
  {
    if b == [] {
      assert a + b == a;
    } else {
      var init := b[..|b| - 1];
      assert (a + b)[..|a + b| - 1] == a + init;
      NameSetAppend(a, init);
    }
  }

  /** The merged name does not depend on which run of collections comes first. */
  lemma MergedNameSwap(a: seq<Value>, b: seq<Value>)
    ensures MergedName(a + b) == MergedName(b + a)
  {
    NameSetAppend(a, b);
    NameSetAppend(b, a);
    assert NameSet(a + b) == NameSet(b + a);
  }

  /** Merging a single collection whose name is a str gives that collection back. */
  lemma MergeOne(c: Value)
    requires NameIsText(c)
    ensures Merge([c]) == Success(c)
  {
    var n := Name(c).value.s;
    assert NameSet([c]) == {n} by {
      assert [c][..0] == [];
    }
    SortedUnique([n], SortedSet({n}));
    var info := Info(c).value;
    StoreSame(info, "name");
    StoreSame(c.dict, "info");
    assert Renamed(c.dict, n) == c.dict;
    assert [c][1..] == [];
    ExtendedNothing(c.dict);
  }
}
