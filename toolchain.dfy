/** How the two tools meet: the checker's verdict on what the merger produces. */
module ToolChain {
  import opened PyValues
  import opened CollectionMerger
  import opened MergeProperties
  import opened CollectionChecker

  /** A merged collection passes the checker exactly when the first input has an `item` key. */
  lemma MergedPassesChecker(cs: seq<Value>)
    requires Merge(cs).Success?
    ensures IsCollection(Merge(cs).value) <==> HasItem(cs[0])
  {
    MergeSetsName(cs);
    MergeKeepsKeys(cs);
    MergeAppendsItems(cs);
    var merged := Merge(cs).value;
    assert Lookup(merged.dict, "info") == Field(merged, "info");
    if ItemList(cs[0]).Some? {
      assert Field(merged, "item").Some?;
    }
  }
}
