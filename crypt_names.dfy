/**
 * The table of crypt type names the native library reports, one entry per
 * index below get_crypt_size(), None standing for a null name pointer, and
 * the array AvailableCryptTypes builds from it: the non-null names packed at
 * the front in index order, the remaining slots left null.
 */
module CryptNames {
  import opened Wrappers

  /** The non-null names of the table, in index order. */
  function Compact(names: seq<Option<string>>): (r: seq<string>)
    ensures |r| <= |names|
    ensures forall j :: 0 <= j < |r| ==> Some(r[j]) in names
  {
    if names == [] then []
    else
      var init := Compact(names[..|names| - 1]);
      var last := names[|names| - 1];
      if last.Some? then init + [last.value] else init
  }

  /** The array AvailableCryptTypes returns: as long as the table, the compacted names first, then nulls. */
  function Packed(names: seq<Option<string>>): (r: seq<Option<string>>)
    ensures |r| == |names|
    ensures forall k :: 0 <= k < |r| ==> (r[k].Some? <==> k < |Compact(names)|)
    ensures forall k :: 0 <= k < |Compact(names)| ==> r[k] == Some(Compact(names)[k])
  {
    var c := Compact(names);
    seq(|names|, k requires 0 <= k < |names| => if k < |c| then Some(c[k]) else None)
  }

  /** Number of non-null entries of the table. */
  function CountNamed(names: seq<Option<string>>): nat
  {
    if names == [] then 0
    else CountNamed(names[..|names| - 1]) + (if names[|names| - 1].Some? then 1 else 0)
  }

  /** Nothing is dropped: the compacted table has one name per non-null entry. */
  lemma {:induction false} CompactLength(names: seq<Option<string>>)
    ensures |Compact(names)| == CountNamed(names)
    decreases |names|
  {
    if names != [] {
      CompactLength(names[..|names| - 1]);
    }
  }

  /** Compacting a longer prefix only appends. */
  lemma {:induction false} CompactPrefix(names: seq<Option<string>>, i: nat)
    requires i <= |names|
    ensures Compact(names[..i]) <= Compact(names)
    decreases |names| - i
  {
    if i < |names| {
      var n := |names| - 1;
      CompactPrefix(names[..n], i);
      assert names[..n][..i] == names[..i];
    } else {
      assert names[..i] == names;
    }
  }

  /**
   * The name at a non-null index i lands in the slot numbered by the count of
   * non-null names before it, so names keep their index order.
   */
  lemma CompactKeepsOrder(names: seq<Option<string>>, i: nat)
    requires i < |names| && names[i].Some?
    ensures |Compact(names[..i])| < |Compact(names)|
    ensures Compact(names)[|Compact(names[..i])|] == names[i].value
  {
    assert names[..i + 1][..i] == names[..i];
    assert Compact(names[..i + 1]) == Compact(names[..i]) + [names[i].value];
    CompactPrefix(names, i + 1);
  }

  /** Every slot of the compacted table comes from the non-null entry that CompactKeepsOrder sends there. */
  lemma {:induction false} CompactInventsNothing(names: seq<Option<string>>, j: nat)
    requires j < |Compact(names)|
    ensures exists i :: 0 <= i < |names| && names[i] == Some(Compact(names)[j]) && |Compact(names[..i])| == j
    decreases |names|
  {
    var n := |names| - 1;
    var init := names[..n];
    if j < |Compact(init)| {
      CompactInventsNothing(init, j);
      var i :| 0 <= i < |init| && init[i] == Some(Compact(init)[j]) && |Compact(init[..i])| == j;
      assert init[..i] == names[..i];
      CompactPrefix(names, n);
      assert names[i] == Some(Compact(names)[j]);
    } else {
      assert names[..n] == init;
      assert names[n] == Some(Compact(names)[j]);
    }
  }
}
