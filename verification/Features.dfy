/**
 * Spatial features as the feature source reads them: a property map whose
 * lookups may yield null, and an optional geometry given by its WKT text.
 */
module Features {
  import opened Wrappers
  import opened ColumnOrder

  /** A feature: properties by name (a value may be null) and its geometry as WKT.
      geometry is None both for a feature that is not a geometry feature and for
      a geometry feature whose geometry is null: the INSERT path treats the two
      alike. Property values are already stringified (String.valueOf). */
  datatype Feature = Feature(properties: map<string, Option<string>>, geometry: Option<string>)

  /** feature.getProperties().get(name): null for a missing key and for a null value. */
  function Prop(f: Feature, name: string): Option<string>
  {
    if name in f.properties then f.properties[name] else None
  }

  /** The names, in their given order, whose property is non-null. */
  function NonNullColumns(names: seq<string>, f: Feature): seq<string>
  {
    if names == [] then []
    else
      var init := NonNullColumns(names[..|names| - 1], f);
      if Prop(f, names[|names| - 1]).Some? then init + [names[|names| - 1]] else init
  }

  /** Extending the names by one extends the filtered list by that name exactly when its property is non-null. */
  lemma NonNullColumnsSnoc(names: seq<string>, c: string, f: Feature)
    ensures NonNullColumns(names + [c], f)
         == NonNullColumns(names, f) + (if Prop(f, c).Some? then [c] else [])
  {
    assert (names + [c])[..|names|] == names;
  }

  /** A name survives the filter exactly when it is given and its property is non-null. */
  lemma {:induction false} NonNullColumnsMembers(names: seq<string>, f: Feature, c: string)
    ensures c in NonNullColumns(names, f) <==> c in names && Prop(f, c).Some?
  {
    if names != [] {
      var init := names[..|names| - 1];
      NonNullColumnsMembers(init, f, c);
      assert names == init + [names[|names| - 1]];
    }
  }

  /** The filter keeps every occurrence of a name with a non-null property and drops the others. */
  lemma {:induction false} NonNullColumnsCount(names: seq<string>, f: Feature, c: string)
    ensures multiset(NonNullColumns(names, f))[c]
         == if Prop(f, c).Some? then multiset(names)[c] else 0
  {
    if names != [] {
      var init := names[..|names| - 1];
      NonNullColumnsCount(init, f, c);
      assert names == init + [names[|names| - 1]];
    }
  }

  /** r is names[idx[0]], names[idx[1]], … taken at strictly increasing positions
      idx: r lists some of the names, in the order the names give them. */
  ghost predicate PicksInOrder(names: seq<string>, idx: seq<int>, r: seq<string>)
  {
    && |idx| == |r|
    && (forall k :: 0 <= k < |idx| ==> 0 <= idx[k] < |names| && names[idx[k]] == r[k])
    && (forall k, l :: 0 <= k < l < |idx| ==> idx[k] < idx[l])
  }

  /** A picking from the names but their last one is a picking from all of
      them, with or without that last name appended. */
  lemma PicksExtend(names: seq<string>, idx: seq<int>, r: seq<string>)
    requires names != []
    requires PicksInOrder(names[..|names| - 1], idx, r)
    ensures PicksInOrder(names, idx, r)
    ensures PicksInOrder(names, idx + [|names| - 1], r + [names[|names| - 1]])
    ensures |names| - 1 !in idx
  {
    var n := |names| - 1;
    forall k | 0 <= k < |idx| ensures idx[k] < n && names[idx[k]] == r[k] {
      assert names[..n][idx[k]] == r[k];
    }
  }

  /** The inductive step of NonNullColumnsInOrder: the positions chosen among
      all names but the last, plus the last one when its property is non-null. */
  lemma InOrderSnoc(names: seq<string>, f: Feature, idx0: seq<int>) returns (idx: seq<int>)
    requires names != []
    requires PicksInOrder(names[..|names| - 1], idx0, NonNullColumns(names[..|names| - 1], f))
    requires forall i :: 0 <= i < |names| - 1 ==> (i in idx0 <==> Prop(f, names[..|names| - 1][i]).Some?)
    ensures PicksInOrder(names, idx, NonNullColumns(names, f))
    ensures forall i :: 0 <= i < |names| ==> (i in idx <==> Prop(f, names[i]).Some?)
  {
    var n := |names| - 1;
    PicksExtend(names, idx0, NonNullColumns(names[..n], f));
    idx := if Prop(f, names[n]).Some? then idx0 + [n] else idx0;
    forall i | 0 <= i < |names| ensures i in idx <==> Prop(f, names[i]).Some? {
      if i < n {
        assert names[..n][i] == names[i];
        assert i in idx <==> i in idx0;
      }
    }
  }

  /** The filter keeps the names in their given order: it picks, at increasing
      positions, exactly the positions whose property is non-null. */
  lemma {:induction false} NonNullColumnsInOrder(names: seq<string>, f: Feature)
    ensures exists idx :: PicksInOrder(names, idx, NonNullColumns(names, f))
                       && forall i :: 0 <= i < |names| ==> (i in idx <==> Prop(f, names[i]).Some?)
  {
    if names == [] {
      assert PicksInOrder(names, [], NonNullColumns(names, f));
    } else {
      var init := names[..|names| - 1];
      NonNullColumnsInOrder(init, f);
      var idx0 :| PicksInOrder(init, idx0, NonNullColumns(init, f))
                  && forall i :: 0 <= i < |init| ==> (i in idx0 <==> Prop(f, init[i]).Some?);
      var idx := InOrderSnoc(names, f, idx0);
    }
  }

  /** The filter keeps the relative order of the names it keeps. */
  lemma {:induction false} NonNullColumnsSorted(names: seq<string>, f: Feature)
    requires Sorted(names)
    ensures Sorted(NonNullColumns(names, f))
  {
    if names != [] {
      var init := names[..|names| - 1];
      var last := names[|names| - 1];
      assert Sorted(init);
      NonNullColumnsSorted(init, f);
      if Prop(f, last).Some? {
        var r := NonNullColumns(init, f) + [last];
        forall i, j | 0 <= i < j < |r| ensures Compare(r[i], r[j]) <= 0 {
          if j == |r| - 1 {
            NonNullColumnsMembers(init, f, r[i]);
            var k :| 0 <= k < |init| && init[k] == r[i];
            assert names[k] == r[i];
          }
        }
      }
    }
  }

  /** Filtering the sorted names gives the sorted filtered names: the INSERT
      fragments list the UPDATE clause's columns, sorted. */
  lemma NonNullCommutesWithSort(names: seq<string>, f: Feature)
    ensures NonNullColumns(SortColumns(names), f) == SortColumns(NonNullColumns(names, f))
  {
    var a := NonNullColumns(SortColumns(names), f);
    var b := SortColumns(NonNullColumns(names, f));
    SortColumnsCorrect(names);
    SortColumnsCorrect(NonNullColumns(names, f));
    NonNullColumnsSorted(SortColumns(names), f);
    forall c ensures multiset(a)[c] == multiset(b)[c] {
      NonNullColumnsCount(SortColumns(names), f, c);
      NonNullColumnsCount(names, f, c);
    }
    assert multiset(a) == multiset(b);
    SortedPermutationUnique(a, b);
  }
}
