/**
 * The application state behind the two diagrams: for each pane a node array,
 * a link array, model data, a selection and a skip flag, plus two key-to-
 * position indexes that both panes share. Diagram changes arrive as
 * incremental data (inserted keys, modified data, removed keys) and are
 * merged into the arrays through the indexes.
 */
module AppStore {
  import opened Wrappers
  import Text
  import Utils

  /** A node or link object: its key and the fields the handlers read (None: undefined). */
  datatype ObjData = ObjData(
    key: int,
    text: Option<string>,
    from: Option<int>,
    to: Option<int>,
    prevGuessesForward: Option<seq<string>>,
    prevGuessesBackward: Option<seq<string>>)

  /** The entities pane's model data. */
  datatype EntitiesModelData = EntitiesModelData(
    canRelink: bool,
    forceLayout: bool,
    entitiesPrompt: string,
    entityTypes: seq<string>,
    relationshipTypes: seq<string>,
    includeExistingGraph: bool)

  /** A diagram's incremental change; an absent list is None. */
  datatype IncrementalData<M> = IncrementalData(
    insertedNodeKeys: Option<seq<int>>,
    modifiedNodeData: Option<seq<ObjData>>,
    removedNodeKeys: Option<seq<int>>,
    insertedLinkKeys: Option<seq<int>>,
    modifiedLinkData: Option<seq<ObjData>>,
    removedLinkKeys: Option<seq<int>>,
    modelData: Option<M>)

  // ---------------------------------------------------------------------------
  // Key indexes
  // ---------------------------------------------------------------------------

  /**
   * Every modified datum whose key is indexed finds its position inside the
   * array, so `arr[idx] = d` replaces an element rather than growing the array.
   */
  predicate InRange(index: map<int, nat>, arr: seq<ObjData>, mods: seq<ObjData>)
  {
    forall j :: 0 <= j < |mods| && mods[j].key in index ==> index[mods[j].key] < |arr|
  }

  /** `InRange` for a change's modified list, when the change has one. */
  predicate FitsModified(index: map<int, nat>, arr: seq<ObjData>, modified: Option<seq<ObjData>>)
  {
    modified.Some? ==> InRange(index, arr, modified.value)
  }

  /** Every indexed key sits at its indexed position. */
  predicate Consistent(index: map<int, nat>, arr: seq<ObjData>)
  {
    forall k :: k in index ==> index[k] < |arr| && arr[index[k]].key == k
  }

  /**
   * The index `refreshNodeIndex` / `refreshLinkIndex` build: every key of the
   * array, sent to its last position.
   */
  function IndexOf(arr: seq<ObjData>): (r: map<int, nat>)
    ensures forall k :: k in r <==> exists i :: 0 <= i < |arr| && arr[i].key == k
    ensures forall k :: k in r ==> r[k] < |arr| && arr[r[k]].key == k
    ensures forall k, j :: k in r && r[k] < j < |arr| ==> arr[j].key != k
  {
    if |arr| == 0 then map[]
    else
      var rest := IndexOf(arr[..|arr| - 1]);
      IndexOfLast(arr, rest);
      rest[arr[|arr| - 1].key := |arr| - 1]
  }

  /** The index of all but the last element, with the last key sent to the last position, indexes all. */
  lemma IndexOfLast(arr: seq<ObjData>, rest: map<int, nat>)
    requires |arr| > 0
    requires var init := arr[..|arr| - 1];
      && (forall k :: k in rest <==> exists i :: 0 <= i < |init| && init[i].key == k)
      && (forall k :: k in rest ==> rest[k] < |init| && init[rest[k]].key == k)
      && (forall k, j :: k in rest && rest[k] < j < |init| ==> init[j].key != k)
    ensures var r := rest[arr[|arr| - 1].key := |arr| - 1];
      && (forall k :: k in r <==> exists i :: 0 <= i < |arr| && arr[i].key == k)
      && (forall k :: k in r ==> r[k] < |arr| && arr[r[k]].key == k)
      && (forall k, j :: k in r && r[k] < j < |arr| ==> arr[j].key != k)
  {
    var init := arr[..|arr| - 1];
    var last := |arr| - 1;
    var r := rest[arr[last].key := last];
    forall k | k in r
      ensures r[k] < |arr| && arr[r[k]].key == k
    {
      if k != arr[last].key {
        assert arr[rest[k]] == init[rest[k]];
      }
    }
    forall k, j | k in r && r[k] < j < |arr|
      ensures arr[j].key != k
    {
      if k != arr[last].key {
        assert j < last ==> arr[j] == init[j];
      }
    }
    forall k | (exists i :: 0 <= i < |arr| && arr[i].key == k)
      ensures k in r
    {
      var i :| 0 <= i < |arr| && arr[i].key == k;
      if i < last {
        assert init[i].key == k;
      }
    }
    forall k | k in r
      ensures exists i :: 0 <= i < |arr| && arr[i].key == k
    {
      if k == arr[last].key {
        assert arr[last].key == k;
      } else {
        var i :| 0 <= i < |init| && init[i].key == k;
        assert arr[i].key == k;
      }
    }
  }

  /** `clear()` then `forEach((n, idx) => set(n.key, idx))`. */
  method BuildIndex(arr: seq<ObjData>) returns (index: map<int, nat>)
    ensures index == IndexOf(arr)
  {
    index := map[];
    for i := 0 to |arr|
      invariant index == IndexOf(arr[..i])
    {
      assert arr[..i + 1][..i] == arr[..i];
      index := index[arr[i].key := i];
    }
    assert arr[..|arr|] == arr;
  }

  // ---------------------------------------------------------------------------
  // Merging an incremental change into one array
  // ---------------------------------------------------------------------------

  /** The `modified…Map` of the handler: each modified key to its last data. */
  function ModMap(mods: seq<ObjData>): (r: map<int, ObjData>)
    ensures forall k :: k in r <==> exists j :: 0 <= j < |mods| && mods[j].key == k
    ensures forall k :: k in r ==> r[k].key == k
    ensures forall k :: k in r ==>
      exists j :: 0 <= j < |mods| && mods[j] == r[k] && forall j' :: j < j' < |mods| ==> mods[j'].key != k
  {
    if |mods| == 0 then map[]
    else
      var rest := ModMap(mods[..|mods| - 1]);
      ModMapLast(mods, rest);
      rest[mods[|mods| - 1].key := mods[|mods| - 1]]
  }

  /** The modified map of all but the last datum, updated by the last, is the modified map of all. */
  lemma ModMapLast(mods: seq<ObjData>, rest: map<int, ObjData>)
    requires |mods| > 0
    requires var init := mods[..|mods| - 1];
      && (forall k :: k in rest <==> exists j :: 0 <= j < |init| && init[j].key == k)
      && (forall k :: k in rest ==> rest[k].key == k)
      && (forall k :: k in rest ==>
            exists j :: 0 <= j < |init| && init[j] == rest[k] && forall j' :: j < j' < |init| ==> init[j'].key != k)
    ensures var r := rest[mods[|mods| - 1].key := mods[|mods| - 1]];
      && (forall k :: k in r <==> exists j :: 0 <= j < |mods| && mods[j].key == k)
      && (forall k :: k in r ==> r[k].key == k)
      && (forall k :: k in r ==>
            exists j :: 0 <= j < |mods| && mods[j] == r[k] && forall j' :: j < j' < |mods| ==> mods[j'].key != k)
  {
    var init := mods[..|mods| - 1];
    var last := |mods| - 1;
    var nd := mods[last];
    var r := rest[nd.key := nd];
    forall k | k in r
      ensures exists j :: 0 <= j < |mods| && mods[j] == r[k] && forall j' :: j < j' < |mods| ==> mods[j'].key != k
    {
      if k == nd.key {
        assert mods[last] == r[k];
      } else {
        var j :| 0 <= j < |init| && init[j] == rest[k] && forall j' :: j < j' < |init| ==> init[j'].key != k;
        assert mods[j] == r[k];
        forall j' | j < j' < |mods| ensures mods[j'].key != k {
          if j' < last {
            assert mods[j'] == init[j'];
          }
        }
      }
    }
    forall k | (exists j :: 0 <= j < |mods| && mods[j].key == k)
      ensures k in r
    {
      var j :| 0 <= j < |mods| && mods[j].key == k;
      if j < last {
        assert init[j].key == k;
      }
    }
    forall k | k in r
      ensures exists j :: 0 <= j < |mods| && mods[j].key == k
    {
      if k == nd.key {
        assert mods[last].key == k;
      } else {
        var j :| 0 <= j < |init| && init[j].key == k;
        assert mods[j].key == k;
      }
    }
  }

  /**
   * The modified step: each modified datum whose key is indexed replaces the
   * element at that position, and the selection when it has the same key.
   */
  function ApplyModified(arr: seq<ObjData>, index: map<int, nat>, selected: Option<ObjData>, mods: seq<ObjData>)
    : (r: (seq<ObjData>, Option<ObjData>))
    requires InRange(index, arr, mods)
    ensures |r.0| == |arr|
  {
    if |mods| == 0 then (arr, selected)
    else
      var prev := ApplyModified(arr, index, selected, mods[..|mods| - 1]);
      var nd := mods[|mods| - 1];
      if nd.key in index then
        (prev.0[index[nd.key] := nd], if prev.1.Some? && prev.1.value.key == nd.key then Some(nd) else prev.1)
      else prev
  }

  /** Position `i` holds a key that is indexed there and was modified. */
  predicate ModifiedAt(arr: seq<ObjData>, index: map<int, nat>, mm: map<int, ObjData>, i: int)
    requires 0 <= i < |arr|
  {
    arr[i].key in index && index[arr[i].key] == i && arr[i].key in mm
  }

  /**
   * On a consistent index the modified step replaces exactly the elements
   * whose key was modified by that key's last datum, leaves every other
   * element alone, keeps the index consistent, and replaces a selection with
   * an indexed, modified key by that key's last datum.
   */
  lemma {:induction false} ModifiedReplaces(arr: seq<ObjData>, index: map<int, nat>, selected: Option<ObjData>,
                                            mods: seq<ObjData>)
    requires Consistent(index, arr)
    ensures var r := ApplyModified(arr, index, selected, mods);
      && Consistent(index, r.0)
      && (forall i :: 0 <= i < |arr| ==>
            r.0[i] == (if ModifiedAt(arr, index, ModMap(mods), i) then ModMap(mods)[arr[i].key] else arr[i]))
      && r.1 == (if selected.Some? && selected.value.key in index && selected.value.key in ModMap(mods)
                 then Some(ModMap(mods)[selected.value.key]) else selected)
  {
    if |mods| > 0 {
      var init := mods[..|mods| - 1];
      var nd := mods[|mods| - 1];
      ModifiedReplaces(arr, index, selected, init);
      assert ModMap(mods) == ModMap(init)[nd.key := nd];
      ModifiedStep(arr, index, ApplyModified(arr, index, selected, init).0, ModMap(init), nd);
      ModifiedSelection(index, selected, ApplyModified(arr, index, selected, init).1, ModMap(init), nd);
    }
  }

  /** One more modified datum `nd` replaces the selection when that has its key and the key is indexed. */
  lemma ModifiedSelection(index: map<int, nat>, selected: Option<ObjData>, prev: Option<ObjData>,
                          mm0: map<int, ObjData>, nd: ObjData)
    requires forall k :: k in mm0 ==> mm0[k].key == k
    requires prev == (if selected.Some? && selected.value.key in index && selected.value.key in mm0
                      then Some(mm0[selected.value.key]) else selected)
    ensures var next := if nd.key in index && prev.Some? && prev.value.key == nd.key then Some(nd) else prev;
      var mm := mm0[nd.key := nd];
      next == (if selected.Some? && selected.value.key in index && selected.value.key in mm
               then Some(mm[selected.value.key]) else selected)
  {
  }

  /** One more modified datum `nd` replaces the element at its key's position, if indexed. */
  lemma ModifiedStep(arr: seq<ObjData>, index: map<int, nat>, prev: seq<ObjData>, mm0: map<int, ObjData>, nd: ObjData)
    requires Consistent(index, arr) && Consistent(index, prev) && |prev| == |arr|
    requires forall i :: 0 <= i < |arr| ==>
      prev[i] == (if ModifiedAt(arr, index, mm0, i) then mm0[arr[i].key] else arr[i])
    ensures var next := if nd.key in index then prev[index[nd.key] := nd] else prev;
      var mm := mm0[nd.key := nd];
      && Consistent(index, next)
      && forall i :: 0 <= i < |arr| ==> next[i] == (if ModifiedAt(arr, index, mm, i) then mm[arr[i].key] else arr[i])
  {
    var mm := mm0[nd.key := nd];
    if nd.key in index {
      var p := index[nd.key];
      var next := prev[p := nd];
      forall i | 0 <= i < |arr|
        ensures next[i] == (if ModifiedAt(arr, index, mm, i) then mm[arr[i].key] else arr[i])
      {
        if i != p {
          assert ModifiedAt(arr, index, mm, i) == ModifiedAt(arr, index, mm0, i);
        }
      }
    } else {
      forall i | 0 <= i < |arr|
        ensures ModifiedAt(arr, index, mm, i) == ModifiedAt(arr, index, mm0, i)
      {
      }
    }
  }

  /**
   * The inserted step: a key is appended when its data is among the modified
   * data and the key is not indexed yet; its index is the array's length
   * before the push.
   */
  function ApplyInserted(arr: seq<ObjData>, index: map<int, nat>, keys: seq<int>, mm: map<int, ObjData>)
    : (r: (seq<ObjData>, map<int, nat>))
    requires forall k :: k in mm ==> mm[k].key == k
    ensures |arr| <= |r.0| && r.0[..|arr|] == arr
    ensures index.Keys <= r.1.Keys && forall k :: k in index ==> r.1[k] == index[k]
    ensures forall i :: |arr| <= i < |r.0| ==>
      && r.0[i].key in keys && r.0[i].key in mm && r.0[i] == mm[r.0[i].key]
      && r.0[i].key !in index && r.0[i].key in r.1 && r.1[r.0[i].key] == i
    ensures forall k :: k in keys && k in mm ==> k in r.1
    ensures Consistent(index, arr) ==> Consistent(r.1, r.0)
  {
    if |keys| == 0 then (arr, index)
    else
      var prev := ApplyInserted(arr, index, keys[..|keys| - 1], mm);
      var key := keys[|keys| - 1];
      assert forall k :: k in keys[..|keys| - 1] ==> k in keys;
      assert forall k :: k in keys ==> k in keys[..|keys| - 1] || k == key;
      if key in mm && key !in prev.1 then
        var a := prev.0 + [mm[key]];
        assert a[..|arr|] == prev.0[..|arr|];
        (a, prev.1[mm[key].key := |prev.0|])
      else prev
  }

  /** `arr.filter((d) => !removed.includes(d.key))`. */
  function RemoveKeys(arr: seq<ObjData>, removed: seq<int>): (r: seq<ObjData>)
    ensures |r| <= |arr|
    ensures forall x :: x in r <==> x in arr && x.key !in removed
  {
    if |arr| == 0 then []
    else
      var rest := RemoveKeys(arr[1..], removed);
      assert forall x :: x in arr <==> x == arr[0] || x in arr[1..];
      if arr[0].key in removed then rest else [arr[0]] + rest
  }

  /** Removing keys keeps the survivors in their order. */
  lemma {:induction false} RemoveKeysAppend(a: seq<ObjData>, b: seq<ObjData>, removed: seq<int>)
    ensures RemoveKeys(a + b, removed) == RemoveKeys(a, removed) + RemoveKeys(b, removed)
  {
    if |a| == 0 {
      assert a + b == b;
    } else {
      assert (a + b)[1..] == a[1..] + b;
      RemoveKeysAppend(a[1..], b, removed);
    }
  }

  /**
   * One array's part of `handleModelChangeBase`: the modified step, the
   * inserted step, then, when removed keys are given, the filter and a fresh
   * index. Returns the array, the index and the selection.
   */
  function Synced(arr: seq<ObjData>, index: map<int, nat>, selected: Option<ObjData>,
                  inserted: Option<seq<int>>, modified: Option<seq<ObjData>>, removed: Option<seq<int>>)
    : (seq<ObjData>, map<int, nat>, Option<ObjData>)
    requires FitsModified(index, arr, modified)
  {
    var afterModified := if modified.Some? then ApplyModified(arr, index, selected, modified.value) else (arr, selected);
    var mm := if modified.Some? then ModMap(modified.value) else map[];
    var afterInserted := if inserted.Some? then ApplyInserted(afterModified.0, index, inserted.value, mm)
                         else (afterModified.0, index);
    if removed.Some? then
      var kept := RemoveKeys(afterInserted.0, removed.value);
      (kept, IndexOf(kept), afterModified.1)
    else (afterInserted.0, afterInserted.1, afterModified.1)
  }

  /**
   * A change merged through a consistent index leaves it consistent; no
   * removed key is left in the array or in the index.
   */
  lemma SyncedConsistent(arr: seq<ObjData>, index: map<int, nat>, selected: Option<ObjData>,
                         inserted: Option<seq<int>>, modified: Option<seq<ObjData>>, removed: Option<seq<int>>)
    requires Consistent(index, arr)
    ensures var r := Synced(arr, index, selected, inserted, modified, removed);
      && Consistent(r.1, r.0)
      && (removed.Some? ==> forall x :: x in r.0 ==> x.key !in removed.value)
      && (removed.Some? ==> forall k :: k in removed.value ==> k !in r.1)
  {
    if modified.Some? {
      ModifiedReplaces(arr, index, selected, modified.value);
    }
  }

  /** The modified step's `forEach`, which also fills the modified map. */
  method ModifiedLoop(arr: seq<ObjData>, index: map<int, nat>, selected: Option<ObjData>, mods: seq<ObjData>)
    returns (newArr: seq<ObjData>, newSelected: Option<ObjData>, modifiedMap: map<int, ObjData>)
    requires InRange(index, arr, mods)
    ensures (newArr, newSelected) == ApplyModified(arr, index, selected, mods)
    ensures modifiedMap == ModMap(mods)
  {
    newArr, newSelected, modifiedMap := arr, selected, map[];
    for i := 0 to |mods|
      invariant (newArr, newSelected) == ApplyModified(arr, index, selected, mods[..i])
      invariant modifiedMap == ModMap(mods[..i])
    {
      ModifiedSnoc(arr, index, selected, mods, i);
      var nd := mods[i];
      modifiedMap := modifiedMap[nd.key := nd];
      if nd.key in index {
        var idx := index[nd.key];
        newArr := newArr[idx := nd];
        if newSelected.Some? && newSelected.value.key == nd.key {
          newSelected := Some(nd);
        }
      }
    }
    assert mods[..|mods|] == mods;
  }

  /** One more modified datum: one more step of the array update and of the map. */
  lemma ModifiedSnoc(arr: seq<ObjData>, index: map<int, nat>, selected: Option<ObjData>, mods: seq<ObjData>, i: int)
    requires InRange(index, arr, mods) && 0 <= i < |mods|
    ensures var prev, nd := ApplyModified(arr, index, selected, mods[..i]), mods[i];
      ApplyModified(arr, index, selected, mods[..i + 1])
        == if nd.key in index then
             (prev.0[index[nd.key] := nd], if prev.1.Some? && prev.1.value.key == nd.key then Some(nd) else prev.1)
           else prev
    ensures ModMap(mods[..i + 1]) == ModMap(mods[..i])[mods[i].key := mods[i]]
  {
    assert mods[..i + 1][..i] == mods[..i];
  }

  /** The inserted step's `forEach`: look up the data, push it, index it. */
  method InsertedLoop(arr: seq<ObjData>, index: map<int, nat>, keys: seq<int>, modifiedMap: map<int, ObjData>)
    returns (newArr: seq<ObjData>, newIndex: map<int, nat>)
    requires forall k :: k in modifiedMap ==> modifiedMap[k].key == k
    ensures (newArr, newIndex) == ApplyInserted(arr, index, keys, modifiedMap)
  {
    newArr, newIndex := arr, index;
    for i := 0 to |keys|
      invariant (newArr, newIndex) == ApplyInserted(arr, index, keys[..i], modifiedMap)
    {
      assert keys[..i + 1][..i] == keys[..i];
      var key := keys[i];
      if key in modifiedMap && key !in newIndex {
        var nd := modifiedMap[key];
        newIndex := newIndex[nd.key := |newArr|];
        newArr := newArr + [nd];
      }
    }
    assert keys[..|keys|] == keys;
  }

  /**
   * The modified, inserted and removed steps of `handleModelChangeBase` for
   * one array, as the handler runs them, with `BuildIndex` as the refresh.
   */
  method SyncArray(arr: seq<ObjData>, index: map<int, nat>, selected: Option<ObjData>,
                   inserted: Option<seq<int>>, modified: Option<seq<ObjData>>, removed: Option<seq<int>>)
    returns (newArr: seq<ObjData>, newIndex: map<int, nat>, newSelected: Option<ObjData>)
    requires FitsModified(index, arr, modified)
    ensures (newArr, newIndex, newSelected) == Synced(arr, index, selected, inserted, modified, removed)
  {
    newArr, newIndex, newSelected := arr, index, selected;
    var modifiedMap: map<int, ObjData> := map[];
    if modified.Some? {
      newArr, newSelected, modifiedMap := ModifiedLoop(arr, index, selected, modified.value);
    }
    if inserted.Some? {
      newArr, newIndex := InsertedLoop(newArr, index, inserted.value, modifiedMap);
    }
    if removed.Some? {
      newArr := RemoveKeys(newArr, removed.value);
      newIndex := BuildIndex(newArr);
    }
  }

  // ---------------------------------------------------------------------------
  // Guess lists and the entity graph as text
  // ---------------------------------------------------------------------------

  /** `xs.filter((txt) => txt !== t)`. */
  function Without(xs: seq<string>, t: string): (r: seq<string>)
    ensures forall x :: x in r <==> x in xs && x != t
    ensures forall x :: x != t ==> multiset(r)[x] == multiset(xs)[x]
    ensures multiset(r)[t] == 0
  {
    if |xs| == 0 then []
    else
      var rest := Without(xs[1..], t);
      assert xs == [xs[0]] + xs[1..];
      if xs[0] == t then rest else [xs[0]] + rest
  }

  /** Removing a text keeps the other entries in their order. */
  lemma {:induction false} WithoutAppend(a: seq<string>, b: seq<string>, t: string)
    ensures Without(a + b, t) == Without(a, t) + Without(b, t)
  {
    if |a| == 0 {
      assert a + b == b;
    } else {
      assert (a + b)[1..] == a[1..] + b;
      WithoutAppend(a[1..], b, t);
    }
  }

  /** A node with `t` filtered out of whichever guess lists it has. */
  function StripGuesses(n: ObjData, t: string): (r: ObjData)
    ensures r.key == n.key && r.text == n.text && r.from == n.from && r.to == n.to
    ensures r.prevGuessesForward.Some? <==> n.prevGuessesForward.Some?
    ensures r.prevGuessesBackward.Some? <==> n.prevGuessesBackward.Some?
    ensures r.prevGuessesForward.Some? ==> t !in r.prevGuessesForward.value
    ensures r.prevGuessesBackward.Some? ==> t !in r.prevGuessesBackward.value
  {
    n.(prevGuessesForward := if n.prevGuessesForward.Some? then Some(Without(n.prevGuessesForward.value, t)) else None,
       prevGuessesBackward := if n.prevGuessesBackward.Some? then Some(Without(n.prevGuessesBackward.value, t)) else None)
  }

  /** `keyToTextMap`: the node texts stored by key, in node order, so a later node overwrites. */
  function TextByKey(nodes: seq<ObjData>): map<int, Option<string>>
  {
    if |nodes| == 0 then map[]
    else TextByKey(nodes[..|nodes| - 1])[nodes[|nodes| - 1].key := nodes[|nodes| - 1].text]
  }

  /** Each key's text is that of the last node with the key, the one the index points to. */
  lemma {:induction false} TextByKeyIsLast(nodes: seq<ObjData>)
    ensures TextByKey(nodes).Keys == IndexOf(nodes).Keys
    ensures forall k :: k in TextByKey(nodes) ==> TextByKey(nodes)[k] == nodes[IndexOf(nodes)[k]].text
  {
    if |nodes| > 0 {
      var init := nodes[..|nodes| - 1];
      TextByKeyIsLast(init);
      forall k | k in IndexOf(init)
        ensures init[IndexOf(init)[k]] == nodes[IndexOf(init)[k]]
      {
      }
    }
  }

  /** A value as a template literal shows it: an undefined one as "undefined". */
  function Shown(v: Option<string>): string
  {
    if v.Some? then v.value else "undefined"
  }

  /** The text an end of a link names: undefined when no node has that key. */
  function EndText(texts: map<int, Option<string>>, end: Option<int>): Option<string>
  {
    if end.Some? && end.value in texts then texts[end.value] else None
  }

  /** `- <from> <label> <to>` for one link. */
  function LinkLine(texts: map<int, Option<string>>, link: ObjData): string
  {
    "- <" + Shown(EndText(texts, link.from)) + "> <" + Shown(link.text) + "> <" + Shown(EndText(texts, link.to)) + ">"
  }

  /** `getTextualGraphRepresentation`: one line per link, in link order. */
  function GraphLines(nodes: seq<ObjData>, links: seq<ObjData>): (r: seq<string>)
    ensures |r| == |links|
    ensures forall i :: 0 <= i < |links| ==> r[i] == LinkLine(TextByKey(nodes), links[i])
  {
    seq(|links|, i requires 0 <= i < |links| => LinkLine(TextByKey(nodes), links[i]))
  }

  /**
   * A link whose two ends are node keys names, in its line, the texts of the
   * last nodes with those keys.
   */
  lemma GraphLineNamesEnds(nodes: seq<ObjData>, links: seq<ObjData>, l: nat, i: nat, j: nat)
    requires l < |links| && i < |nodes| && j < |nodes|
    requires links[l].from == Some(nodes[i].key) && links[l].to == Some(nodes[j].key)
    requires forall i' :: i < i' < |nodes| ==> nodes[i'].key != nodes[i].key
    requires forall j' :: j < j' < |nodes| ==> nodes[j'].key != nodes[j].key
    ensures GraphLines(nodes, links)[l]
         == "- <" + Shown(nodes[i].text) + "> <" + Shown(links[l].text) + "> <" + Shown(nodes[j].text) + ">"
  {
    TextByKeyIsLast(nodes);
    var index := IndexOf(nodes);
    assert nodes[i].key in index && nodes[j].key in index;
    assert index[nodes[i].key] == i;
    assert index[nodes[j].key] == j;
  }

  // ---------------------------------------------------------------------------
  // The application state
  // ---------------------------------------------------------------------------

  /** One pane's part of the application state. */
  datatype PaneState<M> = PaneState(
    nodeDataArray: seq<ObjData>,
    linkDataArray: seq<ObjData>,
    modelData: M,
    selectedData: Option<ObjData>,
    skipsDiagramUpdate: bool)

  /** The change's modified nodes and links that are indexed find their positions inside the pane's arrays. */
  predicate ChangeFits<M>(p: PaneState<M>, change: IncrementalData<M>, nodeIndex: map<int, nat>, linkIndex: map<int, nat>)
  {
    FitsModified(nodeIndex, p.nodeDataArray, change.modifiedNodeData)
    && FitsModified(linkIndex, p.linkDataArray, change.modifiedLinkData)
  }

  /**
   * `handleModelChangeBase` on one pane, without the loading check: the node
   * part and then the link part of the change merged through the shared
   * indexes, the model data replaced when the change carries it, the skip
   * flag set. Returns the pane and the two indexes.
   */
  function Merged<M>(p: PaneState<M>, change: IncrementalData<M>, nodeIndex: map<int, nat>, linkIndex: map<int, nat>)
    : (PaneState<M>, map<int, nat>, map<int, nat>)
    requires ChangeFits(p, change, nodeIndex, linkIndex)
  {
    var n := Synced(p.nodeDataArray, nodeIndex, p.selectedData,
                    change.insertedNodeKeys, change.modifiedNodeData, change.removedNodeKeys);
    var l := Synced(p.linkDataArray, linkIndex, n.2,
                    change.insertedLinkKeys, change.modifiedLinkData, change.removedLinkKeys);
    (PaneState(n.0, l.0, change.modelData.GetOr(p.modelData), l.2, true), n.1, l.1)
  }

  /** Indexes consistent with a pane's arrays stay so through a change. */
  lemma MergedConsistent<M>(p: PaneState<M>, change: IncrementalData<M>, nodeIndex: map<int, nat>,
                            linkIndex: map<int, nat>)
    requires Consistent(nodeIndex, p.nodeDataArray) && Consistent(linkIndex, p.linkDataArray)
    ensures var r := Merged(p, change, nodeIndex, linkIndex);
      Consistent(r.1, r.0.nodeDataArray) && Consistent(r.2, r.0.linkDataArray)
  {
    SyncedConsistent(p.nodeDataArray, nodeIndex, p.selectedData,
                     change.insertedNodeKeys, change.modifiedNodeData, change.removedNodeKeys);
    var n := Synced(p.nodeDataArray, nodeIndex, p.selectedData,
                    change.insertedNodeKeys, change.modifiedNodeData, change.removedNodeKeys);
    SyncedConsistent(p.linkDataArray, linkIndex, n.2,
                     change.insertedLinkKeys, change.modifiedLinkData, change.removedLinkKeys);
  }

  /** The draft updates of `handleModelChangeBase` on one pane. */
  method MergeChange<M>(p: PaneState<M>, change: IncrementalData<M>, nodeIndex: map<int, nat>,
                        linkIndex: map<int, nat>)
    returns (q: PaneState<M>, newNodeIndex: map<int, nat>, newLinkIndex: map<int, nat>)
    requires ChangeFits(p, change, nodeIndex, linkIndex)
    ensures (q, newNodeIndex, newLinkIndex) == Merged(p, change, nodeIndex, linkIndex)
  {
    var narr, nix, sel := SyncArray(p.nodeDataArray, nodeIndex, p.selectedData,
                                    change.insertedNodeKeys, change.modifiedNodeData, change.removedNodeKeys);
    var larr, lix, sel2 := SyncArray(p.linkDataArray, linkIndex, sel,
                                     change.insertedLinkKeys, change.modifiedLinkData, change.removedLinkKeys);
    var modelData := p.modelData;
    if change.modelData.Some? {
      modelData := change.modelData.value;
    }
    q, newNodeIndex, newLinkIndex := PaneState(narr, larr, modelData, sel2, true), nix, lix;
  }

  /**
   * The events pane once an entities change is merged: its model data's
   * entities description is the entity graph's lines joined by "\n", and the
   * events diagram is no longer skipped; its arrays stay as they were.
   */
  function Described(ev: PaneState<Utils.ModelData>, en: PaneState<EntitiesModelData>): (r: PaneState<Utils.ModelData>)
    ensures r.nodeDataArray == ev.nodeDataArray && r.linkDataArray == ev.linkDataArray
  {
    ev.(modelData := ev.modelData.(entitiesDescription := Text.Join(GraphLines(en.nodeDataArray, en.linkDataArray), "\n")),
        skipsDiagramUpdate := false)
  }

  /** A node with `t` filtered out of whichever guess lists it has, for every node. */
  function StripAll(nodes: seq<ObjData>, t: string): (r: seq<ObjData>)
    ensures |r| == |nodes| && forall i :: 0 <= i < |nodes| ==> r[i] == StripGuesses(nodes[i], t)
  {
    seq(|nodes|, i requires 0 <= i < |nodes| => StripGuesses(nodes[i], t))
  }

  const StartKey: int := 9999
  const StartText: string := "Start - double click me to edit"

  class App {
    var events: PaneState<Utils.ModelData>
    var entities: PaneState<EntitiesModelData>
    var isLoading: bool

    /** `mapNodeKeyIdx` and `mapLinkKeyIdx`: one index of each kind, shared by both panes. */
    var nodeIndex: map<int, nat>
    var linkIndex: map<int, nat>

    /** The initial state: the start event alone, no entities, the indexes built from the events arrays. */
    constructor ()
      ensures events.nodeDataArray == [ObjData(StartKey, Some(StartText), None, None, Some([]), Some([]))]
      ensures events.linkDataArray == [] && entities.nodeDataArray == [] && entities.linkDataArray == []
      ensures events.selectedData == None && entities.selectedData == None
      ensures !events.skipsDiagramUpdate && !entities.skipsDiagramUpdate && !isLoading
      ensures nodeIndex == map[StartKey := 0] && linkIndex == map[]
      ensures Consistent(nodeIndex, events.nodeDataArray) && Consistent(linkIndex, events.linkDataArray)
    {
      events := PaneState([ObjData(StartKey, Some(StartText), None, None, Some([]), Some([]))], [],
                          Utils.ModelData("", Some([3]), Some([3]), Some([0.8]), "", true), None, false);
      entities := PaneState([], [], EntitiesModelData(false, false, "", [], [], false), None, false);
      isLoading := false;
      new;
      RefreshNodeIndex(events.nodeDataArray);
      RefreshLinkIndex(events.linkDataArray);
      assert IndexOf(events.nodeDataArray)[StartKey] == 0;
    }

    /** `refreshNodeIndex`. */
    method RefreshNodeIndex(arr: seq<ObjData>)
      modifies this
      ensures nodeIndex == IndexOf(arr) && Consistent(nodeIndex, arr)
      ensures events == old(events) && entities == old(entities)
      ensures linkIndex == old(linkIndex) && isLoading == old(isLoading)
    {
      nodeIndex := BuildIndex(arr);
    }

    /** `refreshLinkIndex`. */
    method RefreshLinkIndex(arr: seq<ObjData>)
      modifies this
      ensures linkIndex == IndexOf(arr) && Consistent(linkIndex, arr)
      ensures events == old(events) && entities == old(entities)
      ensures nodeIndex == old(nodeIndex) && isLoading == old(isLoading)
    {
      linkIndex := BuildIndex(arr);
    }

    /** `setAppLoading`. */
    method SetAppLoading(val: bool)
      modifies this
      ensures isLoading == val
      ensures events == old(events) && entities == old(entities)
      ensures nodeIndex == old(nodeIndex) && linkIndex == old(linkIndex)
    {
      isLoading := val;
    }

    /** `handleModelChangeBase(obj, 'events')`: nothing while loading, otherwise the merge. */
    method HandleEventsModelChange(change: IncrementalData<Utils.ModelData>)
      modifies this
      requires ChangeFits(events, change, nodeIndex, linkIndex)
      ensures old(isLoading) ==> unchanged(this)
      ensures !old(isLoading) ==>
        (events, nodeIndex, linkIndex) == Merged(old(events), change, old(nodeIndex), old(linkIndex))
      ensures entities == old(entities) && isLoading == old(isLoading)
    {
      if isLoading {
        return;
      }
      events, nodeIndex, linkIndex := MergeChange(events, change, nodeIndex, linkIndex);
    }

    /**
     * `handleModelChangeBase(obj, 'entities')`: nothing while loading;
     * otherwise the merge, after which the events model data's entities
     * description becomes the entity graph's lines joined by "\n", and the
     * events diagram is no longer skipped.
     */
    method HandleEntitiesModelChange(change: IncrementalData<EntitiesModelData>)
      modifies this
      requires ChangeFits(entities, change, nodeIndex, linkIndex)
      ensures old(isLoading) ==> unchanged(this)
      ensures !old(isLoading) ==>
        && (entities, nodeIndex, linkIndex) == Merged(old(entities), change, old(nodeIndex), old(linkIndex))
        && events == Described(old(events), entities)
      ensures isLoading == old(isLoading)
    {
      if isLoading {
        return;
      }
      entities, nodeIndex, linkIndex := MergeChange(entities, change, nodeIndex, linkIndex);
      events := Described(events, entities);
    }

    /**
     * `handleEventNodeRemoved`: every occurrence of the removed node's text
     * leaves every events node's forward and backward guess lists; nothing
     * else changes.
     */
    method HandleEventNodeRemoved(nodeText: string)
      modifies this
      ensures events == old(events).(nodeDataArray := StripAll(old(events.nodeDataArray), nodeText))
      ensures entities == old(entities) && isLoading == old(isLoading)
      ensures nodeIndex == old(nodeIndex) && linkIndex == old(linkIndex)
    {
      var nodes := events.nodeDataArray;
      for i := 0 to |nodes|
        invariant |nodes| == |old(events.nodeDataArray)|
        invariant forall j :: 0 <= j < i ==> nodes[j] == StripGuesses(old(events.nodeDataArray)[j], nodeText)
        invariant forall j :: i <= j < |nodes| ==> nodes[j] == old(events.nodeDataArray)[j]
      {
        nodes := nodes[i := StripGuesses(nodes[i], nodeText)];
      }
      events := events.(nodeDataArray := nodes);
    }
  }

  // ---------------------------------------------------------------------------
  // One index pair per pane
  // ---------------------------------------------------------------------------

  /** The index covers the array: consistent, and every key of the array is indexed. */
  predicate Complete(index: map<int, nat>, arr: seq<ObjData>)
  {
    Consistent(index, arr) && forall i {:trigger arr[i].key in index} :: 0 <= i < |arr| ==> arr[i].key in index
  }

  /**
   * With an index that covers an array of distinct keys, the modified step
   * replaces every element whose key was modified by that key's last datum,
   * and leaves every other element alone.
   */
  lemma CompleteIndexAppliesEdits(arr: seq<ObjData>, index: map<int, nat>, selected: Option<ObjData>,
                                  mods: seq<ObjData>)
    requires Complete(index, arr)
    requires forall i, j :: 0 <= i < j < |arr| ==> arr[i].key != arr[j].key
    ensures forall i :: 0 <= i < |arr| ==>
      ApplyModified(arr, index, selected, mods).0[i]
        == (if arr[i].key in ModMap(mods) then ModMap(mods)[arr[i].key] else arr[i])
  {
    ModifiedReplaces(arr, index, selected, mods);
    forall i | 0 <= i < |arr|
      ensures ModifiedAt(arr, index, ModMap(mods), i) <==> arr[i].key in ModMap(mods)
    {
      var p := index[arr[i].key];
      assert arr[p].key == arr[i].key;
    }
  }

  /** A change merged through an index that covers the array leaves one that covers the result. */
  lemma SyncedComplete(arr: seq<ObjData>, index: map<int, nat>, selected: Option<ObjData>,
                       inserted: Option<seq<int>>, modified: Option<seq<ObjData>>, removed: Option<seq<int>>)
    requires Complete(index, arr)
    ensures var r := Synced(arr, index, selected, inserted, modified, removed);
      Complete(r.1, r.0)
  {
    SyncedConsistent(arr, index, selected, inserted, modified, removed);
    var afterModified := if modified.Some? then ApplyModified(arr, index, selected, modified.value) else (arr, selected);
    if modified.Some? {
      ModifiedReplaces(arr, index, selected, modified.value);
    }
    assert forall i :: 0 <= i < |arr| ==> afterModified.0[i].key == arr[i].key;
    var mm := if modified.Some? then ModMap(modified.value) else map[];
    if inserted.Some? {
      var r := ApplyInserted(afterModified.0, index, inserted.value, mm);
      forall i | 0 <= i < |r.0|
        ensures r.0[i].key in r.1
      {
        if i < |afterModified.0| {
          assert r.0[i] == r.0[..|afterModified.0|][i];
        }
      }
    }
  }

  /** The node index covers the pane's node array and the link index its link array. */
  predicate Covers<M>(p: PaneState<M>, nodeIndex: map<int, nat>, linkIndex: map<int, nat>)
  {
    Complete(nodeIndex, p.nodeDataArray) && Complete(linkIndex, p.linkDataArray)
  }

  /** Rebuilding the entities description leaves the events pane's arrays, and so their cover, alone. */
  lemma DescribedCovers(ev: PaneState<Utils.ModelData>, en: PaneState<EntitiesModelData>,
                        nodeIndex: map<int, nat>, linkIndex: map<int, nat>)
    requires Covers(ev, nodeIndex, linkIndex)
    ensures Covers(Described(ev, en), nodeIndex, linkIndex)
  {
  }

  /** Indexes that cover a pane's arrays still cover them after a change. */
  lemma MergedComplete<M>(p: PaneState<M>, change: IncrementalData<M>, nodeIndex: map<int, nat>,
                          linkIndex: map<int, nat>)
    requires Covers(p, nodeIndex, linkIndex)
    ensures ChangeFits(p, change, nodeIndex, linkIndex)
    ensures var r := Merged(p, change, nodeIndex, linkIndex);
      Covers(r.0, r.1, r.2)
  {
    SyncedComplete(p.nodeDataArray, nodeIndex, p.selectedData,
                   change.insertedNodeKeys, change.modifiedNodeData, change.removedNodeKeys);
    var n := Synced(p.nodeDataArray, nodeIndex, p.selectedData,
                    change.insertedNodeKeys, change.modifiedNodeData, change.removedNodeKeys);
    SyncedComplete(p.linkDataArray, linkIndex, n.2,
                   change.insertedLinkKeys, change.modifiedLinkData, change.removedLinkKeys);
  }

  /** `MergeChange` through indexes that cover the pane: the result is covered too. */
  method MergeCovered<M>(p: PaneState<M>, change: IncrementalData<M>, nodeIndex: map<int, nat>,
                         linkIndex: map<int, nat>)
    returns (q: PaneState<M>, newNodeIndex: map<int, nat>, newLinkIndex: map<int, nat>)
    requires Covers(p, nodeIndex, linkIndex)
    ensures ChangeFits(p, change, nodeIndex, linkIndex)
    ensures (q, newNodeIndex, newLinkIndex) == Merged(p, change, nodeIndex, linkIndex)
    ensures Covers(q, newNodeIndex, newLinkIndex)
  {
    MergedComplete(p, change, nodeIndex, linkIndex);
    q, newNodeIndex, newLinkIndex := MergeChange(p, change, nodeIndex, linkIndex);
  }

  /**
   * The application state with a node index and a link index for each pane,
   * each refreshed from its own pane's arrays only.
   */
  class IndexedApp {
    var events: PaneState<Utils.ModelData>
    var entities: PaneState<EntitiesModelData>
    var isLoading: bool
    var eventsNodeIndex: map<int, nat>
    var eventsLinkIndex: map<int, nat>
    var entitiesNodeIndex: map<int, nat>
    var entitiesLinkIndex: map<int, nat>

    /** Each index covers its own pane's array. */
    predicate Valid()
      reads this
    {
      Covers(events, eventsNodeIndex, eventsLinkIndex) && Covers(entities, entitiesNodeIndex, entitiesLinkIndex)
    }

    /** The same initial state as `App`, each pane indexed from its own arrays. */
    constructor ()
      ensures Valid()
      ensures events.nodeDataArray == [ObjData(StartKey, Some(StartText), None, None, Some([]), Some([]))]
      ensures events.linkDataArray == [] && entities.nodeDataArray == [] && entities.linkDataArray == []
      ensures events.selectedData == None && entities.selectedData == None
      ensures !events.skipsDiagramUpdate && !entities.skipsDiagramUpdate && !isLoading
    {
      events := PaneState([ObjData(StartKey, Some(StartText), None, None, Some([]), Some([]))], [],
                          Utils.ModelData("", Some([3]), Some([3]), Some([0.8]), "", true), None, false);
      entities := PaneState([], [], EntitiesModelData(false, false, "", [], [], false), None, false);
      isLoading := false;
      eventsNodeIndex := map[StartKey := 0];
      eventsLinkIndex, entitiesNodeIndex, entitiesLinkIndex := map[], map[], map[];
    }

    /** `handleModelChangeBase(obj, 'events')` through the events pane's own indexes. */
    method HandleEventsModelChange(change: IncrementalData<Utils.ModelData>)
      modifies this
      requires Valid()
      ensures Valid()
      ensures old(isLoading) ==> unchanged(this)
      ensures !old(isLoading) ==>
        (events, eventsNodeIndex, eventsLinkIndex) == Merged(old(events), change, old(eventsNodeIndex), old(eventsLinkIndex))
      ensures entities == old(entities) && entitiesNodeIndex == old(entitiesNodeIndex)
      ensures entitiesLinkIndex == old(entitiesLinkIndex) && isLoading == old(isLoading)
    {
      if isLoading {
        return;
      }
      events, eventsNodeIndex, eventsLinkIndex := MergeCovered(events, change, eventsNodeIndex, eventsLinkIndex);
    }

    /**
     * `handleModelChangeBase(obj, 'entities')` through the entities pane's own
     * indexes, then the events model data's entities description rebuilt.
     */
    method HandleEntitiesModelChange(change: IncrementalData<EntitiesModelData>)
      modifies this
      requires Valid()
      ensures Valid()
      ensures old(isLoading) ==> unchanged(this)
      ensures !old(isLoading) ==>
        && (entities, entitiesNodeIndex, entitiesLinkIndex)
           == Merged(old(entities), change, old(entitiesNodeIndex), old(entitiesLinkIndex))
        && events == Described(old(events), entities)
      ensures eventsNodeIndex == old(eventsNodeIndex) && eventsLinkIndex == old(eventsLinkIndex)
      ensures isLoading == old(isLoading)
    {
      if isLoading {
        return;
      }
      var q, nodeIndex, linkIndex := MergeCovered(entities, change, entitiesNodeIndex, entitiesLinkIndex);
      DescribedCovers(events, q, eventsNodeIndex, eventsLinkIndex);
      events, entities, entitiesNodeIndex, entitiesLinkIndex := Described(events, q), q, nodeIndex, linkIndex;
    }
  }

  /** An entity node as the entities diagram creates it, and the same node after its text is edited. */
  const NewEntity: ObjData := ObjData(1, Some("new node"), None, None, None, None)
  const EditedEntity: ObjData := ObjData(1, Some("Alice"), None, None, None, None)

  /** The entity node is inserted; the start event is deleted; the entity's text is edited. */
  const AddEntity: IncrementalData<EntitiesModelData> :=
    IncrementalData(Some([1]), Some([NewEntity]), None, None, None, None, None)
  const DeleteStart: IncrementalData<Utils.ModelData> :=
    IncrementalData(None, None, Some([StartKey]), None, None, None, None)
  const EditEntity: IncrementalData<EntitiesModelData> :=
    IncrementalData(None, Some([EditedEntity]), None, None, None, None, None)

  /** Inserting the new entity into an empty entities pane appends it and indexes it at position 0. */
  lemma AddEntityMerged(p: PaneState<EntitiesModelData>, nodeIndex: map<int, nat>, linkIndex: map<int, nat>)
    requires p.nodeDataArray == [] && 1 !in nodeIndex
    ensures ChangeFits(p, AddEntity, nodeIndex, linkIndex)
    ensures var r := Merged(p, AddEntity, nodeIndex, linkIndex);
      r.0.nodeDataArray == [NewEntity] && r.1 == nodeIndex[1 := 0] && r.2 == linkIndex
  {
    assert [NewEntity][..0] == [] && [1][..0] == [];
    assert ModMap([NewEntity]) == map[1 := NewEntity];
    assert ApplyModified([], nodeIndex, p.selectedData, [NewEntity]) == ([], p.selectedData);
    assert ApplyInserted([], nodeIndex, [1], map[1 := NewEntity]) == ([NewEntity], nodeIndex[1 := 0]);
  }

  /** Deleting the only event empties the events pane, and the node index is rebuilt empty. */
  lemma DeleteStartMerged(p: PaneState<Utils.ModelData>, nodeIndex: map<int, nat>, linkIndex: map<int, nat>)
    requires p.nodeDataArray == [ObjData(StartKey, Some(StartText), None, None, Some([]), Some([]))]
    ensures ChangeFits(p, DeleteStart, nodeIndex, linkIndex)
    ensures var r := Merged(p, DeleteStart, nodeIndex, linkIndex);
      r.0.nodeDataArray == [] && r.1 == map[] && r.2 == linkIndex
  {
    assert RemoveKeys(p.nodeDataArray, [StartKey]) == [];
  }

  /** The edit replaces the entity exactly when its key is indexed at position 0. */
  lemma EditEntityMerged(p: PaneState<EntitiesModelData>, nodeIndex: map<int, nat>, linkIndex: map<int, nat>)
    requires p.nodeDataArray == [NewEntity] && (1 in nodeIndex ==> nodeIndex[1] == 0)
    ensures ChangeFits(p, EditEntity, nodeIndex, linkIndex)
    ensures Merged(p, EditEntity, nodeIndex, linkIndex).0.nodeDataArray
            == if 1 in nodeIndex then [EditedEntity] else [NewEntity]
  {
    assert [EditedEntity][..0] == [];
    assert ApplyModified([NewEntity], nodeIndex, p.selectedData, [EditedEntity]).0
           == if 1 in nodeIndex then [EditedEntity] else [NewEntity];
  }

  /**
   * With the shared index, deleting an event rebuilds the node index from the
   * events array alone; the entity's key drops out of it, and the entity's
   * later text edit never reaches the entities array.
   */
  method SharedIndexLosesEntityEdit() returns (entityNodes: seq<ObjData>)
    ensures entityNodes == [NewEntity]
  {
    var app := new App();
    AddEntityMerged(app.entities, app.nodeIndex, app.linkIndex);
    app.HandleEntitiesModelChange(AddEntity);
    DeleteStartMerged(app.events, app.nodeIndex, app.linkIndex);
    app.HandleEventsModelChange(DeleteStart);
    EditEntityMerged(app.entities, app.nodeIndex, app.linkIndex);
    app.HandleEntitiesModelChange(EditEntity);
    entityNodes := app.entities.nodeDataArray;
  }

  /** The same three changes with one index pair per pane: the edit lands. */
  method PerPaneIndexKeepsEntityEdit() returns (entityNodes: seq<ObjData>)
    ensures entityNodes == [EditedEntity]
  {
    var app := new IndexedApp();
    AddEntityMerged(app.entities, app.entitiesNodeIndex, app.entitiesLinkIndex);
    app.HandleEntitiesModelChange(AddEntity);
    app.HandleEventsModelChange(DeleteStart);
    EditEntityMerged(app.entities, app.entitiesNodeIndex, app.entitiesLinkIndex);
    app.HandleEntitiesModelChange(EditEntity);
    entityNodes := app.entities.nodeDataArray;
  }
}
