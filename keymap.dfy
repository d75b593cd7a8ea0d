/** The key-to-position index of the old children (`createKeyToOldIdx`, src/snabbdom.ts:38-47). */
module KeyMap {
  import opened Wrappers
  import opened VNodes

  /** The key of a slot, when the slot holds a node with a defined key. */
  function SlotKey(children: seq<Option<VNode>>, i: int): Option<Key> {
    if 0 <= i < |children| && children[i].Some? then children[i].value.key else None
  }

  /**
   * Maps the key of every keyed node at positions `beginIdx..endIdx` to its
   * position. Positions outside the array read as `undefined` and are
   * skipped, as are null slots and nodes without a key; for a key that
   * occurs twice the later position overwrites the earlier one.
   */
  method CreateKeyToOldIdx(children: seq<Option<VNode>>, beginIdx: int, endIdx: int)
    returns (m: map<Key, int>)
    ensures forall k :: k in m ==> beginIdx <= m[k] <= endIdx && SlotKey(children, m[k]) == Some(k)
    ensures forall i :: beginIdx <= i <= endIdx && SlotKey(children, i).Some? ==>
      SlotKey(children, i).value in m && i <= m[SlotKey(children, i).value]
  {
    m := map[];
    var i := beginIdx;
    while i <= endIdx
      invariant beginIdx <= i && (beginIdx <= endIdx + 1 ==> i <= endIdx + 1)
      invariant forall k :: k in m ==> beginIdx <= m[k] < i && m[k] <= endIdx && SlotKey(children, m[k]) == Some(k)
      invariant forall j :: beginIdx <= j < i && SlotKey(children, j).Some? ==>
        SlotKey(children, j).value in m && j <= m[SlotKey(children, j).value]
      decreases endIdx - i
    {
      var key := SlotKey(children, i);
      if key.Some? {
        m := m[key.value := i];
      }
      i := i + 1;
    }
  }

  /** Two keyed positions in range that share a key: the map keeps the higher one. */
  lemma HighestIndexWins(children: seq<Option<VNode>>, beginIdx: int, endIdx: int, m: map<Key, int>, i: int, j: int)
    requires forall k :: k in m ==> beginIdx <= m[k] <= endIdx && SlotKey(children, m[k]) == Some(k)
    requires forall i :: beginIdx <= i <= endIdx && SlotKey(children, i).Some? ==>
      SlotKey(children, i).value in m && i <= m[SlotKey(children, i).value]
    requires beginIdx <= i < j <= endIdx
    requires SlotKey(children, i).Some? && SlotKey(children, i) == SlotKey(children, j)
    ensures m[SlotKey(children, i).value] != i
  {
    assert j <= m[SlotKey(children, j).value];
  }
}
