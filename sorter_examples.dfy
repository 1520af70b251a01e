/**
 * Worked instances of the field orders, one per kind of class.
 */
module FieldKeySorterExamples {
  import opened Wrappers
  import opened StringOrder
  import opened OrderRetainingMaps
  import opened FieldKeySorter

  /** A Project's listed field comes out with its value; the unlisted one
      leaves an empty slot, written as a single null key. */
  lemma ProjectOrderExample()
    ensures ProjectOrder([Pair(FieldKey("cache", 0, Unannotated), 1), Pair(FieldKey("settings", 0, Unannotated), 2)])
      == [Pair(Some(FieldKey("settings", 0, Unannotated)), Some(2)), Pair(None, None)]
  {
  }

  /** A Scene map with a single field cannot hold slot 10 of "$change": the
      slot array has length 1. */
  lemma SceneOverflowExample()
    ensures SlotOrder(SceneFields, [Pair(FieldKey("$change", 0, Unannotated), 7)]) == Failure(IndexOutOfBounds(10, 1))
  {
    var m := [Pair(FieldKey("$change", 0, Unannotated), 7)];
    SlotOfFirst(SceneFields, "$change", 10);
    assert !Fits(SceneFields, m[0].key, 1);
    assert FirstOverflow(SceneFields, m, 1) == Some(0);
  }

  /** Any other class: shallower fields first, then by name or alias; a field
      whose alias equals another field's name merges with it, keeping the key
      put first and the value put last. */
  lemma TreeOrderExample()
    ensures TreePutAll([Pair(FieldKey("zoom", 1, Unannotated), 1),
                        Pair(FieldKey("width", 0, Aliased("w")), 2),
                        Pair(FieldKey("height", 0, Unannotated), 3),
                        Pair(FieldKey("w", 0, Unannotated), 4)])
      == [Pair(FieldKey("height", 0, Unannotated), 3),
          Pair(FieldKey("width", 0, Aliased("w")), 4),
          Pair(FieldKey("zoom", 1, Unannotated), 1)]
  {
    var zoom, width, height, w := FieldKey("zoom", 1, Unannotated), FieldKey("width", 0, Aliased("w")),
      FieldKey("height", 0, Unannotated), FieldKey("w", 0, Unannotated);
    var m := [Pair(zoom, 1), Pair(width, 2), Pair(height, 3), Pair(w, 4)];
    var m1, m2, m3 := [Pair(zoom, 1)], [Pair(zoom, 1), Pair(width, 2)], [Pair(zoom, 1), Pair(width, 2), Pair(height, 3)];
    assert m3[..2] == m2 && m2[..1] == m1 && m[..3] == m3 && m1[..0] == [];
    assert TreePutAll(m1) == [Pair(zoom, 1)];
    assert Compare(width, zoom) < 0;
    assert TreePutAll(m2) == [Pair(width, 2), Pair(zoom, 1)];
    assert CompareTo("height", "w") < 0;
    assert TreePutAll(m3) == [Pair(height, 3), Pair(width, 2), Pair(zoom, 1)];
    assert CompareTo("w", "height") > 0;
    assert Compare(w, width) == 0 && Compare(w, height) > 0;
    assert TreeInsert([Pair(width, 2), Pair(zoom, 1)], w, 4) == [Pair(width, 4), Pair(zoom, 1)];
  }
}
