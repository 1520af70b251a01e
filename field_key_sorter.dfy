/**
 * The order in which the serialiser writes an object's fields to XML.
 * Given the class being written and its fields keyed by FieldKey in their
 * iteration order, `Sort` returns the keys (with their values) in the order
 * they are to be written: Project, Scene and Sprite have hand-written
 * orders, every other class is ordered by field depth, then by field name
 * or XML alias.
 */
module FieldKeySorter {
  import opened Wrappers
  import opened StringOrder
  import opened OrderRetainingMaps

  /** What reflection finds for the field a key names: a field carrying an
      alias annotation, a field without one, or no such field (the lookup
      throws and the error is only logged). */
  datatype FieldLookup = Aliased(alias: string) | Unannotated | NotFound

  /** A field key: the field's name, the depth of its declaring class in the
      class hierarchy, and what reflection finds for it. */
  datatype FieldKey = FieldKey(name: string, depth: nat, lookup: FieldLookup)

  /** The class whose fields are being ordered. */
  datatype ClassTag = ProjectClass | SceneClass | SpriteClass | OtherClass(className: string)

  /** The exception a slot-based ordering raises when a field's fixed slot is
      not an index of the slot array. */
  datatype SortError = IndexOutOfBounds(index: nat, length: nat)

  /** An entry of the input map. */
  type Entry<V> = Pair<FieldKey, V>

  /** An entry of an output map built from a slot array: the key is null for
      an unfilled slot, and so is the value looked up for it. */
  type Slot<V> = Pair<Option<FieldKey>, Option<V>>

  /** The input is a map: no key occurs twice. */
  predicate DistinctKeys<V>(m: seq<Entry<V>>) {
    Distinct(Keys(m))
  }

  // ---------------------------------------------------------------------
  // The ordering used for every class other than Project, Scene and Sprite
  // ---------------------------------------------------------------------

  /** The XML alias of the field when it is annotated with one, and its plain
      name otherwise, including when the field cannot be found. */
  function NameOrAlias(k: FieldKey): (s: string)
    ensures k.lookup.Aliased? ==> s == k.lookup.alias
    ensures k.lookup.Unannotated? || k.lookup.NotFound? ==> s == k.name
  {
    match k.lookup
    case Aliased(alias) => alias
    case Unannotated => k.name
    case NotFound => k.name
  }

  /** The comparator: depth difference, and on equal depth compareTo of the
      names or aliases. Depths are non-negative, so the subtraction cannot
      overflow a Java int. */
  function Compare(a: FieldKey, b: FieldKey): int {
    var byDepth := a.depth - b.depth;
    if byDepth == 0 then CompareTo(NameOrAlias(a), NameOrAlias(b)) else byDepth
  }

  /** All the comparator looks at: two keys with the same rank compare equal. */
  function Rank(k: FieldKey): (nat, string) {
    (k.depth, NameOrAlias(k))
  }

  /** The comparator sorts by depth, then lexicographically by name or alias;
      it is zero exactly on keys of equal rank, and antisymmetric. */
  lemma CompareMeaning(a: FieldKey, b: FieldKey)
    ensures Compare(a, b) < 0 <==>
      a.depth < b.depth || (a.depth == b.depth && Precedes(NameOrAlias(a), NameOrAlias(b)))
    ensures Compare(a, b) == 0 <==> Rank(a) == Rank(b)
    ensures Compare(b, a) == -Compare(a, b)
  {
    CompareToNegative(NameOrAlias(a), NameOrAlias(b));
    CompareToZero(NameOrAlias(a), NameOrAlias(b));
    CompareToAntisymmetric(NameOrAlias(a), NameOrAlias(b));
  }

  /** The comparator is transitive. */
  lemma CompareTransitive(a: FieldKey, b: FieldKey, c: FieldKey)
    requires Compare(a, b) < 0 && Compare(b, c) < 0
    ensures Compare(a, c) < 0
  {
    if a.depth == b.depth == c.depth {
      CompareToTransitive(NameOrAlias(a), NameOrAlias(b), NameOrAlias(c));
    }
  }

  /** A TreeMap's entries are strictly ascending under the comparator. */
  ghost predicate Ascending<V>(t: seq<Entry<V>>) {
    forall i, j :: 0 <= i < j < |t| ==> Compare(t[i].key, t[j].key) < 0
  }

  /** The ranks present in a sequence of entries. */
  ghost function Ranks<V>(t: seq<Entry<V>>): set<(nat, string)> {
    set e | e in t :: Rank(e.key)
  }

  /** TreeMap.put: a key comparing equal to a present one replaces that
      entry's value and keeps the present key; any other key is inserted at
      its place in the order. */
  function TreeInsert<V>(t: seq<Entry<V>>, k: FieldKey, v: V): seq<Entry<V>> {
    if t == [] then [Pair(k, v)]
    else
      var c := Compare(k, t[0].key);
      if c < 0 then [Pair(k, v)] + t
      else if c == 0 then [Pair(t[0].key, v)] + t[1..]
      else [t[0]] + TreeInsert(t[1..], k, v)
  }

  /** TreeMap.putAll of the input into an empty TreeMap: the entries are put
      one by one in iteration order. */
  function TreePutAll<V>(m: seq<Entry<V>>): seq<Entry<V>> {
    if m == [] then []
    else
      var last := m[|m| - 1];
      TreeInsert(TreePutAll(m[..|m| - 1]), last.key, last.value)
  }

  /** The first key of the input with rank `r`, if any. */
  function FirstWithRank<V>(m: seq<Entry<V>>, r: (nat, string)): Option<FieldKey> {
    if m == [] then None
    else
      var first := FirstWithRank(m[..|m| - 1], r);
      if first.Some? then first
      else if Rank(m[|m| - 1].key) == r then Some(m[|m| - 1].key)
      else None
  }

  /** The value of the last entry of the input with rank `r`, if any. */
  function LastWithRank<V>(m: seq<Entry<V>>, r: (nat, string)): Option<V> {
    if m == [] then None
    else if Rank(m[|m| - 1].key) == r then Some(m[|m| - 1].value)
    else LastWithRank(m[..|m| - 1], r)
  }

  lemma RanksAppend<V>(p: seq<Entry<V>>, e: Entry<V>)
    ensures Ranks(p + [e]) == Ranks(p) + {Rank(e.key)}
  {
    assert forall x :: x in p + [e] <==> x in p || x == e;
  }

  /** Both lookups find something exactly when the rank occurs in the input. */
  lemma {:induction false} WithRankPresent<V>(m: seq<Entry<V>>, r: (nat, string))
    ensures FirstWithRank(m, r).Some? <==> r in Ranks(m)
    ensures LastWithRank(m, r).Some? <==> r in Ranks(m)
  {
    if m != [] {
      var p := m[..|m| - 1];
      WithRankPresent(p, r);
      assert m == p + [m[|m| - 1]];
      RanksAppend(p, m[|m| - 1]);
    }
  }

  /** The key an insertion of `k` leaves in the tree: the present key of the
      same rank when there is one, `k` itself otherwise. */
  function Resident<V>(t: seq<Entry<V>>, k: FieldKey): (r: FieldKey)
    ensures Rank(r) == Rank(k)
  {
    if t == [] then k
    else if Rank(t[0].key) == Rank(k) then t[0].key
    else Resident(t[1..], k)
  }

  /** The resident key is `k` when its rank is absent, and otherwise the key
      of the (in an ascending sequence unique) entry of that rank. */
  lemma {:induction false} ResidentFacts<V>(t: seq<Entry<V>>, k: FieldKey)
    requires Ascending(t)
    ensures Rank(k) !in Ranks(t) ==> Resident(t, k) == k
    ensures forall e :: e in t && Rank(e.key) == Rank(k) ==> Resident(t, k) == e.key
  {
    if t != [] {
      AscendingTail(t);
      assert forall e :: e in t ==> e == t[0] || e in t[1..] by {
        assert t == [t[0]] + t[1..];
      }
      if Rank(t[0].key) != Rank(k) {
        ResidentFacts(t[1..], k);
      }
    }
  }

  /** Every entry after the head of an ascending sequence compares above it,
      and the tail is ascending. */
  lemma AscendingTail<V>(t: seq<Entry<V>>)
    requires t != [] && Ascending(t)
    ensures Ascending(t[1..])
    ensures forall e :: e in t[1..] ==> Compare(t[0].key, e.key) < 0 && Rank(e.key) != Rank(t[0].key)
  {
    forall e | e in t[1..] ensures Compare(t[0].key, e.key) < 0 && Rank(e.key) != Rank(t[0].key) {
      var j :| 0 <= j < |t[1..]| && t[1..][j] == e;
      assert t[j + 1] == e;
      CompareMeaning(t[0].key, e.key);
    }
  }

  /** After inserting `k` with `v` into an ascending sequence, the entries are
      those of other ranks, unchanged, plus one entry of the key's rank that
      holds the resident key and the new value. */
  lemma {:induction false} TreeInsertElements<V>(t: seq<Entry<V>>, k: FieldKey, v: V)
    requires Ascending(t)
    ensures forall e :: e in TreeInsert(t, k, v) <==>
      (e in t && Rank(e.key) != Rank(k)) || e == Pair(Resident(t, k), v)
  {
    if t != [] {
      var r := TreeInsert(t, k, v);
      var rest := t[1..];
      assert t == [t[0]] + rest;
      AscendingTail(t);
      ResidentFacts(t, k);
      CompareMeaning(k, t[0].key);
      var c := Compare(k, t[0].key);
      if c < 0 {
        forall e | e in rest ensures Rank(e.key) != Rank(k) {
          CompareTransitive(k, t[0].key, e.key);
          CompareMeaning(k, e.key);
        }
        assert Rank(k) !in Ranks(t);
      } else if c == 0 {
        assert r == [Pair(t[0].key, v)] + rest;
      } else {
        TreeInsertElements(rest, k, v);
        assert r == [t[0]] + TreeInsert(rest, k, v);
      }
    }
  }

  /** An entry below every entry of an ascending sequence can be put in
      front of it. */
  lemma ConsAscending<V>(h: Entry<V>, s: seq<Entry<V>>)
    requires Ascending(s)
    requires forall e :: e in s ==> Compare(h.key, e.key) < 0
    ensures Ascending([h] + s)
  {
    var r := [h] + s;
    forall i, j | 0 <= i < j < |r| ensures Compare(r[i].key, r[j].key) < 0 {
      assert r[j] == s[j - 1];
      if i > 0 { assert r[i] == s[i - 1]; } else { assert s[j - 1] in s; }
    }
  }

  /** An entry of the result that was not in the sequence before is the
      inserted one. */
  lemma InsertedEntry<V>(t: seq<Entry<V>>, k: FieldKey, v: V, e: Entry<V>)
    requires Ascending(t)
    requires e in TreeInsert(t, k, v) && e !in t
    ensures e == Pair(Resident(t, k), v) && Rank(e.key) == Rank(k)
  {
    TreeInsertElements(t, k, v);
  }

  /** Inserting into an ascending sequence keeps it ascending. */
  lemma {:induction false} TreeInsertAscending<V>(t: seq<Entry<V>>, k: FieldKey, v: V)
    requires Ascending(t)
    ensures Ascending(TreeInsert(t, k, v))
  {
    if t != [] {
      var rest := t[1..];
      AscendingTail(t);
      CompareMeaning(k, t[0].key);
      var c := Compare(k, t[0].key);
      if c < 0 {
        forall e | e in t ensures Compare(k, e.key) < 0 {
          if e != t[0] {
            assert e in rest by { assert t == [t[0]] + rest; }
            CompareTransitive(k, t[0].key, e.key);
          }
        }
        ConsAscending(Pair(k, v), t);
      } else if c == 0 {
        ConsAscending(Pair(t[0].key, v), rest);
      } else {
        TreeInsertAscending(rest, k, v);
        TreeInsertElements(rest, k, v);
        forall e | e in TreeInsert(rest, k, v) ensures Compare(t[0].key, e.key) < 0 {
          if e !in rest {
            InsertedEntry(rest, k, v, e);
          }
        }
        ConsAscending(t[0], TreeInsert(rest, k, v));
      }
    }
  }

  /** One put adds the key's rank to the ranks present. */
  lemma TreeInsertRanks<V>(t: seq<Entry<V>>, k: FieldKey, v: V)
    requires Ascending(t)
    ensures Ranks(TreeInsert(t, k, v)) == Ranks(t) + {Rank(k)}
  {
    var r := TreeInsert(t, k, v);
    TreeInsertElements(t, k, v);
    forall x | x in Ranks(r) ensures x in Ranks(t) + {Rank(k)} {
      var e :| e in r && Rank(e.key) == x;
      if e !in t {
        assert e == Pair(Resident(t, k), v);
      }
    }
    forall x | x in Ranks(t) + {Rank(k)} ensures x in Ranks(r) {
      if x == Rank(k) {
        assert Pair(Resident(t, k), v) in r;
      } else {
        var e :| e in t && Rank(e.key) == x;
        assert e in r;
      }
    }
  }

  /** TreeMap.putAll yields entries strictly ascending under the comparator,
      with exactly the ranks of the input. */
  lemma {:induction false} TreePutAllShape<V>(m: seq<Entry<V>>)
    ensures Ascending(TreePutAll(m))
    ensures Ranks(TreePutAll(m)) == Ranks(m)
  {
    if m != [] {
      var p := m[..|m| - 1];
      var last := m[|m| - 1];
      assert m == p + [last];
      TreePutAllShape(p);
      TreeInsertAscending(TreePutAll(p), last.key, last.value);
      TreeInsertRanks(TreePutAll(p), last.key, last.value);
      RanksAppend(p, last);
    }
  }

  /** An entry of the TreeMap holds the first key of its rank and the last
      value put under that rank. */
  lemma {:induction false} TreePutAllEntry<V>(m: seq<Entry<V>>, e: Entry<V>)
    requires e in TreePutAll(m)
    ensures FirstWithRank(m, Rank(e.key)) == Some(e.key)
    ensures LastWithRank(m, Rank(e.key)) == Some(e.value)
  {
    var p := m[..|m| - 1];
    var last := m[|m| - 1];
    var t := TreePutAll(p);
    TreePutAllShape(p);
    TreeInsertElements(t, last.key, last.value);
    var rank := Rank(e.key);
    if rank == Rank(last.key) {
      assert e == Pair(Resident(t, last.key), last.value);
      ResidentFacts(t, last.key);
      WithRankPresent(p, rank);
      if rank in Ranks(p) {
        var e' :| e' in t && Rank(e'.key) == rank;
        TreePutAllEntry(p, e');
      }
    } else {
      assert e in t;
      TreePutAllEntry(p, e);
    }
  }

  /** The default ordering: TreeMap.putAll yields entries strictly ascending
      by depth and then name or alias, one per rank occurring in the input.
      Each carries the first key of its rank in iteration order and the value
      of the last entry of that rank, so keys that compare equal collapse into
      one entry. */
  lemma TreePutAllFacts<V>(m: seq<Entry<V>>)
    ensures Ascending(TreePutAll(m))
    ensures Ranks(TreePutAll(m)) == Ranks(m)
    ensures forall e :: e in TreePutAll(m) ==>
      FirstWithRank(m, Rank(e.key)) == Some(e.key) && LastWithRank(m, Rank(e.key)) == Some(e.value)
  {
    TreePutAllShape(m);
    forall e | e in TreePutAll(m)
      ensures FirstWithRank(m, Rank(e.key)) == Some(e.key) && LastWithRank(m, Rank(e.key)) == Some(e.value)
    {
      TreePutAllEntry(m, e);
    }
  }

  /** Entries of an ascending sequence have pairwise distinct ranks, so no two
      of them compare equal. */
  lemma AscendingRanksDistinct<V>(t: seq<Entry<V>>)
    requires Ascending(t)
    ensures forall i, j :: 0 <= i < j < |t| ==> Rank(t[i].key) != Rank(t[j].key)
  {
    forall i, j | 0 <= i < j < |t| ensures Rank(t[i].key) != Rank(t[j].key) {
      CompareMeaning(t[i].key, t[j].key);
    }
  }

  // ---------------------------------------------------------------------
  // The hand-written orders for Project, Scene and Sprite
  // ---------------------------------------------------------------------

  /** The fields a Project keeps. */
  const ProjectFields: seq<string> := ["xmlHeader", "serialVersionUID", "settings", "$change",
    "sceneList", "projectVariables", "projectLists"]

  /** The fields of a Scene, each at the slot of its position. */
  const SceneFields: seq<string> := ["sceneName", "spriteList", "dataContainer", "physicsWorld",
    "project", "serialVersionUID", "firstStart", "isBackPackScene", "originalWidth",
    "originalHeight", "$change"]

  /** The fields of a Sprite, each at the slot of its position. */
  const SpriteFields: seq<string> := ["TAG", "serialVersionUID", "spriteFactory", "look", "name",
    "isPaused", "convertToSingleSprite", "convertToGroupItemSprite", "lookList", "soundList",
    "scriptList", "userBricks", "isClone", "isBackpackObject", "penConfiguration", "cloneForScene",
    "nfcTagList", "actionFactory", "isMobile", "$change"]

  /** map.get on the input: the value stored under the key; a null key or an
      absent key gives null. */
  function Get<V>(m: seq<Entry<V>>, k: Option<FieldKey>): (v: Option<V>)
    ensures v.Some? ==> k.Some? && Pair(k.value, v.value) in m
    ensures k.Some? && k.value in Keys(m) ==> v.Some?
  {
    match k
    case None => None
    case Some(key) =>
      var i := LastIndexOf(Keys(m), key);
      if i < 0 then None else Some(m[i].value)
  }

  /** In a map, looking up the key of an entry gives that entry's value. */
  lemma GetEntry<V>(m: seq<Entry<V>>, e: Entry<V>)
    requires DistinctKeys(m) && e in m
    ensures Get(m, Some(e.key)) == Some(e.value)
  {
    var j :| 0 <= j < |m| && m[j] == e;
    var i := LastIndexOf(Keys(m), e.key);
    assert Keys(m)[j] == e.key;
    assert i == j;
  }

  /** The pairs of an output map whose keys are `ks`, each with the value
      map.get gives for it. */
  function WithValues<V>(ks: seq<Option<FieldKey>>, m: seq<Entry<V>>): (r: seq<Slot<V>>)
    ensures |r| == |ks|
    ensures forall i :: 0 <= i < |ks| ==> r[i] == Pair(ks[i], Get(m, ks[i]))
  {
    seq(|ks|, i requires 0 <= i < |ks| => Pair(ks[i], Get(m, ks[i])))
  }

  /** The ordered map after `put(key, map.get(key))` for each key of the slot
      array in turn. */
  function Emit<V>(order: seq<Option<FieldKey>>, m: seq<Entry<V>>): seq<Slot<V>> {
    if order == [] then []
    else
      var last := order[|order| - 1];
      Put(Emit(order[..|order| - 1], m), last, Get(m, last))
  }

  /** Putting the slot array into an ordered map keeps the first occurrence
      of every key, in slot order, with its looked-up value: several empty
      slots give one null key, at the position of the first of them. */
  lemma {:induction false} EmitIsDedup<V>(order: seq<Option<FieldKey>>, m: seq<Entry<V>>)
    ensures Emit(order, m) == WithValues(Dedup(order), m)
  {
    if order != [] {
      var p := order[..|order| - 1];
      var x := order[|order| - 1];
      EmitIsDedup(p, m);
      var d := Dedup(p);
      assert Emit(order, m) == Put(WithValues(d, m), x, Get(m, x));
      assert Dedup(order) == if x in d then d else d + [x];
      PutLookedUp(d, x, m);
    }
  }

  /** One more put of a key with its looked-up value: a present key leaves
      the map as it was, an absent one is appended. */
  lemma PutLookedUp<V>(d: seq<Option<FieldKey>>, x: Option<FieldKey>, m: seq<Entry<V>>)
    requires Distinct(d)
    ensures Put(WithValues(d, m), x, Get(m, x)) == WithValues(if x in d then d else d + [x], m)
  {
    var e := WithValues(d, m);
    assert Keys(e) == d;
    var r := Put(e, x, Get(m, x));
    var d' := if x in d then d else d + [x];
    assert |r| == |d'|;
    forall i | 0 <= i < |r| ensures r[i] == WithValues(d', m)[i] {
      if i < |e| && e[i].key != x {
        assert r[i] == e[i];
      } else {
        assert r[i] == Pair(x, Get(m, x));
      }
    }
  }

  /** The loop that fills the output map from the slot array: one put per
      array element, in array order. */
  method PutInOrder<V>(order: array<Option<FieldKey>>, m: seq<Entry<V>>) returns (r: seq<Slot<V>>)
    ensures r == WithValues(Dedup(order[..]), m)
  {
    r := [];
    for i := 0 to order.Length
      invariant r == Emit(order[..i], m)
    {
      assert order[..i + 1][..i] == order[..i];
      r := Put(r, order[i], Get(m, order[i]));
    }
    assert order[..] == order[..order.Length];
    EmitIsDedup(order[..], m);
  }

  function Somes(ks: seq<FieldKey>): (s: seq<Option<FieldKey>>)
    ensures |s| == |ks| && forall i :: 0 <= i < |ks| ==> s[i] == Some(ks[i])
  {
    seq(|ks|, i requires 0 <= i < |ks| => Some(ks[i]))
  }

  function Nones(n: nat): (s: seq<Option<FieldKey>>)
    ensures |s| == n && forall i :: 0 <= i < n ==> s[i] == None
  {
    seq(n, _ => None)
  }

  /** The entries whose field name is among `names`, in iteration order. */
  function Listed<V>(names: seq<string>, m: seq<Entry<V>>): (l: seq<Entry<V>>)
    ensures |l| <= |m|
  {
    if m == [] then []
    else
      var p := Listed(names, m[..|m| - 1]);
      var e := m[|m| - 1];
      if e.key.name in names then p + [e] else p
  }

  /** The filtered entries are exactly the entries of the input whose name is
      listed. */
  lemma {:induction false} ListedMembers<V>(names: seq<string>, m: seq<Entry<V>>)
    ensures forall i :: 0 <= i < |Listed(names, m)| ==> Listed(names, m)[i] in m && Listed(names, m)[i].key.name in names
    ensures forall i :: 0 <= i < |m| && m[i].key.name in names ==> m[i] in Listed(names, m)
  {
    if m != [] {
      var p := m[..|m| - 1];
      ListedMembers(names, p);
      assert m == p + [m[|m| - 1]];
      forall i | 0 <= i < |m| && m[i].key.name in names ensures m[i] in Listed(names, m) {
        if i < |m| - 1 { assert m[i] == p[i]; }
      }
    }
  }

  /** One more entry of iteration extends the filtered entries by it when its
      name is listed. */
  lemma ListedStep<V>(names: seq<string>, m: seq<Entry<V>>, i: nat)
    requires i < |m|
    ensures Listed(names, m[..i + 1]) ==
      Listed(names, m[..i]) + (if m[i].key.name in names then [m[i]] else [])
  {
    assert m[..i + 1][..i] == m[..i];
  }

  /** Filtering a map keeps its keys distinct. */
  lemma {:induction false} ListedDistinct<V>(names: seq<string>, m: seq<Entry<V>>)
    requires DistinctKeys(m)
    ensures DistinctKeys(Listed(names, m))
  {
    if m != [] {
      var p := m[..|m| - 1];
      var e := m[|m| - 1];
      assert DistinctKeys(p) by {
        forall i, j | 0 <= i < j < |p| ensures Keys(p)[i] != Keys(p)[j] {
          assert Keys(m)[i] != Keys(m)[j];
        }
      }
      ListedDistinct(names, p);
      ListedMembers(names, p);
      var l := Listed(names, p);
      forall i | 0 <= i < |l| ensures l[i].key != e.key {
        assert l[i] in p;
        var j :| 0 <= j < |p| && p[j] == l[i];
        assert Keys(m)[j] != Keys(m)[|m| - 1];
      }
    }
  }

  /** The order written for a Project: the entries whose field is one of the
      seven listed, in iteration order, followed by one null key when some of
      the slots stayed empty (that is, when some field was not listed). */
  function ProjectOrder<V>(m: seq<Entry<V>>): seq<Slot<V>> {
    var l := Listed(ProjectFields, m);
    seq(|l|, i requires 0 <= i < |l| => Pair(Some(l[i].key), Some(l[i].value)))
      + (if |l| < |m| then [Pair(None, None)] else [])
  }

  /** Distinct keys followed by n nulls deduplicate to the keys followed by at
      most one null. */
  lemma {:induction false} DedupSomesNones(ks: seq<FieldKey>, n: nat)
    requires Distinct(ks)
    ensures Dedup(Somes(ks) + Nones(n)) == Somes(ks) + (if n > 0 then [None] else [])
  {
    if n == 0 {
      assert Somes(ks) + Nones(0) == Somes(ks);
      DedupOfDistinct(Somes(ks));
    } else {
      DedupSomesNones(ks, n - 1);
      assert Somes(ks) + Nones(n) == (Somes(ks) + Nones(n - 1)) + [None];
      assert None !in Somes(ks);
    }
  }

  /** The slot array sortProjectFields builds: the listed keys from position
      0 on, then nulls up to the size of the input. */
  function ProjectSlots<V>(m: seq<Entry<V>>): seq<Option<FieldKey>> {
    var l := Listed(ProjectFields, m);
    Somes(Keys(l)) + Nones(|m| - |l|)
  }

  /** Putting the Project slot array into an ordered map gives ProjectOrder. */
  lemma ProjectSlotsOrder<V>(m: seq<Entry<V>>)
    requires DistinctKeys(m)
    ensures WithValues(Dedup(ProjectSlots(m)), m) == ProjectOrder(m)
  {
    var l := Listed(ProjectFields, m);
    ListedDistinct(ProjectFields, m);
    ListedMembers(ProjectFields, m);
    DedupSomesNones(Keys(l), |m| - |l|);
    forall i | 0 <= i < |l| ensures Get(m, Some(l[i].key)) == Some(l[i].value) {
      GetEntry(m, l[i]);
    }
  }

  /** sortProjectFields: the array is filled from position 0 with every key
      whose name is listed, in iteration order, and then put into an ordered
      map. */
  method SortProjectFields<V>(m: seq<Entry<V>>) returns (r: seq<Slot<V>>)
    requires DistinctKeys(m)
    ensures r == ProjectOrder(m)
  {
    var order := FillListedSlots(ProjectFields, m);
    ProjectSlotsOrder(m);
    r := PutInOrder(order, m);
  }

  /** The first loop of sortProjectFields, for any list of names: an array
      as long as the input, whose front holds the keys with a listed name in
      iteration order and whose other positions stay null. */
  method FillListedSlots<V>(names: seq<string>, m: seq<Entry<V>>) returns (order: array<Option<FieldKey>>)
    ensures fresh(order)
    ensures order[..] == Somes(Keys(Listed(names, m))) + Nones(|m| - |Listed(names, m)|)
  {
    order := new Option<FieldKey>[|m|](_ => None);
    var pos := 0;
    var i := 0;
    ghost var l: seq<Entry<V>> := [];
    while i < |m|
      invariant 0 <= pos <= i <= |m| && order.Length == |m|
      invariant l == Listed(names, m[..i]) && pos == |l|
      invariant forall j :: 0 <= j < pos ==> order[j] == Some(l[j].key)
      invariant forall j :: pos <= j < |m| ==> order[j] == None
    {
      ListedStep(names, m, i);
      var key := m[i].key;
      if key.name in names {
        order[pos] := Some(key);
        pos := pos + 1;
        l := l + [m[i]];
      }
      i := i + 1;
    }
    assert m[..|m|] == m;
    FilledSlots(order[..], l);
  }

  /** An array holding the listed keys at the front and nulls after them is
      those keys followed by nulls. */
  lemma FilledSlots<V>(a: seq<Option<FieldKey>>, l: seq<Entry<V>>)
    requires |l| <= |a|
    requires forall j :: 0 <= j < |l| ==> a[j] == Some(l[j].key)
    requires forall j :: |l| <= j < |a| ==> a[j] == None
    ensures a == Somes(Keys(l)) + Nones(|a| - |l|)
  {
    forall j | 0 <= j < |a| ensures a[j] == (Somes(Keys(l)) + Nones(|a| - |l|))[j] {
      if j < |l| { assert Somes(Keys(l))[j] == Some(Keys(l)[j]); }
    }
  }

  /** The slot a field name takes in a Scene or Sprite order: the position of
      its first occurrence in the table, as the first matching branch of the
      if-chain decides; no slot for a name that is not listed. */
  function SlotOf(table: seq<string>, name: string): (s: Option<nat>)
    ensures s.Some? ==> s.value < |table| && table[s.value] == name && name !in table[..s.value]
    ensures s.None? ==> name !in table
  {
    if table == [] then None
    else if table[0] == name then Some(0)
    else
      match SlotOf(table[1..], name)
      case None => None
      case Some(i) =>
        assert table[..i + 1] == [table[0]] + table[1..][..i];
        Some(i + 1)
  }

  /** A name's slot is the index of its first occurrence in the table. */
  lemma SlotOfFirst(table: seq<string>, name: string, i: nat)
    requires i < |table| && table[i] == name && name !in table[..i]
    ensures SlotOf(table, name) == Some(i)
  {
    assert name in table;
  }

  /** The key's slot fits in an array of length n (or it has none). */
  predicate Fits(table: seq<string>, k: FieldKey, n: nat) {
    var s := SlotOf(table, k.name);
    s.None? || s.value < n
  }

  /** The first entry, in iteration order, whose slot lies outside an array
      of length n. */
  function FirstOverflow<V>(table: seq<string>, m: seq<Entry<V>>, n: nat): (j: Option<nat>)
    ensures j.Some? ==>
      && j.value < |m| && !Fits(table, m[j.value].key, n)
      && forall i :: 0 <= i < j.value ==> Fits(table, m[i].key, n)
    ensures j.None? ==> forall i :: 0 <= i < |m| ==> Fits(table, m[i].key, n)
  {
    if m == [] then None
    else
      var p := m[..|m| - 1];
      var first := FirstOverflow(table, p, n);
      assert forall i :: 0 <= i < |p| ==> p[i] == m[i];
      if first.Some? then first
      else if !Fits(table, m[|m| - 1].key, n) then Some(|m| - 1)
      else None
  }

  /** The slot array after the first loop of sortSceneFields or
      sortSpriteFields, when every slot fits: each key with a slot is written
      there, a later key overwriting an earlier one. */
  function SlotArray<V>(table: seq<string>, m: seq<Entry<V>>, n: nat): (a: seq<Option<FieldKey>>)
    ensures |a| == n
  {
    if m == [] then Nones(n)
    else
      var a := SlotArray(table, m[..|m| - 1], n);
      var k := m[|m| - 1].key;
      var s := SlotOf(table, k.name);
      if s.Some? && s.value < n then a[s.value := Some(k)] else a
  }

  /** A filled slot holds a key of the input whose name is listed at that
      slot; an empty slot is the slot of no key of the input. */
  lemma {:induction false} SlotArrayContents<V>(table: seq<string>, m: seq<Entry<V>>, n: nat)
    ensures forall s :: 0 <= s < n && SlotArray(table, m, n)[s].Some? ==>
      SlotOf(table, SlotArray(table, m, n)[s].value.name) == Some(s) && SlotArray(table, m, n)[s].value in Keys(m)
    ensures forall s, j :: 0 <= s < n && SlotArray(table, m, n)[s].None? && 0 <= j < |m| ==>
      SlotOf(table, m[j].key.name) != Some(s)
  {
    if m != [] {
      var p := m[..|m| - 1];
      SlotArrayContents(table, p, n);
      var a, b := SlotArray(table, m, n), SlotArray(table, p, n);
      var k := m[|m| - 1].key;
      var t := SlotOf(table, k.name);
      assert a == if t.Some? && t.value < n then b[t.value := Some(k)] else b;
      forall s | 0 <= s < n && a[s].Some?
        ensures SlotOf(table, a[s].value.name) == Some(s) && a[s].value in Keys(m)
      {
        if t == Some(s) {
          assert Keys(m)[|m| - 1] == k;
        } else {
          assert a[s] == b[s];
          var j :| 0 <= j < |p| && Keys(p)[j] == b[s].value;
          assert Keys(m)[j] == Keys(p)[j];
        }
      }
      forall s, j | 0 <= s < n && a[s].None? && 0 <= j < |m|
        ensures SlotOf(table, m[j].key.name) != Some(s)
      {
        if j < |p| {
          assert m[j] == p[j];
          assert b[s] == a[s];
        }
      }
    }
  }

  /** Each key whose name is listed lands at its slot, unless a later key of
      the iteration takes the same slot. */
  lemma {:induction false} SlotArrayPlacement<V>(table: seq<string>, m: seq<Entry<V>>, n: nat, j: nat)
    requires j < |m| && SlotOf(table, m[j].key.name).Some? && SlotOf(table, m[j].key.name).value < n
    requires forall i :: j < i < |m| ==> SlotOf(table, m[i].key.name) != SlotOf(table, m[j].key.name)
    ensures SlotArray(table, m, n)[SlotOf(table, m[j].key.name).value] == Some(m[j].key)
  {
    if j < |m| - 1 {
      var p := m[..|m| - 1];
      assert p[j] == m[j];
      SlotArrayPlacement(table, p, n, j);
    }
  }

  /** sortSceneFields and sortSpriteFields: the order a Scene or Sprite is
      written in, or the out-of-bounds error of the first key whose slot is
      not below the size of the input. */
  function SlotOrder<V>(table: seq<string>, m: seq<Entry<V>>): Result<seq<Slot<V>>, SortError> {
    match FirstOverflow(table, m, |m|)
    case Some(j) => Failure(IndexOutOfBounds(SlotOf(table, m[j].key.name).value, |m|))
    case None => Success(WithValues(Dedup(SlotArray(table, m, |m|)), m))
  }

  /** The position a key takes in a slot order (past the table when none). */
  function SlotIndex(table: seq<string>, k: FieldKey): nat {
    match SlotOf(table, k.name)
    case Some(s) => s
    case None => |table|
  }

  /** Non-null keys appear in increasing slot order. */
  ghost predicate SlotOrdered(table: seq<string>, ks: seq<Option<FieldKey>>) {
    forall i, j :: 0 <= i < j < |ks| && ks[i].Some? && ks[j].Some? ==>
      SlotIndex(table, ks[i].value) < SlotIndex(table, ks[j].value)
  }

  /** Dropping repeated elements keeps non-null keys in slot order. */
  lemma {:induction false} DedupKeepsSlotOrder(table: seq<string>, ks: seq<Option<FieldKey>>)
    requires SlotOrdered(table, ks)
    ensures SlotOrdered(table, Dedup(ks))
  {
    if ks != [] {
      var p := ks[..|ks| - 1];
      var x := ks[|ks| - 1];
      assert SlotOrdered(table, p) by {
        forall i, j | 0 <= i < j < |p| ensures p[i] == ks[i] && p[j] == ks[j] { }
      }
      DedupKeepsSlotOrder(table, p);
      var d := Dedup(p);
      assert Dedup(ks) == if x in d then d else d + [x];
      if x !in d {
        var d' := d + [x];
        forall i, j | 0 <= i < j < |d'| && d'[i].Some? && d'[j].Some?
          ensures SlotIndex(table, d'[i].value) < SlotIndex(table, d'[j].value)
        {
          assert d'[i] == d[i];
          if j == |d| {
            var i' :| 0 <= i' < |p| && p[i'] == d[i];
            assert ks[i'] == d[i] && ks[|ks| - 1] == d'[j];
          } else {
            assert d'[j] == d[j];
          }
        }
      }
    }
  }

  /** The slot array holds each key at its own slot, so its keys are in
      slot order. */
  lemma SlotArrayOrdered<V>(table: seq<string>, m: seq<Entry<V>>, n: nat)
    ensures SlotOrdered(table, SlotArray(table, m, n))
  {
    var a := SlotArray(table, m, n);
    SlotArrayContents(table, m, n);
    forall i, j | 0 <= i < j < |a| && a[i].Some? && a[j].Some?
      ensures SlotIndex(table, a[i].value) < SlotIndex(table, a[j].value)
    {
    }
  }

  /** The Scene or Sprite order, when no slot overflows: its non-null keys
      are in increasing slot order; no key appears twice, so the empty slots
      give at most one null key, and they give one exactly when some slot
      stayed empty. */
  lemma SlotOrderFacts<V>(table: seq<string>, m: seq<Entry<V>>)
    requires SlotOrder(table, m).Success?
    ensures var out := SlotOrder(table, m).value;
      && (forall i, j :: 0 <= i < j < |out| && out[i].key.Some? && out[j].key.Some? ==>
            SlotOf(table, out[i].key.value.name).Some? && SlotOf(table, out[j].key.value.name).Some?
            && SlotOf(table, out[i].key.value.name).value < SlotOf(table, out[j].key.value.name).value)
      && Distinct(Keys(out))
      && (None in Keys(out) <==> None in SlotArray(table, m, |m|))
  {
    var n := |m|;
    var a := SlotArray(table, m, n);
    var d := Dedup(a);
    var out := SlotOrder(table, m).value;
    assert out == WithValues(d, m);
    SlotArrayContents(table, m, n);
    SlotArrayOrdered(table, m, n);
    DedupKeepsSlotOrder(table, a);
    assert Keys(out) == d;
    forall i | 0 <= i < |d| && d[i].Some? ensures SlotOf(table, d[i].value.name).Some? {
      var s :| 0 <= s < n && a[s] == d[i];
    }
  }

  /** The first empty slot of a slot array; its length when every slot is
      filled. */
  function FirstEmpty(a: seq<Option<FieldKey>>): (e: nat)
    ensures e <= |a| && (e < |a| ==> a[e].None?)
    ensures forall s :: 0 <= s < e ==> a[s].Some?
  {
    if a == [] then 0
    else if a[0].None? then 0
    else
      var e := FirstEmpty(a[1..]);
      assert forall s :: 1 <= s <= e ==> a[s] == a[1..][s - 1];
      1 + e
  }

  /** Every filled slot holds a key whose slot is that position. */
  ghost predicate SlotIndexed(table: seq<string>, a: seq<Option<FieldKey>>) {
    forall s :: 0 <= s < |a| && a[s].Some? ==> SlotIndex(table, a[s].value) == s
  }

  /** The null key, wherever it is, comes right after the keys whose slot is
      below e and before every other key. */
  ghost predicate NullPlaced(table: seq<string>, d: seq<Option<FieldKey>>, e: nat) {
    forall i :: 0 <= i < |d| && d[i].None? ==>
      (forall j :: 0 <= j < i ==> d[j].Some? && SlotIndex(table, d[j].value) < e)
      && (forall j :: i < j < |d| ==> d[j].Some? && SlotIndex(table, d[j].value) > e)
  }

  /** A null key put after keys whose slots are all below e is placed. */
  lemma NullPlacedLast(table: seq<string>, d: seq<Option<FieldKey>>, e: nat)
    requires forall j :: 0 <= j < |d| ==> d[j].Some? && SlotIndex(table, d[j].value) < e
    ensures NullPlaced(table, d + [None], e)
  {
    var d' := d + [None];
    forall i | 0 <= i < |d'| && d'[i].None?
      ensures forall j :: 0 <= j < i ==> d'[j].Some? && SlotIndex(table, d'[j].value) < e
    {
      assert i == |d|;
    }
  }

  /** A key whose slot is above e, put after a placed null key, keeps it
      placed. */
  lemma NullPlacedSnoc(table: seq<string>, d: seq<Option<FieldKey>>, x: Option<FieldKey>, e: nat)
    requires NullPlaced(table, d, e) && x.Some? && SlotIndex(table, x.value) > e
    ensures NullPlaced(table, d + [x], e)
  {
    var d' := d + [x];
    forall i | 0 <= i < |d'| && d'[i].None?
      ensures forall j :: 0 <= j < i ==> d'[j].Some? && SlotIndex(table, d'[j].value) < e
      ensures forall j :: i < j < |d'| ==> d'[j].Some? && SlotIndex(table, d'[j].value) > e
    {
      assert i < |d| && d[i] == d'[i];
      assert forall j :: 0 <= j < |d| ==> d'[j] == d[j];
    }
  }

  /** Putting a slot array into the ordered map places the null key right
      after the keys whose slot is below the first empty slot, and before all
      the others. */
  lemma {:induction false} DedupNullPlace(table: seq<string>, a: seq<Option<FieldKey>>, e: nat)
    requires SlotIndexed(table, a) && e < |a| && a[e].None?
    requires forall s :: 0 <= s < e ==> a[s].Some?
    ensures NullPlaced(table, Dedup(a), e)
  {
    var p, x := a[..|a| - 1], a[|a| - 1];
    var d := Dedup(p);
    assert Dedup(a) == if x in d then d else d + [x];
    if e == |a| - 1 {
      forall j | 0 <= j < |d| ensures d[j].Some? && SlotIndex(table, d[j].value) < e {
        var s :| 0 <= s < |p| && p[s] == d[j];
        assert a[s] == d[j];
      }
      NullPlacedLast(table, d, e);
    } else {
      assert SlotIndexed(table, p) by {
        forall s | 0 <= s < |p| && p[s].Some? ensures SlotIndex(table, p[s].value) == s {
          assert a[s] == p[s];
        }
      }
      assert p[e] == a[e];
      assert forall s :: 0 <= s < e ==> p[s] == a[s];
      DedupNullPlace(table, p, e);
      if x !in d {
        assert p[e] in d;
        NullPlacedSnoc(table, d, x, e);
      }
    }
  }

  /** The Scene or Sprite order, when no slot overflows: its null key, if
      any, comes right after the keys whose slot is below the first empty
      slot and before every other key (first, say, when sceneName is
      missing from a Scene). */
  lemma SlotOrderNullPlace<V>(table: seq<string>, m: seq<Entry<V>>)
    requires SlotOrder(table, m).Success?
    ensures var out := SlotOrder(table, m).value;
      var e := FirstEmpty(SlotArray(table, m, |m|));
      forall i :: 0 <= i < |out| && out[i].key.None? ==>
        (forall j :: 0 <= j < i ==> out[j].key.Some? && SlotIndex(table, out[j].key.value) < e)
        && (forall j :: i < j < |out| ==> out[j].key.Some? && SlotIndex(table, out[j].key.value) > e)
  {
    var n := |m|;
    var a := SlotArray(table, m, n);
    var d := Dedup(a);
    var out := SlotOrder(table, m).value;
    assert out == WithValues(d, m);
    assert Keys(out) == d;
    var e := FirstEmpty(a);
    if e < |a| {
      SlotArrayContents(table, m, n);
      DedupNullPlace(table, a, e);
      assert NullPlaced(table, d, e);
    } else {
      forall i | 0 <= i < |d| ensures d[i].Some? {
        var s :| 0 <= s < |a| && a[s] == d[i];
      }
    }
  }

  /** Slot 0 stays empty when no key has the table's first name. */
  lemma SlotZeroEmpty<V>(table: seq<string>, m: seq<Entry<V>>)
    requires m != [] && table != []
    requires forall i :: 0 <= i < |m| ==> m[i].key.name != table[0]
    ensures SlotArray(table, m, |m|)[0].None?
  {
    SlotArrayContents(table, m, |m|);
    if SlotArray(table, m, |m|)[0].Some? {
      assert false;
    }
  }

  /** A placed null key with nothing below slot 0 comes first. */
  lemma NullPlacedFirst(table: seq<string>, d: seq<Option<FieldKey>>)
    requires NullPlaced(table, d, 0) && None in d
    ensures d[0] == None
  {
    var i :| 0 <= i < |d| && d[i] == None;
    assert d[0].Some? ==> SlotIndex(table, d[0].value) >= 0;
  }

  /** When no key has the table's first name (a Scene without sceneName),
      slot 0 stays empty and the order starts with the null key. */
  lemma SlotOrderNullFirst<V>(table: seq<string>, m: seq<Entry<V>>)
    requires SlotOrder(table, m).Success? && m != [] && table != []
    requires forall i :: 0 <= i < |m| ==> m[i].key.name != table[0]
    ensures SlotOrder(table, m).value[0] == Pair(None, None)
  {
    var a := SlotArray(table, m, |m|);
    var d := Dedup(a);
    assert SlotOrder(table, m).value == WithValues(d, m);
    SlotZeroEmpty(table, m);
    SlotArrayContents(table, m, |m|);
    DedupNullPlace(table, a, 0);
    assert a[0] in d;
    NullPlacedFirst(table, d);
  }

  /** The Scene or Sprite order, when no slot overflows: its non-null keys
      are keys of the input whose name is listed, each with the value it has
      in the input. */
  lemma SlotOrderEntries<V>(table: seq<string>, m: seq<Entry<V>>)
    requires DistinctKeys(m) && SlotOrder(table, m).Success?
    ensures var out := SlotOrder(table, m).value;
      forall i :: 0 <= i < |out| && out[i].key.Some? ==>
        out[i].key.value in Keys(m) && SlotOf(table, out[i].key.value.name).Some?
        && out[i].value.Some? && Pair(out[i].key.value, out[i].value.value) in m
  {
    var n := |m|;
    var a := SlotArray(table, m, n);
    var d := Dedup(a);
    var out := SlotOrder(table, m).value;
    assert out == WithValues(d, m);
    SlotArrayContents(table, m, n);
    assert Keys(out) == d;
    forall i | 0 <= i < |out| && out[i].key.Some?
      ensures out[i].key.value in Keys(m) && SlotOf(table, out[i].key.value.name).Some?
      ensures out[i].value.Some? && Pair(out[i].key.value, out[i].value.value) in m
    {
      var s :| 0 <= s < n && a[s] == d[i];
    }
  }

  /** The Scene or Sprite order, when no slot overflows: a listed key that no
      later key displaces from its slot is written with its value. */
  lemma SlotOrderPlacement<V>(table: seq<string>, m: seq<Entry<V>>)
    requires DistinctKeys(m) && SlotOrder(table, m).Success?
    ensures forall j ::
      (&& 0 <= j < |m| && SlotOf(table, m[j].key.name).Some?
       && forall i :: j < i < |m| ==> SlotOf(table, m[i].key.name) != SlotOf(table, m[j].key.name))
      ==> Pair(Some(m[j].key), Some(m[j].value)) in SlotOrder(table, m).value
  {
    var n := |m|;
    var a := SlotArray(table, m, n);
    var d := Dedup(a);
    var out := SlotOrder(table, m).value;
    assert out == WithValues(d, m);
    forall j | 0 <= j < |m| && SlotOf(table, m[j].key.name).Some?
      && (forall i :: j < i < |m| ==> SlotOf(table, m[i].key.name) != SlotOf(table, m[j].key.name))
      ensures Pair(Some(m[j].key), Some(m[j].value)) in out
    {
      assert Fits(table, m[j].key, n);
      SlotArrayPlacement(table, m, n, j);
      var s := SlotOf(table, m[j].key.name).value;
      assert a[s] == Some(m[j].key);
      var i :| 0 <= i < |d| && d[i] == Some(m[j].key);
      GetEntry(m, m[j]);
      assert out[i] == Pair(Some(m[j].key), Some(m[j].value));
    }
  }

  /** sortSceneFields and sortSpriteFields, which differ only in their table:
      an array as long as the input is filled by putting each key with a
      listed name at its slot, raising an out-of-bounds error for a slot past
      the end; the array is then put into an ordered map. */
  method SortBySlots<V>(table: seq<string>, m: seq<Entry<V>>) returns (r: Result<seq<Slot<V>>, SortError>)
    ensures r == SlotOrder(table, m)
  {
    var order := new Option<FieldKey>[|m|](_ => None);
    var i := 0;
    while i < |m|
      invariant 0 <= i <= |m| && order.Length == |m|
      invariant order[..] == SlotArray(table, m[..i], |m|)
      invariant FirstOverflow(table, m[..i], |m|) == None
    {
      assert m[..i + 1][..i] == m[..i];
      var key := m[i].key;
      var slot := SlotOf(table, key.name);
      if slot.Some? {
        if slot.value >= order.Length {
          assert FirstOverflow(table, m[..i + 1], |m|) == Some(i);
          OverflowIsFirst(table, m, i);
          return Failure(IndexOutOfBounds(slot.value, order.Length));
        }
        order[slot.value] := Some(key);
      }
      i := i + 1;
    }
    assert m[..|m|] == m;
    var emitted := PutInOrder(order, m);
    r := Success(emitted);
  }

  /** sortSceneFields: eleven fixed slots, sceneName first and $change last. */
  method SortSceneFields<V>(m: seq<Entry<V>>) returns (r: Result<seq<Slot<V>>, SortError>)
    ensures r == SlotOrder(SceneFields, m)
  {
    r := SortBySlots(SceneFields, m);
  }

  /** sortSpriteFields: twenty fixed slots, TAG first and $change last. */
  method SortSpriteFields<V>(m: seq<Entry<V>>) returns (r: Result<seq<Slot<V>>, SortError>)
    ensures r == SlotOrder(SpriteFields, m)
  {
    r := SortBySlots(SpriteFields, m);
  }

  /** The first overflow of a prefix is the first overflow of the input. */
  lemma OverflowIsFirst<V>(table: seq<string>, m: seq<Entry<V>>, i: nat)
    requires i < |m| && FirstOverflow(table, m[..i + 1], |m|) == Some(i)
    ensures FirstOverflow(table, m, |m|) == Some(i)
  {
    assert m[..i + 1][i] == m[i];
    assert forall j :: 0 <= j < i ==> m[..i + 1][j] == m[j];
  }

  /** sort: Project, Scene and Sprite take their hand-written orders; any
      other class is ordered by depth, then name or alias. */
  method Sort<V>(c: ClassTag, m: seq<Entry<V>>) returns (r: Result<seq<Slot<V>>, SortError>)
    requires DistinctKeys(m)
    ensures c == ProjectClass ==> r == Success(ProjectOrder(m))
    ensures c == SceneClass ==> r == SlotOrder(SceneFields, m)
    ensures c == SpriteClass ==> r == SlotOrder(SpriteFields, m)
    ensures c.OtherClass? ==> r == Success(TreeOrder(m))
  {
    match c
    case ProjectClass =>
      var ordered := SortProjectFields(m);
      r := Success(ordered);
    case SceneClass =>
      r := SortSceneFields(m);
    case SpriteClass =>
      r := SortSpriteFields(m);
    case OtherClass(_) =>
      r := Success(TreeOrder(m));
  }

  /** Entries as output slots, none of them null. */
  function AsSlots<V>(t: seq<Entry<V>>): (r: seq<Slot<V>>)
    ensures |r| == |t| && forall i :: 0 <= i < |t| ==> r[i] == Pair(Some(t[i].key), Some(t[i].value))
  {
    seq(|t|, i requires 0 <= i < |t| => Pair(Some(t[i].key), Some(t[i].value)))
  }

  /** What TreePutAllFacts says about the TreeMap, read off its output slots. */
  lemma TreeSlotsFacts<V>(m: seq<Entry<V>>)
    ensures var r := AsSlots(TreePutAll(m));
      && (forall i :: 0 <= i < |r| ==> r[i].key.Some? && r[i].value.Some?)
      && (forall i, j :: 0 <= i < j < |r| ==> Compare(r[i].key.value, r[j].key.value) < 0)
      && (forall i :: 0 <= i < |r| ==>
            FirstWithRank(m, Rank(r[i].key.value)) == r[i].key && LastWithRank(m, Rank(r[i].key.value)) == r[i].value)
      && (forall e :: e in m ==> exists i :: 0 <= i < |r| && Rank(r[i].key.value) == Rank(e.key))
  {
    var t := TreePutAll(m);
    var r := AsSlots(t);
    TreePutAllFacts(m);
    forall i | 0 <= i < |r|
      ensures FirstWithRank(m, Rank(r[i].key.value)) == r[i].key && LastWithRank(m, Rank(r[i].key.value)) == r[i].value
    {
      assert t[i] in t;
    }
    forall e | e in m ensures exists i :: 0 <= i < |r| && Rank(r[i].key.value) == Rank(e.key) {
      assert Rank(e.key) in Ranks(m);
      var f :| f in t && Rank(f.key) == Rank(e.key);
      var i :| 0 <= i < |t| && t[i] == f;
      assert Rank(r[i].key.value) == Rank(e.key);
    }
  }

  /** The order written for any other class: the TreeMap's entries, none of
      them null, strictly ascending under the comparator, one per rank
      occurring in the input, each with the first key of its rank in
      iteration order and the value of the last entry of that rank. */
  function TreeOrder<V>(m: seq<Entry<V>>): (r: seq<Slot<V>>)
    ensures forall i :: 0 <= i < |r| ==> r[i].key.Some? && r[i].value.Some?
    ensures forall i, j :: 0 <= i < j < |r| ==> Compare(r[i].key.value, r[j].key.value) < 0
    ensures forall i :: 0 <= i < |r| ==>
      FirstWithRank(m, Rank(r[i].key.value)) == r[i].key && LastWithRank(m, Rank(r[i].key.value)) == r[i].value
    ensures forall e :: e in m ==> exists i :: 0 <= i < |r| && Rank(r[i].key.value) == Rank(e.key)
  {
    TreeSlotsFacts(m);
    AsSlots(TreePutAll(m))
  }
}
