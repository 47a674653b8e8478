/** `upsert` (app/page.tsx): insert a record, or replace the records that carry its id. */
module Upsert {
  import opened Seqs

  predicate HasId<T>(collection: seq<T>, id: string, idOf: T -> string) {
    exists i :: 0 <= i < |collection| && idOf(collection[i]) == id
  }

  /** `collection.map(entry => entry.id === id ? item : entry)`. */
  function ReplaceById<T>(collection: seq<T>, item: T, idOf: T -> string): (r: seq<T>)
    ensures |r| == |collection|
    ensures forall i :: 0 <= i < |r| ==>
              r[i] == if idOf(collection[i]) == idOf(item) then item else collection[i]
  {
    if collection == [] then []
    else
      [if idOf(collection[0]) == idOf(item) then item else collection[0]]
      + ReplaceById(collection[1..], item, idOf)
  }

  /**
   * Insert-or-replace by id. When some entry has the item's id, the result has the
   * same length, every entry with that id is replaced by the item and every other
   * entry stays where it was; otherwise the item is appended at the end.
   */
  function Upsert<T>(collection: seq<T>, item: T, idOf: T -> string): (r: seq<T>)
    ensures HasId(collection, idOf(item), idOf) ==>
              |r| == |collection|
              && forall i :: 0 <= i < |r| ==>
                   (idOf(collection[i]) == idOf(item) ==> r[i] == item)
                   && (idOf(collection[i]) != idOf(item) ==> r[i] == collection[i])
    ensures !HasId(collection, idOf(item), idOf) ==> r == collection + [item]
  {
    if HasId(collection, idOf(item), idOf) then ReplaceById(collection, item, idOf)
    else collection + [item]
  }

  /** The result always holds the item, and its ids are the old ids plus the item's. */
  lemma UpsertContains<T>(collection: seq<T>, item: T, idOf: T -> string)
    ensures item in Upsert(collection, item, idOf)
    ensures forall id :: HasId(Upsert(collection, item, idOf), id, idOf)
                         <==> HasId(collection, id, idOf) || id == idOf(item)
  {
    var r := Upsert(collection, item, idOf);
    if HasId(collection, idOf(item), idOf) {
      var i :| 0 <= i < |collection| && idOf(collection[i]) == idOf(item);
      assert r[i] == item;
      forall id | HasId(collection, id, idOf) ensures HasId(r, id, idOf) {
        var j :| 0 <= j < |collection| && idOf(collection[j]) == id;
        assert idOf(r[j]) == id;
      }
    } else {
      assert r[|collection|] == item;
      forall id | HasId(collection, id, idOf) ensures HasId(r, id, idOf) {
        var j :| 0 <= j < |collection| && idOf(collection[j]) == id;
        assert r[j] == collection[j];
      }
    }
  }

  /** No entry with another id is lost, and the length grows by one exactly when the id is new. */
  lemma UpsertKeepsOthers<T>(collection: seq<T>, item: T, idOf: T -> string)
    ensures forall x :: x in collection && idOf(x) != idOf(item) ==> x in Upsert(collection, item, idOf)
    ensures |Upsert(collection, item, idOf)| == |collection| + (if HasId(collection, idOf(item), idOf) then 0 else 1)
  {
    var r := Upsert(collection, item, idOf);
    forall x | x in collection && idOf(x) != idOf(item) ensures x in r {
      var j :| 0 <= j < |collection| && collection[j] == x;
      if HasId(collection, idOf(item), idOf) {
        assert r[j] == x;
      } else {
        assert r[j] == x;
      }
    }
  }

  /** Upserting the same item twice is the same as upserting it once. */
  lemma UpsertIdempotent<T>(collection: seq<T>, item: T, idOf: T -> string)
    ensures Upsert(Upsert(collection, item, idOf), item, idOf) == Upsert(collection, item, idOf)
  {
    var once := Upsert(collection, item, idOf);
    UpsertContains(collection, item, idOf);
    assert HasId(once, idOf(item), idOf);
    var twice := Upsert(once, item, idOf);
    assert |twice| == |once|;
  }
}
