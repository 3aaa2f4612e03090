/** `List`: key-sorted, insertion-stable lists, as sequences of key/item pairs. */
module SortedList {

  type Keyed<T> = (int, T)

  ghost predicate Sorted<T>(list: seq<Keyed<T>>) {
    forall i, j :: 0 <= i < j < |list| ==> list[i].0 <= list[j].0
  }

  /** Where `SortedInsert` puts a new key: before the first larger one. */
  function Position<T>(list: seq<Keyed<T>>, key: int): (p: nat)
    ensures p <= |list|
    ensures forall i :: 0 <= i < p ==> list[i].0 <= key
    ensures p < |list| ==> key < list[p].0
  {
    if list == [] || key < list[0].0 then 0 else 1 + Position(list[1..], key)
  }

  function Insert<T>(list: seq<Keyed<T>>, key: int, item: T): (r: seq<Keyed<T>>)
    ensures |r| == |list| + 1
  {
    var p := Position(list, key);
    list[..p] + [(key, item)] + list[p..]
  }

  lemma InsertSorted<T>(list: seq<Keyed<T>>, key: int, item: T)
    requires Sorted(list)
    ensures Sorted(Insert(list, key, item))
    ensures forall i :: 0 <= i < |list| ==> (list[i].0 <= key <==> i < Position(list, key))
  {
    var p, r := Position(list, key), Insert(list, key, item);
    hide Position;
    assert forall i :: 0 <= i < |r| ==> r[i] == if i < p then list[i] else if i == p then (key, item) else list[i - 1];
    hide Insert;
  }

  /** Insertion keeps the list sorted, adds exactly the new element, and puts it after every
      element with an equal key. */
  lemma InsertIsStable<T>(list: seq<Keyed<T>>, key: int, item: T)
    requires Sorted(list)
    ensures var p, r := Position(list, key), Insert(list, key, item);
            && Sorted(r)
            && r[p] == (key, item) && r[..p] == list[..p] && r[p + 1..] == list[p..]
            && (forall i :: 0 <= i < |list| ==> (list[i].0 <= key <==> i < p))
            && multiset(r) == multiset(list) + multiset{(key, item)}
  {
    hide Sorted, Position;
    InsertSorted(list, key, item);
    var p := Position(list, key);
    assert list == list[..p] + list[p..];
  }

  /** Membership after an insertion. */
  lemma InsertMembers<T>(list: seq<Keyed<T>>, key: int, item: T, e: Keyed<T>)
    ensures e in Insert(list, key, item) <==> e in list || e == (key, item)
  {
  }

  lemma InsertAtEnds<T>(list: seq<Keyed<T>>, key: int, item: T)
    ensures var p, r := Position(list, key), Insert(list, key, item);
            && r == list[..p] + [(key, item)] + list[p..]
            && (p == 0 ==> r == [(key, item)] + list)
            && (p == |list| ==> r == list + [(key, item)])
  {
  }
}
