/** `List` as it is built: `first`, `last` and `next` pointers rewired in place. */
module LinkedList {
  import opened SortedList

  class ListElement<T> {
    const item: T
    const key: int
    var next: ListElement?<T>

    constructor (item: T, key: int)
      ensures this.item == item && this.key == key && next == null
    {
      this.item, this.key, next := item, key, null;
    }
  }

  ghost function Entries<T>(elements: seq<ListElement<T>>): (s: seq<Keyed<T>>)
    ensures |s| == |elements| && forall i :: 0 <= i < |s| ==> s[i] == (elements[i].key, elements[i].item)
  {
    seq(|elements|, i requires 0 <= i < |elements| => (elements[i].key, elements[i].item))
  }

  lemma EntriesOfInsertion<T>(elements: seq<ListElement<T>>, k: nat, e: ListElement<T>)
    requires k <= |elements|
    ensures Entries(elements[..k] + [e] + elements[k..]) == Entries(elements)[..k] + [(e.key, e.item)] + Entries(elements)[k..]
  {
  }

  class List<T> {
    var first: ListElement?<T>
    var last: ListElement?<T>
    ghost var elements: seq<ListElement<T>>

    ghost predicate Valid()
      reads this, elements
      ensures Valid() ==> (first == null <==> elements == []) && (last == null <==> elements == [])
      ensures Valid() && first != null ==> first == elements[0] && last == elements[|elements| - 1]
    {
      && (forall i, j :: 0 <= i < j < |elements| ==> elements[i] != elements[j])
      && (forall i, j :: 0 <= i < j < |elements| && j == i + 1 ==> elements[i].next == elements[j])
      && (forall i :: 0 <= i < |elements| ==> (elements[i].next == null <==> i == |elements| - 1))
      && first == (if elements == [] then null else elements[0])
      && last == (if elements == [] then null else elements[|elements| - 1])
    }

    ghost function Footprint(): set<ListElement<T>>
      reads this
    {
      set e | e in elements
    }

    /** The contents, front to back. */
    ghost function View(): seq<Keyed<T>>
      reads this
    {
      Entries(elements)
    }

    constructor ()
      ensures Valid() && View() == []
    {
      first, last, elements := null, null, [];
    }

    method IsEmpty() returns (r: bool)
      requires Valid()
      ensures r <==> View() == []
    {
      r := first == null;
    }

    method Append(item: T)
      requires Valid()
      modifies this, last
      ensures Valid() && View() == old(View()) + [(0, item)]
    {
      var element := new ListElement(item, 0);
      LinkAtEnd(element);
    }

    /** Put a new element behind the last one. */
    method LinkAtEnd(element: ListElement<T>)
      requires Valid() && element !in elements && element.next == null
      modifies this, last
      ensures Valid() && elements == old(elements) + [element]
      ensures View() == old(View()) + [(element.key, element.item)]
    {
      if first == null {
        first, last, elements := element, element, [element];
      } else {
        last.next := element;
        last, elements := element, elements + [element];
      }
    }

    method Prepend(item: T)
      requires Valid()
      modifies this
      ensures Valid() && View() == [(0, item)] + old(View())
    {
      var element := new ListElement(item, 0);
      LinkAtFront(element);
    }

    method LinkAtFront(element: ListElement<T>)
      requires Valid() && element !in elements && element.next == null
      modifies this, element
      ensures Valid() && elements == [element] + old(elements)
      ensures View() == [(element.key, element.item)] + old(View())
    {
      ghost var was := elements;
      if first == null {
        first, last := element, element;
      } else {
        element.next := first;
        first := element;
      }
      elements := [element] + elements;
      forall i, j | 0 <= i < j < |elements| && j == i + 1 ensures elements[i].next == elements[j] {
        if i > 0 { assert was[i - 1].next == was[j - 1]; }
      }
    }

    /** Put a new element behind `ptr`, the element at index `k`. */
    method LinkAfter(ptr: ListElement<T>, element: ListElement<T>, ghost k: nat)
      requires Valid() && element !in elements && k + 1 < |elements| && ptr == elements[k]
      modifies this, ptr, element
      ensures Valid() && elements == old(elements)[..k + 1] + [element] + old(elements)[k + 1..]
      ensures View() == old(View())[..k + 1] + [(element.key, element.item)] + old(View())[k + 1..]
    {
      hide Entries;
      ghost var was := elements;
      EntriesOfInsertion(was, k + 1, element);
      element.next := ptr.next;
      ptr.next := element;
      elements := was[..k + 1] + [element] + was[k + 1..];
      assert was[k + 1] == element.next;
      forall i, j | 0 <= i < j < |elements| && j == i + 1 ensures elements[i].next == elements[j] {
        if i > k + 1 { assert was[i - 1].next == was[j - 1]; }
        if i < k { assert was[i].next == was[j]; }
      }
    }

    /** The walking loop of `SortedInsert`: the last element whose key is not larger. */
    method FindPlace(sortKey: int) returns (ptr: ListElement<T>, ghost k: nat)
      requires Valid() && first != null && first.key <= sortKey
      ensures k < |elements| && ptr == elements[k] && k + 1 == Position(View(), sortKey)
      ensures ptr.next == null <==> k + 1 == |elements|
    {
      hide Sorted;
      ghost var view := View();
      ptr, k := first, 0;
      assert view[0].0 == first.key;
      while ptr.next != null
        invariant k < |elements| && ptr == elements[k] && k < Position(view, sortKey)
        decreases |elements| - k
      {
        assert k + 1 < |elements| && elements[k].next == elements[k + 1];
        assert view[k + 1].0 == ptr.next.key;
        if sortKey < ptr.next.key {
          return;
        }
        ptr, k := ptr.next, k + 1;
      }
    }

    method SortedInsert(item: T, sortKey: int)
      requires Valid() && Sorted(View())
      modifies this, Footprint()
      ensures Valid() && Sorted(View()) && View() == Insert(old(View()), sortKey, item)
      ensures fresh(Footprint() - old(Footprint()))
    {
      hide Valid, Sorted, Entries, Position, Insert;
      InsertSorted(View(), sortKey, item);
      InsertAtEnds(View(), sortKey, item);
      ghost var view := View();
      assert first != null ==> first in Footprint() && last in Footprint() && view[0].0 == first.key;
      var element := new ListElement(item, sortKey);
      if first == null {
        LinkAtEnd(element);
      } else if sortKey < first.key {
        LinkAtFront(element);
      } else {
        var ptr, k := FindPlace(sortKey);
        assert ptr in Footprint();
        if ptr.next != null {
          LinkAfter(ptr, element, k);
        } else {
          LinkAtEnd(element);
        }
      }
    }

    /** `SortedRemove` and, with the key ignored, `Remove`. */
    method SortedRemove() returns (r: Removed<T>)
      requires Valid()
      modifies this
      ensures Valid()
      ensures r == if old(View()) == [] then Nothing else Removed(old(View())[0].0, old(View())[0].1)
      ensures View() == if old(View()) == [] then [] else old(View())[1..]
      ensures Footprint() <= old(Footprint())
    {
      if first == null {
        return Nothing;
      }
      r := Removed(first.key, first.item);
      ghost var was := elements;
      if first == last {
        first, last, elements := null, null, [];
      } else {
        assert elements[0].next == elements[1];
        first, elements := first.next, elements[1..];
        forall i, j | 0 <= i < j < |elements| && j == i + 1 ensures elements[i].next == elements[j] {
          assert was[i + 1].next == was[j + 1];
        }
      }
    }
  }

  datatype Removed<T> = Nothing | Removed(key: int, item: T)
}
