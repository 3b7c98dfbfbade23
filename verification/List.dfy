/** code/lib/list.cc: the singly linked list with a tail pointer and a count, and insertion in sorted order. */
module Lists {
  import opened Common

  /** `s` without its element `i`. */
  function Without<T>(s: seq<T>, i: nat): (r: seq<T>)
    requires i < |s|
    ensures |r| == |s| - 1
    ensures forall j {:trigger r[j]} :: 0 <= j < |r| ==> r[j] == if j < i then s[j] else s[j + 1]
  {
    s[..i] + s[i + 1..]
  }

  /** `s` with `item` put in at position `i`. */
  function With<T>(s: seq<T>, i: nat, item: T): (r: seq<T>)
    requires i <= |s|
    ensures |r| == |s| + 1 && r[i] == item
    ensures forall j {:trigger r[j]} :: 0 <= j < |r| && j != i ==> r[j] == if j < i then s[j] else s[j - 1]
  {
    s[..i] + [item] + s[i..]
  }

  /** Where SortedList::Insert puts an item: before the first element that is greater. */
  function Position<T>(s: seq<T>, item: T, compare: (T, T) -> int): (k: nat)
    ensures k <= |s|
    ensures forall i :: 0 <= i < k ==> compare(item, s[i]) >= 0
    ensures k < |s| ==> compare(item, s[k]) < 0
  {
    if s == [] || compare(item, s[0]) < 0 then 0 else Position(s[1..], item, compare) + 1
  }

  function Inserted<T>(s: seq<T>, item: T, compare: (T, T) -> int): (r: seq<T>)
    ensures |r| == |s| + 1
  {
    With(s, Position(s, item, compare), item)
  }

  lemma SubNoDuplicates<T>(s: seq<T>, i: nat)
    requires NoDuplicates(s) && i < |s|
    ensures NoDuplicates(Without(s, i)) && s[i] !in Without(s, i)
    ensures Without(s, 0) == s[1..]
  {
  }

  lemma WithNoDuplicates<T>(s: seq<T>, i: nat, item: T)
    requires NoDuplicates(s) && i <= |s| && item !in s
    ensures NoDuplicates(With(s, i, item))
  {
  }

  function IndexOf<T(==)>(s: seq<T>, item: T): (i: nat)
    requires item in s
    ensures i < |s| && s[i] == item && item !in s[..i]
  {
    if s[0] == item then 0 else IndexOf(s[1..], item) + 1
  }

  class ListElement<T> {
    var item: T
    var next: ListElement?<T>

    constructor (itm: T)
      ensures item == itm && next == null
    {
      item, next := itm, null;
    }
  }

  /** Each cell points to the next one, and the last one to nothing. */
  ghost predicate Linked<T>(cells: seq<ListElement<T>>)
    reads cells
  {
    && (forall i :: 0 <= i < |cells| - 1 ==> cells[i].next == cells[i + 1])
    && (cells != [] ==> cells[|cells| - 1].next == null)
  }

  ghost predicate Carry<T>(cells: seq<ListElement<T>>, contents: seq<T>)
    reads cells
  {
    |contents| == |cells| && forall i :: 0 <= i < |cells| ==> cells[i].item == contents[i]
  }

  method Bypass<T>(prev: ListElement<T>, ghost cells: seq<ListElement<T>>, ghost k: nat)
    requires 0 < k < |cells| && prev == cells[k - 1] && NoDuplicates(cells) && Linked(cells)
    modifies prev`next
    ensures Linked(Without(cells, k)) && (prev.next == null <==> k == |cells| - 1)
  {
    hide Without;
    var ptr := prev.next;
    assert ptr == cells[k];
    assert k + 1 < |cells| ==> ptr.next == cells[k + 1];
    prev.next := ptr.next;
  }

  method Chain<T>(ptr: ListElement<T>, element: ListElement<T>, ghost cells: seq<ListElement<T>>, ghost k: nat)
    requires k < |cells| && ptr == cells[k] && NoDuplicates(cells) && Linked(cells) && element !in cells
    modifies ptr`next, element`next
    ensures Linked(With(cells, k + 1, element)) && (element.next == null <==> k == |cells| - 1)
  {
    hide With;
    assert k + 1 < |cells| ==> ptr.next == cells[k + 1];
    element.next := ptr.next;
    ptr.next := element;
  }

  class List<T(==)> {
    var first: ListElement?<T>
    var last: ListElement?<T>
    var numInList: nat
    ghost var cells: seq<ListElement<T>>
    ghost var contents: seq<T>

    /** From `first` one reaches `last`, and then null, in `numInList` steps; no item is on the list twice. */
    ghost predicate Valid()
      reads this, cells
    {
      && numInList == |cells|
      && first == (if cells == [] then null else cells[0])
      && last == (if cells == [] then null else cells[|cells| - 1])
      && NoDuplicates(cells) && Linked(cells)
      && Carry(cells, contents) && NoDuplicates(contents)
    }

    constructor ()
      ensures Valid() && contents == [] && cells == []
    {
      first, last, numInList, cells, contents := null, null, 0, [], [];
    }

    method IsInList(item: T) returns (found: bool)
      requires Valid()
      ensures found == (item in contents)
    {
      var ptr := first;
      ghost var k := 0;
      while ptr != null
        invariant k <= |cells| && ptr == (if k < |cells| then cells[k] else null)
        invariant forall i :: 0 <= i < k ==> contents[i] != item
        decreases |cells| - k
      {
        if item == ptr.item {
          return true;
        }
        ptr, k := ptr.next, k + 1;
      }
      return false;
    }

    method Append(item: T)
      requires Valid() && item !in contents
      modifies this, cells
      ensures Valid() && contents == old(contents) + [item]
      ensures forall c :: c in cells ==> c in old(cells) || fresh(c)
    {
      var element := new ListElement(item);
      if numInList == 0 {
        first, last := element, element;
      } else {
        last.next := element;
        last := element;
      }
      numInList, cells, contents := numInList + 1, cells + [element], contents + [item];
    }

    method Prepend(item: T)
      requires Valid() && item !in contents
      modifies this
      ensures Valid() && contents == [item] + old(contents)
      ensures forall c :: c in cells ==> c in old(cells) || fresh(c)
    {
      var element := new ListElement(item);
      if numInList == 0 {
        first, last := element, element;
      } else {
        element.next := first;
        first := element;
      }
      numInList, cells, contents := numInList + 1, [element] + cells, [item] + contents;
    }

    method RemoveFront() returns (thing: T)
      requires Valid() && contents != []
      modifies this
      ensures Valid() && [thing] + contents == old(contents)
      ensures cells == old(cells[1..])
    {
      thing := first.item;
      if first == last {
        first, last := null, null;
      } else {
        first := first.next;
      }
      numInList, cells, contents := numInList - 1, cells[1..], contents[1..];
    }

    /** The cell after `prev` is unlinked; the tail pointer moves back when it was the last one. */
    method Unlink(prev: ListElement<T>, ghost k: nat)
      requires Valid() && 0 < k < |cells| && prev == cells[k - 1]
      modifies this, prev`next
      ensures Valid() && cells == Without(old(cells), k) && contents == Without(old(contents), k)
    {
      hide Without, NoDuplicates;
      SubNoDuplicates(cells, k);
      SubNoDuplicates(contents, k);
      Bypass(prev, cells, k);
      if prev.next == null {
        last := prev;
      }
      numInList, cells, contents := numInList - 1, Without(cells, k), Without(contents, k);
    }

    /** The cell is unlinked wherever it is. */
    method Remove(item: T)
      requires Valid() && item in contents
      modifies this, cells
      ensures Valid() && contents == Without(old(contents), IndexOf(old(contents), item))
      ensures item !in contents
      ensures forall c :: c in cells ==> c in old(cells)
    {
      hide Without, NoDuplicates, IndexOf;
      ghost var at := IndexOf(contents, item);
      SubNoDuplicates(contents, at);
      if item == first.item {
        var removed := RemoveFront();
        return;
      }
      var prev, ptr := first, first.next;
      ghost var k := 1;
      while item != ptr.item
        invariant 1 <= k <= at && prev == cells[k - 1] && ptr == cells[k]
        decreases |cells| - k
      {
        prev, ptr, k := ptr, ptr.next, k + 1;
      }
      assert contents[k] == item && k == at;
      Unlink(prev, k);
    }

    /** A new cell after `ptr`. */
    method LinkAfter(ptr: ListElement<T>, ghost k: nat, item: T)
      requires Valid() && k < |cells| && ptr == cells[k] && item !in contents
      modifies this, ptr`next
      ensures Valid() && contents == With(old(contents), k + 1, item)
      ensures forall c :: c in cells ==> c in old(cells) || fresh(c)
    {
      var element := new ListElement(item);
      hide With, NoDuplicates;
      WithNoDuplicates(cells, k + 1, element);
      WithNoDuplicates(contents, k + 1, item);
      Chain(ptr, element, cells, k);
      if element.next == null {
        last := element;
      }
      numInList, cells, contents := numInList + 1, With(cells, k + 1, element), With(contents, k + 1, item);
    }

    /** Walks to the first element greater than the item; equal elements stay in front of it. */
    method Insert(item: T, compare: (T, T) -> int)
      requires Valid() && item !in contents
      modifies this, cells
      ensures Valid() && contents == Inserted(old(contents), item, compare)
      ensures forall c :: c in cells ==> c in old(cells) || fresh(c)
    {
      hide NoDuplicates;
      ghost var at := Position(contents, item, compare);
      if numInList == 0 || compare(item, first.item) < 0 {
        assert at == 0;
        Prepend(item);
        return;
      }
      assert compare(item, contents[0]) >= 0;
      var ptr := first;
      ghost var k := 0;
      while ptr.next != null && compare(item, ptr.next.item) >= 0
        invariant k < |cells| && ptr == cells[k] && k < at
        decreases |cells| - k
      {
        assert ptr.next == cells[k + 1] && contents[k + 1] == ptr.next.item;
        ptr, k := ptr.next, k + 1;
      }
      assert k + 1 < |cells| ==> contents[k + 1] == ptr.next.item;
      assert at == k + 1;
      LinkAfter(ptr, k, item);
    }
  }
}
