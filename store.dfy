/** element_vector_t of hedge/cpp/hedge.cpp (hedge/cpp/hedge.cc:16-71 repeats
    it line for line): a growable sequence of elements whose slot 0 holds a
    sentinel, with generation-checked lookup and swap-with-the-end removal.

    The class models the code as written. Its state changes are specified by
    the pure functions below, about which the lemmas are stated; the
    definitions whose names end in `Intended` are the behaviour that the
    doc comment at hedge/cpp/hedge.cpp:55-56 and the null guard of
    hedge/src/hedge.cc:39 describe, where the code as written departs
    from them. */
module HedgeStore {
  import opened Wrappers
  import opened Hedge

  const GenerationModulus: int := 0x1_0000_0000

  /** `generation++` on the uint32_t generation of element_t: the rest of the
      element is kept, and the counter wraps to 0 after its largest value. */
  function Bump<T>(e: Element<T>): (r: Element<T>)
    ensures r.body == e.body && r.flags == e.flags
    ensures r.generation == if e.generation == GenerationModulus - 1 then 0 else e.generation + 1
    ensures r.generation != e.generation
  {
    e.(generation := (e.generation + 1) % GenerationModulus)
  }

  /** Whether `get(index)` (hedge/cpp/hedge.cpp:33-39) finds an element: the
      offset is in bounds and the stored generation equals the index's. The
      null index is not rejected. */
  predicate Resolves<T, K>(s: seq<Element<T>>, index: Index<K>)
  {
    index.offset < |s| && s[index.offset].generation == index.generation
  }

  /** The payloads of the stored elements, in slot order. */
  function Bodies<T>(s: seq<Element<T>>): (r: seq<T>)
    ensures |r| == |s|
    ensures forall k :: 0 <= k < |s| ==> r[k] == s[k].body
  {
    seq(|s|, k requires 0 <= k < |s| => s[k].body)
  }

  /** The collection after `remove(index)` as written (hedge/cpp/hedge.cpp:58-71):
      nothing happens unless `get` accepts the index; offset 1 pops the last
      element; any other accepted offset receives a copy of the last element
      with its generation bumped, and then the last element is popped. */
  function RemoveAsWritten<T, K>(s: seq<Element<T>>, index: Index<K>): (r: seq<Element<T>>)
    ensures Resolves(s, index) ==> |r| == |s| - 1
    ensures !Resolves(s, index) ==> r == s
  {
    if !Resolves(s, index) then s
    else if index.offset == 1 then s[..|s| - 1]
    else s[index.offset := Bump(s[|s| - 1])][..|s| - 1]
  }

  class ElementVector<T, K> {
    var collection: seq<Element<T>>

    /** `element_vector_t()`: the sentinel `TElement {}` goes into slot 0. */
    constructor (blank: T)
      ensures collection == [Fresh(blank)]
      ensures Count() == 1
    {
      collection := [Fresh(blank)];
    }

    /** `count()`: the number of stored elements, the sentinel included. */
    function Count(): (r: nat)
      reads this
      ensures r == |collection|
    {
      |collection|
    }

    /** `get(offset)`: bounds check only. The pointer becomes the element. */
    function GetAt(offset: nat): (r: Option<Element<T>>)
      reads this
      ensures r.Some? <==> offset < Count()
      ensures r.Some? ==> r.value == collection[offset]
    {
      if offset < |collection| then Some(collection[offset]) else None
    }

    /** `get(index)`: the offset lookup, then a miss on a generation mismatch. */
    function Get(index: Index<K>): (r: Option<Element<T>>)
      reads this
      ensures r.Some? <==> Resolves(collection, index)
      ensures r.Some? <==> index.offset < Count() && collection[index.offset].generation == index.generation
      ensures r.Some? ==> r.value == collection[index.offset]
    {
      var element := GetAt(index.offset);
      if element.Some? && element.value.generation != index.generation then None else element
    }

    /** `emplace(element)`: appends, and returns `(old size, 0)`. */
    method Emplace(element: Element<T>) returns (index: Index<K>)
      modifies this
      ensures index == Index(old(|collection|), 0)
      ensures collection == old(collection) + [element]
    {
      index := Index(|collection|, 0);
      collection := collection + [element];
    }

    /** `remove(index)`. */
    method Remove(index: Index<K>)
      modifies this
      ensures collection == RemoveAsWritten(old(collection), index)
    {
      var elementAtIndex := Get(index);
      if elementAtIndex.Some? {
        if index.offset == 1 {
          collection := collection[..|collection| - 1];
        } else {
          var elementAtBack := collection[|collection| - 1];
          collection := collection[index.offset := Bump(elementAtBack)];
          collection := collection[..|collection| - 1];
        }
      }
    }
  }

  // ----- emplace -----

  /** The index returned by `emplace` addresses the appended element: it
      resolves exactly when the element arrives with generation 0, it is
      truthy whenever a sentinel is present, and no earlier slot changes. */
  lemma EmplaceResolves<T, K>(s: seq<Element<T>>, element: Element<T>)
    ensures var index: Index<K> := Index(|s|, 0);
      && (Resolves(s + [element], index) <==> element.generation == 0)
      && (|s| >= 1 ==> index.IsSet())
      && !Resolves(s, index)
      && (s + [element])[|s|] == element
      && (s + [element])[..|s|] == s
  {
  }

  /** An index that resolved before an `emplace` still resolves to the same
      element afterwards. */
  lemma EmplaceKeepsResolved<T, K>(s: seq<Element<T>>, element: Element<T>, index: Index<K>)
    requires Resolves(s, index)
    ensures Resolves(s + [element], index)
    ensures (s + [element])[index.offset] == s[index.offset]
  {
  }

  // ----- remove, as written -----

  /** Removing at an offset other than 1 and other than the last slot moves
      the old last element into the slot with its generation bumped; every
      other remaining slot is unchanged; every index into the old last slot now
      misses (out of range), while the relocated element resolves under the
      bumped generation. */
  lemma RemoveRelocatesLast<T, K>(s: seq<Element<T>>, index: Index<K>)
    requires Resolves(s, index) && index.offset != 1 && index.offset < |s| - 1
    ensures var r := RemoveAsWritten(s, index);
      && |r| == |s| - 1
      && r[index.offset] == Bump(s[|s| - 1])
      && (forall j :: 0 <= j < |r| && j != index.offset ==> r[j] == s[j])
      && (forall tail: Index<K> :: tail.offset == |s| - 1 ==> !Resolves(r, tail))
      && Resolves(r, Index<K>.Index(index.offset, Bump(s[|s| - 1]).generation))
      && r[index.offset].body == s[|s| - 1].body
  {
  }

  /** Removing at offset 1 pops the last element, whatever sits in slot 1: a
      store of more than two elements keeps slot 1 as it was, and the index
      just removed still resolves. */
  lemma RemoveAtOffsetOnePops<T, K>(s: seq<Element<T>>, index: Index<K>)
    requires Resolves(s, index) && index.offset == 1
    ensures RemoveAsWritten(s, index) == s[..|s| - 1]
    ensures |s| > 2 ==> RemoveAsWritten(s, index)[1] == s[1] && Resolves(RemoveAsWritten(s, index), index)
  {
  }

  /** Removing the element in the last slot truncates, whichever branch runs. */
  lemma RemoveLastTruncates<T, K>(s: seq<Element<T>>, index: Index<K>)
    requires Resolves(s, index) && index.offset == |s| - 1
    ensures RemoveAsWritten(s, index) == s[..|s| - 1]
    ensures !Resolves(RemoveAsWritten(s, index), index)
  {
  }

  /** Removing one element leaves every other accepted index below the new
      count resolving to the same element as before. */
  lemma RemoveKeepsOtherSlots<T, K>(s: seq<Element<T>>, index: Index<K>, other: Index<K>)
    requires Resolves(s, index) && Resolves(s, other)
    requires other.offset != index.offset && other.offset < |s| - 1
    ensures Resolves(RemoveAsWritten(s, index), other)
    ensures RemoveAsWritten(s, index)[other.offset] == s[other.offset]
  {
  }

  /** Away from offset 1, the removed index keeps resolving exactly when the
      element moved into its slot carries, after the bump, the very
      generation the index holds. */
  lemma RemovedIndexResolvesOnlyByCollision<T, K>(s: seq<Element<T>>, index: Index<K>)
    requires Resolves(s, index) && index.offset != 1
    ensures Resolves(RemoveAsWritten(s, index), index)
        <==> index.offset < |s| - 1 && Bump(s[|s| - 1]).generation == index.generation
  {
  }

  /** Such a collision happens: in [sentinel, a, b with generation 1, c with
      generation 0], removing b at (2, 1) moves c into slot 2 with generation
      1, and the index just removed now resolves to c. */
  lemma RemovedIndexCanResolveAgain()
    ensures var s := [Fresh(0), Fresh(1), Element(1, 0, 2), Fresh(3)];
      var index: Index<int> := Index(2, 1);
      && Resolves(s, index)
      && Resolves(RemoveAsWritten(s, index), index)
      && RemoveAsWritten(s, index)[2].body == 3
  {
  }

  // ----- findings in remove and get -----

  /** As written, offset 1 names the wrong element when the store holds more
      than two: removing the element in slot 1 of [sentinel, a, b] drops b
      and leaves a, so the payloads are not the old payloads minus the
      removed one. */
  lemma RemoveAtOffsetOneDropsWrongElement()
    ensures var s := [Fresh(0), Fresh(10), Fresh(20)];
      var index: Index<int> := Index(1, 0);
      && Resolves(s, index)
      && Bodies(RemoveAsWritten(s, index)) == [0, 10]
      && multiset(Bodies(RemoveAsWritten(s, index))) != multiset(Bodies(s)) - multiset{s[index.offset].body}
  {
    var s := [Fresh(0), Fresh(10), Fresh(20)];
    var r := RemoveAsWritten(s, Index<int>.Index(1, 0));
    assert r == s[..2];
    assert Bodies(r) == [0, 10];
    assert Bodies(s) == [0, 10, 20];
    assert (multiset(Bodies(s)) - multiset{10})[10] == 0;
    assert multiset(Bodies(r))[10] == 1;
  }

  /** As written, `get` accepts the null index (slot 0 with generation 0), so
      `remove` of the default index deletes the sentinel: a fresh store is
      left empty, and the mesh count `count() - 1` then wraps. */
  lemma RemoveNullIndexDeletesSentinel<T, K>(blank: T)
    ensures Resolves([Fresh(blank)], Null<K>())
    ensures RemoveAsWritten([Fresh(blank)], Null<K>()) == []
  {
  }

  /** `get` with the null index rejected, as the `index &&` guard of the sibling
      variant does (hedge/src/hedge.cc:39). */
  predicate ResolvesIntended<T, K>(s: seq<Element<T>>, index: Index<K>)
  {
    index.IsSet() && Resolves(s, index)
  }

  /** `remove` as its doc comment at hedge/cpp/hedge.cpp:55-56 describes it: the element is removed by moving the last element
      into its slot (bumping the mover's generation), or by truncating when it
      is itself the last. */
  function RemoveIntended<T, K>(s: seq<Element<T>>, index: Index<K>): (r: seq<Element<T>>)
    ensures ResolvesIntended(s, index) ==> |r| == |s| - 1
    ensures !ResolvesIntended(s, index) ==> r == s
  {
    if !ResolvesIntended(s, index) then s
    else if index.offset == |s| - 1 then s[..|s| - 1]
    else s[index.offset := Bump(s[|s| - 1])][..|s| - 1]
  }

  /** The intended `remove` never touches the sentinel: a store that has one
      keeps it, so the count never drops below 1. */
  lemma RemoveIntendedKeepsSentinel<T, K>(s: seq<Element<T>>, index: Index<K>)
    requires |s| >= 1
    ensures |RemoveIntended(s, index)| >= 1
    ensures RemoveIntended(s, index)[0] == s[0]
  {
  }

  /** The intended `remove` takes away exactly the removed element's payload:
      the remaining payloads are the old ones minus that one. */
  lemma RemoveIntendedDropsTarget<T, K>(s: seq<Element<T>>, index: Index<K>)
    requires ResolvesIntended(s, index)
    ensures multiset(Bodies(RemoveIntended(s, index))) == multiset(Bodies(s)) - multiset{s[index.offset].body}
  {
    var n := |s| - 1;
    var k := index.offset;
    var r := RemoveIntended(s, index);
    assert Bodies(s) == Bodies(s[..n]) + [s[n].body];
    if k == n {
      assert r == s[..n];
    } else {
      assert Bodies(r) == Bodies(s[..n])[k := s[n].body];
      assert Bodies(s[..n])[k] == s[k].body;
    }
  }

}
