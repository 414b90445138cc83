/** The two frontiers of the searches: `PriorityQueue`, a min-priority
    collection of `(priority, item)` pairs, and `Queue`, a FIFO. */
module Frontiers {

  import opened Locations

  /** A stored pair `(priority, item)`. */
  datatype Entry = Entry(priority: real, item: Loc)

  /** Python's ordering of `(priority, (x, y))` tuples, which decides which
      pair `heapq.heappop` returns: by priority, then by x, then by y. */
  predicate EntryLeq(a: Entry, b: Entry)
  {
    || a.priority < b.priority
    || (a.priority == b.priority && a.item.x < b.item.x)
    || (a.priority == b.priority && a.item.x == b.item.x && a.item.y <= b.item.y)
  }

  /** The order is total and antisymmetric, so the least pair is unique. */
  lemma EntryLeqTotalOrder(a: Entry, b: Entry, c: Entry)
    ensures EntryLeq(a, b) || EntryLeq(b, a)
    ensures EntryLeq(a, b) && EntryLeq(b, a) ==> a == b
    ensures EntryLeq(a, b) && EntryLeq(b, c) ==> EntryLeq(a, c)
  {
  }

  /** The items stored in a list of pairs. */
  ghost function Items(s: seq<Entry>): set<Loc>
  {
    set e | e in s :: e.item
  }

  /** Adding a pair adds its item. */
  lemma ItemsAppend(s: seq<Entry>, e: Entry)
    ensures Items(s + [e]) == Items(s) + {e.item}
  {
    assert forall f :: f in s + [e] <==> f in s || f == e;
  }

  /** Removing the pair at `m` keeps every pair stored at another
      position, and so every item stored at another position, even when
      that item is the removed one's (a stale duplicate); it adds
      nothing. */
  lemma ItemsRemove(s: seq<Entry>, m: nat)
    requires m < |s|
    ensures forall e :: e in s[..m] + s[m + 1..] ==> e in s
    ensures forall j :: 0 <= j < |s| && j != m ==> s[j] in s[..m] + s[m + 1..]
    ensures forall e :: e in s && e != s[m] ==> e in s[..m] + s[m + 1..]
    ensures forall j :: 0 <= j < |s| && j != m ==> s[j].item in Items(s[..m] + s[m + 1..])
    ensures Items(s[..m] + s[m + 1..]) <= Items(s)
  {
    var t := s[..m] + s[m + 1..];
    assert forall f :: f in t ==> f in s;
    forall j | 0 <= j < |s| && j != m ensures s[j] in t {
      if j < m { assert t[j] == s[j]; } else { assert t[j - 1] == s[j]; }
    }
  }

  /** A list holds at most one least pair: the pair `heapq.heappop`
      returns is determined by the stored pairs. */
  lemma LeastPairUnique(s: seq<Entry>, a: Entry, b: Entry)
    requires a in s && b in s
    requires forall e :: e in s ==> EntryLeq(a, e)
    requires forall e :: e in s ==> EntryLeq(b, e)
    ensures a == b
  {
    EntryLeqTotalOrder(a, b, a);
  }

  /** `PriorityQueue`; the layout of the binary heap is abstracted to the
      list of the stored pairs. */
  class PriorityQueue {
    var elements: seq<Entry>

    constructor ()
      ensures elements == []
    {
      elements := [];
    }

    /** `empty`. */
    predicate Empty()
      reads this
    {
      |elements| == 0
    }

    /** `put`: adds the one pair `(priority, item)`. */
    method Put(item: Loc, priority: real)
      modifies this
      ensures elements == old(elements) + [Entry(priority, item)]
    {
      elements := elements + [Entry(priority, item)];
    }

    /** `get`: removes a least pair and returns its item. `index` says
        where the removed pair stood. */
    method Get() returns (item: Loc, index: nat)
      requires !Empty()
      modifies this
      ensures index < |old(elements)| && old(elements)[index].item == item
      ensures forall e :: e in old(elements) ==> EntryLeq(old(elements)[index], e)
      ensures elements == old(elements)[..index] + old(elements)[index + 1..]
    {
      index := LeastIndex(elements);
      item := elements[index].item;
      elements := elements[..index] + elements[index + 1..];
    }
  }

  /** The position of the least pair of a non-empty list, scanning from the
      front and keeping the first of equal pairs. */
  method LeastIndex(s: seq<Entry>) returns (m: nat)
    requires |s| > 0
    ensures m < |s|
    ensures forall e :: e in s ==> EntryLeq(s[m], e)
  {
    m := 0;
    for i := 1 to |s|
      invariant m < |s|
      invariant forall k :: 0 <= k < i ==> EntryLeq(s[m], s[k])
    {
      if !EntryLeq(s[m], s[i]) {
        m := i;
      }
    }
  }

  /** `Queue`: first in, first out. */
  class Queue<T> {
    var elements: seq<T>

    constructor ()
      ensures elements == []
    {
      elements := [];
    }

    /** `empty`. */
    predicate Empty()
      reads this
    {
      |elements| == 0
    }

    /** `put`: appends `x` at the back. */
    method Put(x: T)
      modifies this
      ensures elements == old(elements) + [x]
    {
      elements := elements + [x];
    }

    /** `get`: removes and returns the front element. */
    method Get() returns (x: T)
      requires !Empty()
      modifies this
      ensures [x] + elements == old(elements)
    {
      x := elements[0];
      elements := elements[1..];
    }
  }
}
