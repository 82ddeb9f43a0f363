/**
 * The kernel's intrusive doubly linked list. Elements carry their own next
 * and prev links; the list holds head, tail and a size count. The ghost
 * sequence elems is the list's contents from head to tail, and Valid ties
 * every link, both ends and the count to it.
 */
module List {
  import opened Wrappers

  /** A list_element_t: the links embedded in a listed structure. */
  class Element {
    var next: Element?
    var prev: Element?

    constructor ()
      ensures next == null && prev == null
    {
      next, prev := null, null;
    }
  }

  /** A list_compare_func_t: negative, zero or positive as a sorts before, with or after b. */
  type Compare = (Element, Element) -> int

  /** The first position at which list_insert_sorted places e: before the first c with compare(e, c) <= 0. */
  function SortedPosition(s: seq<Element>, e: Element, compare: Compare): (k: nat)
    ensures k <= |s|
    ensures forall j :: 0 <= j < k ==> compare(e, s[j]) > 0
    ensures k < |s| ==> compare(e, s[k]) <= 0
  {
    if |s| == 0 then 0
    else if compare(e, s[0]) <= 0 then 0
    else 1 + SortedPosition(s[1..], e, compare)
  }

  /** The position of x in s. */
  function IndexOf(s: seq<Element>, x: Element): (i: nat)
    requires x in s
    ensures i < |s| && s[i] == x
    ensures forall j :: 0 <= j < i ==> s[j] != x
  {
    if s[0] == x then 0 else 1 + IndexOf(s[1..], x)
  }

  /** s is ordered by compare: no element compares after a later one. */
  predicate SortedBy(s: seq<Element>, compare: Compare)
  {
    forall i, j :: 0 <= i < j < |s| ==> compare(s[i], s[j]) <= 0
  }

  /** On the elements of xs, compare is a total preorder: any two are ordered one way, and the order is transitive. */
  predicate TotalPreorderOn(xs: seq<Element>, compare: Compare)
  {
    && (forall i, j :: 0 <= i < |xs| && 0 <= j < |xs| && compare(xs[i], xs[j]) > 0 ==> compare(xs[j], xs[i]) <= 0)
    && (forall i, j, k :: 0 <= i < |xs| && 0 <= j < |xs| && 0 <= k < |xs| && compare(xs[i], xs[j]) <= 0 && compare(xs[j], xs[k]) <= 0
          ==> compare(xs[i], xs[k]) <= 0)
  }

  /** Inserting at SortedPosition keeps a sorted sequence sorted. */
  lemma InsertSortedKeepsOrder(s: seq<Element>, e: Element, compare: Compare)
    requires TotalPreorderOn(s + [e], compare) && SortedBy(s, compare)
    ensures var k := SortedPosition(s, e, compare);
            SortedBy(s[..k] + [e] + s[k..], compare)
  {
    var u := s + [e];
    assert forall i :: 0 <= i < |s| ==> u[i] == s[i];
    assert u[|s|] == e;
    assert forall i :: 0 <= i < |s| && compare(e, s[i]) > 0 ==> compare(s[i], e) <= 0 by {
      forall i | 0 <= i < |s| && compare(e, s[i]) > 0
        ensures compare(s[i], e) <= 0
      {
        assert compare(u[|s|], u[i]) > 0;
      }
    }
    assert forall a, b :: 0 <= a < b < |s| && compare(e, s[a]) <= 0 ==> compare(e, s[b]) <= 0 by {
      forall a, b | 0 <= a < b < |s| && compare(e, s[a]) <= 0
        ensures compare(e, s[b]) <= 0
      {
        assert compare(u[|s|], u[a]) <= 0 && compare(u[a], u[b]) <= 0;
      }
    }
    var k := SortedPosition(s, e, compare);
    var t := s[..k] + [e] + s[k..];
    forall i, j | 0 <= i < j < |t|
      ensures compare(t[i], t[j]) <= 0
    {
      InsertedPairOrdered(s, e, compare, k, i, j);
    }
  }

  /** One pair of the sequence after inserting e at a position k with SortedPosition's properties is in order. */
  lemma InsertedPairOrdered(s: seq<Element>, e: Element, compare: Compare, k: nat, i: nat, j: nat)
    requires SortedBy(s, compare)
    requires forall i :: 0 <= i < |s| && compare(e, s[i]) > 0 ==> compare(s[i], e) <= 0
    requires forall a, b :: 0 <= a < b < |s| && compare(e, s[a]) <= 0 ==> compare(e, s[b]) <= 0
    requires k <= |s| && (forall j :: 0 <= j < k ==> compare(e, s[j]) > 0)
    requires k < |s| ==> compare(e, s[k]) <= 0
    requires i < j <= |s|
    ensures var t := s[..k] + [e] + s[k..];
            compare(t[i], t[j]) <= 0
  {
    var t := s[..k] + [e] + s[k..];
    if j < k {
      assert t[i] == s[i] && t[j] == s[j];
      assert compare(s[i], s[j]) <= 0;
    } else if j == k {
      assert t[i] == s[i] && t[j] == e;
      assert compare(e, s[i]) > 0;
    } else if i < k {
      assert t[i] == s[i] && t[j] == s[j - 1];
      assert compare(s[i], s[j - 1]) <= 0;
    } else if i == k {
      assert t[i] == e && t[j] == s[j - 1];
      if k < j - 1 {
        assert compare(e, s[k]) <= 0;
      }
    } else {
      assert t[i] == s[i - 1] && t[j] == s[j - 1];
      assert compare(s[i - 1], s[j - 1]) <= 0;
    }
  }

  /** No element occurs twice in s. */
  predicate Distinct(s: seq<Element>)
  {
    |s| == 0 || (s[0] !in s[1..] && Distinct(s[1..]))
  }

  /** Distinct holds exactly when no two positions hold the same element. */
  lemma {:induction false} DistinctPairwise(s: seq<Element>)
    ensures Distinct(s) <==> forall i, j :: 0 <= i < j < |s| ==> s[i] != s[j]
  {
    if |s| > 0 {
      DistinctPairwise(s[1..]);
      assert forall j :: 0 < j < |s| ==> s[j] == s[1..][j - 1];
    }
  }

  /** In a sequence without repeats, only position i holds s[i]. */
  lemma DistinctAt(s: seq<Element>, i: nat)
    requires Distinct(s) && i < |s|
    ensures forall j :: 0 <= j < |s| && j != i ==> s[j] != s[i]
  {
    DistinctPairwise(s);
  }

  /** Splicing a new element into a sequence without repeats gives one without repeats. */
  lemma SpliceDistinct(s: seq<Element>, e: Element, p: nat)
    requires p <= |s| && Distinct(s) && e !in s
    ensures Distinct(s[..p] + [e] + s[p..])
  {
    var t := s[..p] + [e] + s[p..];
    DistinctPairwise(s);
    forall a, b | 0 <= a < b < |t|
      ensures t[a] != t[b]
    {
      if a < p && b < p {
        assert t[a] == s[a] && t[b] == s[b];
      } else if a < p && b > p {
        assert t[a] == s[a] && t[b] == s[b - 1];
      } else if a > p {
        assert t[a] == s[a - 1] && t[b] == s[b - 1];
      }
    }
    DistinctPairwise(t);
  }

  /** Appending a new element to a sequence without repeats gives one without repeats. */
  lemma AppendDistinct(s: seq<Element>, e: Element)
    requires Distinct(s) && e !in s
    ensures Distinct(s + [e])
  {
    SpliceDistinct(s, e, |s|);
    assert s[..|s|] + [e] + s[|s|..] == s + [e];
  }

  /** Deleting a position from a sequence without repeats gives one without repeats. */
  lemma DeleteDistinct(s: seq<Element>, p: nat)
    requires p < |s| && Distinct(s)
    ensures Distinct(s[..p] + s[p + 1..])
  {
    var t := s[..p] + s[p + 1..];
    DistinctPairwise(s);
    forall a, b | 0 <= a < b < |t|
      ensures t[a] != t[b]
    {
      if b < p {
        assert t[a] == s[a] && t[b] == s[b];
      } else if a < p {
        assert t[a] == s[a] && t[b] == s[b + 1];
      } else {
        assert t[a] == s[a + 1] && t[b] == s[b + 1];
      }
    }
    DistinctPairwise(t);
  }

  /** A list_t. */
  class LinkedList {
    var head: Element?
    var tail: Element?
    var size: nat
    ghost var elems: seq<Element>

    /** The links, ends and count agree with elems, and no element appears twice. */
    ghost predicate Valid()
      reads this, elems
    {
      && size == |elems|
      && (|elems| == 0 ==> head == null && tail == null)
      && (|elems| > 0 ==>
            && head == elems[0] && tail == elems[|elems| - 1]
            && elems[0].prev == null && elems[|elems| - 1].next == null)
      && (forall i :: 0 <= i < |elems| - 1 ==> elems[i].next == elems[i + 1])
      && (forall i :: 0 < i < |elems| ==> elems[i].prev == elems[i - 1])
      && Distinct(elems)
    }

    /** The links of the element at position i, as Valid fixes them. */
    lemma LinksAt(i: nat)
      requires Valid() && i < |elems|
      ensures elems[i].next == if i + 1 < |elems| then elems[i + 1] else null
      ensures elems[i].prev == if i > 0 then elems[i - 1] else null
    {
    }

    /** A list object before list_init has run; its fields hold whatever was there. */
    constructor (head: Element?, tail: Element?, size: nat)
      ensures this.head == head && this.tail == tail && this.size == size && elems == []
    {
      this.head, this.tail, this.size := head, tail, size;
      elems := [];
    }

    /** list_init: the empty list. */
    method Init()
      modifies this
      ensures Valid() && elems == []
    {
      head, tail, size := null, null, 0;
      elems := [];
    }

    /** list_is_empty. */
    function IsEmpty(): (r: bool)
      requires Valid()
      reads this, elems
      ensures r <==> elems == []
    {
      size == 0
    }

    /** list_size. */
    function Size(): (n: nat)
      requires Valid()
      reads this, elems
      ensures n == |elems|
    {
      size
    }

    /** list_append: e becomes the new tail; a NULL element changes nothing. */
    method Append(e: Element?)
      requires Valid() && e !in elems
      modifies this, e, elems
      ensures Valid()
      ensures e == null ==> elems == old(elems) && unchanged(this)
      ensures e != null ==> elems == old(elems) + [e] && tail == e
    {
      if e == null {
        return;
      }
      if |elems| > 0 {
        DistinctAt(elems, |elems| - 1);
      }
      AppendDistinct(elems, e);
      e.next := null;
      e.prev := tail;
      if tail != null {
        tail.next := e;
      } else {
        head := e;
      }
      tail := e;
      size := size + 1;
      elems := elems + [e];
    }

    /** list_prepend: e becomes the new head; a NULL element changes nothing. */
    method Prepend(e: Element?)
      requires Valid() && e !in elems
      modifies this, e, elems
      ensures Valid()
      ensures e == null ==> elems == old(elems) && unchanged(this)
      ensures e != null ==> elems == [e] + old(elems) && head == e
    {
      if e == null {
        return;
      }
      if |elems| > 0 {
        DistinctAt(elems, 0);
      }
      assert ([e] + elems)[1..] == elems;
      e.prev := null;
      e.next := head;
      if head != null {
        head.prev := e;
      } else {
        tail := e;
      }
      head := e;
      size := size + 1;
      elems := [e] + elems;
    }

    /** The pointer surgery of list_insert_after/_before: e goes between p and n. */
    method Link(p: Element?, e: Element, n: Element?)
      requires p != e && n != e && (p != n || p == null)
      modifies this, p, e, n
      ensures e.prev == p && e.next == n
      ensures p != null ==> p.next == e && p.prev == old(p.prev)
      ensures n != null ==> n.prev == e && n.next == old(n.next)
      ensures head == (if p == null then e else old(head))
      ensures tail == (if n == null then e else old(tail))
      ensures size == old(size) && elems == old(elems)
    {
      e.prev := p;
      e.next := n;
      if n != null {
        n.prev := e;
      } else {
        tail := e;
      }
      if p != null {
        p.next := e;
      } else {
        head := e;
      }
    }

    /** The pointer surgery of list_remove: p and n, the neighbours of e, are joined. */
    method Unlink(p: Element?, e: Element, n: Element?)
      requires p != e && n != e && (p != n || p == null)
      modifies this, p, e, n
      ensures e.prev == null && e.next == null
      ensures p != null ==> p.next == n && p.prev == old(p.prev)
      ensures n != null ==> n.prev == p && n.next == old(n.next)
      ensures head == (if p == null then n else old(head))
      ensures tail == (if n == null then p else old(tail))
      ensures size == old(size) && elems == old(elems)
    {
      if p != null {
        p.next := n;
      } else {
        head := n;
      }
      if n != null {
        n.prev := p;
      } else {
        tail := p;
      }
      e.next := null;
      e.prev := null;
    }

    /** list_remove_head: NULL on an empty list; otherwise the first element, unlinked. */
    method RemoveHead() returns (e: Element?)
      requires Valid()
      modifies this, elems
      ensures Valid()
      ensures old(elems) == [] ==> e == null && unchanged(this)
      ensures old(elems) != [] ==>
                && e == old(elems[0]) && elems == old(elems[1..])
                && e.next == null && e.prev == null
    {
      if size == 0 {
        return null;
      }
      LinksAt(0);
      DistinctAt(elems, 0);
      if |elems| > 1 {
        DistinctAt(elems, 1);
      }
      e := head;
      head := e.next;
      if head != null {
        head.prev := null;
      } else {
        tail := null;
      }
      e.next := null;
      e.prev := null;
      size := size - 1;
      elems := elems[1..];
    }

    /** list_remove_tail: NULL on an empty list; otherwise the last element, unlinked. */
    method RemoveTail() returns (e: Element?)
      requires Valid()
      modifies this, elems
      ensures Valid()
      ensures old(elems) == [] ==> e == null && unchanged(this)
      ensures old(elems) != [] ==>
                && e == old(elems[|elems| - 1]) && elems == old(elems[..|elems| - 1])
                && e.next == null && e.prev == null
    {
      if size == 0 {
        return null;
      }
      LinksAt(|elems| - 1);
      DistinctAt(elems, |elems| - 1);
      if |elems| > 1 {
        DistinctAt(elems, |elems| - 2);
      }
      DeleteDistinct(elems, |elems| - 1);
      assert elems[..|elems| - 1] + elems[|elems|..] == elems[..|elems| - 1];
      e := tail;
      tail := e.prev;
      if tail != null {
        tail.next := null;
      } else {
        head := null;
      }
      e.next := null;
      e.prev := null;
      size := size - 1;
      elems := elems[..|elems| - 1];
    }

    /**
     * Records in elems that position p of s has been unlinked, once its
     * neighbours have been joined and every other link is as Valid had it
     * for s.
     */
    ghost method DeleteAt(s: seq<Element>, p: nat)
      requires p < |s| && Distinct(s) && size == |s| - 1
      requires forall j :: 0 <= j < |s| - 1 && j != p - 1 && j != p ==> s[j].next == s[j + 1]
      requires forall j :: 0 < j < |s| && j != p && j != p + 1 ==> s[j].prev == s[j - 1]
      requires p > 0 ==> s[p - 1].next == (if p + 1 < |s| then s[p + 1] else null)
      requires p + 1 < |s| ==> s[p + 1].prev == (if p > 0 then s[p - 1] else null)
      requires p > 0 ==> head == s[0] && s[0].prev == null
      requires p + 1 < |s| ==> tail == s[|s| - 1] && s[|s| - 1].next == null
      requires p == 0 ==> head == (if p + 1 < |s| then s[p + 1] else null)
      requires p + 1 == |s| ==> tail == (if p > 0 then s[p - 1] else null)
      modifies this
      ensures Valid() && elems == s[..p] + s[p + 1..]
      ensures head == old(head) && tail == old(tail) && size == old(size)
    {
      elems := s[..p] + s[p + 1..];
      assert forall j :: 0 <= j < p ==> elems[j] == s[j];
      assert forall j :: p <= j < |elems| ==> elems[j] == s[j + 1];
      DeleteDistinct(s, p);
    }

    /** list_remove: unlinks e, which must be in the list; a NULL element changes nothing. */
    method Remove(e: Element?)
      requires Valid() && (e == null || e in elems)
      modifies this, elems
      ensures Valid()
      ensures e == null ==> elems == old(elems) && unchanged(this)
      ensures e != null ==>
                && elems == old(elems[..IndexOf(elems, e)] + elems[IndexOf(elems, e) + 1..])
                && e.next == null && e.prev == null
    {
      if e == null || size == 0 {
        return;
      }
      ghost var i := IndexOf(elems, e);
      ghost var s := elems;
      LinksAt(i);
      DistinctAt(s, i);
      if i > 0 {
        DistinctAt(s, i - 1);
      }
      if i + 1 < |s| {
        DistinctAt(s, i + 1);
      }
      Unlink(e.prev, e, e.next);
      size := size - 1;
      DeleteAt(s, i);
    }

    /**
     * Records in elems that e now sits at position p of s, once the links
     * around the gap have been rewritten and every other link is as Valid
     * had it for s.
     */
    ghost method SpliceIn(s: seq<Element>, e: Element, p: nat)
      requires p <= |s| && Distinct(s) && e !in s && size == |s| + 1
      requires forall j :: 0 <= j < |s| - 1 && j != p - 1 ==> s[j].next == s[j + 1]
      requires forall j :: 0 < j < |s| && j != p ==> s[j].prev == s[j - 1]
      requires e.prev == (if p > 0 then s[p - 1] else null)
      requires e.next == (if p < |s| then s[p] else null)
      requires p > 0 ==> s[p - 1].next == e && head == s[0] && s[0].prev == null
      requires p < |s| ==> s[p].prev == e && tail == s[|s| - 1] && s[|s| - 1].next == null
      requires p == 0 ==> head == e
      requires p == |s| ==> tail == e
      modifies this
      ensures Valid() && elems == s[..p] + [e] + s[p..]
      ensures head == old(head) && tail == old(tail) && size == old(size)
    {
      elems := s[..p] + [e] + s[p..];
      assert forall j :: 0 <= j < p ==> elems[j] == s[j];
      assert elems[p] == e;
      assert forall j :: p < j < |elems| ==> elems[j] == s[j - 1];
      forall j | 0 <= j < |elems| - 1
        ensures elems[j].next == elems[j + 1]
      {
        if j + 1 < p {
          assert elems[j] == s[j] && elems[j + 1] == s[j + 1];
        } else if p < j {
          assert elems[j] == s[j - 1] && elems[j + 1] == s[j];
        }
      }
      forall j | 0 < j < |elems|
        ensures elems[j].prev == elems[j - 1]
      {
        if j < p {
          assert elems[j] == s[j] && elems[j - 1] == s[j - 1];
        } else if p + 1 < j {
          assert elems[j] == s[j - 1] && elems[j - 1] == s[j - 2];
        }
      }
      SpliceDistinct(s, e, p);
    }

    /** list_insert_after: e goes right after the anchor; NULL arguments change nothing. */
    method InsertAfter(after: Element?, e: Element?)
      requires Valid() && (after == null || after in elems) && e !in elems
      modifies this, e, elems
      ensures Valid()
      ensures (after == null || e == null) ==> elems == old(elems) && unchanged(this)
      ensures after != null && e != null ==>
                elems == old(elems[..IndexOf(elems, after) + 1] + [e] + elems[IndexOf(elems, after) + 1..])
    {
      if after == null || e == null {
        return;
      }
      ghost var i := IndexOf(elems, after);
      ghost var s := elems;
      LinksAt(i);
      DistinctAt(s, i);
      if i + 1 < |s| {
        DistinctAt(s, i + 1);
      }
      Link(after, e, after.next);
      forall j | 0 <= j < |s| - 1 && j != i
        ensures s[j].next == s[j + 1]
      {
        assert old(s[j].next) == s[j + 1];
      }
      forall j | 0 < j < |s| && j != i + 1
        ensures s[j].prev == s[j - 1]
      {
        assert old(s[j].prev) == s[j - 1];
      }
      size := size + 1;
      SpliceIn(s, e, i + 1);
    }

    /** list_insert_before: e goes right before the anchor; NULL arguments change nothing. */
    method InsertBefore(before: Element?, e: Element?)
      requires Valid() && (before == null || before in elems) && e !in elems
      modifies this, e, elems
      ensures Valid()
      ensures (before == null || e == null) ==> elems == old(elems) && unchanged(this)
      ensures before != null && e != null ==>
                elems == old(elems[..IndexOf(elems, before)] + [e] + elems[IndexOf(elems, before)..])
    {
      if before == null || e == null {
        return;
      }
      ghost var i := IndexOf(elems, before);
      ghost var s := elems;
      LinksAt(i);
      DistinctAt(s, i);
      if i > 0 {
        DistinctAt(s, i - 1);
      }
      Link(before.prev, e, before);
      forall j | 0 <= j < |s| - 1 && j + 1 != i
        ensures s[j].next == s[j + 1]
      {
        assert old(s[j].next) == s[j + 1];
      }
      forall j | 0 < j < |s| && j != i
        ensures s[j].prev == s[j - 1]
      {
        assert old(s[j].prev) == s[j - 1];
      }
      size := size + 1;
      SpliceIn(s, e, i);
    }

    /**
     * list_insert_sorted: e goes before the first element it does not
     * compare after, or at the end; a NULL element or comparator changes
     * nothing.
     */
    method InsertSorted(e: Element?, compare: Option<Compare>)
      requires Valid() && e !in elems
      modifies this, e, elems
      ensures Valid()
      ensures (e == null || compare.None?) ==> elems == old(elems) && unchanged(this)
      ensures e != null && compare.Some? ==>
                var k := SortedPosition(old(elems), e, compare.value);
                elems == old(elems[..k] + [e] + elems[k..])
    {
      if e == null || compare.None? {
        return;
      }
      if size == 0 {
        Append(e);
        return;
      }
      var current := head;
      ghost var k := 0;
      while current != null
        invariant k <= |elems|
        invariant current == if k < |elems| then elems[k] else null
        invariant forall j :: 0 <= j < k ==> compare.value(e, elems[j]) > 0
        decreases |elems| - k
      {
        if compare.value(e, current) <= 0 {
          assert SortedPosition(elems, e, compare.value) == k;
          InsertBefore(current, e);
          return;
        }
        current := current.next;
        k := k + 1;
      }
      assert SortedPosition(elems, e, compare.value) == |elems|;
      assert elems[|elems|..] == [];
      Append(e);
    }
  }

  /** list_is_empty on a possibly NULL list: a NULL list counts as empty. */
  function ListIsEmpty(l: LinkedList?): (r: bool)
    requires l != null ==> l.Valid()
    reads l, if l != null then l.elems else []
    ensures r <==> l == null || l.elems == []
  {
    l == null || l.IsEmpty()
  }

  /** list_size on a possibly NULL list: 0 for NULL. */
  function ListSize(l: LinkedList?): (n: nat)
    requires l != null ==> l.Valid()
    reads l, if l != null then l.elems else []
    ensures n == if l == null then 0 else |l.elems|
  {
    if l == null then 0 else l.Size()
  }

  /** list_head: NULL for a NULL or empty list, else the first element. */
  function ListHead(l: LinkedList?): (r: Element?)
    requires l != null ==> l.Valid()
    reads l, if l != null then l.elems else []
    ensures r == if l == null || l.elems == [] then null else l.elems[0]
  {
    if l == null then null else l.head
  }

  /** list_tail: NULL for a NULL or empty list, else the last element. */
  function ListTail(l: LinkedList?): (r: Element?)
    requires l != null ==> l.Valid()
    reads l, if l != null then l.elems else []
    ensures r == if l == null || l.elems == [] then null else l.elems[|l.elems| - 1]
  {
    if l == null then null else l.tail
  }

  /** list_next: NULL for a NULL element, else its next link. */
  function ListNext(e: Element?): (r: Element?)
    reads e
    ensures e == null ==> r == null
  {
    if e == null then null else e.next
  }

  /** list_prev: NULL for a NULL element, else its prev link. */
  function ListPrev(e: Element?): (r: Element?)
    reads e
    ensures e == null ==> r == null
  {
    if e == null then null else e.prev
  }

  /** Walking with list_next from list_head visits the elements in order, and list_prev walks back. */
  lemma WalkVisitsInOrder(l: LinkedList, i: nat)
    requires l.Valid() && i < |l.elems|
    ensures ListNext(l.elems[i]) == if i + 1 < |l.elems| then l.elems[i + 1] else null
    ensures ListPrev(l.elems[i]) == if i > 0 then l.elems[i - 1] else null
  {
    l.LinksAt(i);
  }
}
