// lib/kernel/list.c: the doubly linked list with two sentinels whose nodes are embedded in other objects.

module IntrusiveLists {

  /** struct list_elem.  `owner` names the object the node is embedded in, which is what elem2entry computes. */
  class ListElem {
    const owner: nat
    var prev: ListElem?
    var next: ListElem?

    constructor (owner: nat)
      ensures this.owner == owner && prev == null && next == null
    {
      this.owner := owner;
      prev, next := null, null;
    }
  }

  ghost predicate NoDup<T>(s: seq<T>) {
    forall i, j :: 0 <= i < j < |s| ==> s[i] != s[j]
  }

  /** struct list */
  class List {
    const head: ListElem
    const tail: ListElem

    /** list_init */
    constructor ()
      ensures fresh(head) && fresh(tail)
      ensures Holds([])
    {
      var h := new ListElem(0);
      var t := new ListElem(0);
      h.next := t;
      t.prev := h;
      head, tail := h, t;
    }

    ghost function Chain(s: seq<ListElem>): seq<ListElem> {
      [head] + s + [tail]
    }

    ghost function At(s: seq<ListElem>, i: nat): ListElem
      requires i < |s| + 2
    {
      Chain(s)[i]
    }

    /** The list holds exactly the elements `s`, in that order, linked both ways. */
    ghost predicate Holds(s: seq<ListElem>)
      reads head, tail, s
    {
      && NoDup(Chain(s))
      && head.prev == null && tail.next == null
      && Linked(Chain(s))
    }

    /** list_insert_before, where `before` is the element at position k (the tail sentinel for k == |s|) */
    method InsertBefore(before: ListElem, elem: ListElem, ghost s: seq<ListElem>, ghost k: nat)
      requires Holds(s) && k <= |s| && before == Chain(s)[k + 1]
      requires elem !in Chain(s)
      modifies before`prev, At(s, k)`next, elem
      ensures Holds(s[..k] + [elem] + s[k..])
    {
      hide NoDup;
      ghost var c := Chain(s);
      assert before.prev == c[k] && c[k].next == before;
      before.prev.next := elem;
      elem.prev := before.prev;
      elem.next := before;
      before.prev := elem;
      forall i: nat | i + 1 < |c| && i != k ensures LinkedAt(c, i) {
        assert old(c[i].next) == c[i + 1] && old(c[i + 1].prev) == c[i];
        Differ(c, i, k);
        Differ(c, i + 1, k + 1);
      }
      assert Chain(s[..k] + [elem] + s[k..]) == c[..k + 1] + [elem] + c[k + 1..];
      InsertNoDup(c, k + 1, elem);
      InsertLinked(c, k, elem);
    }

    /** list_push */
    method Push(elem: ListElem, ghost s: seq<ListElem>)
      requires Holds(s) && elem !in Chain(s)
      modifies head`next, At(s, 1)`prev, elem
      ensures Holds([elem] + s)
    {
      assert Chain(s)[0].next == Chain(s)[1];
      InsertBefore(head.next, elem, s, 0);
      assert s[..0] + [elem] + s[0..] == [elem] + s;
    }

    /** list_append */
    method Append(elem: ListElem, ghost s: seq<ListElem>)
      requires Holds(s) && elem !in Chain(s)
      modifies tail`prev, At(s, |s|)`next, elem
      ensures Holds(s + [elem])
    {
      InsertBefore(tail, elem, s, |s|);
      assert s[..|s|] + [elem] + s[|s|..] == s + [elem];
    }

    /** list_remove: the element itself keeps its stale links */
    method Remove(elem: ListElem, ghost s: seq<ListElem>, ghost k: nat)
      requires Holds(s) && k < |s| && s[k] == elem
      modifies At(s, k)`next, At(s, k + 2)`prev
      ensures Holds(s[..k] + s[k + 1..])
    {
      hide NoDup;
      ghost var c := Chain(s);
      assert c[k + 1] == elem && c[k].next == c[k + 1] && c[k + 1].next == c[k + 2];
      elem.prev.next := elem.next;
      elem.next.prev := elem.prev;
      forall i: nat | i + 1 < |c| && i != k && i != k + 1 ensures LinkedAt(c, i) {
        assert old(c[i].next) == c[i + 1] && old(c[i + 1].prev) == c[i];
        Differ(c, i, k);
        Differ(c, i + 1, k + 2);
      }
      assert Chain(s[..k] + s[k + 1..]) == c[..k + 1] + c[k + 2..];
      RemoveNoDup(c, k);
      RemoveLinked(c, k);
    }

    /** list_pop */
    method Pop(ghost s: seq<ListElem>) returns (elem: ListElem)
      requires Holds(s) && s != []
      modifies head`next, At(s, 2)`prev
      ensures elem == s[0] && Holds(s[1..])
    {
      hide NoDup;
      assert Chain(s)[0].next == Chain(s)[1];
      elem := head.next;
      Remove(elem, s, 0);
      assert s[..0] + s[1..] == s[1..];
    }

    /** elem_find */
    method Find(obj: ListElem, ghost s: seq<ListElem>) returns (found: bool)
      requires Holds(s) && obj != tail
      ensures found <==> obj in s
    {
      ghost var c := Chain(s);
      ghost var i := 1;
      assert c[0].next == c[1];
      var elem := head.next;
      while elem != tail
        invariant 1 <= i <= |s| + 1 && elem == c[i]
        invariant obj !in s[..i - 1]
        decreases |s| + 1 - i
      {
        assert elem == s[i - 1];
        if elem == obj {
          return true;
        }
        assert c[i].next == c[i + 1];
        elem := elem.next;
        i := i + 1;
      }
      assert c[|s| + 1] == tail;
      return false;
    }

    /** list_len */
    method Len(ghost s: seq<ListElem>) returns (n: nat)
      requires Holds(s)
      ensures n == |s|
    {
      ghost var c := Chain(s);
      n := 0;
      assert c[0].next == c[1];
      var elem := head.next;
      while elem != tail
        invariant 0 <= n <= |s| && elem == c[n + 1]
        decreases |s| - n
      {
        assert c[n + 1].next == c[n + 2];
        n := n + 1;
        elem := elem.next;
      }
      assert c[|s| + 1] == tail;
    }

    /** list_empty */
    method Empty(ghost s: seq<ListElem>) returns (empty: bool)
      requires Holds(s)
      ensures empty <==> s == []
    {
      assert Chain(s)[0].next == Chain(s)[1] && Chain(s)[|s| + 1] == tail;
      empty := head.next == tail;
    }
  }

  ghost predicate Linked(c: seq<ListElem>)
    reads c
  {
    forall i :: 0 <= i < |c| - 1 ==> c[i].next == c[i + 1] && c[i + 1].prev == c[i]
  }

  ghost predicate LinkedAt(c: seq<ListElem>, i: nat)
    requires i + 1 < |c|
    reads c
  {
    c[i].next == c[i + 1] && c[i + 1].prev == c[i]
  }

  lemma Differ<T>(c: seq<T>, i: nat, j: nat)
    requires NoDup(c) && i < |c| && j < |c|
    ensures c[i] == c[j] <==> i == j
  {
    assert i < j || j < i || i == j;
  }

  lemma InsertNoDup<T>(c: seq<T>, k: nat, x: T)
    requires NoDup(c) && k <= |c| && x !in c
    ensures NoDup(c[..k] + [x] + c[k..])
  {
  }

  lemma RemoveNoDup<T>(c: seq<T>, k: nat)
    requires NoDup(c) && k + 2 <= |c|
    ensures NoDup(c[..k + 1] + c[k + 2..])
  {
  }

  /** The chain after an insertion: the new node is linked to its neighbours, and all other links are the old ones. */
  lemma InsertLinked(c: seq<ListElem>, k: nat, x: ListElem)
    requires k + 1 < |c| && forall i: nat :: i + 1 < |c| && i != k ==> LinkedAt(c, i)
    requires c[k].next == x && x.prev == c[k] && x.next == c[k + 1] && c[k + 1].prev == x
    ensures Linked(c[..k + 1] + [x] + c[k + 1..])
  {
    var d := c[..k + 1] + [x] + c[k + 1..];
    forall i | 0 <= i < |d| - 1 ensures d[i].next == d[i + 1] && d[i + 1].prev == d[i] {
      if i < k {
        assert LinkedAt(c, i);
      } else if i > k + 1 {
        assert LinkedAt(c, i - 1);
      }
    }
  }

  /** The chain after a removal: the two neighbours are linked to each other. */
  lemma RemoveLinked(c: seq<ListElem>, k: nat)
    requires k + 2 < |c| && forall i: nat :: i + 1 < |c| && i != k && i != k + 1 ==> LinkedAt(c, i)
    requires c[k].next == c[k + 2] && c[k + 2].prev == c[k]
    ensures Linked(c[..k + 1] + c[k + 2..])
  {
    var d := c[..k + 1] + c[k + 2..];
    forall i | 0 <= i < |d| - 1 ensures d[i].next == d[i + 1] && d[i + 1].prev == d[i] {
      if i < k {
        assert LinkedAt(c, i);
      } else if i > k {
        assert LinkedAt(c, i + 1);
      }
    }
  }
}
