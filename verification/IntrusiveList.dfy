/** The circular doubly linked lists of src/opkg/libopkg/list.h.  A list_head is an address; `next` and
    `prev` are the memory that its two pointers are in. */
module IntrusiveList {
  import opened Basics

  datatype Links = Links(next: seq<nat>, prev: seq<nat>) {
    predicate Has(a: nat) { a < |next| && a < |prev| }
  }

  /** Once around: place 0 is the head, then come the members, and then the head again. */
  function At(h: nat, xs: seq<nat>, i: nat): nat
    requires i <= |xs| + 1
  {
    if i == 0 || i == |xs| + 1 then h else xs[i - 1]
  }

  predicate Members(l: Links, h: nat, xs: seq<nat>) {
    l.Has(h) && Distinct(xs) && forall i :: 0 <= i < |xs| ==> l.Has(xs[i]) && xs[i] != h
  }

  /** The links from place `i` to the next and back. */
  predicate Joined(l: Links, h: nat, xs: seq<nat>, i: nat)
    requires Members(l, h, xs) && i <= |xs|
  {
    l.next[At(h, xs, i)] == At(h, xs, i + 1) && l.prev[At(h, xs, i + 1)] == At(h, xs, i)
  }

  /** The list with head `h` has the members `xs`, and every link of it is right. */
  predicate Ring(l: Links, h: nat, xs: seq<nat>) {
    Members(l, h, xs) && forall i :: 0 <= i <= |xs| ==> Joined(l, h, xs, i)
  }

  /** INIT_LIST_HEAD (lines 35-37). */
  function InitHead(l: Links, a: nat): Links
    requires l.Has(a)
  {
    Links(l.next[a := a], l.prev[a := a])
  }

  /** __list_add (lines 39-46). */
  function ListAdd(l: Links, item: nat, prev: nat, next: nat): Links
    requires l.Has(item) && l.Has(prev) && l.Has(next)
  {
    Links(l.next[item := next][prev := item], l.prev[next := item][item := prev])
  }

  /** list_add_tail (lines 68-70): before `head`, which may be any member. */
  function AddTail(l: Links, item: nat, head: nat): Links
    requires l.Has(item) && l.Has(head) && l.Has(l.prev[head])
  {
    ListAdd(l, item, l.prev[head], head)
  }

  /** __list_del and list_del_init (lines 80-83, 101-104). */
  function DelInit(l: Links, a: nat): Links
    requires l.Has(a) && l.Has(l.prev[a]) && l.Has(l.next[a])
  {
    InitHead(Links(l.next[l.prev[a] := l.next[a]], l.prev[l.next[a] := l.prev[a]]), a)
  }

  // ---------------------------------------------------------------------------- what they do

  lemma InitRing(l: Links, a: nat)
    requires l.Has(a)
    ensures Ring(InitHead(l, a), a, [])
  {
  }

  /** A member's neighbours. */
  lemma Neighbours(l: Links, h: nat, xs: seq<nat>, i: nat)
    requires Ring(l, h, xs) && i < |xs|
    ensures l.Has(xs[i]) && l.prev[xs[i]] == At(h, xs, i) && l.next[xs[i]] == At(h, xs, i + 2)
    ensures l.Has(At(h, xs, i)) && l.Has(At(h, xs, i + 2))
  {
    assert Joined(l, h, xs, i) && Joined(l, h, xs, i + 1);
  }

  lemma Ends(l: Links, h: nat, xs: seq<nat>)
    requires Ring(l, h, xs)
    ensures l.Has(h) && l.next[h] == At(h, xs, 1) && l.prev[h] == At(h, xs, |xs|)
    ensures l.Has(At(h, xs, 1)) && l.Has(At(h, xs, |xs|))
  {
    assert Joined(l, h, xs, 0) && Joined(l, h, xs, |xs|);
  }

  /** Places that are not the same have different addresses, but for the two of the head. */
  lemma Different(l: Links, h: nat, xs: seq<nat>, i: nat, j: nat)
    requires Members(l, h, xs) && i <= |xs| + 1 && 0 < j <= |xs| && i != j
    ensures At(h, xs, i) != At(h, xs, j)
  {
  }

  function Remove(xs: seq<nat>, i: nat): seq<nat>
    requires i < |xs|
  {
    xs[..i] + xs[i + 1..]
  }

  function Insert(xs: seq<nat>, i: nat, a: nat): seq<nat>
    requires i <= |xs|
  {
    xs[..i] + [a] + xs[i..]
  }

  /** Taking out a member leaves the others in a list, and it by itself. */
  lemma DelRing(l: Links, h: nat, xs: seq<nat>, i: nat)
    requires Ring(l, h, xs) && i < |xs|
    ensures l.Has(xs[i]) && l.Has(l.prev[xs[i]]) && l.Has(l.next[xs[i]])
    ensures Ring(DelInit(l, xs[i]), h, Remove(xs, i)) && Ring(DelInit(l, xs[i]), xs[i], [])
  {
    Neighbours(l, h, xs, i);
    var l', ys := DelInit(l, xs[i]), Remove(xs, i);
    forall k: nat | k <= |ys| ensures Joined(l', h, ys, k) {
      var m := if k <= i then k else k + 1;
      assert Joined(l, h, xs, m);
      Different(l, h, xs, m, i + 1);
      if m != i {
        Different(l, h, xs, m + 1, i + 1);
        AddApart(l, h, xs, i, m);
        AddApart(l, h, xs, i + 1, m);
      }
    }
  }

  /** Putting an item before the member at place `i + 1`, or before the head at the end. */
  lemma AddRing(l: Links, h: nat, xs: seq<nat>, i: nat, a: nat)
    requires Ring(l, h, xs) && i <= |xs| && l.Has(a) && a != h && a !in xs
    ensures l.Has(At(h, xs, i + 1)) && l.Has(l.prev[At(h, xs, i + 1)])
    ensures Ring(AddTail(l, a, At(h, xs, i + 1)), h, Insert(xs, i, a))
  {
    assert Joined(l, h, xs, i);
    var l', ys := AddTail(l, a, At(h, xs, i + 1)), Insert(xs, i, a);
    forall k: nat | k <= |ys| ensures Joined(l', h, ys, k) {
      if k < i {
        assert Joined(l, h, xs, k);
        AddApart(l, h, xs, i, k);
      } else if k > i + 1 {
        assert Joined(l, h, xs, k - 1);
        AddApart(l, h, xs, i, k - 1);
      }
    }
  }

  lemma AddApart(l: Links, h: nat, xs: seq<nat>, i: nat, k: nat)
    requires Members(l, h, xs) && i <= |xs| && k <= |xs| && k != i
    ensures At(h, xs, k) != At(h, xs, i) && At(h, xs, k + 1) != At(h, xs, i + 1)
  {
  }

  /** Addresses that a list has to do with. */
  predicate Uses(h: nat, xs: seq<nat>, a: nat) { a == h || a in xs }

  /** A list is not changed by changes elsewhere. */
  lemma RingApart(l: Links, l': Links, h: nat, xs: seq<nat>)
    requires Ring(l, h, xs) && |l'.next| == |l.next| && |l'.prev| == |l.prev|
    requires forall a: nat :: Uses(h, xs, a) && l.Has(a) ==> l'.next[a] == l.next[a] && l'.prev[a] == l.prev[a]
    ensures Ring(l', h, xs)
  {
    forall i: nat | i <= |xs| ensures Joined(l', h, xs, i) {
      assert Joined(l, h, xs, i);
      assert Uses(h, xs, At(h, xs, i)) && Uses(h, xs, At(h, xs, i + 1));
    }
  }

  /** The links say which members a list has. */
  lemma {:induction false} SameMembers(l: Links, h: nat, xs: seq<nat>, ys: seq<nat>, k: nat)
    requires Ring(l, h, xs) && Ring(l, h, ys) && k <= |xs| && k <= |ys| && xs[..k] == ys[..k]
    ensures xs == ys
    decreases |xs| - k
  {
    assert Joined(l, h, xs, k) && Joined(l, h, ys, k);
    assert k > 0 ==> xs[k - 1] == xs[..k][k - 1] == ys[k - 1];
    assert At(h, xs, k + 1) == At(h, ys, k + 1);
    if k < |xs| && k < |ys| {
      assert xs[..k + 1] == xs[..k] + [xs[k]] && ys[..k + 1] == ys[..k] + [ys[k]];
      SameMembers(l, h, xs, ys, k + 1);
    }
  }

  /** A member of two lists is followed by the same members and the same head, when no head is among them. */
  lemma {:induction false} SameList(l: Links, h: nat, xs: seq<nat>, i: nat, h': nat, ys: seq<nat>, j: nat)
    requires Ring(l, h, xs) && Ring(l, h', ys) && i < |xs| && j < |ys| && xs[i] == ys[j]
    requires h !in ys[j..] && h' !in xs[i..]
    ensures h == h' && |xs| - i == |ys| - j && (i + 1 < |xs| ==> xs[i + 1] == ys[j + 1])
    decreases |xs| - i
  {
    Neighbours(l, h, xs, i);
    Neighbours(l, h', ys, j);
    assert i + 1 < |xs| ==> xs[i + 1] == xs[i..][1];
    assert j + 1 < |ys| ==> ys[j + 1] == ys[j..][1];
    if i + 1 < |xs| && j + 1 < |ys| {
      assert xs[i + 1..] == xs[i..][1..] && ys[j + 1..] == ys[j..][1..];
      SameList(l, h, xs, i + 1, h', ys, j + 1);
    }
  }
}
