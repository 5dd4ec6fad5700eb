/** src/opkg/libopkg/active_list.c: lists whose nodes have lists of what they depend on, walked in
    post-order and sorted by insertion. */
module ActiveList {
  import opened Basics
  import opened IntrusiveList

  /** The two list heads in struct active_list number `i`; list_entry of the former is `a / 2`. */
  function NodeOf(i: nat): nat { 2 * i }

  function DependOf(i: nat): nat { 2 * i + 1 }

  datatype Tree = Node(id: nat, kids: seq<Tree>)

  function Roots(ts: seq<Tree>): (r: seq<nat>)
    ensures |r| == |ts|
  {
    seq(|ts|, i requires 0 <= i < |ts| => NodeOf(ts[i].id))
  }

  /** The list at `h` has these trees; each node that another depends on says which. */
  ghost predicate Forest(l: Links, depended: seq<Option<nat>>, h: nat, owner: Option<nat>, ts: seq<Tree>)
    decreases ts
  {
    && Ring(l, h, Roots(ts))
    && forall i :: 0 <= i < |ts| ==>
         && ts[i].id < |depended| && (owner.Some? ==> depended[ts[i].id] == owner)
         && Forest(l, depended, DependOf(ts[i].id), Some(ts[i].id), ts[i].kids)
  }

  /** Dependencies first. */
  function PostOrder(ts: seq<Tree>): seq<nat>
    decreases ts
  {
    if ts == [] then [] else PostOrder(ts[0].kids) + [ts[0].id] + PostOrder(ts[1..])
  }

  /** The first node of a tree in post-order. */
  function First(t: Tree): nat
    decreases t
  {
    if t.kids == [] then t.id else First(t.kids[0])
  }

  lemma {:induction false} FirstOfOrder(ts: seq<Tree>)
    requires ts != []
    ensures PostOrder(ts) != [] && PostOrder(ts)[0] == First(ts[0])
    decreases ts
  {
    if ts[0].kids != [] {
      FirstOfOrder(ts[0].kids);
    }
  }

  lemma RootInOrder(ts: seq<Tree>)
    requires ts != []
    ensures ts[0].id in PostOrder(ts)
  {
  }

  lemma {:induction false} RootsInOrder(ts: seq<Tree>, j: nat)
    requires j <= |ts|
    ensures forall k :: j <= k < |ts| ==> ts[k].id in PostOrder(ts[j..])
    decreases |ts| - j
  {
    if j < |ts| {
      assert ts[j..][1..] == ts[j + 1..];
      RootsInOrder(ts, j + 1);
    }
  }

  /** What comes after place `i` of an order that `exit` follows. */
  function Following(order: seq<nat>, i: nat, exit: Option<nat>): Option<nat>
    requires i < |order|
  {
    if i + 1 < |order| then Some(order[i + 1]) else exit
  }

  /** The list that a node is in: at the top, or of what another node depends on. */
  datatype Place = Place(h: nat, exit: Option<nat>, ts: seq<Tree>, j: nat)

  ghost predicate PlaceOf(l: Links, depended: seq<Option<nat>>, p: nat, at: Place) {
    && at.j < |at.ts| && at.ts[at.j].id == p
    && (at.exit.Some? ==> at.h == DependOf(at.exit.value))
    && exists owner :: Forest(l, depended, at.h, owner, at.ts) && (at.exit.Some? ==> owner == at.exit)
  }

  function NextRoot(at: Place): Option<nat>
    requires at.j < |at.ts|
  {
    if at.j + 1 < |at.ts| then Some(First(at.ts[at.j + 1])) else at.exit
  }

  /** Where the node at place `i` of the post-order is, and what comes next. */
  lemma {:induction false} Locate(l: Links, depended: seq<Option<nat>>, h: nat, exit: Option<nat>, ts: seq<Tree>,
                                  j: nat, i: nat)
    returns (at: Place)
    requires Forest(l, depended, h, exit, ts) && j <= |ts| && (exit.Some? ==> h == DependOf(exit.value))
    requires i < |PostOrder(ts[j..])|
    ensures PlaceOf(l, depended, PostOrder(ts[j..])[i], at)
    ensures at.exit.None? ==> exit.None? && at.h == h
    ensures NextRoot(at) == Following(PostOrder(ts[j..]), i, exit)
    ensures forall k :: at.j <= k < |at.ts| ==> at.ts[k].id in PostOrder(ts[j..])
    decreases ts, |ts| - j
  {
    var rest, t := ts[j..], ts[j];
    var inner, later := PostOrder(t.kids), PostOrder(rest[1..]);
    assert rest[1..] == ts[j + 1..];
    assert PostOrder(rest) == inner + [t.id] + later;
    if i < |inner| {
      assert t.kids[0..] == t.kids;
      at := Locate(l, depended, DependOf(t.id), Some(t.id), t.kids, 0, i);
    } else if i == |inner| {
      at := Place(h, exit, ts, j);
      RootsInOrder(ts, j);
      if j + 1 < |ts| {
        FirstOfOrder(ts[j + 1..]);
      }
    } else {
      at := Locate(l, depended, h, exit, ts, j + 1, i - |inner| - 1);
    }
  }

  // ---------------------------------------------------------------------------- once each

  /** The memory says which trees are in a list. */
  lemma {:induction false} SameTrees(l: Links, depended: seq<Option<nat>>, h: nat, o: Option<nat>, ts: seq<Tree>,
                                     o': Option<nat>, us: seq<Tree>)
    requires Forest(l, depended, h, o, ts) && Forest(l, depended, h, o', us)
    ensures ts == us
    decreases ts
  {
    SameMembers(l, h, Roots(ts), Roots(us), 0);
    forall i | 0 <= i < |ts| ensures ts[i] == us[i] {
      assert Roots(ts)[i] == Roots(us)[i];
      SameTrees(l, depended, DependOf(ts[i].id), Some(ts[i].id), ts[i].kids, Some(us[i].id), us[i].kids);
    }
  }

  /** No address in the list from the place on is the head of a list. */
  ghost predicate Inside(head: nat, at: Place) {
    && (if at.exit.Some? then at.h == DependOf(at.exit.value) else at.h == NodeOf(head))
    && forall k :: at.j <= k < |at.ts| ==> at.ts[k].id != head
  }

  /** The memory says what follows a node. */
  lemma SameNext(l: Links, depended: seq<Option<nat>>, head: nat, p: nat, at: Place, at': Place)
    requires PlaceOf(l, depended, p, at) && PlaceOf(l, depended, p, at') && Inside(head, at) && Inside(head, at')
    ensures NextRoot(at) == NextRoot(at')
  {
    var o :| Forest(l, depended, at.h, o, at.ts) && (at.exit.Some? ==> o == at.exit);
    var o' :| Forest(l, depended, at'.h, o', at'.ts) && (at'.exit.Some? ==> o' == at'.exit);
    hide Forest;
    SameList(l, at.h, Roots(at.ts), at.j, at'.h, Roots(at'.ts), at'.j);
    SameTrees(l, depended, at.h, o, at.ts, o', at'.ts);
  }

  /** Two places of the order have the same node only when the same nodes follow, and that ends. */
  lemma {:induction false} NotTwice(l: Links, depended: seq<Option<nat>>, head: nat, ts: seq<Tree>, i: nat, j: nat)
    requires Forest(l, depended, NodeOf(head), None, ts) && head !in PostOrder(ts) && i < j < |PostOrder(ts)|
    ensures PostOrder(ts)[i] != PostOrder(ts)[j]
    decreases |PostOrder(ts)| - j
  {
    var order := PostOrder(ts);
    if order[i] == order[j] {
      assert ts[0..] == ts;
      var a := Locate(l, depended, NodeOf(head), None, ts, 0, i);
      var b := Locate(l, depended, NodeOf(head), None, ts, 0, j);
      SameNext(l, depended, head, order[i], a, b);
      assert Following(order, i, None) == Following(order, j, None);
      if j + 1 < |order| {
        NotTwice(l, depended, head, ts, i + 1, j + 1);
      }
    }
  }

  /** A node is in one place of a forest only. */
  lemma OnceEach(l: Links, depended: seq<Option<nat>>, head: nat, ts: seq<Tree>)
    requires Forest(l, depended, NodeOf(head), None, ts) && head !in PostOrder(ts)
    ensures Distinct(PostOrder(ts))
  {
    forall i, j | 0 <= i < j < |PostOrder(ts)| ensures PostOrder(ts)[i] != PostOrder(ts)[j] {
      NotTwice(l, depended, head, ts, i, j);
    }
  }

  ghost predicate Later(order: seq<nat>, i: nat, x: nat) { exists k :: i < k < |order| && order[k] == x }

  lemma LaterIn(order: seq<nat>, i: nat, x: nat, before: seq<nat>, after: seq<nat>)
    requires Later(order, i, x)
    ensures Later(before + order + after, |before| + i, x)
  {
    var k :| i < k < |order| && order[k] == x;
    assert (before + order + after)[|before| + k] == x;
  }

  /** Each node is in the list of `h`, or in the list of what a node depends on that comes later. */
  lemma {:induction false} DependentLater(l: Links, depended: seq<Option<nat>>, h: nat, owner: Option<nat>,
                                          ts: seq<Tree>, j: nat, i: nat)
    returns (at: Place)
    requires Forest(l, depended, h, owner, ts) && (owner.Some? ==> h == DependOf(owner.value)) && j <= |ts|
    requires i < |PostOrder(ts[j..])|
    ensures PlaceOf(l, depended, PostOrder(ts[j..])[i], at)
    ensures at.h != h ==> at.exit.Some? && Later(PostOrder(ts[j..]), i, at.exit.value)
    decreases ts, |ts| - j
  {
    var rest, t := ts[j..], ts[j];
    var inner, later := PostOrder(t.kids), PostOrder(rest[1..]);
    assert rest[1..] == ts[j + 1..];
    assert PostOrder(rest) == inner + ([t.id] + later) == (inner + [t.id]) + later + [];
    if i < |inner| {
      assert t.kids[0..] == t.kids;
      at := DependentLater(l, depended, DependOf(t.id), Some(t.id), t.kids, 0, i);
      if at.h == DependOf(t.id) {
        var o :| Forest(l, depended, at.h, o, at.ts) && (at.exit.Some? ==> o == at.exit);
        at := at.(exit := Some(t.id));
        assert PlaceOf(l, depended, inner[i], at) by {
          SameTrees(l, depended, at.h, o, at.ts, Some(t.id), t.kids);
        }
        assert PostOrder(rest)[|inner|] == t.id;
      } else {
        LaterIn(inner, i, at.exit.value, [], [t.id] + later);
        assert [] + inner + ([t.id] + later) == PostOrder(rest);
      }
    } else if i == |inner| {
      at := Place(h, owner, ts, j);
    } else {
      var n := i - |inner| - 1;
      at := DependentLater(l, depended, h, owner, ts, j + 1, n);
      if at.h != h {
        LaterIn(later, n, at.exit.value, inner + [t.id], []);
      }
    }
  }

  // ---------------------------------------------------------------------------- the memory

  /** The links of all nodes, and their fields `depended`. */
  class Memory {
    var links: Links
    var depended: seq<Option<nat>>

    /** The descent to the first leaf (lines 49-51). */
    method Descend(start: nat, ghost t: Tree) returns (r: nat)
      requires start == t.id < |depended|
      requires Forest(links, depended, DependOf(t.id), Some(t.id), t.kids)
      ensures r == First(t)
    {
      ghost var u := t;
      r := start;
      Ends(links, DependOf(r), Roots(u.kids));
      while links.next[DependOf(r)] != DependOf(r)
        invariant r == u.id < |depended| && First(t) == First(u)
        invariant Forest(links, depended, DependOf(u.id), Some(u.id), u.kids)
        invariant links.Has(DependOf(r)) && links.next[DependOf(r)] == At(DependOf(r), Roots(u.kids), 1)
        decreases u
      {
        r := links.next[DependOf(r)] / 2;
        u := u.kids[0];
        Ends(links, DependOf(r), Roots(u.kids));
      }
    }

    /** active_list_next (lines 34-53): from nothing to the first node, from each to the next. */
    method Next(head: nat, ptr: Option<nat>, ghost ts: seq<Tree>, ghost i: nat) returns (r: Option<nat>)
      requires Forest(links, depended, NodeOf(head), None, ts) && head !in PostOrder(ts) && head < |depended|
      requires ptr.Some? ==> i < |PostOrder(ts)| && PostOrder(ts)[i] == ptr.value
      ensures r == if ptr.Some? then Following(PostOrder(ts), i, None)
                   else if ts == [] then None else Some(PostOrder(ts)[0])
    {
      var p := if ptr.Some? then ptr.value else head;
      ghost var at;
      if ptr.Some? {
        assert ts[0..] == ts;
        at := Locate(links, depended, NodeOf(head), None, ts, 0, i);
        NextLink(links, depended, p, at);
      } else {
        Ends(links, NodeOf(head), Roots(ts));
        if ts != [] {
          FirstOfOrder(ts);
          RootInOrder(ts);
        }
      }
      var next := links.next[NodeOf(p)];
      if next == NodeOf(head) {
        return None;
      }
      if depended[p].Some? && DependOf(depended[p].value) == next {
        return depended[p];
      }
      var first := Descend(next / 2, if ptr.Some? then at.ts[at.j + 1] else ts[0]);
      return Some(first);
    }

    /** Walking with active_list_next meets every node once, dependencies first, and ends. */
    method Walk(head: nat, ghost ts: seq<Tree>) returns (visited: seq<nat>)
      requires Forest(links, depended, NodeOf(head), None, ts) && head !in PostOrder(ts) && head < |depended|
      ensures visited == PostOrder(ts) && Distinct(visited)
    {
      OnceEach(links, depended, head, ts);
      visited := [];
      var p := Next(head, None, ts, 0);
      if ts != [] {
        FirstOfOrder(ts);
      }
      while p.Some?
        invariant |visited| <= |PostOrder(ts)| && visited == PostOrder(ts)[..|visited|]
        invariant p == if |visited| < |PostOrder(ts)| then Some(PostOrder(ts)[|visited|]) else None
        decreases |PostOrder(ts)| - |visited|
      {
        ghost var i := |visited|;
        visited := visited + [p.value];
        p := Next(head, p, ts, i);
      }
    }

    /** active_list_add and active_list_add_depend (lines 110-120): take a node out of the list it is in and
        put it before the address `pos`: a head, or another member. */
    method Move(node: nat, pos: nat, owner: nat, ghost m: Movement)
      requires node < |depended| && m.Possible(links, NodeOf(node)) && pos == At(m.to, m.ys, m.j + 1)
      modifies this
      ensures depended == old(depended)[node := Some(owner)]
      ensures (m.xs != [] ==> Ring(links, m.from, m.Left())) && Ring(links, m.to, Insert(m.ys, m.j, NodeOf(node)))
      ensures |links.next| == |old(links).next| && |links.prev| == |old(links).prev|
      ensures forall a: nat :: old(links).Has(a) && !m.Touches(NodeOf(node), a) ==>
                links.next[a] == old(links).next[a] && links.prev[a] == old(links).prev[a]
    {
      MoveRings(links, NodeOf(node), m);
      links := DelInit(links, NodeOf(node));
      links := AddTail(links, NodeOf(node), pos);
      depended := depended[node := Some(owner)];
    }

    /** The list of `head` has these nodes, on which nothing depends. */
    ghost predicate Flat(head: nat, ids: seq<nat>)
      reads this
    {
      && Ring(links, NodeOf(head), Addresses(ids)) && NoDepends(links, ids) && head < |depended|
      && head !in ids && forall x :: x in ids ==> x < |depended|
    }

    /** The first node, or the next, of a flat list. */
    method NextFlat(head: nat, ptr: Option<nat>, ghost ids: seq<nat>, ghost i: nat) returns (r: Option<nat>)
      requires Flat(head, ids) && (ptr.Some? ==> i < |ids| && ids[i] == ptr.value)
      ensures ptr.Some? ==> r == if i + 1 < |ids| then Some(ids[i + 1]) else None
      ensures ptr.None? ==> r == if ids == [] then None else Some(ids[0])
    {
      LeavesForest(links, depended, NodeOf(head), ids);
      LeavesOrder(ids);
      r := Next(head, ptr, Leaves(ids), i);
    }

    /** Where to put a node in the sorted list: before the first that is not above it (lines 148-152). */
    method FindPlace(tmp: nat, node: nat, le: (nat, nat) -> bool, ghost ids: seq<nat>)
      returns (ptr: Option<nat>, ghost k: nat)
      requires Flat(tmp, ids)
      ensures k <= |ids| && ptr == (if k < |ids| then Some(ids[k]) else None)
      ensures forall i :: 0 <= i < k ==> !le(ids[i], node)
      ensures k < |ids| ==> le(ids[k], node)
    {
      ptr := NextFlat(tmp, None, ids, 0);
      k := 0;
      while ptr.Some? && !le(ptr.value, node)
        invariant k <= |ids| && ptr == if k < |ids| then Some(ids[k]) else None
        invariant forall i :: 0 <= i < k ==> !le(ids[i], node)
        decreases |ids| - k
      {
        ptr := NextFlat(tmp, ptr, ids, k);
        k := k + 1;
      }
    }
  }

  /** A node's way from place `i` of list `from`, or from no list when that is its own, to before place
      `j + 1` of list `to`. */
  datatype Movement = Movement(from: nat, xs: seq<nat>, i: nat, to: nat, ys: seq<nat>, j: nat) {
    ghost predicate Possible(l: Links, a: nat) {
      && Ring(l, from, xs) && (if xs == [] then from == a else i < |xs| && xs[i] == a)
      && Ring(l, to, ys) && j <= |ys| && Disjoint(from, xs, to, ys)
    }

    function Left(): seq<nat> { if i < |xs| then Remove(xs, i) else [] }

    /** Addresses with links that may change. */
    predicate Touches(a: nat, b: nat) { Uses(from, xs, b) || Uses(to, ys, b) || b == a }
  }

  predicate Disjoint(h: nat, xs: seq<nat>, g: nat, ys: seq<nat>) {
    h != g && h !in ys && g !in xs && forall a :: a in xs ==> a !in ys
  }

  lemma MoveRings(l: Links, a: nat, m: Movement)
    requires m.Possible(l, a)
    ensures var p := At(m.to, m.ys, m.j + 1);
            && l.Has(a) && l.Has(l.prev[a]) && l.Has(l.next[a])
            && var l1 := DelInit(l, a);
            && l1.Has(a) && l1.Has(p) && l1.Has(l1.prev[p])
            && var l2 := AddTail(l1, a, p);
            && (m.xs != [] ==> Ring(l2, m.from, m.Left())) && Ring(l2, m.to, Insert(m.ys, m.j, a))
            && |l2.next| == |l.next| && |l2.prev| == |l.prev|
            && forall b: nat :: l.Has(b) && !m.Touches(a, b) ==> l2.next[b] == l.next[b] && l2.prev[b] == l.prev[b]
  {
    hide Ring;
    var p := At(m.to, m.ys, m.j + 1);
    Taken(l, a, m);
    var l1 := DelInit(l, a);
    RingApart(l, l1, m.to, m.ys);
    AddRing(l1, m.to, m.ys, m.j, a);
    var l2 := AddTail(l1, a, p);
    PutIn(l1, a, m);
    if m.xs != [] {
      NotLeft(l, a, m);
      RingApart(l1, l2, m.from, m.Left());
    }
  }

  lemma NotLeft(l: Links, a: nat, m: Movement)
    requires m.Possible(l, a) && m.xs != []
    ensures !Uses(m.from, m.Left(), a)
    ensures forall b :: Uses(m.from, m.Left(), b) ==> !Uses(m.to, m.ys, b)
  {
  }

  /** What taking the node out touches. */
  lemma Taken(l: Links, a: nat, m: Movement)
    requires m.Possible(l, a)
    ensures l.Has(a) && l.Has(l.prev[a]) && l.Has(l.next[a]) && a != m.to && a !in m.ys
    ensures var l1 := DelInit(l, a);
            && (m.xs != [] ==> Ring(l1, m.from, m.Left())) && (m.xs == [] ==> l1 == l)
            && |l1.next| == |l.next| && |l1.prev| == |l.prev|
            && forall b: nat :: l.Has(b) && !Uses(m.from, m.xs, b) ==>
                 l1.next[b] == l.next[b] && l1.prev[b] == l.prev[b]
  {
    if m.xs == [] {
      Ends(l, m.from, m.xs);
      assert l.next[a := a] == l.next && l.prev[a := a] == l.prev;
    } else {
      DelRing(l, m.from, m.xs, m.i);
      Neighbours(l, m.from, m.xs, m.i);
    }
  }

  lemma PutIn(l: Links, a: nat, m: Movement)
    requires Ring(l, m.to, m.ys) && m.j <= |m.ys| && l.Has(a)
    ensures var p := At(m.to, m.ys, m.j + 1);
            && l.Has(p) && l.Has(l.prev[p])
            && var l2 := AddTail(l, a, p);
            forall b: nat :: l.Has(b) && !Uses(m.to, m.ys, b) && b != a ==>
              l2.next[b] == l.next[b] && l2.prev[b] == l.prev[b]
  {
    assert Joined(l, m.to, m.ys, m.j);
  }

  // ------------------------------------------------------------------------------ flat lists

  function Addresses(ids: seq<nat>): (r: seq<nat>)
    ensures |r| == |ids|
  {
    seq(|ids|, i requires 0 <= i < |ids| => NodeOf(ids[i]))
  }

  ghost predicate NoDepends(l: Links, ids: seq<nat>) {
    forall x :: x in ids ==> Ring(l, DependOf(x), [])
  }

  function Leaves(ids: seq<nat>): (r: seq<Tree>)
    ensures |r| == |ids|
  {
    seq(|ids|, i requires 0 <= i < |ids| => Node(ids[i], []))
  }

  lemma LeavesForest(l: Links, depended: seq<Option<nat>>, h: nat, ids: seq<nat>)
    requires Ring(l, h, Addresses(ids)) && NoDepends(l, ids)
    requires forall x :: x in ids ==> x < |depended|
    ensures Forest(l, depended, h, None, Leaves(ids))
  {
    assert Roots(Leaves(ids)) == Addresses(ids);
    assert Roots([]) == [];
    forall i | 0 <= i < |ids|
      ensures ids[i] < |depended| && Forest(l, depended, DependOf(ids[i]), Some(ids[i]), [])
    {
      assert ids[i] in ids;
    }
  }

  lemma {:induction false} LeavesOrder(ids: seq<nat>)
    ensures PostOrder(Leaves(ids)) == ids
  {
    if ids != [] {
      assert Leaves(ids)[1..] == Leaves(ids[1..]);
      LeavesOrder(ids[1..]);
    }
  }

  /** The link from a node: to the next of its list, or back to its head. */
  lemma NextLink(l: Links, depended: seq<Option<nat>>, p: nat, at: Place)
    requires PlaceOf(l, depended, p, at)
    ensures l.Has(NodeOf(p)) && p < |depended| && (at.exit.Some? ==> depended[p] == at.exit)
    ensures l.next[NodeOf(p)] == if at.j + 1 < |at.ts| then NodeOf(at.ts[at.j + 1].id) else at.h
    ensures at.j + 1 < |at.ts| ==>
              && at.ts[at.j + 1].id < |depended|
              && Forest(l, depended, DependOf(at.ts[at.j + 1].id), Some(at.ts[at.j + 1].id), at.ts[at.j + 1].kids)
  {
    Neighbours(l, at.h, Roots(at.ts), at.j);
  }
}
