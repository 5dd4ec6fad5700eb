/** active_list_sort of src/opkg/libopkg/active_list.c: a stable sort of a flat list in place. */
module ActiveSort {
  import opened Basics
  import opened IntrusiveList
  import opened ActiveList

  // --------------------------------------------------------------------------- what sorting is

  ghost predicate TotalPreorder(le: (nat, nat) -> bool) {
    && (forall a, b :: le(a, b) || le(b, a))
    && forall a, b, c :: le(a, b) && le(b, c) ==> le(a, c)
  }

  predicate PairAt(s: seq<nat>, a: nat, b: nat, i: nat, j: nat) { i < j < |s| && s[i] == a && s[j] == b }

  /** `a` comes before `b`. */
  ghost predicate Precedes(s: seq<nat>, a: nat, b: nat) { exists i, j :: PairAt(s, a, b, i, j) }

  /** `ys` has the nodes of `xs` in order, and those that compare equal as they were. */
  ghost predicate StablySorted(le: (nat, nat) -> bool, xs: seq<nat>, ys: seq<nat>) {
    && multiset(ys) == multiset(xs)
    && forall a, b :: Precedes(xs, a, b) ==> if le(a, b) then Precedes(ys, a, b) else Precedes(ys, b, a)
  }

  /** The list that is made on the way, from the last to the first. */
  ghost predicate Reversed(le: (nat, nat) -> bool, xs: seq<nat>, zs: seq<nat>) {
    && multiset(zs) == multiset(xs)
    && (forall i, j :: 0 <= i < j < |zs| ==> le(zs[j], zs[i]))
    && forall a, b :: Precedes(xs, a, b) ==> if le(a, b) then Precedes(zs, b, a) else Precedes(zs, a, b)
  }

  lemma PrecedesInsert(s: seq<nat>, k: nat, x: nat, a: nat, b: nat)
    requires k <= |s| && Precedes(s, a, b)
    ensures Precedes(Insert(s, k, x), a, b)
  {
    var i: nat, j: nat :| PairAt(s, a, b, i, j);
    assert PairAt(Insert(s, k, x), a, b, if i < k then i else i + 1, if j < k then j else j + 1);
  }

  /** Putting the next node before the first that is not above it. */
  lemma ReversedInsert(le: (nat, nat) -> bool, xs: seq<nat>, zs: seq<nat>, k: nat, x: nat)
    requires TotalPreorder(le) && Reversed(le, xs, zs) && k <= |zs|
    requires (forall i :: 0 <= i < k ==> !le(zs[i], x)) && (k < |zs| ==> le(zs[k], x))
    ensures Reversed(le, xs + [x], Insert(zs, k, x))
  {
    var zs', xs' := Insert(zs, k, x), xs + [x];
    assert zs == zs[..k] + zs[k..];
    DescendsInsert(le, zs, k, x);
    forall a, b | Precedes(xs', a, b)
      ensures if le(a, b) then Precedes(zs', b, a) else Precedes(zs', a, b)
    {
      var i: nat, j: nat :| PairAt(xs', a, b, i, j);
      if j < |xs| {
        assert PairAt(xs, a, b, i, j);
        if le(a, b) {
          PrecedesInsert(zs, k, x, b, a);
        } else {
          PrecedesInsert(zs, k, x, a, b);
        }
      } else {
        assert a in multiset(xs);
        Against(le, zs, k, x, a);
      }
    }
  }

  lemma DescendsInsert(le: (nat, nat) -> bool, zs: seq<nat>, k: nat, x: nat)
    requires TotalPreorder(le) && k <= |zs| && forall i, j :: 0 <= i < j < |zs| ==> le(zs[j], zs[i])
    requires (forall i :: 0 <= i < k ==> !le(zs[i], x)) && (k < |zs| ==> le(zs[k], x))
    ensures var zs' := Insert(zs, k, x); forall i, j :: 0 <= i < j < |zs'| ==> le(zs'[j], zs'[i])
  {
    var zs' := Insert(zs, k, x);
    forall i, j | 0 <= i < j < |zs'| ensures le(zs'[j], zs'[i]) {
      assert k < j ==> zs'[j] == zs[j - 1];
    }
  }

  /** The new node against one that is there. */
  lemma Against(le: (nat, nat) -> bool, zs: seq<nat>, k: nat, x: nat, a: nat)
    requires TotalPreorder(le) && k <= |zs| && a in multiset(zs)
    requires forall i, j :: 0 <= i < j < |zs| ==> le(zs[j], zs[i])
    requires (forall i :: 0 <= i < k ==> !le(zs[i], x)) && (k < |zs| ==> le(zs[k], x))
    ensures if le(a, x) then Precedes(Insert(zs, k, x), x, a) else Precedes(Insert(zs, k, x), a, x)
  {
    assert a in zs;
    var m :| 0 <= m < |zs| && zs[m] == a;
    if m < k {
      assert PairAt(Insert(zs, k, x), a, x, m, k);
    } else {
      assert m > k ==> le(zs[m], zs[k]);
      assert PairAt(Insert(zs, k, x), x, a, k, m + 1);
    }
  }

  function Reverse(s: seq<nat>): (r: seq<nat>)
    ensures |r| == |s|
  {
    seq(|s|, i requires 0 <= i < |s| => s[|s| - 1 - i])
  }

  lemma {:induction false} ReverseMultiset(s: seq<nat>)
    ensures multiset(Reverse(s)) == multiset(s)
  {
    if s != [] {
      var n := |s| - 1;
      assert Reverse(s) == [s[n]] + Reverse(s[..n]) && s == s[..n] + [s[n]];
      ReverseMultiset(s[..n]);
    }
  }

  lemma ReverseSorts(le: (nat, nat) -> bool, xs: seq<nat>, zs: seq<nat>)
    requires Reversed(le, xs, zs)
    ensures StablySorted(le, xs, Reverse(zs))
  {
    ReverseMultiset(zs);
    forall a, b | Precedes(xs, a, b)
      ensures if le(a, b) then Precedes(Reverse(zs), a, b) else Precedes(Reverse(zs), b, a)
    {
      if le(a, b) {
        PrecedesReverse(zs, b, a);
      } else {
        PrecedesReverse(zs, a, b);
      }
    }
  }

  lemma PrecedesReverse(zs: seq<nat>, a: nat, b: nat)
    requires Precedes(zs, a, b)
    ensures Precedes(Reverse(zs), b, a)
  {
    var i: nat, j: nat :| PairAt(zs, a, b, i, j);
    assert PairAt(Reverse(zs), b, a, |zs| - 1 - j, |zs| - 1 - i);
  }

  // ------------------------------------------------------------------------------ the sort

  /** The two lists of the sort: of all their nodes, `head` has `left` and `tmp` has `made`. */
  ghost predicate Sorting(m: Memory, head: nat, left: seq<nat>, tmp: nat, made: seq<nat>)
    reads m
  {
    && m.Flat(head, left) && m.Flat(tmp, made)
    && Disjoint(NodeOf(head), Addresses(left), NodeOf(tmp), Addresses(made))
  }

  lemma AddressesEdit(ids: seq<nat>, i: nat, a: nat)
    ensures i < |ids| ==> Addresses(ids)[i] == NodeOf(ids[i]) && Remove(Addresses(ids), i) == Addresses(Remove(ids, i))
    ensures i <= |ids| ==> Insert(Addresses(ids), i, NodeOf(a)) == Addresses(Insert(ids, i, a))
  {
  }

  lemma DependsApart(l: Links, l': Links, ids: seq<nat>)
    requires NoDepends(l, ids) && |l'.next| == |l.next| && |l'.prev| == |l.prev|
    requires forall a: nat :: l.Has(a) && a % 2 == 1 ==> l'.next[a] == l.next[a] && l'.prev[a] == l.prev[a]
    ensures NoDepends(l', ids)
  {
    forall x | x in ids ensures Ring(l', DependOf(x), []) {
      RingApart(l, l', DependOf(x), []);
    }
  }

  /** Move the node at place `i` of the list of `from` to place `j` of that of `to`, before `ptr`. */
  method MoveFlat(m: Memory, from: nat, ghost xs: seq<nat>, ghost i: nat, to: nat, ghost ys: seq<nat>, ghost j: nat,
                  node: nat, ptr: nat, owner: nat)
    requires Sorting(m, from, xs, to, ys) && i < |xs| && xs[i] == node && j <= |ys|
    requires ptr == if j < |ys| then ys[j] else to
    modifies m
    ensures Sorting(m, from, Remove(xs, i), to, Insert(ys, j, node))
    ensures |m.depended| == |old(m.depended)|
  {
    hide Ring, Remove, Insert;
    ghost var a, b, l := Addresses(xs), Addresses(ys), m.links;
    FlatAddresses(m, from, xs);
    FlatAddresses(m, to, ys);
    AddressesEdit(xs, i, node);
    AddressesEdit(ys, j, node);
    m.Move(node, NodeOf(ptr), owner, Movement(NodeOf(from), a, i, NodeOf(to), b, j));
    forall x: nat | l.Has(x) && x % 2 == 1
      ensures m.links.next[x] == l.next[x] && m.links.prev[x] == l.prev[x]
    {
      assert x !in a && x !in b;
    }
    DependsApart(l, m.links, xs);
    DependsApart(l, m.links, ys);
    MovedApart(from, xs, i, to, ys, j);
  }

  lemma FlatAddresses(m: Memory, head: nat, ids: seq<nat>)
    requires m.Flat(head, ids)
    ensures Distinct(Addresses(ids)) && NodeOf(head) !in Addresses(ids)
    ensures forall a :: a in Addresses(ids) ==> a % 2 == 0
    ensures forall x :: x in ids <==> NodeOf(x) in Addresses(ids)
  {
    forall x | x in ids ensures NodeOf(x) in Addresses(ids) {
      var i :| 0 <= i < |ids| && ids[i] == x;
      assert Addresses(ids)[i] == NodeOf(x);
    }
  }

  lemma MovedApart(from: nat, xs: seq<nat>, i: nat, to: nat, ys: seq<nat>, j: nat)
    requires Disjoint(NodeOf(from), Addresses(xs), NodeOf(to), Addresses(ys)) && i < |xs| && j <= |ys|
    requires Distinct(Addresses(xs)) && NodeOf(from) !in Addresses(xs)
    ensures Disjoint(NodeOf(from), Addresses(Remove(xs, i)), NodeOf(to), Addresses(Insert(ys, j, xs[i])))
    ensures forall x :: x in Remove(xs, i) ==> x in xs
    ensures forall x :: x in Insert(ys, j, xs[i]) ==> x in ys || x == xs[i]
  {
    var a, b := Addresses(Remove(xs, i)), Addresses(Insert(ys, j, xs[i]));
    assert NodeOf(xs[i]) == Addresses(xs)[i];
    forall x | x in a ensures x in Addresses(xs) && x != NodeOf(xs[i]) {
      var k :| 0 <= k < |a| && a[k] == x;
      assert x == Addresses(xs)[if k < i then k else k + 1];
    }
    forall x | x in b ensures x in Addresses(ys) || x == NodeOf(xs[i]) {
      var k :| 0 <= k < |b| && b[k] == x;
      assert k != j ==> x == Addresses(ys)[if k < j then k else k - 1];
    }
  }

  /** active_list_sort (lines 138-165); `tmp` is the number of its local head. */
  method Sort(m: Memory, head: nat, tmp: nat, le: (nat, nat) -> bool, ghost xs: seq<nat>) returns (ghost ys: seq<nat>)
    requires m.Flat(head, xs) && tmp < |m.depended| && tmp != head && tmp !in xs
    requires m.links.Has(NodeOf(tmp)) && m.links.Has(DependOf(tmp)) && TotalPreorder(le)
    modifies m
    ensures m.Flat(head, ys) && StablySorted(le, xs, ys)
  {
    InitTmp(m, head, tmp, xs);
    ghost var made := MakeReversed(m, head, tmp, le, xs);
    ys := MoveBack(m, head, tmp, made);
    ReverseSorts(le, xs, made);
  }

  /** active_list_init of the local head. */
  method InitTmp(m: Memory, head: nat, tmp: nat, ghost xs: seq<nat>)
    requires m.Flat(head, xs) && tmp < |m.depended| && tmp != head && tmp !in xs
    requires m.links.Has(NodeOf(tmp)) && m.links.Has(DependOf(tmp))
    modifies m
    ensures Sorting(m, head, xs, tmp, []) && |m.depended| == |old(m.depended)|
    ensures Ring(m.links, NodeOf(tmp), []) && Ring(m.links, DependOf(tmp), []) && m.depended[tmp].None?
  {
    ghost var l := m.links;
    m.links := InitHead(m.links, NodeOf(tmp));
    InitRing(l, NodeOf(tmp));
    ghost var l1 := m.links;
    m.links := InitHead(m.links, DependOf(tmp));
    InitRing(l1, DependOf(tmp));
    m.depended := m.depended[tmp := None];
    RingApart(l1, m.links, NodeOf(tmp), []);
    forall a: nat | Uses(NodeOf(head), Addresses(xs), a) && l.Has(a)
      ensures m.links.next[a] == l.next[a] && m.links.prev[a] == l.prev[a]
    {
    }
    RingApart(l, m.links, NodeOf(head), Addresses(xs));
    forall x | x in xs ensures Ring(m.links, DependOf(x), []) {
      RingApart(l, m.links, DependOf(x), []);
    }
  }

  /** The first loop (lines 144-160). */
  method MakeReversed(m: Memory, head: nat, tmp: nat, le: (nat, nat) -> bool, ghost xs: seq<nat>)
    returns (ghost made: seq<nat>)
    requires Sorting(m, head, xs, tmp, []) && TotalPreorder(le)
    modifies m
    ensures Sorting(m, head, [], tmp, made) && Reversed(le, xs, made) && |m.depended| == |old(m.depended)|
  {
    ghost var left, taken := xs, [];
    made := [];
    var node := m.NextFlat(head, None, left, 0);
    while node.Some?
      invariant Sorting(m, head, left, tmp, made) && xs == taken + left && Reversed(le, taken, made)
      invariant node == if left == [] then None else Some(left[0])
      invariant |m.depended| == |old(m.depended)|
      decreases |left|
    {
      var ptr;
      ghost var k;
      ptr, k := m.FindPlace(tmp, node.value, le, made);
      var before := if ptr.Some? then ptr.value else tmp;
      MoveFlat(m, head, left, 0, tmp, made, k, node.value, before, tmp);
      ReversedInsert(le, taken, made, k, node.value);
      made := Insert(made, k, node.value);
      taken := taken + [node.value];
      left := Remove(left, 0);
      node := m.NextFlat(head, None, left, 0);
    }
    assert taken == xs;
  }

  /** The second loop (lines 161-163): from the end of the one list to the end of the other. */
  method MoveBack(m: Memory, head: nat, tmp: nat, ghost made: seq<nat>) returns (ghost ys: seq<nat>)
    requires Sorting(m, head, [], tmp, made)
    modifies m
    ensures m.Flat(head, ys) && ys == Reverse(made)
  {
    ghost var left := made;
    ys := [];
    Ends(m.links, NodeOf(tmp), Addresses(left));
    var ptr := m.links.prev[NodeOf(tmp)];
    while ptr != NodeOf(tmp)
      invariant Sorting(m, tmp, left, head, ys) && Reverse(made) == ys + Reverse(left)
      invariant ptr == At(NodeOf(tmp), Addresses(left), |left|)
      decreases |left|
    {
      ghost var i := |left| - 1;
      MoveFlat(m, tmp, left, i, head, ys, |ys|, ptr / 2, head, head);
      assert Reverse(left) == [left[i]] + Reverse(left[..i]);
      assert Insert(ys, |ys|, left[i]) == ys + [left[i]] && Remove(left, i) == left[..i];
      ys := Insert(ys, |ys|, left[i]);
      left := Remove(left, i);
      Ends(m.links, NodeOf(tmp), Addresses(left));
      ptr := m.links.prev[NodeOf(tmp)];
    }
    assert Reverse([]) == [];
    assert left == [];
  }
}
