/** The order in which src/opkg/libopkg/opkg_cmd.c configures packages: depth first, dependencies before
    dependents, on graphs that may have cycles. */
module PackageOrder {
  import opened Basics

  /** A package: whether it is installed or unpacked, and for every possibility of every dependency the
      names of the packages that provide it. */
  datatype Package = Package(name: string, live: bool, depends: seq<seq<seq<string>>>)

  // ------------------------------------------------------------------------------ the graph

  /** Package `w` is the first live one with this name. */
  predicate FirstLive(all: seq<Package>, name: string, w: nat) {
    w < |all| && all[w].live && all[w].name == name && NoneLive(all, name, w)
  }

  /** No live package below `n` has the name. */
  predicate NoneLive(all: seq<Package>, name: string, n: nat)
    requires n <= |all|
  {
    forall i :: 0 <= i < n ==> !(all[i].live && all[i].name == name)
  }

  /** Package `w` is the one that is taken for a possibility with these providers: the first live package of the
      first name that is that of a live package. */
  predicate Provides(all: seq<Package>, names: seq<string>, w: nat) {
    exists l :: 0 <= l < |names| && FirstLive(all, names[l], w) && NoneNamed(all, names[..l])
  }

  /** None of the names is that of a live package. */
  predicate NoneNamed(all: seq<Package>, names: seq<string>) {
    forall l :: 0 <= l < |names| ==> NoneLive(all, names[l], |all|)
  }

  /** There is one exactly when some name is that of a live package, and there are no two. */
  lemma OneProvider(all: seq<Package>, names: seq<string>)
    ensures (exists w: nat :: Provides(all, names, w)) <==>
            exists i :: 0 <= i < |all| && all[i].live && all[i].name in names
    ensures forall v: nat, w: nat :: Provides(all, names, v) && Provides(all, names, w) ==> v == w
  {
    forall v: nat, w: nat | Provides(all, names, v) && Provides(all, names, w) ensures v == w {
      SameProvider(all, names, v, w);
    }
    if i :| 0 <= i < |all| && all[i].live && all[i].name in names {
      var l :| 0 <= l < |names| && names[l] == all[i].name;
      assert names[..|names|] == names && !NoneLive(all, names[l], |all|);
      var w := SomeProvider(all, names, |names|);
    }
  }

  lemma {:induction false} SomeLive(all: seq<Package>, name: string, n: nat) returns (w: nat)
    requires n <= |all| && !NoneLive(all, name, n)
    ensures FirstLive(all, name, w)
  {
    if NoneLive(all, name, n - 1) {
      w := n - 1;
    } else {
      w := SomeLive(all, name, n - 1);
    }
  }

  lemma {:induction false} SomeProvider(all: seq<Package>, names: seq<string>, n: nat) returns (w: nat)
    requires n <= |names| && !NoneNamed(all, names[..n])
    ensures Provides(all, names, w)
  {
    if NoneNamed(all, names[..n - 1]) {
      assert forall l :: 0 <= l < n - 1 ==> names[..n - 1][l] == names[..n][l];
      w := SomeLive(all, names[n - 1], |all|);
    } else {
      w := SomeProvider(all, names, n - 1);
    }
  }

  lemma SameProvider(all: seq<Package>, names: seq<string>, v: nat, w: nat)
    requires Provides(all, names, v) && Provides(all, names, w)
    ensures v == w
  {
    var j :| 0 <= j < |names| && FirstLive(all, names[j], v) && NoneNamed(all, names[..j]);
    var k :| 0 <= k < |names| && FirstLive(all, names[k], w) && NoneNamed(all, names[..k]);
    NotBefore(all, names, j, k, v);
    NotBefore(all, names, k, j, w);
  }

  lemma NotBefore(all: seq<Package>, names: seq<string>, j: nat, k: nat, v: nat)
    requires j < |names| && k <= |names| && FirstLive(all, names[j], v) && NoneNamed(all, names[..k])
    ensures k <= j
  {
    hide NoneNamed;
    if j < k {
      NoneOf(all, names, k, j);
    }
  }

  lemma NoneOf(all: seq<Package>, names: seq<string>, k: nat, l: nat)
    requires l < k <= |names| && NoneNamed(all, names[..k])
    ensures NoneLive(all, names[l], |all|)
  {
    assert names[..k][l] == names[l];
  }

  /** Package `w` is taken for some possibility of a dependency of `p`. */
  ghost predicate Edge(all: seq<Package>, p: nat, w: nat) {
    p < |all| && w < |all| && exists j, k :: IsDependency(all, p, j, k) && Provides(all, all[p].depends[j][k], w)
  }

  predicate IsDependency(all: seq<Package>, p: nat, j: int, k: int) {
    p < |all| && 0 <= j < |all[p].depends| && 0 <= k < |all[p].depends[j]|
  }

  ghost predicate Path(all: seq<Package>, path: seq<nat>) {
    path != [] && forall i :: 0 <= i < |path| - 1 ==> Edge(all, path[i], path[i + 1])
  }

  ghost predicate PathFrom(all: seq<Package>, path: seq<nat>, u: nat, v: nat) {
    Path(all, path) && path[0] == u && path[|path| - 1] == v
  }

  /** `v` is `u`, or a dependency of it, or a dependency of that, and so on. */
  ghost predicate Reach(all: seq<Package>, u: nat, v: nat) { exists path :: PathFrom(all, path, u, v) }

  lemma ReachSelf(all: seq<Package>, u: nat)
    ensures Reach(all, u, u)
  {
    assert PathFrom(all, [u], u, u);
  }

  lemma ReachOn(all: seq<Package>, u: nat, v: nat, w: nat)
    requires Reach(all, u, v) && Edge(all, v, w)
    ensures Reach(all, u, w)
  {
    var path :| PathFrom(all, path, u, v);
    assert PathFrom(all, path + [w], u, w);
  }

  lemma ReachFirst(all: seq<Package>, u: nat, v: nat, w: nat)
    requires Edge(all, u, v) && Reach(all, v, w)
    ensures Reach(all, u, w)
  {
    var path :| PathFrom(all, path, v, w);
    var longer := [u] + path;
    forall i | 0 <= i < |longer| - 1 ensures Edge(all, longer[i], longer[i + 1]) {
      if i > 0 {
        assert longer[i] == path[i - 1];
      }
    }
    assert PathFrom(all, longer, u, w);
  }

  // --------------------------------------------------------------------------- what is ordered

  predicate DistinctNames(all: seq<Package>, s: seq<nat>) {
    && (forall i :: 0 <= i < |s| ==> s[i] < |all| && all[s[i]].live)
    && forall i, j :: 0 <= i < j < |s| ==> all[s[i]].name != all[s[j]].name
  }

  predicate Named(all: seq<Package>, s: seq<nat>, name: string)
    requires forall i :: 0 <= i < |s| ==> s[i] < |all|
  {
    exists i :: 0 <= i < |s| && all[s[i]].name == name
  }

  /** A package of the name of `w` comes before position `i`, or leads back to the package there. */
  ghost predicate Before(all: seq<Package>, ordered: seq<nat>, i: nat, w: nat)
    requires i < |ordered| && w < |all|
  {
    exists g: nat ::
      g < |all| && all[g].live && all[g].name == all[w].name && (g in ordered[..i] || Reach(all, g, ordered[i]))
  }

  ghost predicate EdgeBefore(all: seq<Package>, ordered: seq<nat>, i: nat, w: nat)
    requires i < |ordered|
  {
    Edge(all, ordered[i], w) ==> Before(all, ordered, i, w)
  }

  /** Dependencies come before their dependents, as far as there are no cycles. */
  ghost predicate InOrder(all: seq<Package>, ordered: seq<nat>) {
    forall i, w: nat :: 0 <= i < |ordered| ==> EdgeBefore(all, ordered, i, w)
  }

  lemma InOrderAppend(all: seq<Package>, ordered: seq<nat>, p: nat)
    requires InOrder(all, ordered)
    requires forall w: nat :: Edge(all, p, w) ==> Before(all, ordered + [p], |ordered|, w)
    ensures InOrder(all, ordered + [p])
  {
    var o := ordered + [p];
    forall i, w: nat | 0 <= i < |o| ensures EdgeBefore(all, o, i, w) {
      if i < |ordered| {
        assert EdgeBefore(all, ordered, i, w);
        assert o[..i] == ordered[..i];
      }
    }
  }

  /** A package of the name that possibility `k` of dependency `j` of `p` needs has been visited. */
  ghost predicate Handled(all: seq<Package>, visited: seq<nat>, p: nat, j: int, k: int) {
    && IsDependency(all, p, j, k) && (forall i :: 0 <= i < |visited| ==> visited[i] < |all|)
    && forall w: nat :: Provides(all, all[p].depends[j][k], w) ==> Named(all, visited, all[w].name)
  }

  lemma StillHandled(all: seq<Package>, s: seq<nat>, s': seq<nat>, p: nat, j: int, k: int)
    requires s <= s' && (forall i :: 0 <= i < |s'| ==> s'[i] < |all|) && Handled(all, s, p, j, k)
    ensures Handled(all, s', p, j, k)
  {
    forall w: nat | Provides(all, all[p].depends[j][k], w) ensures Named(all, s', all[w].name) {
      StillNamed(all, s, s', all[w].name);
    }
  }

  /** All that has been visited since is reached from `p`. */
  ghost predicate LedTo(all: seq<Package>, before: seq<nat>, visited: seq<nat>, p: nat) {
    forall v: nat :: v in visited && v !in before ==> Reach(all, p, v)
  }

  /** Packages that are being visited. */
  ghost predicate Open(visited: seq<nat>, ordered: seq<nat>, v: nat) { v in visited && v !in ordered }

  lemma {:induction false} AtMost(s: seq<nat>, n: nat)
    requires Distinct(s) && forall i :: 0 <= i < |s| ==> s[i] < n
    ensures |s| <= n
  {
    if s != [] {
      assert s[0] < n;
      if k :| 0 <= k < |s| && s[k] == n - 1 {
        AtMost(s[..k] + s[k + 1..], n - 1);
      } else {
        AtMost(s, n - 1);
      }
    }
  }

  // ----------------------------------------------------------------------------- the search

  /** The vectors `visited` and `ordered`, which every call adds to. */
  class Search {
    const all: seq<Package>
    var visited: seq<nat>
    var ordered: seq<nat>

    ghost predicate Valid()
      reads this
    {
      && DistinctNames(all, visited) && InOrder(all, ordered)
      && (forall i :: 0 <= i < |ordered| ==> ordered[i] in visited)
      && Distinct(ordered)
    }

    constructor (all: seq<Package>)
      ensures Valid() && this.all == all && visited == [] && ordered == []
    {
      this.all, visited, ordered := all, [], [];
    }

    /** The loops over providers and packages (lines 373-392). */
    method FindProvider(names: seq<string>) returns (m: nat)
      ensures m <= |all| && (m < |all| ==> Provides(all, names, m)) && (m == |all| ==> NoneNamed(all, names))
    {
      var l := 0;
      while l < |names|
        invariant 0 <= l <= |names| && NoneNamed(all, names[..l])
      {
        m := 0;
        while m < |all|
          invariant 0 <= m <= |all| && NoneLive(all, names[l], m)
        {
          if all[m].live && all[m].name == names[l] {
            assert FirstLive(all, names[l], m);
            return;
          }
          m := m + 1;
        }
        l := l + 1;
      }
      m := |all|;
    }

    /** opkg_recurse_pkgs_in_order (lines 325-403). */
    method Recurse(p: nat)
      requires Valid() && p < |all|
      requires forall v: nat :: Open(visited, ordered, v) ==> Reach(all, v, p)
      modifies this
      ensures Valid() && old(visited) <= visited && old(ordered) <= ordered
      ensures forall v: nat :: Open(visited, ordered, v) <==> Open(old(visited), old(ordered), v)
      ensures all[p].live ==> Named(all, visited, all[p].name)
      ensures LedTo(all, old(visited), visited, p)
      decreases |all| - |visited|, 1
    {
      if !all[p].live {
        return;
      }
      var j := 0;
      while j < |visited|
        invariant 0 <= j <= |visited|
        invariant forall i :: 0 <= i < j ==> all[visited[i]].name != all[p].name
      {
        if all[visited[j]].name == all[p].name {
          return;
        }
        j := j + 1;
      }
      Visit(p);
    }

    /** What a package met for the first time needs (lines 354-399). */
    method Visit(p: nat)
      requires Valid() && p < |all| && all[p].live && !Named(all, visited, all[p].name)
      requires forall v: nat :: Open(visited, ordered, v) ==> Reach(all, v, p)
      modifies this
      ensures Valid() && old(visited) <= visited && old(ordered) <= ordered
      ensures forall v: nat :: Open(visited, ordered, v) <==> Open(old(visited), old(ordered), v)
      ensures Named(all, visited, all[p].name) && LedTo(all, old(visited), visited, p)
      decreases |all| - |visited|, 0
    {
      assert p !in visited;
      visited := visited + [p];
      AtMost(visited, |all|);
      ReachSelf(all, p);
      hide Reach, InOrder, Handled;
      var j := 0;
      while j < |all[p].depends|
        invariant 0 <= j <= |all[p].depends| && Visiting(p) && old(visited) + [p] <= visited && old(ordered) <= ordered
        invariant forall v: nat :: Open(visited, ordered, v) <==> Open(old(visited), old(ordered), v) || v == p
        invariant LedTo(all, old(visited), visited, p)
        invariant forall i, k :: 0 <= i < j && IsDependency(all, p, i, k) ==> Handled(all, visited, p, i, k)
      {
        var k := 0;
        while k < |all[p].depends[j]|
          invariant 0 <= k <= |all[p].depends[j]| && Visiting(p)
          invariant old(visited) + [p] <= visited && old(ordered) <= ordered
          invariant forall v: nat :: Open(visited, ordered, v) <==> Open(old(visited), old(ordered), v) || v == p
          invariant LedTo(all, old(visited), visited, p)
          invariant forall i, k' :: 0 <= i < j && IsDependency(all, p, i, k') ==> Handled(all, visited, p, i, k')
          invariant forall k' :: 0 <= k' < k ==> Handled(all, visited, p, j, k')
        {
          ghost var before := visited;
          AtMost(visited, |all|);
          Satisfy(p, j, k);
          forall i, k' | Handled(all, before, p, i, k') ensures Handled(all, visited, p, i, k') {
            StillHandled(all, before, visited, p, i, k');
          }
          k := k + 1;
        }
        j := j + 1;
      }
      Finish(p);
    }

    /** Package `p` is being visited, and so is everything that led to it. */
    ghost predicate Visiting(p: nat)
      reads this
    {
      && Valid() && p < |all| && p in visited && p !in ordered
      && forall v: nat :: Open(visited, ordered, v) ==> Reach(all, v, p)
    }

    /** One possibility of one dependency (lines 369-393). */
    method Satisfy(p: nat, j: nat, k: nat)
      requires Visiting(p) && IsDependency(all, p, j, k)
      modifies this
      ensures Visiting(p) && old(visited) <= visited && old(ordered) <= ordered
      ensures forall v: nat :: Open(visited, ordered, v) <==> Open(old(visited), old(ordered), v)
      ensures Handled(all, visited, p, j, k) && LedTo(all, old(visited), visited, p)
      decreases |all| - |visited|, 2
    {
      var m := FindProvider(all[p].depends[j][k]);
      if m < |all| {
        assert Edge(all, p, m);
        forall v: nat | Open(visited, ordered, v) ensures Reach(all, v, m) {
          ReachOn(all, v, p, m);
        }
        Recurse(m);
        forall v: nat | v in visited && v !in old(visited) ensures Reach(all, p, v) {
          ReachFirst(all, p, m, v);
        }
        assert Open(visited, ordered, p);
        SatisfiedBy(all, visited, p, j, k, m);
      } else {
        NoProvider(all, all[p].depends[j][k]);
      }
    }

    method Finish(p: nat)
      requires Visiting(p)
      requires forall j, k :: IsDependency(all, p, j, k) ==> Handled(all, visited, p, j, k)
      modifies `ordered
      ensures Valid() && ordered == old(ordered) + [p]
    {
      var o := ordered + [p];
      forall w: nat | Edge(all, p, w) ensures Before(all, o, |ordered|, w) {
        var j, k :| IsDependency(all, p, j, k) && Provides(all, all[p].depends[j][k], w);
        assert Handled(all, visited, p, j, k);
        var i :| 0 <= i < |visited| && all[visited[i]].name == all[w].name;
        var g := visited[i];
        assert o[..|ordered|] == ordered;
        assert g in ordered || Open(visited, ordered, g);
      }
      InOrderAppend(all, ordered, p);
      ordered := o;
    }
  }

  /** The loop of opkg_configure_packages (lines 425-428). */
  method Order(all: seq<Package>) returns (ordered: seq<nat>)
    ensures DistinctNames(all, ordered) && InOrder(all, ordered)
    ensures forall p :: 0 <= p < |all| && all[p].live ==> Named(all, ordered, all[p].name)
    ensures InTurn(all, ordered)
  {
    var s := new Search(all);
    var i := 0;
    while i < |all|
      invariant 0 <= i <= |all| && s.all == all && s.Valid() && fresh(s)
      invariant forall v: nat :: !Open(s.visited, s.ordered, v)
      invariant forall p :: 0 <= p < i && all[p].live ==> Named(all, s.visited, all[p].name)
      invariant InTurn(all, s.ordered) && FromBelow(all, s.ordered, i)
    {
      ghost var before, done := s.visited, s.ordered;
      s.Recurse(i);
      InTurnNext(all, before, done, s.visited, s.ordered, i);
      forall p | 0 <= p < i && all[p].live ensures Named(all, s.visited, all[p].name) {
        StillNamed(all, before, s.visited, all[p].name);
      }
      i := i + 1;
    }
    ordered := s.ordered;
    AllOrdered(all, s.visited, ordered);
  }

  /** Package `w` is one of the first `n`, or is reached from one of them. */
  ghost predicate Below(all: seq<Package>, n: nat, w: nat) { exists c: nat :: c < n && Reach(all, c, w) }

  ghost predicate FromBelow(all: seq<Package>, ordered: seq<nat>, n: nat) {
    forall i :: 0 <= i < |ordered| ==> Below(all, n, ordered[i])
  }

  /** The order is that of the list, but for what is needed before its turn: what comes before a package is before it
      in the list, or is reached from it or from one before it. */
  ghost predicate InTurn(all: seq<Package>, ordered: seq<nat>) {
    forall i, j :: 0 <= i <= j < |ordered| ==> Below(all, ordered[j] + 1, ordered[i])
  }

  lemma VisitedBefore(all: seq<Package>, before: seq<nat>, visited: seq<nat>, w: nat)
    requires before <= visited && DistinctNames(all, visited) && w in visited
    requires (forall i :: 0 <= i < |before| ==> before[i] < |all|) && Named(all, before, all[w].name)
    ensures w in before
  {
    var k :| 0 <= k < |before| && all[before[k]].name == all[w].name;
    assert visited[k] == before[k];
  }

  lemma InTurnNext(all: seq<Package>, before: seq<nat>, done: seq<nat>, visited: seq<nat>, ordered: seq<nat>, n: nat)
    requires InTurn(all, done) && FromBelow(all, done, n) && done <= ordered && Distinct(ordered)
    requires before <= visited && LedTo(all, before, visited, n) && DistinctNames(all, visited) && n < |all|
    requires forall p :: 0 <= p < n && all[p].live ==>
               (forall i :: 0 <= i < |before| ==> before[i] < |all|) && Named(all, before, all[p].name)
    requires (forall v: nat :: !Open(before, done, v)) && forall i :: 0 <= i < |ordered| ==> ordered[i] in visited
    ensures InTurn(all, ordered) && FromBelow(all, ordered, n + 1)
  {
    hide Reach;
    forall i | 0 <= i < |ordered|
      ensures Below(all, n + 1, ordered[i]) && (i >= |done| ==> ordered[i] >= n)
    {
      var w := ordered[i];
      if i < |done| {
        assert Below(all, n, done[i]);
      } else {
        if w < n {
          VisitedBefore(all, before, visited, w);
        }
        assert !Open(before, done, w);
      }
    }
    forall i, j | 0 <= i <= j < |ordered| ensures Below(all, ordered[j] + 1, ordered[i]) {
      if j < |done| {
        assert Below(all, done[j] + 1, done[i]);
      } else {
        var c: nat :| c < n + 1 && Reach(all, c, ordered[i]);
      }
    }
  }

  lemma StillNamed(all: seq<Package>, s: seq<nat>, s': seq<nat>, name: string)
    requires s <= s' && (forall i :: 0 <= i < |s'| ==> s'[i] < |all|) && Named(all, s, name)
    ensures Named(all, s', name)
  {
    var i :| 0 <= i < |s| && all[s[i]].name == name;
    assert s'[i] == s[i];
  }

  lemma SatisfiedBy(all: seq<Package>, visited: seq<nat>, p: nat, j: nat, k: nat, m: nat)
    requires IsDependency(all, p, j, k) && Provides(all, all[p].depends[j][k], m)
    requires (forall i :: 0 <= i < |visited| ==> visited[i] < |all|) && Named(all, visited, all[m].name)
    ensures Handled(all, visited, p, j, k)
  {
    forall w: nat | Provides(all, all[p].depends[j][k], w) ensures w == m {
      SameProvider(all, all[p].depends[j][k], m, w);
    }
  }

  lemma NoProvider(all: seq<Package>, names: seq<string>)
    requires NoneNamed(all, names)
    ensures forall w: nat :: !Provides(all, names, w)
  {
  }

  /** When nothing is open, what was visited is in order. */
  lemma AllOrdered(all: seq<Package>, visited: seq<nat>, ordered: seq<nat>)
    requires DistinctNames(all, visited) && forall v: nat :: !Open(visited, ordered, v)
    requires forall i :: 0 <= i < |ordered| ==> ordered[i] in visited
    requires forall i, j :: 0 <= i < j < |ordered| ==> ordered[i] != ordered[j]
    ensures DistinctNames(all, ordered)
    ensures forall name :: Named(all, visited, name) ==> Named(all, ordered, name)
  {
    forall i, j | 0 <= i < j < |ordered| ensures all[ordered[i]].name != all[ordered[j]].name {
      var a :| 0 <= a < |visited| && visited[a] == ordered[i];
      var b :| 0 <= b < |visited| && visited[b] == ordered[j];
      assert a != b;
    }
    forall name | Named(all, visited, name) ensures Named(all, ordered, name) {
      var a :| 0 <= a < |visited| && all[visited[a]].name == name;
      assert !Open(visited, ordered, visited[a]);
      assert visited[a] in ordered;
    }
  }

  // ---------------------------------------------------------------------- what follows from it

  predicate LiveNamesDistinct(all: seq<Package>) {
    forall p, q :: 0 <= p < q < |all| && all[p].live && all[q].live ==> all[p].name != all[q].name
  }

  /** Every live package is in the order exactly when no two of them have the same name. */
  lemma EveryPackageOnce(all: seq<Package>, ordered: seq<nat>)
    requires DistinctNames(all, ordered)
    requires forall p :: 0 <= p < |all| && all[p].live ==> Named(all, ordered, all[p].name)
    ensures (forall p: nat :: p < |all| && all[p].live ==> p in ordered) <==> LiveNamesDistinct(all)
    ensures Distinct(ordered)
  {
    if LiveNamesDistinct(all) {
      forall p: nat | p < |all| && all[p].live ensures p in ordered {
        var i :| 0 <= i < |ordered| && all[ordered[i]].name == all[p].name;
        assert ordered[i] == p;
      }
    }
    if forall p: nat :: p < |all| && all[p].live ==> p in ordered {
      forall p, q | 0 <= p < q < |all| && all[p].live && all[q].live ensures all[p].name != all[q].name {
        assert p in ordered && q in ordered;
        var i :| 0 <= i < |ordered| && ordered[i] == p;
        var j :| 0 <= j < |ordered| && ordered[j] == q;
        assert i != j;
      }
    }
  }

  /** Two live packages of one name, such as two versions: only one of them is in the order. */
  method OneOfTwo(name: string, depends: seq<seq<seq<string>>>) returns (all: seq<Package>, ordered: seq<nat>)
    ensures all == [Package(name, true, []), Package(name, true, depends)]
    ensures |ordered| == 1 && (0 in ordered <==> 1 !in ordered)
  {
    all := [Package(name, true, []), Package(name, true, depends)];
    ordered := Order(all);
    assert Named(all, ordered, all[0].name);
    FirstDiffer(all, ordered);
  }

  lemma FirstDiffer(all: seq<Package>, s: seq<nat>)
    requires DistinctNames(all, s)
    ensures |s| <= 1 || all[s[0]].name != all[s[1]].name
  {
  }

  ghost predicate Acyclic(all: seq<Package>) { forall u: nat, v: nat :: Edge(all, u, v) ==> !Reach(all, v, u) }

  /** When no package needs another, the order is that of the list. */
  lemma ListOrder(all: seq<Package>, ordered: seq<nat>, i: nat, j: nat)
    requires InTurn(all, ordered) && DistinctNames(all, ordered) && i < j < |ordered|
    requires forall u: nat, v: nat :: !Edge(all, u, v)
    ensures ordered[i] < ordered[j]
  {
    assert Below(all, ordered[j] + 1, ordered[i]);
    var c: nat :| c < ordered[j] + 1 && Reach(all, c, ordered[i]);
    var path :| PathFrom(all, path, c, ordered[i]);
    NoStep(all, path);
  }

  lemma NoStep(all: seq<Package>, path: seq<nat>)
    requires path != [] && Path(all, path) && forall u: nat, v: nat :: !Edge(all, u, v)
    ensures |path| == 1
  {
    hide Edge, Path;
    if |path| > 1 {
      FirstStep(all, path);
    }
  }

  lemma FirstStep(all: seq<Package>, path: seq<nat>)
    requires Path(all, path) && |path| > 1
    ensures Edge(all, path[0], path[1])
  {
    assert Edge(all, path[0], path[0 + 1]);
  }

  /** Without cycles the provider taken for each dependency comes before its dependent. */
  lemma ProvidersFirst(all: seq<Package>, ordered: seq<nat>, i: nat, w: nat)
    requires DistinctNames(all, ordered) && InOrder(all, ordered) && LiveNamesDistinct(all) && Acyclic(all)
    requires i < |ordered| && Edge(all, ordered[i], w)
    requires forall p :: 0 <= p < |all| && all[p].live ==> Named(all, ordered, all[p].name)
    ensures w in ordered[..i]
  {
    assert EdgeBefore(all, ordered, i, w);
    var g: nat :| g < |all| && all[g].live && all[g].name == all[w].name
                  && (g in ordered[..i] || Reach(all, g, ordered[i]));
    assert g == w;
  }
}
