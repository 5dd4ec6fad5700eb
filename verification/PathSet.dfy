/** The sets of paths to extract (unsquashfs.c) and to exclude (mksquashfs.c): tries that add_path grows
    and prunes, and that a walk down the directories follows. */
module PathSet {

  import opened Basics

  /** struct pathname: its entries, each the end of a target or with entries below it. */
  datatype Paths = Paths(names: seq<Entry>)

  datatype Entry = Entry(name: string, paths: Option<Paths>)

  /** fnmatch or regexec: whether a component of a target matches a name. */
  type Match = (string, string) -> bool

  // -------------------------------------------------------------------------------- targets

  /** A target matches a path when its components match the first ones of the path. */
  predicate Covers(m: Match, target: seq<string>, path: seq<string>) {
    |target| <= |path| && forall k :: 0 <= k < |target| ==> m(target[k], path[k])
  }

  /** The path is on the way to what the target matches. */
  predicate LeadsTo(m: Match, target: seq<string>, path: seq<string>) {
    |path| < |target| && forall k :: 0 <= k < |path| ==> m(target[k], path[k])
  }

  // --------------------------------------------------------------------- what a trie stands for

  predicate CoversEntry(m: Match, e: Entry, path: seq<string>)
    decreases e
  {
    path != [] && m(e.name, path[0]) && (e.paths.None? || Full(m, e.paths.value, path[1..]))
  }

  /** Some target in the trie covers the path. */
  predicate Full(m: Match, p: Paths, path: seq<string>)
    decreases p
  {
    exists i :: 0 <= i < |p.names| && CoversEntry(m, p.names[i], path)
  }

  predicate LeadsEntry(m: Match, e: Entry, path: seq<string>)
    decreases e
  {
    path == [] || (m(e.name, path[0]) && e.paths.Some? && Partial(m, e.paths.value, path[1..]))
  }

  /** The path is on the way to what some target in the trie covers. */
  predicate Partial(m: Match, p: Paths, path: seq<string>)
    decreases p
  {
    exists i :: 0 <= i < |p.names| && LeadsEntry(m, p.names[i], path)
  }

  /** No trie without entries. */
  predicate Proper(p: Paths)
    decreases p
  {
    p.names != [] && forall i :: 0 <= i < |p.names| && p.names[i].paths.Some? ==> Proper(p.names[i].paths.value)
  }

  // ------------------------------------------------------------------------------ adding to it

  /** Adding a target to a set makes it cover what the target covers, and lead to that. */
  ghost predicate ExtendedAt(m: Match, before: Option<Paths>, after: Paths, target: seq<string>, path: seq<string>) {
    && (Full(m, after, path) <==> (before.Some? && Full(m, before.value, path)) || Covers(m, target, path))
    && (Full(m, after, path) || Partial(m, after, path) <==>
          (before.Some? && (Full(m, before.value, path) || Partial(m, before.value, path)))
          || Covers(m, target, path) || LeadsTo(m, target, path))
  }

  ghost predicate Extended(m: Match, before: Option<Paths>, after: Paths, target: seq<string>) {
    Proper(after) && forall path: seq<string> :: ExtendedAt(m, before, after, target, path)
  }

  /** add_path (unsquashfs.c:1072-1159, mksquashfs.c:4213-4285); `m` is what its entries will be matched
      with. */
  method AddPath(paths: Option<Paths>, target: seq<string>, ghost m: Match) returns (r: Paths)
    requires target != [] && (paths.Some? ==> Proper(paths.value))
    ensures Extended(m, paths, r, target)
    decreases |target|
  {
    hide Extended;
    var names := if paths.None? then [] else paths.value.names;
    var i := 0;
    while i < |names| && names[i].name != target[0]
      invariant 0 <= i <= |names|
    {
      i := i + 1;
    }
    if i == |names| {
      var below: Option<Paths> := None;
      if |target| > 1 {
        var sub := AddPath(None, target[1..], m);
        below := Some(sub);
      }
      r := Paths(names + [Entry(target[0], below)]);
      NewEntry(m, paths, names, target, below);
    } else if names[i].paths.None? {
      r := paths.value;
      Subsumed(m, paths.value, i, target);
    } else if |target| == 1 {
      r := Paths(names[i := Entry(target[0], None)]);
      Subsumes(m, paths.value, i, target);
    } else {
      var sub := AddPath(names[i].paths, target[1..], m);
      r := Paths(names[i := Entry(target[0], Some(sub))]);
      InBranch(m, paths.value, i, target, sub);
    }
  }

  /** Entries other than `i`. */
  ghost predicate OthersFull(m: Match, names: seq<Entry>, i: nat, path: seq<string>) {
    exists k :: 0 <= k < |names| && k != i && CoversEntry(m, names[k], path)
  }

  ghost predicate OthersPartial(m: Match, names: seq<Entry>, i: nat, path: seq<string>) {
    exists k :: 0 <= k < |names| && k != i && LeadsEntry(m, names[k], path)
  }

  lemma Split(m: Match, names: seq<Entry>, i: nat, path: seq<string>)
    requires i < |names|
    ensures Full(m, Paths(names), path) <==> OthersFull(m, names, i, path) || CoversEntry(m, names[i], path)
    ensures Partial(m, Paths(names), path) <==> OthersPartial(m, names, i, path) || LeadsEntry(m, names[i], path)
  {
  }

  lemma SameOthers(m: Match, names: seq<Entry>, i: nat, e: Entry, path: seq<string>)
    requires i < |names|
    ensures OthersFull(m, names[i := e], i, path) <==> OthersFull(m, names, i, path)
    ensures OthersPartial(m, names[i := e], i, path) <==> OthersPartial(m, names, i, path)
  {
    var all := names[i := e];
    assert forall k :: 0 <= k < |names| && k != i ==> all[k] == names[k];
  }

  lemma LastOthers(m: Match, names: seq<Entry>, e: Entry, path: seq<string>)
    ensures OthersFull(m, names + [e], |names|, path) <==> Full(m, Paths(names), path)
    ensures OthersPartial(m, names + [e], |names|, path) <==> Partial(m, Paths(names), path)
  {
    var all := names + [e];
    assert forall k :: 0 <= k < |names| ==> all[k] == names[k];
  }

  lemma CoversStep(m: Match, target: seq<string>, path: seq<string>)
    requires target != []
    ensures Covers(m, target, path) <==> path != [] && m(target[0], path[0]) && Covers(m, target[1..], path[1..])
    ensures LeadsTo(m, target, path) <==> path == [] || (m(target[0], path[0]) && LeadsTo(m, target[1..], path[1..]))
  {
    if path != [] {
      assert forall k :: 1 <= k < |target| ==> target[k] == target[1..][k - 1];
      assert forall k :: 1 <= k < |path| ==> path[k] == path[1..][k - 1];
    }
  }

  lemma NewEntry(m: Match, paths: Option<Paths>, names: seq<Entry>, target: seq<string>, below: Option<Paths>)
    requires target != [] && names == (if paths.None? then [] else paths.value.names)
    requires paths.Some? ==> Proper(paths.value)
    requires if |target| == 1 then below.None? else below.Some? && Extended(m, None, below.value, target[1..])
    ensures Extended(m, paths, Paths(names + [Entry(target[0], below)]), target)
  {
    hide Full, Partial, Covers, LeadsTo;
    var e := Entry(target[0], below);
    var after := Paths(names + [e]);
    forall path: seq<string> ensures ExtendedAt(m, paths, after, target, path) {
      LastOthers(m, names, e, path);
      Split(m, after.names, |names|, path);
      CoversStep(m, target, path);
      NoNames(m, path);
      if |target| == 1 {
        NoTarget(m, target[1..], if path == [] then [] else path[1..]);
      } else {
        assert path != [] ==> ExtendedAt(m, None, below.value, target[1..], path[1..]);
      }
    }
  }

  lemma NoNames(m: Match, path: seq<string>)
    ensures !Full(m, Paths([]), path) && !Partial(m, Paths([]), path)
  {
  }

  lemma NoTarget(m: Match, target: seq<string>, path: seq<string>)
    requires target == []
    ensures Covers(m, target, path) && !LeadsTo(m, target, path)
  {
  }

  /** A target below the end of one that is there. */
  lemma Subsumed(m: Match, p: Paths, i: nat, target: seq<string>)
    requires target != [] && i < |p.names| && p.names[i].name == target[0] && p.names[i].paths.None? && Proper(p)
    ensures Extended(m, Some(p), p, target)
  {
    hide Full, Partial, Covers, LeadsTo;
    forall path: seq<string> ensures ExtendedAt(m, Some(p), p, target, path) {
      Split(m, p.names, i, path);
      CoversStep(m, target, path);
    }
  }

  /** A target whose end others go on from. */
  lemma Subsumes(m: Match, p: Paths, i: nat, target: seq<string>)
    requires |target| == 1 && i < |p.names| && p.names[i].name == target[0] && Proper(p)
    ensures Extended(m, Some(p), Paths(p.names[i := Entry(target[0], None)]), target)
  {
    hide Full, Partial, Covers, LeadsTo;
    var e := Entry(target[0], None);
    var after := Paths(p.names[i := e]);
    forall path: seq<string> ensures ExtendedAt(m, Some(p), after, target, path) {
      Split(m, p.names, i, path);
      Split(m, after.names, i, path);
      SameOthers(m, p.names, i, e, path);
      CoversStep(m, target, path);
      NoTarget(m, target[1..], if path == [] then [] else path[1..]);
    }
  }

  lemma InBranch(m: Match, p: Paths, i: nat, target: seq<string>, sub: Paths)
    requires |target| > 1 && i < |p.names| && p.names[i].name == target[0] && Proper(p)
    requires p.names[i].paths.Some? && Extended(m, p.names[i].paths, sub, target[1..])
    ensures Extended(m, Some(p), Paths(p.names[i := Entry(target[0], Some(sub))]), target)
  {
    hide Full, Partial, Covers, LeadsTo;
    var e := Entry(target[0], Some(sub));
    var after := Paths(p.names[i := e]);
    forall path: seq<string> ensures ExtendedAt(m, Some(p), after, target, path) {
      Split(m, p.names, i, path);
      Split(m, after.names, i, path);
      SameOthers(m, p.names, i, e, path);
      CoversStep(m, target, path);
      assert path != [] ==> ExtendedAt(m, p.names[i].paths, sub, target[1..], path[1..]);
    }
  }

  // ----------------------------------------------------------------------- walking down the tree

  /** Some target in the tries covers the path. */
  ghost predicate FullSet(m: Match, tries: seq<Paths>, path: seq<string>) {
    exists n :: 0 <= n < |tries| && Full(m, tries[n], path)
  }

  ghost predicate PartialSet(m: Match, tries: seq<Paths>, path: seq<string>) {
    exists n :: 0 <= n < |tries| && Partial(m, tries[n], path)
  }

  /** A name is the end of a target. */
  ghost predicate EndsIn(m: Match, tries: seq<Paths>, name: string) { exists n, i :: EndAt(m, tries, name, n, i) }

  predicate EndAt(m: Match, tries: seq<Paths>, name: string, n: int, i: int) {
    0 <= n < |tries| && 0 <= i < |tries[n].names| && m(tries[n].names[i].name, name) && tries[n].names[i].paths.None?
  }

  /** Trie `p` is below an entry that matches the name. */
  predicate BelowAt(m: Match, tries: seq<Paths>, name: string, p: Paths, n: int, i: int) {
    && 0 <= n < |tries| && 0 <= i < |tries[n].names|
    && m(tries[n].names[i].name, name) && tries[n].names[i].paths == Some(p)
  }

  ghost predicate Below(m: Match, tries: seq<Paths>, name: string, p: Paths) {
    exists n, i :: BelowAt(m, tries, name, p, n, i)
  }

  /** The loops that matches and excluded share: whether the name is the end of a target, and if not the
      tries below the entries that it matches, after those of `first`. */
  method Look(m: Match, tries: seq<Paths>, name: string, first: seq<Paths>) returns (end: bool, below: seq<Paths>)
    ensures end == EndsIn(m, tries, name)
    ensures !end ==> forall p :: p in below <==> p in first || Below(m, tries, name, p)
    ensures !end ==> (below == [] <==> first == [] && forall p :: !Below(m, tries, name, p))
  {
    below := first;
    var n := 0;
    while n < |tries|
      invariant 0 <= n <= |tries|
      invariant forall k, i :: 0 <= k < n ==> !EndAt(m, tries, name, k, i)
      invariant first <= below
      invariant forall p :: p in below ==> p in first || Below(m, tries, name, p)
      invariant forall p, k, i :: 0 <= k < n && BelowAt(m, tries, name, p, k, i) ==> p in below
    {
      var i := 0;
      while i < |tries[n].names|
        invariant 0 <= i <= |tries[n].names|
        invariant forall k, i' :: 0 <= k < n ==> !EndAt(m, tries, name, k, i')
        invariant forall i' :: 0 <= i' < i ==> !EndAt(m, tries, name, n, i')
        invariant first <= below
        invariant forall p :: p in below ==> p in first || Below(m, tries, name, p)
        invariant forall p, k, i' :: 0 <= k < n && BelowAt(m, tries, name, p, k, i') ==> p in below
        invariant forall p, i' :: 0 <= i' < i && BelowAt(m, tries, name, p, n, i') ==> p in below
      {
        var e := tries[n].names[i];
        if m(e.name, name) {
          if e.paths.None? {
            assert EndAt(m, tries, name, n, i);
            return true, [];
          }
          assert BelowAt(m, tries, name, e.paths.value, n, i);
          below := below + [e.paths.value];
        }
        i := i + 1;
      }
      n := n + 1;
    }
    assert below != [] ==> below[0] in below;
    return false, below;
  }

  /** What follows a name in a path that the tries cover or lead to. */
  lemma StepFull(m: Match, tries: seq<Paths>, name: string, rest: seq<string>)
    ensures FullSet(m, tries, [name] + rest)
       <==> EndsIn(m, tries, name) || exists p :: Below(m, tries, name, p) && Full(m, p, rest)
  {
    var path := [name] + rest;
    assert path[0] == name && path[1..] == rest;
    if FullSet(m, tries, path) {
      var n :| 0 <= n < |tries| && Full(m, tries[n], path);
      var i :| 0 <= i < |tries[n].names| && CoversEntry(m, tries[n].names[i], path);
      if tries[n].names[i].paths.None? {
        assert EndAt(m, tries, name, n, i);
      } else {
        var p := tries[n].names[i].paths.value;
        assert BelowAt(m, tries, name, p, n, i) && Full(m, p, rest);
      }
    }
    if EndsIn(m, tries, name) {
      var n, i :| EndAt(m, tries, name, n, i);
      assert CoversEntry(m, tries[n].names[i], path);
      assert Full(m, tries[n], path);
    }
    if p :| Below(m, tries, name, p) && Full(m, p, rest) {
      var n, i :| BelowAt(m, tries, name, p, n, i);
      assert CoversEntry(m, tries[n].names[i], path);
      assert Full(m, tries[n], path);
    }
  }

  lemma StepPartial(m: Match, tries: seq<Paths>, name: string, rest: seq<string>)
    ensures PartialSet(m, tries, [name] + rest) <==> exists p :: Below(m, tries, name, p) && Partial(m, p, rest)
  {
    var path := [name] + rest;
    assert path[0] == name && path[1..] == rest;
    if PartialSet(m, tries, path) {
      var n :| 0 <= n < |tries| && Partial(m, tries[n], path);
      var i :| 0 <= i < |tries[n].names| && LeadsEntry(m, tries[n].names[i], path);
      var p := tries[n].names[i].paths.value;
      assert BelowAt(m, tries, name, p, n, i) && Partial(m, p, rest);
    }
    if p :| Below(m, tries, name, p) && Partial(m, p, rest) {
      var n, i :| BelowAt(m, tries, name, p, n, i);
      assert LeadsEntry(m, tries[n].names[i], path);
      assert Partial(m, tries[n], path);
    }
  }

  /** The paths that unsquashfs extracts or goes through: without a set, all. */
  ghost predicate Accepts(m: Match, tries: Option<seq<Paths>>, path: seq<string>) {
    tries.Some? ==> FullSet(m, tries.value, path) || PartialSet(m, tries.value, path)
  }

  /** The paths that a target covers: without a set, all. */
  ghost predicate Whole(m: Match, tries: Option<seq<Paths>>, path: seq<string>) {
    tries.Some? ==> FullSet(m, tries.value, path)
  }

  /** matches (unsquashfs.c:1193-1253) */
  method Matches(m: Match, tries: Option<seq<Paths>>, name: string) returns (res: bool, new': Option<seq<Paths>>)
    requires forall p :: tries.Some? && p in tries.value ==> Proper(p)
    ensures forall rest :: Accepts(m, tries, [name] + rest) <==> res && Accepts(m, new', rest)
    ensures forall rest :: Whole(m, tries, [name] + rest) <==> res && Whole(m, new', rest)
    ensures new'.Some? ==> res && tries.Some? && new'.value != [] && forall p :: p in new'.value ==> Proper(p)
    ensures res && new'.None? <==> tries.None? || EndsIn(m, tries.value, name)
  {
    hide Full, Partial, EndsIn;
    if tries.None? {
      return true, None;
    }
    var end, below := Look(m, tries.value, name, []);
    forall rest ensures Accepts(m, tries, [name] + rest)
        <==> end || (exists p :: p in below && (Full(m, p, rest) || Partial(m, p, rest)))
    {
      StepFull(m, tries.value, name, rest);
      StepPartial(m, tries.value, name, rest);
    }
    forall rest ensures Whole(m, tries, [name] + rest) <==> end || (exists p :: p in below && Full(m, p, rest)) {
      StepFull(m, tries.value, name, rest);
    }
    if end {
      return true, None;
    }
    if below == [] {
      return false, None;
    }
    BelowProper(m, tries.value, name);
    return true, Some(below);
  }

  lemma BelowProper(m: Match, tries: seq<Paths>, name: string)
    requires forall p :: p in tries ==> Proper(p)
    ensures forall p :: Below(m, tries, name, p) ==> Proper(p)
  {
    forall p | Below(m, tries, name, p) ensures Proper(p) {
      var n, i :| BelowAt(m, tries, name, p, n, i);
      assert tries[n] in tries;
    }
  }

  /** pre_scan and dir_scan on the way to one path: whether every name on it matches, and whether there is no
      set left at its end. */
  method Walk(m: Match, tries: Option<seq<Paths>>, path: seq<string>) returns (res: bool, none: bool)
    requires tries.Some? ==> tries.value != [] && forall p :: p in tries.value ==> Proper(p)
    ensures res == Accepts(m, tries, path) && (res && none) == Whole(m, tries, path)
  {
    hide Full, Partial;
    var at, rest := tries, path;
    while rest != []
      invariant at.Some? ==> at.value != [] && forall p :: p in at.value ==> Proper(p)
      invariant Accepts(m, tries, path) <==> Accepts(m, at, rest)
      invariant Whole(m, tries, path) <==> Whole(m, at, rest)
      decreases |rest|
    {
      assert rest == [rest[0]] + rest[1..];
      res, at := Matches(m, at, rest[0]);
      if !res {
        return false, false;
      }
      rest := rest[1..];
    }
    if at.Some? {
      assert at.value[0] in at.value;
      AtTheEnd(m, at.value);
    }
    return true, at.None?;
  }

  /** No name is left: what is in a set is on the way to targets, and not one of them. */
  lemma AtTheEnd(m: Match, tries: seq<Paths>)
    requires tries != [] && Proper(tries[0])
    ensures PartialSet(m, tries, []) && !FullSet(m, tries, [])
  {
    assert LeadsEntry(m, tries[0].names[0], []);
    assert Partial(m, tries[0], []);
    forall n | 0 <= n < |tries| ensures !Full(m, tries[n], []) {
    }
  }

  // ------------------------------------------------------------------------------- excluding

  /** A sticky target covers what is left of the path at some later name. */
  ghost predicate Later(m: Match, sticky: Option<Paths>, path: seq<string>) {
    sticky.Some? && exists i :: 1 <= i <= |path| && Full(m, sticky.value, path[i..])
  }

  ghost predicate Excludes(m: Match, tries: Option<seq<Paths>>, sticky: Option<Paths>, path: seq<string>) {
    tries.Some? && (FullSet(m, tries.value, path) || Later(m, sticky, path))
  }

  lemma LaterStep(m: Match, sticky: Option<Paths>, name: string, rest: seq<string>)
    requires sticky.Some?
    ensures Later(m, sticky, [name] + rest) <==> Full(m, sticky.value, rest) || Later(m, sticky, rest)
  {
    var path := [name] + rest;
    assert path[1..] == rest[0..] == rest;
    assert forall i :: 1 <= i <= |rest| ==> path[i + 1..] == rest[i..];
    if Later(m, sticky, rest) {
      var i :| 1 <= i <= |rest| && Full(m, sticky.value, rest[i..]);
      assert Full(m, sticky.value, path[i + 1..]);
    }
    if Later(m, sticky, path) {
      var i :| 1 <= i <= |path| && Full(m, sticky.value, path[i..]);
      assert i > 1 ==> path[i..] == rest[i - 1..];
    }
  }

  /** excluded (mksquashfs.c:4366-4421) */
  method Excluded(m: Match, tries: Option<seq<Paths>>, sticky: Option<Paths>, name: string)
    returns (res: bool, new': Option<seq<Paths>>)
    ensures forall rest :: Excludes(m, tries, sticky, [name] + rest) <==> res || Excludes(m, new', sticky, rest)
  {
    hide Full, EndsIn, Later;
    if tries.None? {
      return false, None;
    }
    var first := if sticky.Some? then [sticky.value] else [];
    var end, below := Look(m, tries.value, name, first);
    forall rest ensures FullSet(m, tries.value, [name] + rest)
        <==> end || (exists p :: Below(m, tries.value, name, p) && Full(m, p, rest))
    {
      StepFull(m, tries.value, name, rest);
    }
    if end {
      return true, None;
    }
    forall rest ensures Excludes(m, tries, sticky, [name] + rest) <==> Excludes(m, Some(below), sticky, rest) {
      ExcludeStep(m, tries.value, sticky, name, below, rest);
    }
    if below == [] {
      NoTries(m, sticky);
      return false, None;
    }
    return false, Some(below);
  }

  lemma NoTries(m: Match, sticky: Option<Paths>)
    requires sticky.None?
    ensures forall path :: !Excludes(m, Some([]), sticky, path)
  {
  }

  lemma ExcludeStep(m: Match, tries: seq<Paths>, sticky: Option<Paths>, name: string, below: seq<Paths>,
                    rest: seq<string>)
    requires forall p :: p in below <==> (sticky == Some(p)) || Below(m, tries, name, p)
    requires FullSet(m, tries, [name] + rest) <==> (exists p :: Below(m, tries, name, p) && Full(m, p, rest))
    ensures Excludes(m, Some(tries), sticky, [name] + rest) <==> Excludes(m, Some(below), sticky, rest)
  {
    hide Full, Later, Below;
    if sticky.Some? {
      LaterStep(m, sticky, name, rest);
      assert sticky.value in below;
    } else {
      NotLater(m, [name] + rest);
      NotLater(m, rest);
    }
    if p :| Below(m, tries, name, p) && Full(m, p, rest) {
      assert p in below;
    }
  }

  lemma NotLater(m: Match, path: seq<string>)
    ensures !Later(m, None, path)
  {
  }

  /** dir_scan1 on the way to one path: whether it, or a directory that it is in, is excluded. */
  method WalkExcluded(m: Match, tries: Option<seq<Paths>>, sticky: Option<Paths>, path: seq<string>) returns (res: bool)
    ensures res == Excludes(m, tries, sticky, path)
  {
    var at, rest := tries, path;
    while rest != []
      invariant Excludes(m, tries, sticky, path) <==> Excludes(m, at, sticky, rest)
      decreases |rest|
    {
      assert rest == [rest[0]] + rest[1..];
      res, at := Excluded(m, at, sticky, rest[0]);
      if res {
        return;
      }
      rest := rest[1..];
    }
    NothingLeft(m, at, sticky);
    return false;
  }

  lemma NothingLeft(m: Match, tries: Option<seq<Paths>>, sticky: Option<Paths>)
    ensures !Excludes(m, tries, sticky, [])
  {
    forall p: Paths ensures !Full(m, p, []) {
    }
  }

  // ------------------------------------------------------------------------- targets and walks

  ghost predicate AnyCovers(m: Match, targets: seq<seq<string>>, path: seq<string>) {
    exists t :: 0 <= t < |targets| && Covers(m, targets[t], path)
  }

  ghost predicate AnyLeads(m: Match, targets: seq<seq<string>>, path: seq<string>) {
    exists t :: 0 <= t < |targets| && LeadsTo(m, targets[t], path)
  }

  /** The set stands for these targets. */
  ghost predicate StandsFor(m: Match, p: Option<Paths>, targets: seq<seq<string>>) {
    && (p.Some? ==> Proper(p.value)) && (p.None? <==> targets == [])
    && forall path ::
         && (p.Some? && Full(m, p.value, path) <==> AnyCovers(m, targets, path))
         && (p.Some? && (Full(m, p.value, path) || Partial(m, p.value, path)) <==>
               AnyCovers(m, targets, path) || AnyLeads(m, targets, path))
  }

  /** Targets added one after the other. */
  method AddTargets(targets: seq<seq<string>>, ghost m: Match) returns (p: Option<Paths>)
    requires forall t :: 0 <= t < |targets| ==> targets[t] != []
    ensures StandsFor(m, p, targets)
  {
    hide Full, Partial, Covers, LeadsTo;
    p := None;
    var n := 0;
    while n < |targets|
      invariant 0 <= n <= |targets| && StandsFor(m, p, targets[..n])
    {
      var r := AddPath(p, targets[n], m);
      OneMore(m, targets, n, p, r);
      p := Some(r);
      n := n + 1;
    }
    assert targets[..n] == targets;
  }

  lemma OneMore(m: Match, targets: seq<seq<string>>, n: nat, p: Option<Paths>, r: Paths)
    requires n < |targets| && StandsFor(m, p, targets[..n]) && Extended(m, p, r, targets[n])
    ensures StandsFor(m, Some(r), targets[..n + 1])
  {
    hide Full, Partial, Covers, LeadsTo;
    var now, then' := targets[..n], targets[..n + 1];
    assert forall t :: 0 <= t < n ==> then'[t] == now[t];
    forall path
      ensures AnyCovers(m, then', path) <==> AnyCovers(m, now, path) || Covers(m, targets[n], path)
      ensures AnyLeads(m, then', path) <==> AnyLeads(m, now, path) || LeadsTo(m, targets[n], path)
      ensures ExtendedAt(m, p, r, targets[n], path)
    {
      if AnyCovers(m, now, path) {
        var t :| 0 <= t < n && Covers(m, now[t], path);
        assert Covers(m, then'[t], path);
      }
      if AnyLeads(m, now, path) {
        var t :| 0 <= t < n && LeadsTo(m, now[t], path);
        assert LeadsTo(m, then'[t], path);
      }
      assert then'[n] == targets[n];
    }
  }

  /** What unsquashfs extracts, when targets are given: whatever one of them covers, and the directories on the
      way to that. */
  method Extracts(m: Match, targets: seq<seq<string>>, path: seq<string>, directory: bool) returns (res: bool)
    requires targets != [] && forall t :: 0 <= t < |targets| ==> targets[t] != []
    ensures res == (AnyCovers(m, targets, path) || (directory && AnyLeads(m, targets, path)))
  {
    hide Full, Partial, Covers, LeadsTo;
    var p := AddTargets(targets, m);
    OneTrie(m, p.value, path);
    var every, none := Walk(m, Some([p.value]), path);
    res := every && (directory || none);
  }

  lemma OneTrie(m: Match, p: Paths, path: seq<string>)
    ensures FullSet(m, [p], path) <==> Full(m, p, path)
    ensures PartialSet(m, [p], path) <==> Partial(m, p, path)
  {
    assert [p][0] == p;
  }

  /** What mksquashfs leaves out: the paths that a target covers from the top, or a sticky target from
      any directory (lines 5291-5296). */
  method LeavesOut(m: Match, targets: seq<seq<string>>, stickies: seq<seq<string>>, path: seq<string>)
    returns (res: bool)
    requires forall t :: 0 <= t < |targets| ==> targets[t] != []
    requires forall t :: 0 <= t < |stickies| ==> stickies[t] != []
    ensures res == (AnyCovers(m, targets, path)
                    || exists i :: 0 <= i <= |path| && AnyCovers(m, stickies, path[i..]))
  {
    hide Full, Partial, Covers, LeadsTo;
    var p := AddTargets(targets, m);
    var sticky := AddTargets(stickies, m);
    var tries := (if p.Some? then [p.value] else []) + if sticky.Some? then [sticky.value] else [];
    InitialSet(m, p, sticky, tries, targets, stickies, path);
    res := WalkExcluded(m, if tries == [] then None else Some(tries), sticky, path);
  }

  lemma InitialSet(m: Match, p: Option<Paths>, sticky: Option<Paths>, tries: seq<Paths>,
                   targets: seq<seq<string>>, stickies: seq<seq<string>>, path: seq<string>)
    requires StandsFor(m, p, targets) && StandsFor(m, sticky, stickies)
    requires tries == (if p.Some? then [p.value] else []) + if sticky.Some? then [sticky.value] else []
    ensures Excludes(m, if tries == [] then None else Some(tries), sticky, path)
       <==> AnyCovers(m, targets, path) || exists i :: 0 <= i <= |path| && AnyCovers(m, stickies, path[i..])
  {
    hide Full, Partial, Covers, LeadsTo;
    assert path[0..] == path;
    if p.Some? {
      assert tries[0] == p.value;
    }
    if sticky.Some? {
      assert tries[|tries| - 1] == sticky.value;
    }
    assert FullSet(m, tries, path) <==>
      (p.Some? && Full(m, p.value, path)) || (sticky.Some? && Full(m, sticky.value, path));
    assert Later(m, sticky, path) <==> exists i :: 1 <= i <= |path| && AnyCovers(m, stickies, path[i..]);
  }
}
