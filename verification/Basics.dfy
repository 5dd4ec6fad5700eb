/** What several modules use. */
module Basics {

  datatype Option<T> = None | Some(value: T)

  predicate Distinct<T(==)>(s: seq<T>) { forall i, j :: 0 <= i < j < |s| ==> s[i] != s[j] }

  /** One after the other. */
  function Flat<T>(ss: seq<seq<T>>): seq<T> {
    if ss == [] then [] else Flat(ss[..|ss| - 1]) + ss[|ss| - 1]
  }

  lemma FlatAppend<T>(ss: seq<seq<T>>, s: seq<T>)
    ensures Flat(ss + [s]) == Flat(ss) + s
  {
    assert (ss + [s])[..|ss|] == ss;
  }

  lemma {:induction false} FlatConcat<T>(a: seq<seq<T>>, b: seq<seq<T>>)
    ensures Flat(a + b) == Flat(a) + Flat(b)
    decreases |b|
  {
    if b == [] {
      assert a + b == a;
    } else {
      var n := |b| - 1;
      assert (a + b)[..|a| + n] == a + b[..n];
      FlatConcat(a, b[..n]);
    }
  }

  lemma FlatSplit<T>(ss: seq<seq<T>>, i: nat)
    requires i <= |ss|
    ensures |Flat(ss[..i])| <= |Flat(ss)| && Flat(ss)[|Flat(ss[..i])|..] == Flat(ss[i..])
    ensures Flat(ss) == Flat(ss[..i]) + Flat(ss[i..])
  {
    assert ss == ss[..i] + ss[i..];
    FlatConcat(ss[..i], ss[i..]);
  }
}
