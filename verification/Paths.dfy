/** Slash-separated paths as sequences of components. */
module Paths {
  import opened Bytes

  type Path = seq<Byte>   // a C string without its terminator

  const SLASH: Byte := 47
  const DOT: Byte := 46

  /** Length of the leading run of non-slash bytes. */
  function CompLen(p: Path): (n: nat)
    ensures n <= |p| && forall i :: 0 <= i < n ==> p[i] != SLASH
    ensures n < |p| ==> p[n] == SLASH
  {
    if p == [] || p[0] == SLASH then 0 else 1 + CompLen(p[1..])
  }

  /** The non-empty components of a path. */
  function Comps(p: Path): seq<Name>
    decreases |p|
  {
    if p == [] then []
    else if p[0] == SLASH then Comps(p[1..])
    else [p[..CompLen(p)]] + Comps(p[CompLen(p)..])
  }

  ghost predicate SlashFree(n: Name) { forall i :: 0 <= i < |n| ==> n[i] != SLASH }

  lemma {:induction false} CompLenIs(p: Path, n: nat)
    requires n <= |p| && (forall i :: 0 <= i < n ==> p[i] != SLASH) && (n < |p| ==> p[n] == SLASH)
    ensures CompLen(p) == n
  {}

  lemma {:induction false} CompsJoin(a: Path, b: Path)
    ensures Comps(a + [SLASH] + b) == Comps(a) + Comps(b)
    decreases |a|
  {
    var p := a + [SLASH] + b;
    if a == [] {
      assert p[1..] == b;
    } else if a[0] == SLASH {
      assert p[1..] == a[1..] + [SLASH] + b;
      CompsJoin(a[1..], b);
    } else {
      var n := CompLen(a);
      CompLenIs(p, n);
      CompsStep(p);
      CompsStep(a);
      hide Comps, CompLen;
      assert p[..n] == a[..n] && p[n..] == a[n..] + [SLASH] + b;
      CompsJoin(a[n..], b);
    }
  }

  lemma CompsStep(p: Path)
    requires p != [] && p[0] != SLASH
    ensures CompLen(p) > 0 && Comps(p) == [p[..CompLen(p)]] + Comps(p[CompLen(p)..])
  {}

  lemma CompsOfName(n: Name)
    requires n != [] && SlashFree(n)
    ensures Comps(n) == [n]
  {
    CompLenIs(n, |n|);
    assert n[..|n|] == n && n[|n|..] == [];
  }

  lemma {:induction false} CompsAreNames(p: Path)
    ensures forall i :: 0 <= i < |Comps(p)| ==> Comps(p)[i] != [] && SlashFree(Comps(p)[i])
    decreases |p|
  {
    if p == [] {
    } else if p[0] == SLASH {
      CompsAreNames(p[1..]);
    } else {
      CompsAreNames(p[CompLen(p)..]);
    }
  }

  lemma {:induction false} CompsShort(p: Path)
    ensures forall i :: 0 <= i < |Comps(p)| ==> |Comps(p)[i]| <= |p|
    decreases |p|
  {
    if p == [] {
    } else if p[0] == SLASH {
      CompsShort(p[1..]);
    } else {
      CompsShort(p[CompLen(p)..]);
    }
  }

  /** A path cut at its last slash. */
  lemma CompsSplit(path: Path, last: nat)
    requires last < |path| && path[last] == SLASH && SlashFree(path[last + 1..])
    ensures Comps(path) == Comps(path[..last]) + if path[last + 1..] == [] then [] else [path[last + 1..]]
  {
    var name := path[last + 1..];
    assert path == path[..last] + [SLASH] + name;
    CompsJoin(path[..last], name);
    if name != [] { CompsOfName(name); }
  }

  lemma CompsOfRoot()
    ensures Comps([SLASH]) == [] && Comps([]) == []
  {
    assert [SLASH][1..] == [];
  }

  /** path_split: parent directory and leaf name. A path without any slash loses its first byte. */
  method PathSplit(path: Path) returns (ok: bool, parent: Path, name: Name)
    requires path != []
    ensures ok <==> 0 < |name| <= 254
    ensures SlashFree(name) && parent != [] && |parent| <= |path|
    ensures SLASH in path ==>
      && (name == [] <==> path[|path| - 1] == SLASH) && parent[0] == path[0]
      && Comps(path) == Comps(parent) + if name == [] then [] else [name]
    ensures SLASH !in path ==> parent == [SLASH] && name == path[1..]
  {
    hide Comps;
    var last, i := 0, 0;
    while i < |path|
      invariant 0 <= i <= |path| && 0 <= last < |path| && (last == 0 || last < i)
      invariant path[last] == SLASH || (last == 0 && SLASH !in path[..i])
      invariant forall j :: last < j < i ==> path[j] != SLASH
    {
      if path[i] == SLASH { last := i; }
      i := i + 1;
    }
    assert path[..|path|] == path;
    name := path[last + 1..];
    ok := 0 < |name| <= 254;
    parent := if last == 0 then [SLASH] else path[..last];
    if path[last] == SLASH { CompsSplit(path, last); }
    CompsOfRoot();
    assert path[..0] == [];
  }
}
