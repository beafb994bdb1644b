/** Path normalisation (vfs_resolve, kernel/fs/vfs.c). */
module VfsPath {
  import opened Bytes
  import opened Paths

  const TMP_SIZE: nat := 512

  datatype Arg = Null | Str(s: Path)

  const DOT_NAME: Name := [DOT]
  const DOTDOT: Name := [DOT, DOT]

  function Prefix(s: Path, n: nat): (r: Path)
    ensures |r| <= n && |r| <= |s|
  {
    if |s| <= n then s else s[..n]
  }

  /** The contents of `tmp`: an absolute path as it is, else the working directory, a slash if it lacks
      one, and the path; cut at 511 bytes. */
  function Joined(path: Arg, cwd: Path): (r: Path)
    ensures |r| < TMP_SIZE
    ensures (cwd == [] || cwd[0] == SLASH) ==> r != [] && r[0] == SLASH
  {
    if path.Str? && path.s != [] && path.s[0] == SLASH then Prefix(path.s, TMP_SIZE - 1)
    else
      var c := Prefix(cwd, TMP_SIZE - 1);
      var d := if (c == [] || c[|c| - 1] != SLASH) && |c| < TMP_SIZE - 1 then c + [SLASH] else c;
      if path.Str? then d + Prefix(path.s, TMP_SIZE - 1 - |d|) else d
  }

  predicate IsAbsolute(s: Path) { s != [] && s[0] == SLASH }

  /** The path meant, of whatever length: an absolute one is itself, another continues the working directory. */
  function Whole(path: Arg, cwd: Path): Path {
    if path.Str? && IsAbsolute(path.s) then path.s
    else (if cwd != [] && cwd[|cwd| - 1] == SLASH then cwd else cwd + [SLASH]) + if path.Str? then path.s else []
  }

  /** `tmp` holds the first 511 bytes of the path meant, so that nothing is cut exactly if it is no longer. */
  lemma JoinedIsPrefix(path: Arg, cwd: Path)
    ensures Joined(path, cwd) == Prefix(Whole(path, cwd), TMP_SIZE - 1)
    ensures Joined(path, cwd) == Whole(path, cwd) <==> |Whole(path, cwd)| < TMP_SIZE
  {
    hide Prefix;
    var n := TMP_SIZE - 1;
    if path.Str? && IsAbsolute(path.s) {
      PrefixJoin(path.s, [], n);
    } else {
      var t := if path.Str? then path.s else [];
      var w := if cwd != [] && cwd[|cwd| - 1] == SLASH then cwd else cwd + [SLASH];
      PrefixJoin(cwd, [], n);
      PrefixJoin(w + t, [], n);
      PrefixJoin(t, [], n);
      if |cwd| < n {
        PrefixJoin(w, t, n);
      } else {
        PrefixJoin(cwd, (if w == cwd then [] else [SLASH]) + t, n);
        assert w + t == cwd + ((if w == cwd then [] else [SLASH]) + t);
      }
    }
  }

  lemma PrefixJoin(a: Path, b: Path, n: nat)
    ensures |a| <= n ==> Prefix(a, n) == a && Prefix(a + b, n) == a + Prefix(b, n - |a|)
    ensures |a| >= n ==> Prefix(a + b, n) == Prefix(a, n) && |Prefix(a, n)| == n
    ensures Prefix(a, 0) == []
  {}

  /** The components meant: those of an absolute path alone, else the working directory's and then the path's. */
  function Meant(path: Arg, cwd: Path): seq<Name> {
    if path == Null then Comps(cwd) else if IsAbsolute(path.s) then Comps(path.s) else Comps(cwd) + Comps(path.s)
  }

  lemma WholeComps(path: Arg, cwd: Path)
    ensures Comps(Whole(path, cwd)) == Meant(path, cwd)
  {
    hide Comps;
    if !(path.Str? && IsAbsolute(path.s)) {
      var t := if path.Str? then path.s else [];
      CompsOfRoot();
      if cwd != [] && cwd[|cwd| - 1] == SLASH {
        var c := cwd[..|cwd| - 1];
        assert cwd == c + [SLASH] + [] && cwd + t == c + [SLASH] + t;
        CompsJoin(c, []);
        CompsJoin(c, t);
      } else {
        CompsJoin(cwd, t);
      }
    }
  }

  /** "/a/b" for [a, b]; nothing for an empty stack. */
  function Flat(stack: seq<Name>): Path {
    if stack == [] then [] else Flat(stack[..|stack| - 1]) + [SLASH] + stack[|stack| - 1]
  }

  function Rendered(stack: seq<Name>): Path { if stack == [] then [SLASH] else Flat(stack) }

  function Pop(stack: seq<Name>): seq<Name> { if stack == [] then [] else stack[..|stack| - 1] }

  /** Stack evaluation of components: "." stays, ".." pops, anything else is pushed. */
  function Eval(stack: seq<Name>, comps: seq<Name>): seq<Name>
    decreases |comps|
  {
    if comps == [] then stack
    else if comps[0] == DOT_NAME then Eval(stack, comps[1..])
    else if comps[0] == DOTDOT then Eval(Pop(stack), comps[1..])
    else Eval(stack + [comps[0]], comps[1..])
  }

  /** The same with the overflow guard for a buffer of `size` bytes, which ends the evaluation. */
  function EvalGuarded(stack: seq<Name>, comps: seq<Name>, size: nat): seq<Name>
    decreases |comps|
  {
    if comps == [] then stack
    else if comps[0] == DOT_NAME then EvalGuarded(stack, comps[1..], size)
    else if comps[0] == DOTDOT then EvalGuarded(Pop(stack), comps[1..], size)
    else if |Flat(stack)| + |comps[0]| + 1 >= size then stack
    else EvalGuarded(stack + [comps[0]], comps[1..], size)
  }

  ghost predicate AreNames(l: seq<Name>) { forall i :: 0 <= i < |l| ==> l[i] != [] && SlashFree(l[i]) }

  ghost predicate NoDots(l: seq<Name>) { forall i :: 0 <= i < |l| ==> l[i] != DOT_NAME && l[i] != DOTDOT }

  lemma FlatPush(stack: seq<Name>, c: Name)
    ensures Flat(stack + [c]) == Flat(stack) + [SLASH] + c
  {}

  // ---- What evaluation means -----------------------------------------------------------------

  /** The stack after one component. */
  function Next(stack: seq<Name>, c: Name): seq<Name> {
    if c == DOT_NAME then stack else if c == DOTDOT then Pop(stack) else stack + [c]
  }

  lemma EvalStep(stack: seq<Name>, c: Name, rest: seq<Name>)
    ensures Eval(stack, [c] + rest) == Eval(Next(stack, c), rest)
  {
    assert ([c] + rest)[1..] == rest;
  }

  lemma {:induction false} EvalConcat(stack: seq<Name>, a: seq<Name>, b: seq<Name>)
    ensures Eval(stack, a + b) == Eval(Eval(stack, a), b)
    decreases |a|
  {
    if a == [] {
      assert a + b == b;
    } else {
      assert a == [a[0]] + a[1..] && a + b == [a[0]] + (a[1..] + b);
      EvalStep(stack, a[0], a[1..]);
      EvalStep(stack, a[0], a[1..] + b);
      EvalConcat(Next(stack, a[0]), a[1..], b);
    }
  }

  /** ".." takes back the name before it, wherever the two stand. */
  lemma ParentOfChild(stack: seq<Name>, a: seq<Name>, n: Name, b: seq<Name>)
    requires n != DOT_NAME && n != DOTDOT
    ensures Eval(stack, a + [n, DOTDOT] + b) == Eval(stack, a + b)
  {
    EvalConcat(stack, a + [n, DOTDOT], b);
    EvalConcat(stack, a, [n, DOTDOT]);
    EvalConcat(stack, a, b);
    var top := Eval(stack, a);
    assert [n, DOTDOT] == [n] + ([DOTDOT] + []);
    EvalStep(top, n, [DOTDOT] + []);
    EvalStep(top + [n], DOTDOT, []);
  }

  /** The root is its own parent. */
  lemma ParentOfRoot(b: seq<Name>)
    ensures Eval([], [DOTDOT] + b) == Eval([], b)
  {
    assert ([DOTDOT] + b)[1..] == b;
  }

  /** "." drops out. */
  lemma SameDirectory(stack: seq<Name>, a: seq<Name>, b: seq<Name>)
    ensures Eval(stack, a + [DOT_NAME] + b) == Eval(stack, a + b)
  {
    EvalConcat(stack, a + [DOT_NAME], b);
    EvalConcat(stack, a, [DOT_NAME]);
    EvalConcat(stack, a, b);
    assert [DOT_NAME][1..] == [];
  }

  // ---- The overflow guard -----------------------------------------------------------------

  /** In a buffer of any size the evaluation goes as far as the first name that no longer fits. */
  lemma {:induction false} GuardStops(stack: seq<Name>, comps: seq<Name>, size: nat) returns (i: nat)
    ensures i <= |comps| && EvalGuarded(stack, comps, size) == Eval(stack, comps[..i])
    ensures i < |comps| ==>
      && comps[i] != DOT_NAME && comps[i] != DOTDOT
      && |Flat(Eval(stack, comps[..i]))| + 1 + |comps[i]| >= size
    ensures forall j :: 0 <= j < i && comps[j] != DOT_NAME && comps[j] != DOTDOT ==>
      |Flat(Eval(stack, comps[..j]))| + 1 + |comps[j]| < size
    decreases |comps|
  {
    assert comps[..0] == [] && Eval(stack, []) == stack;
    hide Flat, Eval, Next;
    i := 0;
    if comps != [] && (comps[0] == DOT_NAME || comps[0] == DOTDOT || |Flat(stack)| + |comps[0]| + 1 < size) {
      GuardStep(stack, comps, size);
      var m := GuardStops(Next(stack, comps[0]), comps[1..], size);
      i := m + 1;
      EvalTake(stack, comps, i);
      hide EvalGuarded;
      forall j | 0 <= j < i && comps[j] != DOT_NAME && comps[j] != DOTDOT
        ensures |Flat(Eval(stack, comps[..j]))| + 1 + |comps[j]| < size
      {
        if j > 0 {
          EvalTake(stack, comps, j);
          assert comps[1..][j - 1] == comps[j];
        }
      }
    }
  }

  lemma GuardStep(stack: seq<Name>, comps: seq<Name>, size: nat)
    requires comps != [] && (comps[0] == DOT_NAME || comps[0] == DOTDOT || |Flat(stack)| + |comps[0]| + 1 < size)
    ensures EvalGuarded(stack, comps, size) == EvalGuarded(Next(stack, comps[0]), comps[1..], size)
  {}

  lemma EvalTake(stack: seq<Name>, comps: seq<Name>, j: nat)
    requires 0 < j <= |comps|
    ensures Eval(stack, comps[..j]) == Eval(Next(stack, comps[0]), comps[1..][..j - 1])
  {
    assert comps[..j] == [comps[0]] + comps[1..][..j - 1];
    EvalStep(stack, comps[0], comps[1..][..j - 1]);
  }

  /** Bytes needed to push all components. */
  function Cost(comps: seq<Name>): nat {
    if comps == [] then 0 else |comps[0]| + 1 + Cost(comps[1..])
  }

  lemma {:induction false} CostOfPath(p: Path)
    ensures Cost(Comps(p)) <= |p| + if p != [] && p[0] != SLASH then 1 else 0
    decreases |p|
  {
    if p == [] {
    } else if p[0] == SLASH {
      CostOfPath(p[1..]);
      if |p| > 1 && p[1] != SLASH {
        assert p[1..][0] == p[1];
      }
    } else {
      var n := CompLen(p);
      CostOfPath(p[n..]);
      assert Comps(p)[1..] == Comps(p[n..]);
    }
  }

  /** A buffer larger than what is still to be pushed never trips the guard. */
  lemma {:induction false} GuardNeverFires(stack: seq<Name>, comps: seq<Name>, size: nat)
    requires |Flat(stack)| + Cost(comps) < size
    ensures EvalGuarded(stack, comps, size) == Eval(stack, comps)
    ensures |Flat(Eval(stack, comps))| <= |Flat(stack)| + Cost(comps)
    decreases |comps|
  {
    if comps != [] {
      if comps[0] == DOT_NAME {
        GuardNeverFires(stack, comps[1..], size);
      } else if comps[0] == DOTDOT {
        GuardNeverFires(Pop(stack), comps[1..], size);
      } else {
        FlatPush(stack, comps[0]);
        GuardNeverFires(stack + [comps[0]], comps[1..], size);
      }
    }
  }

  // ---- Normal forms -------------------------------------------------------------------------

  lemma {:induction false} EvalNormal(stack: seq<Name>, comps: seq<Name>)
    requires AreNames(stack) && NoDots(stack) && AreNames(comps)
    ensures AreNames(Eval(stack, comps)) && NoDots(Eval(stack, comps))
    decreases |comps|
  {
    if comps != [] {
      if comps[0] == DOT_NAME {
        EvalNormal(stack, comps[1..]);
      } else if comps[0] == DOTDOT {
        EvalNormal(Pop(stack), comps[1..]);
      } else {
        EvalNormal(stack + [comps[0]], comps[1..]);
      }
    }
  }

  lemma {:induction false} EvalOfNormal(stack: seq<Name>, comps: seq<Name>)
    requires NoDots(comps)
    ensures Eval(stack, comps) == stack + comps
    decreases |comps|
  {
    if comps != [] {
      EvalOfNormal(stack + [comps[0]], comps[1..]);
      assert stack + [comps[0]] + comps[1..] == stack + comps;
    }
  }

  lemma {:induction false} CompsOfFlat(stack: seq<Name>)
    requires AreNames(stack)
    ensures Comps(Flat(stack)) == stack
    decreases |stack|
  {
    if stack != [] {
      var init, last := stack[..|stack| - 1], stack[|stack| - 1];
      CompsOfFlat(init);
      CompsJoin(Flat(init), last);
      CompsOfName(last);
      assert init + [last] == stack;
    }
  }

  lemma {:induction false} FlatStartsWithSlash(stack: seq<Name>)
    requires stack != []
    ensures Flat(stack) != [] && Flat(stack)[0] == SLASH
  {
    if |stack| > 1 { FlatStartsWithSlash(stack[..|stack| - 1]); }
  }

  /** What vfs_resolve yields, seen from its inputs. */
  function Normalised(path: Arg, cwd: Path): Path {
    Rendered(Eval([], Comps(Joined(path, cwd))))
  }

  /** With an absolute working directory: the result is absolute, its components are the evaluated
      stack with no ".", ".." or empty one, it is no longer than the joined input, so a 512-byte
      buffer never trips the guard, and resolving it again changes nothing. */
  lemma NormalisedIsNormal(path: Arg, cwd: Path, cwd': Path)
    requires cwd == [] || cwd[0] == SLASH
    ensures var r, j := Normalised(path, cwd), Joined(path, cwd);
      && r != [] && r[0] == SLASH && |r| <= |j|
      && Comps(r) == Eval([], Comps(j)) && AreNames(Comps(r)) && NoDots(Comps(r))
      && (forall size :: size >= TMP_SIZE ==> EvalGuarded([], Comps(j), size) == Eval([], Comps(j)))
      && Normalised(Str(r), cwd') == r
  {
    var j := Joined(path, cwd);
    var stack := Eval([], Comps(j));
    CostOfPath(j);
    GuardNeverFires([], Comps(j), TMP_SIZE);
    forall size | size >= TMP_SIZE ensures EvalGuarded([], Comps(j), size) == stack {
      GuardNeverFires([], Comps(j), size);
    }
    CompsAreNames(j);
    EvalNormal([], Comps(j));
    var r := Rendered(stack);
    if stack == [] {
      assert r[1..] == [];
    } else {
      FlatStartsWithSlash(stack);
      CompsOfFlat(stack);
    }
    assert Comps(r) == stack;
    assert Joined(Str(r), cwd') == r;
    EvalOfNormal([], stack);
    assert [] + stack == stack;
  }

  // ---- vfs_resolve -----------------------------------------------------------------------------

  /** `out` holds the C string `s`. */
  ghost predicate Holds(out: array<Byte>, s: Path)
    reads out
  {
    |s| < out.Length && out[..|s|] == s && out[|s|] == 0
  }

  /** Cuts the last "/name" off the string in `out`, whose end is at `o`. */
  method PopLast(out: array<Byte>, o: nat, ghost stack: seq<Name>) returns (o': nat)
    requires AreNames(stack) && Holds(out, Flat(stack)) && o == |Flat(stack)|
    modifies out
    ensures Holds(out, Flat(Pop(stack))) && o' == |Flat(Pop(stack))|
  {
    ghost var s, base := Flat(stack), |Flat(Pop(stack))|;
    assert forall i :: 0 <= i < o ==> out[i] == s[i] by { assert forall i :: 0 <= i < o ==> out[..o][i] == s[i]; }
    o' := 0;
    var r := 0;
    while r < o
      invariant 0 <= r <= o && o' < out.Length
      invariant stack == [] ==> o' == 0
      invariant stack != [] && r <= base ==> o' <= r
      invariant stack != [] && r > base ==> o' == base
    {
      if stack != [] {
        assert s == Flat(Pop(stack)) + [SLASH] + stack[|stack| - 1];
        assert r > base ==> s[r] == stack[|stack| - 1][r - base - 1];
      }
      if out[r] == SLASH { o' := r; }
      r := r + 1;
    }
    assert s[..base] == Flat(Pop(stack));
    assert out[..base] == s[..base];
    out[o'] := 0;
  }

  /** Appends "/name" to the string in `out`, whose end is at `o`. */
  method PushName(out: array<Byte>, o: nat, name: Name, ghost s: Path) returns (o': nat)
    requires Holds(out, s) && o == |s| && o + |name| + 1 < out.Length
    modifies out
    ensures Holds(out, s + [SLASH] + name) && o' == o + 1 + |name|
  {
    out[o] := SLASH;
    o' := o + 1;
    var i := 0;
    while i < |name|
      invariant 0 <= i <= |name| && o' == o + 1 + i
      invariant out[..o'] == s + [SLASH] + name[..i]
    {
      out[o'] := name[i];
      assert out[..o' + 1] == out[..o'] + [name[i]];
      assert name[..i + 1] == name[..i] + [name[i]];
      o' := o' + 1;
      i := i + 1;
    }
    assert name[..i] == name;
    out[o'] := 0;
    assert out[..o'] == s + [SLASH] + name;
  }

  /** One component of the path, with the rest still to come. */
  method Component(out: array<Byte>, o: nat, name: Name, ghost stack: seq<Name>, ghost rest: seq<Name>)
    returns (o': nat, full: bool, ghost stack': seq<Name>)
    requires AreNames(stack) && Holds(out, Flat(stack)) && o == |Flat(stack)| && name != [] && SlashFree(name)
    modifies out
    ensures AreNames(stack') && Holds(out, Flat(stack')) && o' == |Flat(stack')|
    ensures EvalGuarded(stack, [name] + rest, out.Length) ==
      if full then stack' else EvalGuarded(stack', rest, out.Length)
  {
    hide Flat;
    o', full, stack' := o, false, stack;
    assert ([name] + rest)[1..] == rest;
    if name == DOT_NAME {
    } else if name == DOTDOT {
      o' := PopLast(out, o, stack);
      stack' := Pop(stack);
    } else if o + |name| + 1 >= out.Length {
      full := true;
    } else {
      FlatPush(stack, name);
      o' := PushName(out, o, name, Flat(stack));
      stack' := stack + [name];
    }
  }

  /** vfs_resolve into a buffer of any size from two bytes up. */
  method Resolve(path: Arg, cwd: Path, out: array<Byte>)
    requires out.Length >= 2
    modifies out
    ensures Holds(out, Rendered(EvalGuarded([], Comps(Joined(path, cwd)), out.Length)))
    ensures out.Length >= TMP_SIZE && (cwd == [] || cwd[0] == SLASH) ==> Holds(out, Normalised(path, cwd))
    ensures out.Length >= TMP_SIZE && (cwd == [] || cwd[0] == SLASH) && |Whole(path, cwd)| < TMP_SIZE ==>
      Holds(out, Rendered(Eval([], Meant(path, cwd))))
  {
    hide Joined, Flat, EvalGuarded, CompLen, Eval, Whole, Meant, Normalised;
    var tmp := Joined(path, cwd);
    ghost var all, stack := Comps(tmp), [];
    NormalisedIsNormalIf(path, cwd);
    NormalisedIsMeant(path, cwd);
    FlatNil();
    var o, p, full := 0, 0, false;
    out[0] := 0;
    assert tmp[0..] == tmp;
    while p < |tmp| && !full
      invariant 0 <= p <= |tmp| && AreNames(stack)
      invariant Holds(out, Flat(stack)) && o == |Flat(stack)|
      invariant EvalGuarded([], all, out.Length) ==
        if full then stack else EvalGuarded(stack, Comps(tmp[p..]), out.Length)
      decreases !full, |tmp| - p
    {
      var rest := tmp[p..];
      if tmp[p] == SLASH {
        assert rest[1..] == tmp[p + 1..];
        p := p + 1;
      } else {
        var n := CompLen(rest);
        CompsStep(rest);
        assert rest[n..] == tmp[p + n..];
        CompsAreNames(rest);
        o, full, stack := Component(out, o, rest[..n], stack, Comps(tmp[p + n..]));
        p := p + n;
      }
    }
    if !full {
      assert tmp[p..] == [];
      EvalNothing(stack, out.Length);
    }
    FlatEmpty(stack);
    if out[0] == 0 {
      out[0], out[1] := SLASH, 0;
      assert out[..1] == [SLASH];
    }
  }

  /** Where nothing is cut, what is normalised is what was meant. */
  lemma NormalisedIsMeant(path: Arg, cwd: Path)
    ensures |Whole(path, cwd)| < TMP_SIZE ==> Normalised(path, cwd) == Rendered(Eval([], Meant(path, cwd)))
  {
    hide Joined, Eval, Whole, Meant, Comps;
    JoinedIsPrefix(path, cwd);
    WholeComps(path, cwd);
  }

  lemma EvalNothing(stack: seq<Name>, size: nat)
    ensures Comps([]) == [] && EvalGuarded(stack, [], size) == stack
  {}

  lemma FlatNil() ensures Flat([]) == [] {}

  lemma FlatEmpty(stack: seq<Name>)
    ensures stack != [] ==> Flat(stack) != [] && Flat(stack)[0] == SLASH
  {
    if stack != [] { FlatStartsWithSlash(stack); }
  }

  lemma NormalisedIsNormalIf(path: Arg, cwd: Path)
    ensures cwd == [] || cwd[0] == SLASH ==>
      forall size :: size >= TMP_SIZE ==>
      Rendered(EvalGuarded([], Comps(Joined(path, cwd)), size)) == Normalised(path, cwd)
  {
    if cwd == [] || cwd[0] == SLASH { NormalisedIsNormal(path, cwd, cwd); }
  }
}
