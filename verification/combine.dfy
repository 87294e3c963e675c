/**
 * `compare2` / `compare3`: intersect result lists of the walkers, keeping
 * the order of the first list. Files are compared with `File.equals`, that
 * is by path, so the lists hold paths.
 */
module Combine {
  import opened Tree
  import opened Criteria
  import opened Search

  /** The entries of `xs`, in order, that also occur in `ys`. */
  function Keep(xs: seq<string>, ys: seq<string>): (r: seq<string>)
    ensures |r| <= |xs|
    ensures forall p :: p in r <==> p in xs && p in ys
  {
    if xs == [] then []
    else
      var last := xs[|xs| - 1];
      Keep(xs[..|xs| - 1], ys) + (if last in ys then [last] else [])
  }

  /** The entries of `xs`, in order, that occur both in `ys` and in `zs`. */
  function KeepBoth(xs: seq<string>, ys: seq<string>, zs: seq<string>): (r: seq<string>)
    ensures |r| <= |xs|
  {
    if xs == [] then []
    else
      var last := xs[|xs| - 1];
      KeepBoth(xs[..|xs| - 1], ys, zs) + (if last in ys && last in zs then [last] else [])
  }

  /**
   * `compare2(c1, c2)`: for each entry of `c1`, scan `c2` until an equal
   * entry is found and append that entry.
   */
  method Compare2(c1: seq<string>, c2: seq<string>) returns (result: seq<string>)
    ensures result == Keep(c1, c2)
  {
    result := [];
    var i := 0;
    while i < |c1|
      invariant 0 <= i <= |c1|
      invariant result == Keep(c1[..i], c2)
    {
      var trouve := false;
      var f1 := c1[i];
      var j := 0;
      while j < |c2| && !trouve
        invariant 0 <= j <= |c2|
        invariant trouve <==> f1 in c2[..j]
        invariant result == Keep(c1[..i], c2) + (if trouve then [f1] else [])
      {
        var f2 := c2[j];
        if f2 == f1 {
          result := result + [f2];
          trouve := true;
        }
        assert c2[..j + 1] == c2[..j] + [f2];
        j := j + 1;
      }
      assert !trouve ==> c2[..j] == c2;
      assert c1[..i + 1][..i] == c1[..i];
      i := i + 1;
    }
    assert c1[..i] == c1;
  }

  /**
   * `compare3(c1, c2, c3)`: for each entry of `c1`, scan every pair of
   * entries of `c2` and `c3` until both equal it, and append it.
   */
  method Compare3(c1: seq<string>, c2: seq<string>, c3: seq<string>) returns (result: seq<string>)
    ensures result == KeepBoth(c1, c2, c3)
  {
    result := [];
    var i := 0;
    while i < |c1|
      invariant 0 <= i <= |c1|
      invariant result == KeepBoth(c1[..i], c2, c3)
    {
      var f1 := c1[i];
      var trouve := false;
      var j := 0;
      while j < |c2| && !trouve
        invariant 0 <= j <= |c2|
        invariant trouve <==> f1 in c2[..j] && f1 in c3
        invariant result == KeepBoth(c1[..i], c2, c3) + (if trouve then [f1] else [])
      {
        var f2 := c2[j];
        var l := 0;
        while l < |c3| && !trouve
          invariant 0 <= l <= |c3|
          invariant trouve <==> f1 == f2 && f1 in c3[..l]
          invariant result == KeepBoth(c1[..i], c2, c3) + (if trouve then [f1] else [])
        {
          var f3 := c3[l];
          if f1 == f2 && f2 == f3 {
            result := result + [f1];
            trouve := true;
          }
          assert c3[..l + 1] == c3[..l] + [f3];
          l := l + 1;
        }
        assert !trouve ==> c3[..l] == c3;
        assert c2[..j + 1] == c2[..j] + [f2];
        j := j + 1;
      }
      assert !trouve ==> c2[..j] == c2;
      assert c1[..i + 1][..i] == c1[..i];
      i := i + 1;
    }
    assert c1[..i] == c1;
  }

  /** `compare3` is `compare2` applied twice. */
  lemma {:induction false} KeepBothIsKeepTwice(xs: seq<string>, ys: seq<string>, zs: seq<string>)
    ensures KeepBoth(xs, ys, zs) == Keep(Keep(xs, ys), zs)
    decreases |xs|
  {
    if xs != [] {
      var init, last := xs[..|xs| - 1], xs[|xs| - 1];
      KeepBothIsKeepTwice(init, ys, zs);
      KeepAppend(Keep(init, ys), if last in ys then [last] else [], zs);
    }
  }

  lemma {:induction false} KeepAppend(a: seq<string>, b: seq<string>, ys: seq<string>)
    ensures Keep(a + b, ys) == Keep(a, ys) + Keep(b, ys)
    decreases |b|
  {
    if b == [] {
      assert a + b == a;
    } else {
      var b' := b[..|b| - 1];
      assert (a + b)[..|a + b| - 1] == a + b';
      KeepAppend(a, b', ys);
    }
  }

  /** A list all of whose entries occur in `ys` is kept whole; in particular `Keep(xs, xs) == xs`. */
  lemma {:induction false} KeepAll(xs: seq<string>, ys: seq<string>)
    requires forall p :: p in xs ==> p in ys
    ensures Keep(xs, ys) == xs
    decreases |xs|
  {
    if xs != [] {
      var init, last := xs[..|xs| - 1], xs[|xs| - 1];
      assert xs == init + [last];
      KeepAll(init, ys);
      assert last in ys;
    }
  }

  /** Only membership in `ys` matters, not its order or repetitions. */
  lemma {:induction false} KeepDependsOnMembership(xs: seq<string>, ys: seq<string>, zs: seq<string>)
    requires forall p :: p in xs ==> (p in ys <==> p in zs)
    ensures Keep(xs, ys) == Keep(xs, zs)
    decreases |xs|
  {
    if xs != [] {
      KeepDependsOnMembership(xs[..|xs| - 1], ys, zs);
    }
  }

  /** Every test of `cs` runs on every file of the list without throwing. */
  predicate DefinedForAll(files: seq<Node>, cs: seq<Criterion>)
  {
    forall i :: 0 <= i < |cs| ==> AllDefined(files, cs[i])
  }

  lemma DefinedForAllInit(files: seq<Node>, cs: seq<Criterion>)
    requires files != [] && DefinedForAll(files, cs)
    ensures DefinedForAll(files[..|files| - 1], cs)
    ensures forall i :: 0 <= i < |cs| ==> Defined(files[|files| - 1], cs[i])
  {
    forall i | 0 <= i < |cs| ensures AllDefined(files[..|files| - 1], cs[i]) {
      AllDefinedAppend(files[..|files| - 1], [files[|files| - 1]], cs[i]);
      assert files == files[..|files| - 1] + [files[|files| - 1]];
    }
  }

  /** The file passes every test of `cs`. */
  predicate PassesAll(f: Node, cs: seq<Criterion>)
    requires forall i :: 0 <= i < |cs| ==> Defined(f, cs[i])
  {
    forall i :: 0 <= i < |cs| ==> Satisfies(f, cs[i])
  }

  /** The files passing every test of `cs`, in list order. */
  function SelectAll(files: seq<Node>, cs: seq<Criterion>): (r: seq<Node>)
    requires DefinedForAll(files, cs)
    ensures |r| <= |files|
    ensures (forall k :: 0 <= k < |files| ==> files[k].File?) ==> forall k :: 0 <= k < |r| ==> r[k].File?
  {
    if files == [] then []
    else
      DefinedForAllInit(files, cs);
      var init, last := files[..|files| - 1], files[|files| - 1];
      SelectAll(init, cs) + (if PassesAll(last, cs) then [last] else [])
  }

  /** A file is kept exactly when it is listed and passes every test. */
  lemma {:induction false} SelectAllMembers(files: seq<Node>, cs: seq<Criterion>, x: Node)
    requires DefinedForAll(files, cs)
    ensures x in SelectAll(files, cs) <==>
      x in files && (forall i :: 0 <= i < |cs| ==> Defined(x, cs[i])) && PassesAll(x, cs)
    decreases |files|
  {
    if files != [] {
      DefinedForAllInit(files, cs);
      var init := files[..|files| - 1];
      SelectAllMembers(init, cs, x);
      assert files == init + [files[|files| - 1]];
      if x in files {
        var k :| 0 <= k < |files| && files[k] == x;
        assert forall i :: 0 <= i < |cs| ==> Defined(x, cs[i]);
      }
    }
  }

  /** With no test at all every file is kept. */
  lemma {:induction false} SelectAllNone(files: seq<Node>)
    ensures DefinedForAll(files, []) && SelectAll(files, []) == files
    decreases |files|
  {
    if files != [] {
      SelectAllNone(files[..|files| - 1]);
      assert files == files[..|files| - 1] + [files[|files| - 1]];
    }
  }

  /** The last file's path is new to the rest of a list with unique paths. */
  lemma LastPathIsNew(files: seq<Node>)
    requires forall k :: 0 <= k < |files| ==> files[k].File?
    requires files != [] && UniquePaths(files)
    ensures UniquePaths(files[..|files| - 1])
    ensures forall g :: g in files[..|files| - 1] ==> g.path != files[|files| - 1].path
  {
    var n := |files| - 1;
    forall g | g in files[..n] ensures g.path != files[n].path {
      var k :| 0 <= k < n && files[..n][k] == g;
      assert files[k] == g;
    }
  }

  /** A path reported from a sub-list of `files` is the path of a file in `files`. */
  lemma PathFromSubList(sub: seq<Node>, files: seq<Node>, p: string)
    requires forall k :: 0 <= k < |sub| ==> sub[k].File?
    requires forall g :: g in sub ==> g in files
    requires p in Paths(sub)
    ensures exists g :: g in files && g.File? && g.path == p
  {
    PathsMembership(sub, p);
    var k :| 0 <= k < |sub| && sub[k].File? && sub[k].path == p;
    assert sub[k] in files;
  }

  lemma DefinedForAllSnoc(files: seq<Node>, cs: seq<Criterion>, c: Criterion)
    requires DefinedForAll(files, cs) && AllDefined(files, c)
    ensures DefinedForAll(files, cs + [c])
  {
    var both := cs + [c];
    forall i | 0 <= i < |both| ensures AllDefined(files, both[i]) {
      if i < |cs| {
        assert both[i] == cs[i];
      }
    }
  }

  /** Neither the files kept so far nor the walk over the rest report the last file's path. */
  lemma LastNotReported(files: seq<Node>, cs: seq<Criterion>, c: Criterion)
    requires forall k :: 0 <= k < |files| ==> files[k].File?
    requires files != [] && UniquePaths(files)
    requires DefinedForAll(files[..|files| - 1], cs) && AllDefined(files[..|files| - 1], c)
    ensures files[|files| - 1].path !in Paths(Select(files[..|files| - 1], c))
    ensures files[|files| - 1].path !in Paths(SelectAll(files[..|files| - 1], cs))
  {
    var init, x := files[..|files| - 1], files[|files| - 1];
    LastPathIsNew(files);
    var sel, selAll := Select(init, c), SelectAll(init, cs);
    if x.path in Paths(sel) {
      forall g | g in sel ensures g in init {
        SelectMembers(init, c, g);
      }
      PathFromSubList(sel, init, x.path);
    }
    if x.path in Paths(selAll) {
      forall g | g in selAll ensures g in init {
        SelectAllMembers(init, cs, g);
      }
      PathFromSubList(selAll, init, x.path);
    }
  }

  lemma PassesAllSnoc(x: Node, cs: seq<Criterion>, c: Criterion)
    requires forall i :: 0 <= i < |cs| ==> Defined(x, cs[i])
    requires Defined(x, c)
    ensures forall i :: 0 <= i < |cs + [c]| ==> Defined(x, (cs + [c])[i])
    ensures PassesAll(x, cs + [c]) <==> PassesAll(x, cs) && Satisfies(x, c)
  {
    var both := cs + [c];
    assert both[|cs|] == c;
    assert forall i :: 0 <= i < |cs| ==> both[i] == cs[i];
  }

  /** Adding a new path at the end of both lists keeps it exactly when both hold it. */
  lemma KeepSnoc(a: seq<string>, y0: seq<string>, p: string, inA: bool, inY: bool)
    requires p !in a && p !in y0
    ensures Keep(a + (if inA then [p] else []), y0 + (if inY then [p] else []))
      == Keep(a, y0) + (if inA && inY then [p] else [])
  {
    var y := y0 + (if inY then [p] else []);
    KeepDependsOnMembership(a, y, y0);
    KeepAppend(a, if inA then [p] else [], y);
    if inA {
      assert [p][..0] == [];
      assert Keep([p], y) == Keep([], y) + (if p in y then [p] else []);
    }
  }

  /** The paths one test reports, split into the rest of the list and its last file. */
  lemma SelectSnoc(files: seq<Node>, c: Criterion)
    requires forall k :: 0 <= k < |files| ==> files[k].File?
    requires files != [] && AllDefined(files, c)
    ensures AllDefined(files[..|files| - 1], c) && Defined(files[|files| - 1], c)
    ensures Paths(Select(files, c)) == Paths(Select(files[..|files| - 1], c))
      + (if Satisfies(files[|files| - 1], c) then [files[|files| - 1].path] else [])
  {
    var n := |files| - 1;
    var init, x := files[..n], files[n];
    assert files == init + [x];
    AllDefinedAppend(init, [x], c);
    PathsAppend(Select(init, c), if Satisfies(x, c) then [x] else []);
  }

  /** The paths every test of `cs` keeps, split into the rest of the list and its last file. */
  lemma SelectAllSnoc(files: seq<Node>, cs: seq<Criterion>)
    requires forall k :: 0 <= k < |files| ==> files[k].File?
    requires files != [] && DefinedForAll(files, cs)
    ensures DefinedForAll(files[..|files| - 1], cs)
    ensures Paths(SelectAll(files, cs)) == Paths(SelectAll(files[..|files| - 1], cs))
      + (if PassesAll(files[|files| - 1], cs) then [files[|files| - 1].path] else [])
  {
    var n := |files| - 1;
    var init, x := files[..n], files[n];
    DefinedForAllInit(files, cs);
    var tail := if PassesAll(x, cs) then [x] else [];
    assert SelectAll(files, cs) == SelectAll(init, cs) + tail;
    PathsAppend(SelectAll(init, cs), tail);
  }

  /**
   * With paths unique, narrowing the files that pass `cs` by the walk for
   * `c` leaves exactly the files that pass `cs` and `c`, in walk order.
   */
  lemma {:induction false} KeepNarrows(files: seq<Node>, cs: seq<Criterion>, c: Criterion)
    requires forall k :: 0 <= k < |files| ==> files[k].File?
    requires UniquePaths(files)
    requires DefinedForAll(files, cs) && AllDefined(files, c)
    ensures DefinedForAll(files, cs + [c])
    ensures Keep(Paths(SelectAll(files, cs)), Paths(Select(files, c))) == Paths(SelectAll(files, cs + [c]))
    decreases |files|
  {
    DefinedForAllSnoc(files, cs, c);
    if files != [] {
      var n := |files| - 1;
      var init, x := files[..n], files[n];
      SelectSnoc(files, c);
      SelectAllSnoc(files, cs);
      SelectAllSnoc(files, cs + [c]);
      DefinedForAllInit(files, cs);
      LastPathIsNew(files);
      KeepNarrows(init, cs, c);
      LastNotReported(files, cs, c);
      PassesAllSnoc(x, cs, c);
      KeepSnoc(Paths(SelectAll(init, cs)), Paths(Select(init, c)), x.path, PassesAll(x, cs), Satisfies(x, c));
    }
  }

  /**
   * `resultat` in the GUI search: the full listing, narrowed with `compare2`
   * by the walk of each test of `cs` in turn.
   */
  function Narrowed(files: seq<Node>, cs: seq<Criterion>): seq<string>
    requires forall k :: 0 <= k < |files| ==> files[k].File?
    requires DefinedForAll(files, cs)
  {
    if cs == [] then Paths(files)
    else
      assert DefinedForAll(files, cs[..|cs| - 1]);
      Keep(Narrowed(files, cs[..|cs| - 1]), Paths(Select(files, cs[|cs| - 1])))
  }

  /** With paths unique, successive narrowing keeps exactly the files passing every test. */
  lemma {:induction false} NarrowedMeans(files: seq<Node>, cs: seq<Criterion>)
    requires forall k :: 0 <= k < |files| ==> files[k].File?
    requires UniquePaths(files) && DefinedForAll(files, cs)
    ensures Narrowed(files, cs) == Paths(SelectAll(files, cs))
    decreases |cs|
  {
    if cs == [] {
      SelectAllNone(files);
    } else {
      var init, c := cs[..|cs| - 1], cs[|cs| - 1];
      assert init + [c] == cs;
      assert DefinedForAll(files, init) && AllDefined(files, c);
      assert Narrowed(files, cs) == Keep(Narrowed(files, init), Paths(Select(files, c)));
      NarrowedMeans(files, init);
      KeepNarrows(files, init, c);
    }
  }
}
