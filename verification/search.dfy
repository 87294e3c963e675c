/**
 * The recursive search walkers `recherche_fichier_*`: list a directory,
 * descend into every sub-directory whose name does not contain "SnapShot",
 * and append each regular file that passes the walker's test to the
 * caller's list, in walk order.
 */
module Search {
  import opened Text
  import opened Tree
  import opened Criteria

  /** The caller's `ArrayList<File>`, holding each file as its path. */
  class FileList {
    var items: seq<string>

    constructor ()
      ensures items == []
    {
      items := [];
    }

    /** `ArrayList.add`. */
    method Add(path: string)
      modifies this
      ensures items == old(items) + [path]
    {
      items := items + [path];
    }
  }

  /** The test runs on every file of the list without throwing. */
  predicate AllDefined(files: seq<Node>, c: Criterion)
  {
    forall k :: 0 <= k < |files| ==> Defined(files[k], c)
  }

  lemma AllDefinedAppend(a: seq<Node>, b: seq<Node>, c: Criterion)
    ensures AllDefined(a + b, c) <==> AllDefined(a, c) && AllDefined(b, c)
  {
    if AllDefined(a + b, c) {
      forall k | 0 <= k < |a| ensures Defined(a[k], c) {
        assert (a + b)[k] == a[k];
      }
      forall k | 0 <= k < |b| ensures Defined(b[k], c) {
        assert (a + b)[|a| + k] == b[k];
      }
    }
    if AllDefined(a, c) && AllDefined(b, c) {
      forall k | 0 <= k < |a + b| ensures Defined((a + b)[k], c) {
        if k < |a| {
          assert (a + b)[k] == a[k];
        } else {
          assert (a + b)[k] == b[k - |a|];
        }
      }
    }
  }

  /** The files of the list that pass the test, in list order. */
  function Select(files: seq<Node>, c: Criterion): (r: seq<Node>)
    requires AllDefined(files, c)
    ensures |r| <= |files|
    ensures forall k :: 0 <= k < |r| ==> Defined(r[k], c) && Satisfies(r[k], c)
  {
    if files == [] then []
    else
      var last := files[|files| - 1];
      Select(files[..|files| - 1], c) + (if Satisfies(last, c) then [last] else [])
  }

  /** A file is selected exactly when it is listed and passes the test. */
  lemma {:induction false} SelectMembers(files: seq<Node>, c: Criterion, x: Node)
    requires AllDefined(files, c)
    ensures x in Select(files, c) <==> x in files && Defined(x, c) && Satisfies(x, c)
    decreases |files|
  {
    if files != [] {
      var init := files[..|files| - 1];
      SelectMembers(init, c, x);
      assert files == init + [files[|files| - 1]];
    }
  }

  lemma {:induction false} SelectAppend(a: seq<Node>, b: seq<Node>, c: Criterion)
    requires AllDefined(a, c) && AllDefined(b, c)
    ensures AllDefined(a + b, c)
    ensures Select(a + b, c) == Select(a, c) + Select(b, c)
    decreases |b|
  {
    AllDefinedAppend(a, b, c);
    if b != [] {
      var b' := b[..|b| - 1];
      assert (a + b)[..|a + b| - 1] == a + b';
      SelectAppend(a, b', c);
    } else {
      assert a + b == a;
    }
  }

  /** Walk order restricted to the files that pass the test: what a walker appends. */
  function Matches(entries: seq<Node>, c: Criterion): seq<string>
    requires AllDefined(Flatten(entries), c)
  {
    Paths(Select(Flatten(entries), c))
  }

  /** What a walker needs of its start directory to finish without an exception. */
  predicate Searchable(d: Node, c: Criterion)
  {
    d.Dir? && d.listable && ListableAll(d.children) && AllDefined(Flatten(d.children), c)
  }

  /** What the walk reports for the first `i` entries of a listing. */
  function MatchesUpTo(tabd: seq<Node>, i: nat, c: Criterion): seq<string>
    requires i <= |tabd| && AllDefined(Flatten(tabd), c)
  {
    assert tabd == tabd[..i] + tabd[i..];
    FlattenAppend(tabd[..i], tabd[i..]);
    AllDefinedAppend(Flatten(tabd[..i]), Flatten(tabd[i..]), c);
    Matches(tabd[..i], c)
  }

  /** Visiting entry `i` appends what the walk reports for that entry alone. */
  lemma WalkStep(tabd: seq<Node>, i: nat, c: Criterion)
    requires i < |tabd| && AllDefined(Flatten(tabd), c)
    ensures AllDefined(Visit(tabd[i]), c)
    ensures MatchesUpTo(tabd, i + 1, c) == MatchesUpTo(tabd, i, c) + Paths(Select(Visit(tabd[i]), c))
  {
    var e := tabd[i];
    var before := Flatten(tabd[..i]);
    assert tabd[..i + 1][..i] == tabd[..i];
    assert Flatten(tabd[..i + 1]) == before + Visit(e);
    FlattenSplit(tabd, i);
    AllDefinedAppend(before + Visit(e), Flatten(tabd[i + 1..]), c);
    AllDefinedAppend(before, Visit(e), c);
    SelectAppend(before, Visit(e), c);
    PathsAppend(Select(before, c), Select(Visit(e), c));
  }

  /** A file reports itself when it passes the test, and nothing otherwise. */
  lemma VisitFile(e: Node, c: Criterion)
    requires e.File? && Defined(e, c)
    ensures AllDefined(Visit(e), c)
    ensures Paths(Select(Visit(e), c)) == if Satisfies(e, c) then [e.path] else []
  {
    assert Visit(e) == [e];
    assert [e][..0] == [];
  }

  /** An entered directory reports what a walk of its own children reports. */
  lemma VisitDir(e: Node, c: Criterion)
    requires e.Dir? && !IsSnapShotName(e.name) && ListableNode(e)
    requires AllDefined(Visit(e), c)
    ensures Searchable(e, c)
    ensures Paths(Select(Visit(e), c)) == Matches(e.children, c)
  {
  }

  /**
   * `recherche_fichier_*(d, ..., fileList)`: the generic walker. It appends
   * to `fileList` exactly the paths of the files the walk reaches that pass
   * the test, in walk order.
   */
  method RechercheFichier(d: Node, c: Criterion, fileList: FileList)
    requires Searchable(d, c)
    modifies fileList
    ensures fileList.items == old(fileList.items) + Matches(d.children, c)
    decreases d, 0
  {
    var tabd := d.children;
    var i := 0;
    while i < |tabd|
      invariant 0 <= i <= |tabd|
      invariant fileList.items == old(fileList.items) + MatchesUpTo(tabd, i, c)
    {
      WalkStep(tabd, i, c);
      RechercheEntree(tabd[i], c, fileList);
      AppendAssociative(old(fileList.items), MatchesUpTo(tabd, i, c), Paths(Select(Visit(tabd[i]), c)));
      i := i + 1;
    }
    assert tabd[..i] == tabd;
    assert MatchesUpTo(tabd, i, c) == Matches(d.children, c);
  }

  /**
   * The loop body for one entry: walk into a directory unless it is a
   * "SnapShot" one, and add a file that passes the test.
   */
  method RechercheEntree(e: Node, c: Criterion, fileList: FileList)
    requires ListableNode(e) && AllDefined(Visit(e), c)
    modifies fileList
    ensures fileList.items == old(fileList.items) + Paths(Select(Visit(e), c))
    decreases e, 1
  {
    if e.Dir? {
      if !IsSnapShotName(e.name) {
        VisitDir(e, c);
        RechercheFichier(e, c, fileList);
      }
    } else {
      assert Visit(e) == [e] && Defined(Visit(e)[0], c);
      VisitFile(e, c);
      if Satisfies(e, c) {
        fileList.Add(e.path);
      }
    }
  }

  /** A path is reported exactly when a listed file with that path passes the test. */
  lemma SelectedPathsMeans(files: seq<Node>, c: Criterion, p: string)
    requires AllDefined(files, c)
    ensures p in Paths(Select(files, c)) <==>
      exists k :: 0 <= k < |files| && files[k].path == p && Satisfies(files[k], c)
  {
    if p in Paths(Select(files, c)) {
      var k := SelectedPathFrom(files, c, p);
    }
    if exists k :: 0 <= k < |files| && files[k].path == p && Satisfies(files[k], c) {
      var k :| 0 <= k < |files| && files[k].path == p && Satisfies(files[k], c);
      PassingPathSelected(files, c, k);
    }
  }

  /** The listed file a reported path belongs to. */
  lemma SelectedPathFrom(files: seq<Node>, c: Criterion, p: string) returns (k: nat)
    requires AllDefined(files, c) && p in Paths(Select(files, c))
    ensures k < |files| && files[k].path == p && Satisfies(files[k], c)
  {
    var sel := Select(files, c);
    var j :| 0 <= j < |sel| && Paths(sel)[j] == p;
    SelectMembers(files, c, sel[j]);
    k :| 0 <= k < |files| && files[k] == sel[j];
  }

  /** The path of a listed file that passes the test is reported. */
  lemma PassingPathSelected(files: seq<Node>, c: Criterion, k: nat)
    requires AllDefined(files, c) && k < |files| && Satisfies(files[k], c)
    ensures files[k].path in Paths(Select(files, c))
  {
    var sel := Select(files, c);
    SelectMembers(files, c, files[k]);
    var j :| 0 <= j < |sel| && sel[j] == files[k];
    assert Paths(sel)[j] == files[k].path;
  }

  /** The always-true test keeps every reached file: the plain listing walk. */
  lemma {:induction false} SelectAnyFile(files: seq<Node>)
    requires forall k :: 0 <= k < |files| ==> files[k].File?
    ensures AllDefined(files, AnyFile) && Select(files, AnyFile) == files
  {
    if files != [] {
      SelectAnyFile(files[..|files| - 1]);
      assert files == files[..|files| - 1] + [files[|files| - 1]];
    }
  }

  /** The contents of a "SnapShot" directory never change what a walker reports. */
  lemma SnapShotNeverReported(entries: seq<Node>, i: nat, other: Node, c: Criterion)
    requires i < |entries| && entries[i].Dir? && IsSnapShotName(entries[i].name)
    requires other.Dir? && other.name == entries[i].name
    requires AllDefined(Flatten(entries), c)
    ensures AllDefined(Flatten(entries[i := other]), c)
    ensures Matches(entries[i := other], c) == Matches(entries, c)
  {
    SnapShotContentsIgnored(entries, i, other);
  }
}
