/**
 * `Snapshot`: saving a directory's `Repertoire` as a numbered checkpoint in
 * its "SnapShot" folder, and the three-way diff between a checkpoint and
 * the directory's current state. Files are identified by `get_Path`, the
 * lower-cased absolute path.
 */
module Snapshot {
  import opened Text
  import opened Fichier
  import opened Tree
  import opened Repertoire

  /** Every record names a file, so `get_Path` can be called on it. */
  predicate Present(tab: seq<Fichier>)
  {
    forall k :: 0 <= k < |tab| ==> tab[k].chemin.Some?
  }

  /** The identities `get_Path` gives the records, in order. */
  function Keys(tab: seq<Fichier>): (ks: seq<string>)
    requires Present(tab)
    ensures |ks| == |tab|
    ensures forall k :: 0 <= k < |tab| ==> ks[k] == GetPath(tab[k])
  {
    if tab == [] then [] else Keys(tab[..|tab| - 1]) + [GetPath(tab[|tab| - 1])]
  }

  /** No two records share an identity. */
  predicate UniqueKeys(tab: seq<Fichier>)
    requires Present(tab)
  {
    forall i, j :: 0 <= i < |tab| && 0 <= j < |tab| && GetPath(tab[i]) == GetPath(tab[j]) ==> i == j
  }

  /**
   * The identities of the records of `xs` that match no record of `ys`, in
   * `xs` order: the removed files are `Unmatched(saved, current)`, the
   * added ones `Unmatched(current, saved)`.
   */
  function Unmatched(xs: seq<Fichier>, ys: seq<Fichier>): (r: seq<string>)
    requires Present(xs) && Present(ys)
    ensures |r| <= |xs|
  {
    if xs == [] then []
    else
      var p := GetPath(xs[|xs| - 1]);
      Unmatched(xs[..|xs| - 1], ys) + (if p in Keys(ys) then [] else [p])
  }

  /** The first index holding `p`. */
  function Position(ks: seq<string>, p: string): (j: nat)
    requires p in ks
    ensures j < |ks| && ks[j] == p
    ensures forall k :: 0 <= k < j ==> ks[k] != p
  {
    if ks[0] == p then 0 else 1 + Position(ks[1..], p)
  }

  lemma {:induction false} PositionIsFirst(ks: seq<string>, p: string, j: nat)
    requires j < |ks| && ks[j] == p
    requires forall k :: 0 <= k < j ==> ks[k] != p
    ensures Position(ks, p) == j
  {
    if j > 0 {
      PositionIsFirst(ks[1..], p, j - 1);
    }
  }

  /**
   * The identity of `c` if the first saved record with that identity has a
   * different last-modified time.
   */
  function ModifiedEntry(saved: seq<Fichier>, c: Fichier): seq<string>
    requires Present(saved) && c.chemin.Some?
  {
    var p := GetPath(c);
    var ks := Keys(saved);
    if p in ks && saved[Position(ks, p)].modif != c.modif then [p] else []
  }

  /** The modified files, in current order. */
  function Modified(saved: seq<Fichier>, current: seq<Fichier>): (r: seq<string>)
    requires Present(saved) && Present(current)
    ensures |r| <= |current|
  {
    if current == [] then []
    else Modified(saved, current[..|current| - 1]) + ModifiedEntry(saved, current[|current| - 1])
  }

  /** An identity is unmatched exactly when it occurs in `xs` and not in `ys`. */
  lemma {:induction false} UnmatchedMeans(xs: seq<Fichier>, ys: seq<Fichier>, p: string)
    requires Present(xs) && Present(ys)
    ensures p in Unmatched(xs, ys) <==> p in Keys(xs) && p !in Keys(ys)
  {
    if xs != [] {
      var init := xs[..|xs| - 1];
      UnmatchedMeans(init, ys, p);
      assert Keys(xs) == Keys(init) + [GetPath(xs[|xs| - 1])];
    }
  }

  /**
   * `p` was saved, and some current record with identity `p` has another
   * last-modified time than the first saved record with it.
   */
  predicate Changed(saved: seq<Fichier>, current: seq<Fichier>, p: string)
    requires Present(saved) && Present(current)
  {
    p in Keys(saved) &&
    exists i :: 0 <= i < |current| && GetPath(current[i]) == p && saved[Position(Keys(saved), p)].modif != current[i].modif
  }

  /**
   * An identity is reported modified exactly when some current record has
   * it, it was saved, and the first saved record with it has another time.
   */
  lemma ModifiedMeans(saved: seq<Fichier>, current: seq<Fichier>, p: string)
    requires Present(saved) && Present(current)
    ensures p in Modified(saved, current) <==> Changed(saved, current, p)
  {
    if p in Modified(saved, current) {
      var i := ModifiedBy(saved, current, p);
    }
    if Changed(saved, current, p) {
      var i :| 0 <= i < |current| && GetPath(current[i]) == p
        && saved[Position(Keys(saved), p)].modif != current[i].modif;
      ChangedIsModified(saved, current, p, i);
    }
  }

  /** The current record a reported identity comes from. */
  lemma {:induction false} ModifiedBy(saved: seq<Fichier>, current: seq<Fichier>, p: string) returns (i: nat)
    requires Present(saved) && Present(current) && p in Modified(saved, current)
    ensures i < |current| && GetPath(current[i]) == p && p in Keys(saved)
    ensures saved[Position(Keys(saved), p)].modif != current[i].modif
  {
    var n := |current| - 1;
    var init := current[..n];
    if p in Modified(saved, init) {
      i := ModifiedBy(saved, init, p);
      assert current[i] == init[i];
    } else {
      i := n;
    }
  }

  /** A current record whose first saved match has another time is reported. */
  lemma {:induction false} ChangedIsModified(saved: seq<Fichier>, current: seq<Fichier>, p: string, i: nat)
    requires Present(saved) && Present(current)
    requires i < |current| && GetPath(current[i]) == p && p in Keys(saved)
    requires saved[Position(Keys(saved), p)].modif != current[i].modif
    ensures p in Modified(saved, current)
  {
    var n := |current| - 1;
    var init := current[..n];
    if i < n {
      assert init[i] == current[i];
      ChangedIsModified(saved, init, p, i);
    }
  }

  /** The three classes of a diff never share a file. */
  lemma DiffClassesDisjoint(saved: seq<Fichier>, current: seq<Fichier>, p: string)
    requires Present(saved) && Present(current)
    ensures !(p in Unmatched(saved, current) && p in Unmatched(current, saved))
    ensures !(p in Unmatched(current, saved) && p in Modified(saved, current))
    ensures !(p in Unmatched(saved, current) && p in Modified(saved, current))
  {
    UnmatchedMeans(saved, current, p);
    UnmatchedMeans(current, saved, p);
    ModifiedMeans(saved, current, p);
    if p in Modified(saved, current) {
      var i :| 0 <= i < |current| && GetPath(current[i]) == p
        && saved[Position(Keys(saved), p)].modif != current[i].modif;
      assert Keys(current)[i] == p;
    }
  }

  /** Comparing records with themselves reports nothing when identities are unique. */
  lemma SelfDiffEmpty(tab: seq<Fichier>)
    requires Present(tab) && UniqueKeys(tab)
    ensures Unmatched(tab, tab) == [] && Modified(tab, tab) == []
  {
    SelfUnmatchedPrefix(tab, |tab|);
    SelfModifiedPrefix(tab, |tab|);
    assert tab[..|tab|] == tab;
  }

  lemma {:induction false} SelfUnmatchedPrefix(tab: seq<Fichier>, n: nat)
    requires Present(tab) && n <= |tab|
    ensures Unmatched(tab[..n], tab) == []
  {
    if n > 0 {
      assert tab[..n][..n - 1] == tab[..n - 1];
      assert Keys(tab)[n - 1] == GetPath(tab[n - 1]);
      SelfUnmatchedPrefix(tab, n - 1);
    }
  }

  lemma {:induction false} SelfModifiedPrefix(tab: seq<Fichier>, n: nat)
    requires Present(tab) && UniqueKeys(tab) && n <= |tab|
    ensures Modified(tab, tab[..n]) == []
  {
    if n > 0 {
      assert tab[..n][..n - 1] == tab[..n - 1];
      var p := GetPath(tab[n - 1]);
      PositionIsFirst(Keys(tab), p, n - 1);
      SelfModifiedPrefix(tab, n - 1);
    }
  }

  /**
   * Identity ignores case: a directory holding both "/d/A.txt" and
   * "/d/a.txt", compared with itself, reports the second as modified.
   */
  lemma CaseCollisionReportsModified()
    ensures Modified([Fichier(Some("/d/A.txt"), 1), Fichier(Some("/d/a.txt"), 2)],
                     [Fichier(Some("/d/A.txt"), 1), Fichier(Some("/d/a.txt"), 2)]) == ["/d/a.txt"]
  {
    var a, b := Fichier(Some("/d/A.txt"), 1), Fichier(Some("/d/a.txt"), 2);
    var tab := [a, b];
    assert GetPath(a) == "/d/a.txt";
    assert GetPath(b) == "/d/a.txt";
    assert Keys(tab) == ["/d/a.txt", "/d/a.txt"] by {
      assert tab[..1] == [a] && tab[..1][..0] == [];
    }
    assert Position(Keys(tab), "/d/a.txt") == 0;
    assert ModifiedEntry(tab, a) == [];
    assert ModifiedEntry(tab, b) == ["/d/a.txt"];
    assert tab[..1] == [a] && tab[..1][..0] == [];
  }

  /**
   * `Nombre_supprimer`: the saved files that match no current one, in
   * saved order, and their count.
   */
  method NombreSupprimer(r1: seq<Fichier>, r: seq<Fichier>) returns (removed: seq<string>, cp: int)
    requires Present(r1) && Present(r)
    ensures removed == Unmatched(r1, r) && cp == |removed|
  {
    removed, cp := [], 0;
    var trouve := false;
    var i := 0;
    while i < |r1|
      invariant 0 <= i <= |r1|
      invariant !trouve
      invariant removed == Unmatched(r1[..i], r) && cp == |removed|
    {
      var p := GetPath(r1[i]);
      var j := 0;
      while j < |r| && !trouve
        invariant 0 <= j <= |r|
        invariant trouve ==> p in Keys(r)
        invariant !trouve ==> forall k :: 0 <= k < j ==> GetPath(r[k]) != p
      {
        if p == GetPath(r[j]) {
          assert Keys(r)[j] == p;
          trouve := true;
        }
        j := j + 1;
      }
      assert r1[..i + 1][..i] == r1[..i];
      if !trouve {
        removed := removed + [p];
        cp := cp + 1;
      } else {
        trouve := false;
      }
      i := i + 1;
    }
    assert r1[..i] == r1;
  }

  /**
   * `Nombre_ajouter`: the current files that match no saved one, in
   * current order, and their count.
   */
  method NombreAjouter(r1: seq<Fichier>, r: seq<Fichier>) returns (added: seq<string>, cp: int)
    requires Present(r1) && Present(r)
    ensures added == Unmatched(r, r1) && cp == |added|
  {
    added, cp := [], 0;
    var i := 0;
    while i < |r|
      invariant 0 <= i <= |r|
      invariant added == Unmatched(r[..i], r1) && cp == |added|
    {
      var p := GetPath(r[i]);
      var trouve := false;
      var j := 0;
      while j < |r1| && !trouve
        invariant 0 <= j <= |r1|
        invariant trouve ==> p in Keys(r1)
        invariant !trouve ==> forall k :: 0 <= k < j ==> GetPath(r1[k]) != p
      {
        if p == GetPath(r1[j]) {
          assert Keys(r1)[j] == p;
          trouve := true;
        }
        j := j + 1;
      }
      assert r[..i + 1][..i] == r[..i];
      if !trouve {
        added := added + [p];
        cp := cp + 1;
      }
      i := i + 1;
    }
    assert r[..i] == r;
  }

  /**
   * `Fichiers_modifié`: the current files whose first saved match has a
   * different last-modified time, in current order, and their count.
   */
  method FichiersModifies(r1: seq<Fichier>, r: seq<Fichier>) returns (modified: seq<string>, cp: int)
    requires Present(r1) && Present(r)
    ensures modified == Modified(r1, r) && cp == |modified|
  {
    modified, cp := [], 0;
    var i := 0;
    while i < |r|
      invariant 0 <= i <= |r|
      invariant modified == ModifiedUpTo(r1, r, i) && cp == |modified|
    {
      var p := GetPath(r[i]);
      var trouve, ind := FirstSaved(r1, p);
      ModifiedStep(r1, r, i, trouve, ind);
      if trouve {
        var m1 := r1[ind].modif;
        var m2 := r[i].modif;
        if m1 != m2 {
          cp := cp + 1;
          modified := modified + [p];
        }
      }
      i := i + 1;
    }
    assert r[..i] == r;
  }

  /** The modified identities among the first `i` current records. */
  function ModifiedUpTo(r1: seq<Fichier>, r: seq<Fichier>, i: nat): seq<string>
    requires Present(r1) && Present(r) && i <= |r|
  {
    Modified(r1, r[..i])
  }

  /**
   * The inner loop of `Fichiers_modifié`: scan the saved records until
   * one has identity `p`, and remember its index.
   */
  method FirstSaved(r1: seq<Fichier>, p: string) returns (trouve: bool, ind: nat)
    requires Present(r1)
    ensures trouve ==> ind < |r1| && GetPath(r1[ind]) == p
    ensures trouve ==> forall k :: 0 <= k < ind ==> GetPath(r1[k]) != p
    ensures !trouve ==> forall k :: 0 <= k < |r1| ==> GetPath(r1[k]) != p
  {
    trouve, ind := false, 0;
    var j := 0;
    while j < |r1| && !trouve
      invariant 0 <= j <= |r1|
      invariant trouve ==> ind < |r1| && GetPath(r1[ind]) == p
      invariant trouve ==> forall k :: 0 <= k < ind ==> GetPath(r1[k]) != p
      invariant !trouve ==> forall k :: 0 <= k < j ==> GetPath(r1[k]) != p
    {
      if p == GetPath(r1[j]) {
        trouve := true;
        ind := j;
      }
      j := j + 1;
    }
  }

  /** What the search for the first saved match tells about entry `i`. */
  lemma ModifiedStep(r1: seq<Fichier>, r: seq<Fichier>, i: nat, trouve: bool, ind: nat)
    requires Present(r1) && Present(r) && i < |r|
    requires trouve ==> ind < |r1| && GetPath(r1[ind]) == GetPath(r[i])
    requires trouve ==> forall k :: 0 <= k < ind ==> GetPath(r1[k]) != GetPath(r[i])
    requires !trouve ==> forall k :: 0 <= k < |r1| ==> GetPath(r1[k]) != GetPath(r[i])
    ensures ModifiedUpTo(r1, r, i + 1) == ModifiedUpTo(r1, r, i) +
      if trouve && r1[ind].modif != r[i].modif then [GetPath(r[i])] else []
  {
    assert r[..i + 1][..i] == r[..i];
    var p, ks := GetPath(r[i]), Keys(r1);
    if trouve {
      PositionIsFirst(ks, p, ind);
    }
  }

  /** What `comparer` reports: removed, then added, then modified files. */
  datatype Report = Report(removed: seq<string>, added: seq<string>, modified: seq<string>)

  function Diff(saved: seq<Fichier>, current: seq<Fichier>): Report
    requires Present(saved) && Present(current)
  {
    Report(Unmatched(saved, current), Unmatched(current, saved), Modified(saved, current))
  }

  /**
   * `comparer(path, snap)`: the directory is scanned afresh and compared
   * with the checkpoint `snapshot` holds, or nothing is reported when it
   * could not be read.
   */
  method Comparer(root: Option<Node>, snapshot: Option<seq<Fichier>>) returns (report: Option<Report>)
    requires Scannable(root)
    requires snapshot.Some? ==> Present(snapshot.value)
    ensures snapshot.None? ==> report.None?
    ensures snapshot.Some? ==> report == Some(Diff(snapshot.value, Scan(root)))
  {
    var rep := new Repertoire(root);
    if snapshot.None? {
      return None;
    }
    var r1 := snapshot.value;
    var removed, nRemoved := NombreSupprimer(r1, rep.tab);
    var added, nAdded := NombreAjouter(r1, rep.tab);
    var modified, nModified := FichiersModifies(r1, rep.tab);
    report := Some(Report(removed, added, modified));
  }

  /**
   * Comparing a directory with a checkpoint of its own unchanged state
   * reports nothing, as long as no two of its files differ only in case.
   */
  lemma UnchangedTreeReportsNothing(root: Option<Node>)
    requires Scannable(root) && UniqueKeys(Scan(root))
    ensures Diff(Scan(root), Scan(root)) == Report([], [], [])
  {
    SelfDiffEmpty(Scan(root));
  }

  /** The name of checkpoint number `n` inside the "SnapShot" folder. */
  function EntryName(n: nat): (name: string)
    ensures |name| >= 13 && name[..8] == "snapshot" && name[|name| - 4..] == ".ser"
  {
    "snapshot" + NatToDigits(n) + ".ser"
  }

  /** The checkpoint path `sauvegarder` writes for a directory at `path`. */
  function CheckpointPath(path: string, n: nat): string
  {
    path + "/SnapShot" + "/" + EntryName(n)
  }

  /** Different numbers name different checkpoints. */
  lemma EntryNameInjective(m: nat, n: nat)
    requires EntryName(m) == EntryName(n)
    ensures m == n
  {
    var a, b := EntryName(m), EntryName(n);
    assert a[8..|a| - 4] == NatToDigits(m);
    assert b[8..|b| - 4] == NatToDigits(n);
    NatToDigitsInjective(m, n);
  }

  /** Checkpoint number `n` is saved as a file named `n` in decimal. */
  lemma CheckpointPathShape(path: string, n: nat)
    ensures CheckpointPath(path, n) == path + "/SnapShot/snapshot" + NatToDigits(n) + ".ser"
  {
  }

  /**
   * The "SnapShot" folder of one directory: whether it exists and, by
   * name, what each of its entries holds (a checkpoint's records).
   */
  class CheckpointFolder {
    var present: bool
    var entries: map<string, seq<Fichier>>

    /** A folder that does not exist has no entries. */
    predicate Valid()
      reads this
    {
      !present ==> entries == map[]
    }

    constructor (present: bool, entries: map<string, seq<Fichier>>)
      requires !present ==> entries == map[]
      ensures Valid() && this.present == present && this.entries == entries
    {
      this.present := present;
      this.entries := entries;
    }

    /**
     * `sauvegarder(path)` for the directory `root`: the folder is created
     * when the directory exists, and the directory's records are written
     * under the name numbered by the folder's current entry count.
     */
    method Sauvegarder(root: Option<Node>)
      requires Valid() && Scannable(root)
      modifies this
      ensures Valid()
      ensures present == (old(present) || (root.Some? && root.value.Dir?))
      ensures present ==> entries == old(entries)[EntryName(|old(entries)|) := Scan(root)]
      ensures !present ==> entries == old(entries)
    {
      if !present && root.Some? && root.value.Dir? {
        present := true;
      }
      var nmb := if present then |entries| else 0;
      var file := EntryName(nmb);
      var rep := new Repertoire(root);
      if present {
        entries := entries[file := rep.tab];
      }
    }
  }

  /**
   * While the folder holds exactly checkpoints 0 to n-1, the next one gets
   * a fresh name and overwrites nothing.
   */
  lemma NumberedFolderGetsFreshName(entries: map<string, seq<Fichier>>)
    requires forall name :: name in entries <==> exists j :: 0 <= j < |entries| && name == EntryName(j)
    ensures EntryName(|entries|) !in entries
  {
    if EntryName(|entries|) in entries {
      var j :| 0 <= j < |entries| && EntryName(|entries|) == EntryName(j);
      EntryNameInjective(j, |entries|);
    }
  }

  /**
   * Once checkpoint 0 has been deleted, a folder holding only checkpoint 1
   * gets its next checkpoint named 1 as well: the save overwrites it.
   */
  lemma GapOverwrites(records: seq<Fichier>)
    ensures var entries := map[EntryName(1) := records];
      |entries| == 1 && EntryName(|entries|) in entries
  {
    var entries := map[EntryName(1) := records];
    assert entries.Keys == {EntryName(1)};
  }
}
