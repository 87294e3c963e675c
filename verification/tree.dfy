/**
 * A directory tree as the search and snapshot code sees it through
 * `File.listFiles()`, and its pre-order flattening: children in listing
 * order, depth first, never entering a sub-directory whose name contains
 * "SnapShot".
 */
module Tree {
  import opened Text

  /**
   * What the attribute readers answer for one file: the creation date as
   * formatted by `Fichier.DateDeCreation` (or its "00/00/0000" sentinel),
   * the three `Image` metadata answers (-1 meaning unavailable),
   * `File.lastModified()`, and what `Repertoire.leMyme` answers: the type
   * `Files.probeContentType` reports, `Some("")` when the probe fails, and
   * `None` when it returns null (it does not know the type).
   */
  datatype Attrs = Attrs(created: string, exif: bool, height: int, width: int, lastModified: int,
                         mime: Option<string>)

  /**
   * A directory entry. `listable == false` stands for a directory whose
   * `listFiles()` returns null (unreadable); its children are then never seen.
   * `File` is an existing regular file: the special files and broken links
   * the walks would also treat as non-directories are not part of this model.
   */
  datatype Node =
    | File(name: string, path: string, attrs: Attrs)
    | Dir(name: string, listable: bool, children: seq<Node>)

  /** The snapshot storage marker. */
  const SnapShotMarker: string := "SnapShot"

  predicate IsSnapShotName(name: string)
  {
    Contains(name, SnapShotMarker)
  }

  /** The files a walk over `entries` reaches, in the order it reaches them. */
  function Flatten(entries: seq<Node>): (r: seq<Node>)
    decreases entries
    ensures forall k :: 0 <= k < |r| ==> r[k].File?
  {
    if entries == [] then []
    else Flatten(entries[..|entries| - 1]) + Visit(entries[|entries| - 1])
  }

  function Visit(n: Node): (r: seq<Node>)
    decreases n
    ensures forall k :: 0 <= k < |r| ==> r[k].File?
  {
    match n
    case File(_, _, _) => [n]
    case Dir(name, listable, children) =>
      if IsSnapShotName(name) || !listable then [] else Flatten(children)
  }

  /** Every directory a walk enters can be listed. */
  predicate ListableAll(entries: seq<Node>)
    decreases entries
  {
    forall k :: 0 <= k < |entries| ==> ListableNode(entries[k])
  }

  predicate ListableNode(n: Node)
    decreases n
  {
    n.Dir? && !IsSnapShotName(n.name) ==> n.listable && ListableAll(n.children)
  }

  lemma {:induction false} FlattenAppend(a: seq<Node>, b: seq<Node>)
    ensures Flatten(a + b) == Flatten(a) + Flatten(b)
    decreases |b|
  {
    if b == [] {
      assert a + b == a;
    } else {
      var b' := b[..|b| - 1];
      assert (a + b)[..|a + b| - 1] == a + b';
      assert (a + b)[|a + b| - 1] == b[|b| - 1];
      FlattenAppend(a, b');
    }
  }

  lemma FlattenOne(n: Node)
    ensures Flatten([n]) == Visit(n)
  {
    assert [n][..0] == [];
  }

  /** What a walk collects while visiting entry `i` is a slice of its whole output. */
  lemma FlattenSplit(entries: seq<Node>, i: nat)
    requires i < |entries|
    ensures Flatten(entries) == Flatten(entries[..i]) + Visit(entries[i]) + Flatten(entries[i + 1..])
  {
    var before, e, after := entries[..i], entries[i], entries[i + 1..];
    SplitAt(entries, i);
    FlattenAppend(before + [e], after);
    FlattenAppend(before, [e]);
    FlattenOne(e);
  }

  /**
   * Nothing inside a "SnapShot" directory can reach the walk's output:
   * replacing that directory by any other of the same name changes nothing.
   */
  lemma SnapShotContentsIgnored(entries: seq<Node>, i: nat, other: Node)
    requires i < |entries| && entries[i].Dir? && IsSnapShotName(entries[i].name)
    requires other.Dir? && other.name == entries[i].name
    ensures Flatten(entries[i := other]) == Flatten(entries)
  {
    var changed := entries[i := other];
    FlattenSplit(entries, i);
    FlattenSplit(changed, i);
    assert changed[..i] == entries[..i];
    assert changed[i + 1..] == entries[i + 1..];
  }

  /** The paths of a list of files, in order. */
  function Paths(files: seq<Node>): (ps: seq<string>)
    requires forall k :: 0 <= k < |files| ==> files[k].File?
    ensures |ps| == |files|
    ensures forall k :: 0 <= k < |files| ==> ps[k] == files[k].path
  {
    if files == [] then []
    else Paths(files[..|files| - 1]) + [files[|files| - 1].path]
  }

  lemma PathsAppend(a: seq<Node>, b: seq<Node>)
    requires forall k :: 0 <= k < |a| ==> a[k].File?
    requires forall k :: 0 <= k < |b| ==> b[k].File?
    ensures Paths(a + b) == Paths(a) + Paths(b)
  {
    var both := a + b;
    assert forall k :: 0 <= k < |both| ==> both[k].File? by {
      forall k | 0 <= k < |both| ensures both[k].File? {
        if k < |a| {
          assert both[k] == a[k];
        } else {
          assert both[k] == b[k - |a|];
        }
      }
    }
    var l, r := Paths(both), Paths(a) + Paths(b);
    forall k | 0 <= k < |l| ensures l[k] == r[k] {
      if k < |a| {
        assert both[k] == a[k];
      } else {
        assert both[k] == b[k - |a|];
      }
    }
    assert l == r;
  }

  /** Some file of the list has path `p`. */
  predicate HasPath(files: seq<Node>, p: string)
  {
    exists k :: 0 <= k < |files| && files[k].File? && files[k].path == p
  }

  lemma PathsMembership(files: seq<Node>, p: string)
    requires forall k :: 0 <= k < |files| ==> files[k].File?
    ensures p in Paths(files) <==> HasPath(files, p)
  {
    if p in Paths(files) {
      var k :| 0 <= k < |files| && Paths(files)[k] == p;
      assert files[k].path == p;
    }
  }

  /** No two different files of the list share a path. */
  predicate UniquePaths(files: seq<Node>)
    requires forall k :: 0 <= k < |files| ==> files[k].File?
  {
    forall i, j :: 0 <= i < |files| && 0 <= j < |files| && files[i].path == files[j].path ==> i == j
  }
}
