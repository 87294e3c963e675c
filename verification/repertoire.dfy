/**
 * `Repertoire`: the list of `Fichier` records built by walking a directory
 * tree (skipping "SnapShot" directories), and the statistics pass that
 * counts every regular file and every image extension below a directory.
 */
module Repertoire {
  import opened Text
  import opened Fichier
  import opened Tree

  /** `new Fichier(f.getAbsolutePath())` for a regular file the walk reached. */
  function Record(f: Node): (r: Fichier)
    requires f.File?
    ensures r.chemin == Some(f.path) && r.modif == f.attrs.lastModified
  {
    NewFichier(f.path, true, f.attrs.lastModified)
  }

  /** The records of a list of files, in order. */
  function Records(files: seq<Node>): (r: seq<Fichier>)
    requires forall k :: 0 <= k < |files| ==> files[k].File?
    ensures |r| == |files|
    ensures forall k :: 0 <= k < |r| ==> r[k] == Record(files[k])
  {
    if files == [] then []
    else Records(files[..|files| - 1]) + [Record(files[|files| - 1])]
  }

  lemma RecordsAppend(a: seq<Node>, b: seq<Node>)
    requires forall k :: 0 <= k < |a| ==> a[k].File?
    requires forall k :: 0 <= k < |b| ==> b[k].File?
    ensures Records(a + b) == Records(a) + Records(b)
  {
    var l, r := Records(a + b), Records(a) + Records(b);
    forall k | 0 <= k < |l| ensures l[k] == r[k] {
      if k < |a| {
        assert (a + b)[k] == a[k];
      } else {
        assert (a + b)[k] == b[k - |a|];
      }
    }
  }

  /**
   * What `liste_fichiers` appends for the entries from index `i` on, as
   * written: after a "SnapShot" directory the index moves on by two, so
   * the entry that follows it is never looked at.
   */
  function ListedFrom(es: seq<Node>, i: nat): (r: seq<Fichier>)
    decreases es, |es| - i
    ensures forall k :: 0 <= k < |r| ==> r[k].chemin.Some?
  {
    if i >= |es| then []
    else match es[i]
      case File(_, _, _) => [Record(es[i])] + ListedFrom(es, i + 1)
      case Dir(name, _, _) =>
        if IsSnapShotName(name) then ListedFrom(es, i + 2)
        else ListedDir(es[i]) + ListedFrom(es, i + 1)
  }

  function ListedDir(d: Node): (r: seq<Fichier>)
    requires d.Dir?
    decreases d
    ensures forall k :: 0 <= k < |r| ==> r[k].chemin.Some?
  {
    ListedFrom(d.children, 0)
  }

  /** Every directory `liste_fichiers` enters, as written, can be listed. */
  predicate EnterableFrom(es: seq<Node>, i: nat)
    decreases es, |es| - i
  {
    i >= |es| ||
    match es[i]
    case File(_, _, _) => EnterableFrom(es, i + 1)
    case Dir(name, listable, children) =>
      if IsSnapShotName(name) then EnterableFrom(es, i + 2)
      else listable && EnterableFrom(children, 0) && EnterableFrom(es, i + 1)
  }

  /** No directory anywhere in the listing has a "SnapShot" name. */
  predicate NoSnapShotDirs(es: seq<Node>)
    decreases es
  {
    forall k :: 0 <= k < |es| ==> NoSnapShotNode(es[k])
  }

  predicate NoSnapShotNode(n: Node)
    decreases n
  {
    n.Dir? ==> !IsSnapShotName(n.name) && NoSnapShotDirs(n.children)
  }

  /** The records of an index-`i` suffix split off its first entry. */
  lemma SuffixSplit(es: seq<Node>, i: nat)
    requires i < |es|
    ensures Flatten(es[i..]) == Visit(es[i]) + Flatten(es[i + 1..])
    ensures Records(Flatten(es[i..])) == Records(Visit(es[i])) + Records(Flatten(es[i + 1..]))
  {
    assert es[i..] == [es[i]] + es[i + 1..];
    FlattenAppend([es[i]], es[i + 1..]);
    FlattenOne(es[i]);
    RecordsAppend(Visit(es[i]), Flatten(es[i + 1..]));
  }

  /**
   * Where no directory has a "SnapShot" name, the double step never
   * happens and `liste_fichiers` as written lists every file in walk order.
   */
  lemma {:induction false} AsWrittenAgreesWithoutSnapShots(es: seq<Node>, i: nat)
    requires i <= |es| && NoSnapShotDirs(es) && ListableAll(es)
    ensures ListedFrom(es, i) == Records(Flatten(es[i..]))
    decreases es, |es| - i
  {
    if i < |es| {
      SuffixSplit(es, i);
      AsWrittenAgreesWithoutSnapShots(es, i + 1);
      var e := es[i];
      assert NoSnapShotNode(e) && ListableNode(e);
      if e.File? {
        assert Visit(e) == [e];
        assert Records([e]) == [Record(e)] by {
          assert [e][..0] == [];
        }
      } else {
        AsWrittenAgreesWithoutSnapShots(e.children, 0);
        assert e.children[0..] == e.children;
      }
    } else {
      assert es[i..] == [];
    }
  }

  /**
   * The finding: a "SnapShot" directory hides the sibling listed right
   * after it, although the walk should list that file.
   */
  lemma ListeFichiersSkipsSibling(snap: Node, f: Node)
    requires snap.Dir? && IsSnapShotName(snap.name) && f.File?
    ensures ListedFrom([snap, f], 0) == []
    ensures Records(Flatten([snap, f])) == [Record(f)]
  {
    var es := [snap, f];
    assert ListedFrom(es, 0) == ListedFrom(es, 2) by {
      assert es[0] == snap;
    }
    SnapShotThenFile(snap, f);
    RecordOfOne(f);
  }

  /** The walk sees nothing in a "SnapShot" directory and the file after it. */
  lemma SnapShotThenFile(snap: Node, f: Node)
    requires snap.Dir? && IsSnapShotName(snap.name) && f.File?
    ensures Flatten([snap, f]) == [f]
  {
    var es := [snap, f];
    assert es[..1] == [snap] && es[..1][..0] == [];
    assert Flatten(es[..1]) == [];
  }

  lemma RecordOfOne(f: Node)
    requires f.File?
    ensures Records([f]) == [Record(f)]
  {
    assert [f][..0] == [];
  }

  /** `new Repertoire(path)` can be built without an exception. */
  predicate Scannable(root: Option<Node>)
  {
    root.Some? && root.value.Dir? ==> root.value.listable && EnterableTop(root.value.children)
  }

  /** Every subdirectory the constructor hands to `liste_fichiers` can be listed there. */
  predicate EnterableTop(es: seq<Node>)
  {
    forall k :: 0 <= k < |es| ==> EnterableEntry(es[k])
  }

  predicate EnterableEntry(e: Node)
  {
    e.Dir? && !IsSnapShotName(e.name) ==> e.listable && EnterableFrom(e.children, 0)
  }

  /**
   * What the constructor's own loop appends for the top-level entries: one
   * step per entry, a file's record, nothing for a "SnapShot" directory,
   * and what `liste_fichiers` as written lists for any other directory.
   */
  function TopListed(es: seq<Node>): (r: seq<Fichier>)
    ensures forall k :: 0 <= k < |r| ==> r[k].chemin.Some?
  {
    if es == [] then [] else TopListed(es[..|es| - 1]) + TopEntry(es[|es| - 1])
  }

  function TopEntry(e: Node): (r: seq<Fichier>)
    ensures forall k :: 0 <= k < |r| ==> r[k].chemin.Some?
  {
    match e
    case File(_, _, _) => [Record(e)]
    case Dir(name, _, _) => if IsSnapShotName(name) then [] else ListedDir(e)
  }

  /** The records a new `Repertoire` holds: a directory's listing as written, else none. */
  function Scan(root: Option<Node>): (tab: seq<Fichier>)
    requires Scannable(root)
    ensures forall k :: 0 <= k < |tab| ==> tab[k].chemin.Some?
    ensures root.None? || root.value.File? ==> tab == []
  {
    if root.Some? && root.value.Dir? then TopListed(root.value.children) else []
  }

  /** One more top-level entry adds what the constructor's loop body appends for it. */
  lemma TopStep(es: seq<Node>, i: nat)
    requires i < |es|
    ensures TopListed(es[..i + 1]) == TopListed(es[..i]) + TopEntry(es[i])
  {
    assert es[..i + 1][..i] == es[..i];
  }

  /**
   * Without "SnapShot" directories the constructor lists every file the
   * walk reaches, in walk order.
   */
  lemma {:induction false} TopAgreesWithoutSnapShots(es: seq<Node>)
    requires NoSnapShotDirs(es) && ListableAll(es)
    ensures TopListed(es) == Records(Flatten(es))
  {
    if es != [] {
      var init, e := es[..|es| - 1], es[|es| - 1];
      assert NoSnapShotDirs(init) && ListableAll(init) by {
        forall k | 0 <= k < |init| ensures NoSnapShotNode(init[k]) && ListableNode(init[k]) {
          assert init[k] == es[k];
        }
      }
      TopAgreesWithoutSnapShots(init);
      RecordsAppend(Flatten(init), Visit(e));
      VisitRecords(e);
      assert NoSnapShotNode(e) && ListableNode(e);
      if e.Dir? {
        AsWrittenAgreesWithoutSnapShots(e.children, 0);
        assert e.children[0..] == e.children;
      }
    }
  }

  /**
   * The double step reaches `new Repertoire(path)`: a root holding one
   * subdirectory `sub` that lists "SnapShot" then a file gets no record,
   * although the walk reaches that file.
   */
  lemma ConstructorSkipsSibling(root: Node, sub: Node, snap: Node, f: Node)
    requires snap.Dir? && IsSnapShotName(snap.name) && f.File?
    requires sub.Dir? && !IsSnapShotName(sub.name) && sub.listable && sub.children == [snap, f]
    requires root.Dir? && root.listable && root.children == [sub]
    ensures Scannable(Some(root)) && Scan(Some(root)) == []
    ensures Records(Flatten(root.children)) == [Record(f)]
  {
    var es := [snap, f];
    assert ListedFrom(es, 0) == ListedFrom(es, 2) by {
      assert es[0] == snap;
    }
    assert EnterableFrom(es, 0) by {
      assert es[0] == snap;
    }
    assert EnterableTop(root.children) by {
      assert root.children[0] == sub;
    }
    assert TopListed([sub]) == TopEntry(sub) by {
      assert [sub][..0] == [];
    }
    SnapShotThenFile(snap, f);
    assert Flatten([sub]) == [f] by {
      assert [sub][..0] == [];
    }
    RecordOfOne(f);
  }

  /** A `Repertoire`: its `tab` list of file records. */
  class Repertoire {
    var tab: seq<Fichier>

    /**
     * `new Repertoire(path)`, given what `new File(path)` names: nothing
     * (the path does not exist), a file, or a directory. A directory's
     * top-level files are recorded one step at a time and every other
     * subdirectory is handed to `liste_fichiers` as written.
     */
    constructor (root: Option<Node>)
      requires Scannable(root)
      ensures tab == Scan(root)
    {
      tab := [];
      new;
      if root.Some? && root.value.Dir? {
        var tabd := root.value.children;
        var i := 0;
        while i < |tabd|
          invariant 0 <= i <= |tabd|
          invariant tab == TopListed(tabd[..i])
        {
          TopStep(tabd, i);
          assert EnterableEntry(tabd[i]);
          if tabd[i].Dir? {
            if !IsSnapShotName(tabd[i].name) {
              ListeFichiers(tabd[i]);
            }
          } else {
            tab := tab + [Record(tabd[i])];
          }
          i := i + 1;
        }
        assert tabd[..i] == tabd;
      }
    }

    /**
     * `liste_fichiers(d)` as written: it appends `ListedDir(d)`, which
     * drops the entry after each "SnapShot" directory.
     */
    method ListeFichiers(d: Node)
      requires d.Dir? && d.listable && EnterableFrom(d.children, 0)
      modifies this
      ensures tab == old(tab) + ListedDir(d)
      decreases d
    {
      var tabd := d.children;
      var i := 0;
      while i < |tabd|
        invariant 0 <= i <= |tabd| + 1
        invariant EnterableFrom(tabd, i)
        invariant tab + ListedFrom(tabd, i) == old(tab) + ListedFrom(tabd, 0)
      {
        if tabd[i].Dir? {
          if IsSnapShotName(tabd[i].name) {
            i := i + 1;
          } else {
            ghost var before := tab;
            ListeFichiers(tabd[i]);
            AppendAssociative(before, ListedDir(tabd[i]), ListedFrom(tabd, i + 1));
          }
        } else {
          AppendAssociative(tab, [Record(tabd[i])], ListedFrom(tabd, i + 1));
          tab := tab + [Record(tabd[i])];
        }
        i := i + 1;
      }
    }

    /**
     * `liste_fichiers(d)` with a single step per entry, as the constructor's
     * own loop takes: it appends the records of every file the walk
     * reaches, in walk order.
     */
    method ListeFichiersCorrige(d: Node)
      requires d.Dir? && d.listable && ListableAll(d.children)
      modifies this
      ensures tab == old(tab) + Records(Flatten(d.children))
      decreases d, 0
    {
      var tabd := d.children;
      var i := 0;
      while i < |tabd|
        invariant 0 <= i <= |tabd|
        invariant tab == old(tab) + Records(Flatten(tabd[..i]))
      {
        ListStep(tabd, i);
        ListeEntree(tabd[i]);
        AppendAssociative(old(tab), Records(Flatten(tabd[..i])), Records(Visit(tabd[i])));
        i := i + 1;
      }
      assert tabd[..i] == tabd;
    }

    /**
     * The loop body for one entry: a directory other than "SnapShot" is
     * listed in turn, a regular file adds its record.
     */
    method ListeEntree(e: Node)
      requires ListableNode(e)
      modifies this
      ensures tab == old(tab) + Records(Visit(e))
      decreases e, 1
    {
      VisitRecords(e);
      if e.Dir? {
        if !IsSnapShotName(e.name) {
          ListeFichiersCorrige(e);
        }
      } else {
        tab := tab + [Record(e)];
      }
    }
  }

  /** Visiting entry `i` adds the records of what the walk reaches from it. */
  lemma ListStep(tabd: seq<Node>, i: nat)
    requires i < |tabd|
    ensures Records(Flatten(tabd[..i + 1])) == Records(Flatten(tabd[..i])) + Records(Visit(tabd[i]))
  {
    var e := tabd[i];
    assert tabd[..i + 1][..i] == tabd[..i];
    assert Flatten(tabd[..i + 1]) == Flatten(tabd[..i]) + Visit(e);
    RecordsAppend(Flatten(tabd[..i]), Visit(e));
  }

  /** The records one entry contributes to the listing. */
  lemma VisitRecords(e: Node)
    requires ListableNode(e)
    ensures e.File? ==> Records(Visit(e)) == [Record(e)]
    ensures e.Dir? && IsSnapShotName(e.name) ==> Records(Visit(e)) == []
    ensures e.Dir? && !IsSnapShotName(e.name) ==>
      e.listable && ListableAll(e.children) && Visit(e) == Flatten(e.children)
  {
    if e.File? {
      assert [e][..0] == [];
    }
  }

  /** The lower-cased extension `collectStatistics` files a regular file under. */
  function FileExtension(f: Node): string
  {
    ToLower(GetExtension(f.name))
  }

  /** `Map.getOrDefault(extension, 0)`. */
  function CountOf(counts: map<string, int>, extension: string): int
  {
    if extension in counts then counts[extension] else 0
  }

  /** The `imageFormats` map `collectStatistics` fills in. */
  class ImageFormats {
    var counts: map<string, int>

    constructor ()
      ensures counts == map[]
    {
      counts := map[];
    }

    /** `put(extension, getOrDefault(extension, 0) + 1)`. */
    method Increment(extension: string)
      modifies this
      ensures counts == old(counts)[extension := CountOf(old(counts), extension) + 1]
    {
      counts := counts[extension := CountOf(counts, extension) + 1];
    }
  }

  /**
   * The regular files `collectStatistics` counts below the entries, in
   * visiting order: unlike the search walk it enters "SnapShot"
   * directories too, and an unreadable directory counts for nothing.
   */
  function AllFiles(es: seq<Node>): (r: seq<Node>)
    decreases es
    ensures forall k :: 0 <= k < |r| ==> r[k].File?
  {
    if es == [] then []
    else AllFiles(es[..|es| - 1]) + Entry(es[|es| - 1])
  }

  function Entry(n: Node): (r: seq<Node>)
    decreases n
    ensures forall k :: 0 <= k < |r| ==> r[k].File?
  {
    match n
    case File(_, _, _) => [n]
    case Dir(_, listable, children) => if listable then AllFiles(children) else []
  }

  /** What `collectStatistics(directory, ...)` visits: nothing unless it lists. */
  function Counted(directory: Node): seq<Node>
  {
    if directory.Dir? then Entry(directory) else []
  }

  /** The image map after the files have been counted into `counts`. */
  function Tally(counts: map<string, int>, files: seq<Node>): map<string, int>
  {
    if files == [] then counts
    else CountFile(Tally(counts, files[..|files| - 1]), files[|files| - 1])
  }

  /** One regular file counted into the map. */
  function CountFile(counts: map<string, int>, f: Node): map<string, int>
  {
    var extension := FileExtension(f);
    if IsImageExtension(extension) then counts[extension := CountOf(counts, extension) + 1]
    else counts
  }

  lemma {:induction false} TallyAppend(counts: map<string, int>, a: seq<Node>, b: seq<Node>)
    ensures Tally(counts, a + b) == Tally(Tally(counts, a), b)
    decreases |b|
  {
    if b == [] {
      assert a + b == a;
    } else {
      var init, last := b[..|b| - 1], b[|b| - 1];
      assert (a + b)[..|a + b| - 1] == a + init;
      assert (a + b)[|a + b| - 1] == last;
      TallyAppend(counts, a, init);
      assert Tally(counts, a + b) == CountFile(Tally(counts, a + init), last);
    }
  }

  /** How many of the files carry the image extension `extension`. */
  function ImageCount(files: seq<Node>, extension: string): nat
  {
    if files == [] || !IsImageExtension(extension) then 0
    else
      ImageCount(files[..|files| - 1], extension)
      + (if FileExtension(files[|files| - 1]) == extension then 1 else 0)
  }

  /** Each image extension's counter grows by the number of files with that extension. */
  lemma {:induction false} TallyCounts(counts: map<string, int>, files: seq<Node>, extension: string)
    ensures CountOf(Tally(counts, files), extension) == CountOf(counts, extension) + ImageCount(files, extension)
  {
    if files != [] {
      var init, last := files[..|files| - 1], files[|files| - 1];
      TallyCounts(counts, init, extension);
      CountFileCounts(Tally(counts, init), last, extension);
    }
  }

  /** Counting one file raises exactly its own image extension's counter. */
  lemma CountFileCounts(m: map<string, int>, f: Node, extension: string)
    ensures CountOf(CountFile(m, f), extension)
      == CountOf(m, extension) + (if IsImageExtension(extension) && FileExtension(f) == extension then 1 else 0)
  {
    var own := FileExtension(f);
    if IsImageExtension(own) {
      assert CountFile(m, f) == m[own := CountOf(m, own) + 1];
      if own != extension {
        assert CountOf(m[own := CountOf(m, own) + 1], extension) == CountOf(m, extension);
      }
    } else {
      assert CountFile(m, f) == m;
    }
  }

  /** The map only ever gains image extensions as keys. */
  lemma {:induction false} TallyKeys(counts: map<string, int>, files: seq<Node>, extension: string)
    ensures extension in Tally(counts, files) ==> extension in counts || IsImageExtension(extension)
  {
    if files != [] {
      TallyKeys(counts, files[..|files| - 1], extension);
    }
  }

  /** There are never more images, all formats together, than files. */
  lemma {:induction false} ImagesAtMostFiles(files: seq<Node>)
    ensures ImageCount(files, "jpg") + ImageCount(files, "jpeg")
          + ImageCount(files, "png") + ImageCount(files, "webp") <= |files|
  {
    if files != [] {
      ImagesAtMostFiles(files[..|files| - 1]);
    }
  }

  /**
   * Every image-extension file `collectStatistics` reaches below `n` has a
   * known MIME type: on a null answer from `leMyme`, `recupMyme` dereferences
   * null, throws, and the count is abandoned.
   */
  predicate MimeKnown(n: Node)
    decreases n
  {
    match n
    case File(_, _, a) => IsImageExtension(FileExtension(n)) ==> a.mime.Some?
    case Dir(_, listable, children) =>
      listable ==> forall k :: 0 <= k < |children| ==> MimeKnown(children[k])
  }

  /**
   * `collectStatistics(directory, imageFormats)`: returns the number of
   * regular files below `directory` and counts each image extension among
   * them into `imageFormats`.
   */
  method CollectStatistics(directory: Node, imageFormats: ImageFormats) returns (totalFiles: int)
    requires MimeKnown(directory)
    modifies imageFormats
    ensures totalFiles == |Counted(directory)|
    ensures imageFormats.counts == Tally(old(imageFormats.counts), Counted(directory))
    decreases directory, 0
  {
    totalFiles := 0;
    if directory.Dir? && directory.listable {
      var files := directory.children;
      ghost var start := imageFormats.counts;
      var i := 0;
      while i < |files|
        invariant 0 <= i <= |files|
        invariant totalFiles == |AllFiles(files[..i])|
        invariant imageFormats.counts == Tally(start, AllFiles(files[..i]))
      {
        CountStep(start, files, i);
        var n := CountEntry(files[i], imageFormats);
        totalFiles := totalFiles + n;
        i := i + 1;
      }
      assert files[..i] == files;
    }
  }

  /**
   * The loop body of `collectStatistics` for one entry: a regular file
   * counts once and has its image extension tallied, a directory adds
   * what `collectStatistics` finds below it.
   */
  method CountEntry(file: Node, imageFormats: ImageFormats) returns (n: int)
    requires MimeKnown(file)
    modifies imageFormats
    ensures n == |Entry(file)|
    ensures imageFormats.counts == Tally(old(imageFormats.counts), Entry(file))
    decreases file, 1
  {
    if file.File? {
      n := 1;
      var mismatch := CountImage(file, imageFormats);
      FileEntry(old(imageFormats.counts), file);
    } else {
      n := CollectStatistics(file, imageFormats);
    }
  }

  /**
   * The image branch for one regular file: an image extension has its
   * counter raised by one, and the MIME subtype is read to decide on the
   * mismatch warning (the warning itself is console output).
   */
  method CountImage(file: Node, imageFormats: ImageFormats) returns (mismatch: bool)
    requires file.File? && MimeKnown(file)
    modifies imageFormats
    ensures imageFormats.counts == CountFile(old(imageFormats.counts), file)
    ensures mismatch <==>
      IsImageExtension(FileExtension(file)) && RecupMyme(file.attrs.mime.value) != GetExtension(file.name)
  {
    mismatch := false;
    var extension := FileExtension(file);
    if IsImageExtension(extension) {
      imageFormats.Increment(extension);
      var mime := file.attrs.mime.value;
      mismatch := RecupMyme(mime) != GetExtension(file.name);
    }
  }

  /** A regular file's entry is itself, tallied once. */
  lemma FileEntry(counts: map<string, int>, f: Node)
    requires f.File?
    ensures Entry(f) == [f] && Tally(counts, Entry(f)) == CountFile(counts, f)
  {
    assert [f][..0] == [];
  }

  /** Visiting entry `i` counts what lies below it, on top of what came before. */
  lemma CountStep(counts: map<string, int>, files: seq<Node>, i: nat)
    requires i < |files|
    ensures |AllFiles(files[..i + 1])| == |AllFiles(files[..i])| + |Entry(files[i])|
    ensures Tally(counts, AllFiles(files[..i + 1])) == Tally(Tally(counts, AllFiles(files[..i])), Entry(files[i]))
  {
    var e := files[i];
    assert files[..i + 1][..i] == files[..i];
    assert AllFiles(files[..i + 1]) == AllFiles(files[..i]) + Entry(e);
    TallyAppend(counts, AllFiles(files[..i]), Entry(e));
  }

  /**
   * Counting and searching disagree on "SnapShot" directories: the
   * statistics count a file stored in one, the walk never reaches it.
   */
  lemma StatisticsCountSnapShots(snap: Node, f: Node)
    requires snap.Dir? && IsSnapShotName(snap.name) && snap.listable && snap.children == [f] && f.File?
    ensures AllFiles([snap]) == [f]
    ensures Flatten([snap]) == []
  {
    assert [snap][..0] == [];
    assert [f][..0] == [];
    assert AllFiles([f]) == [f];
    assert Entry(snap) == AllFiles([f]);
  }
}
