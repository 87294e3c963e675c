/**
 * The search window's logic: parsing a "W x H" dimension, listing every
 * file of a tree, and the search that starts from that listing and narrows
 * it with `compare2` by the walk of each selected criterion.
 */
module Gui {
  import opened Text
  import opened Fichier
  import opened Tree
  import opened Dates
  import opened Criteria
  import opened Search
  import opened Combine

  /** The characters a regular-expression `\s` matches. */
  predicate IsSpace(c: char)
  {
    c == ' ' || c == '\t' || c == '\n' || c == '\r' || c as int == 11 || c as int == 12
  }

  predicate AllSpaces(s: string)
  {
    forall k :: 0 <= k < |s| ==> IsSpace(s[k])
  }

  /** The end of the run of digits starting at `i`. */
  function DigitsEnd(s: string, i: nat): (j: nat)
    requires i <= |s|
    ensures i <= j <= |s|
    ensures forall k :: i <= k < j ==> IsDigit(s[k])
    ensures j == |s| || !IsDigit(s[j])
    decreases |s| - i
  {
    if i < |s| && IsDigit(s[i]) then DigitsEnd(s, i + 1) else i
  }

  /** The end of the run of `\s` characters starting at `i`. */
  function SpacesEnd(s: string, i: nat): (j: nat)
    requires i <= |s|
    ensures i <= j <= |s|
    ensures forall k :: i <= k < j ==> IsSpace(s[k])
    ensures j == |s| || !IsSpace(s[j])
    decreases |s| - i
  {
    if i < |s| && IsSpace(s[i]) then SpacesEnd(s, i + 1) else i
  }

  /**
   * `isDimension(dim)`: the whole text matches `\d+\s+x\s+\d+`. Digits,
   * spaces and "x" never overlap, so scanning each run to its end decides
   * the match.
   */
  predicate IsDimension(dim: string)
  {
    var a := DigitsEnd(dim, 0);
    var b := SpacesEnd(dim, a);
    0 < a < b < |dim| && dim[b] == 'x' &&
    var c := SpacesEnd(dim, b + 1);
    b + 1 < c < |dim| && DigitsEnd(dim, c) == |dim|
  }

  lemma {:induction false} DigitsEndOf(s: string, i: nat, j: nat)
    requires i <= j <= |s|
    requires forall k :: i <= k < j ==> IsDigit(s[k])
    requires j == |s| || !IsDigit(s[j])
    ensures DigitsEnd(s, i) == j
    decreases j - i
  {
    if i < j {
      DigitsEndOf(s, i + 1, j);
    }
  }

  lemma {:induction false} SpacesEndOf(s: string, i: nat, j: nat)
    requires i <= j <= |s|
    requires forall k :: i <= k < j ==> IsSpace(s[k])
    requires j == |s| || !IsSpace(s[j])
    ensures SpacesEnd(s, i) == j
    decreases j - i
  {
    if i < j {
      SpacesEndOf(s, i + 1, j);
    }
  }

  /**
   * Every text of the regular expression's shape is accepted: digits,
   * spaces, "x", spaces, digits.
   */
  lemma IsDimensionAccepts(w: string, s1: string, s2: string, h: string)
    requires |w| > 0 && AllDigits(w) && |h| > 0 && AllDigits(h)
    requires |s1| > 0 && AllSpaces(s1) && |s2| > 0 && AllSpaces(s2)
    ensures IsDimension(w + s1 + "x" + s2 + h)
  {
    var dim := w + s1 + "x" + s2 + h;
    var a, b := |w|, |w| + |s1|;
    var c := b + 1 + |s2|;
    assert forall k :: 0 <= k < a ==> dim[k] == w[k];
    assert forall k :: a <= k < b ==> dim[k] == s1[k - a];
    assert dim[b] == 'x';
    assert forall k :: b + 1 <= k < c ==> dim[k] == s2[k - b - 1];
    assert forall k :: c <= k < |dim| ==> dim[k] == h[k - c];
    assert IsDigit(h[0]) && IsSpace(s1[0]);
    DigitsEndOf(dim, 0, a);
    SpacesEndOf(dim, a, b);
    SpacesEndOf(dim, b + 1, c);
    DigitsEndOf(dim, c, |dim|);
  }

  /**
   * Only texts of that shape are accepted: a dimension is a run of
   * digits, a run of spaces, "x", a run of spaces and a run of digits.
   */
  lemma IsDimensionShape(dim: string)
    requires IsDimension(dim)
    ensures var a := DigitsEnd(dim, 0);
      var b := SpacesEnd(dim, a);
      var c := SpacesEnd(dim, b + 1);
      0 < a < b < |dim| && dim[b] == 'x' && b + 1 < c < |dim| &&
      AllDigits(dim[..a]) && AllSpaces(dim[a..b]) && AllSpaces(dim[b + 1..c]) && AllDigits(dim[c..])
  {
  }

  /** `getLargeur(dim)`: the trimmed first of exactly two `" x "` pieces, parsed, or -1. */
  function GetLargeur(dim: string): (l: int)
    ensures l != -1 ==> |Split(dim, " x ")| == 2 && ParseInt(Trim(Split(dim, " x ")[0])) == Some(l)
    ensures |Split(dim, " x ")| == 2 && ParseInt(Trim(Split(dim, " x ")[0])).Some? ==>
      l == ParseInt(Trim(Split(dim, " x ")[0])).value
    ensures |Split(dim, " x ")| != 2 || ParseInt(Trim(Split(dim, " x ")[0])).None? ==> l == -1
  {
    var parts := Split(dim, " x ");
    if |parts| == 2 then ParseOrSentinel(Trim(parts[0])) else -1
  }

  /** `getHauteur(dim)`: the trimmed second of exactly two `" x "` pieces, parsed, or -1. */
  function GetHauteur(dim: string): (h: int)
    ensures h != -1 ==> |Split(dim, " x ")| == 2 && ParseInt(Trim(Split(dim, " x ")[1])) == Some(h)
    ensures |Split(dim, " x ")| == 2 && ParseInt(Trim(Split(dim, " x ")[1])).Some? ==>
      h == ParseInt(Trim(Split(dim, " x ")[1])).value
    ensures |Split(dim, " x ")| != 2 || ParseInt(Trim(Split(dim, " x ")[1])).None? ==> h == -1
  {
    var parts := Split(dim, " x ");
    if |parts| == 2 then ParseOrSentinel(Trim(parts[1])) else -1
  }

  /** A width and a height written as "W x H" pass the dimension check. */
  lemma WrittenDimensionAccepted(w: nat, h: nat)
    ensures IsDimension(NatToDigits(w) + " x " + NatToDigits(h))
  {
    var ws, hs := NatToDigits(w), NatToDigits(h);
    assert ws + " x " + hs == ws + " " + "x" + " " + hs;
    IsDimensionAccepts(ws, " ", " ", hs);
  }

  /** A width and a height written as "W x H" are read back by the two readers. */
  lemma DimensionRoundTrip(w: nat, h: nat)
    requires w <= IntMax && h <= IntMax
    ensures IsDimension(NatToDigits(w) + " x " + NatToDigits(h))
    ensures GetLargeur(NatToDigits(w) + " x " + NatToDigits(h)) == w
    ensures GetHauteur(NatToDigits(w) + " x " + NatToDigits(h)) == h
  {
    WrittenDimensionAccepted(w, h);
    var ws, hs := NatToDigits(w), NatToDigits(h);
    assert forall k :: 0 <= k < |ws| ==> ws[k] != ' ' by {
      assert AllDigits(ws);
    }
    assert forall k :: 0 <= k < |hs| ==> hs[k] != ' ' by {
      assert AllDigits(hs);
    }
    SplitAroundX(ws, hs);
    TrimDigits(ws);
    TrimDigits(hs);
    ParseOrSentinelOfDigits(w);
    ParseOrSentinelOfDigits(h);
  }

  /**
   * `isDimension` and the readers disagree on other spaces: "5\tx\t6" is a
   * dimension, yet both readers answer -1 because it holds no `" x "`.
   */
  lemma TabSeparatedDimension()
    ensures IsDimension("5\tx\t6")
    ensures GetLargeur("5\tx\t6") == -1 && GetHauteur("5\tx\t6") == -1
  {
    var d := "5\tx\t6";
    TabSeparatedIsDimension(d);
    TabSeparatedUnread(d);
  }

  /** A digit, a tab, "x", a tab and a digit match `\d+\s+x\s+\d+`. */
  lemma TabSeparatedIsDimension(d: string)
    requires |d| == 5 && d[0] == '5' && d[1] == '\t' && d[2] == 'x' && d[3] == '\t' && d[4] == '6'
    ensures IsDimension(d)
  {
    DigitsEndOf(d, 0, 1);
    SpacesEndOf(d, 1, 2);
    SpacesEndOf(d, 3, 4);
    DigitsEndOf(d, 4, 5);
  }

  /** With no `" x "` the text stays one piece, and both readers want two. */
  lemma TabSeparatedUnread(d: string)
    requires |d| == 5 && d[0] == '5' && d[1] == '\t' && d[2] == 'x' && d[3] == '\t' && d[4] == '6'
    ensures GetLargeur(d) == -1 && GetHauteur(d) == -1
  {
    SplitSpaceFree(d);
  }

  /**
   * `listerfichier(d, fileList)`: appends every file of the tree in walk
   * order, never entering a "SnapShot" directory.
   */
  method ListerFichier(d: Node, fileList: FileList)
    requires d.Dir? && d.listable && ListableAll(d.children)
    modifies fileList
    ensures fileList.items == old(fileList.items) + Paths(Flatten(d.children))
    decreases d, 0
  {
    var tabd := d.children;
    var i := 0;
    while i < |tabd|
      invariant 0 <= i <= |tabd|
      invariant fileList.items == old(fileList.items) + ListedUpTo(tabd, i)
    {
      ListStepPaths(tabd, i);
      ListerEntree(tabd[i], fileList);
      AppendAssociative(old(fileList.items), ListedUpTo(tabd, i), Paths(Visit(tabd[i])));
      i := i + 1;
    }
    assert tabd[..i] == tabd;
  }

  /** What the listing walk reports for the first `i` entries. */
  function ListedUpTo(tabd: seq<Node>, i: nat): seq<string>
    requires i <= |tabd|
  {
    Paths(Flatten(tabd[..i]))
  }

  /**
   * The loop body for one entry: a directory other than "SnapShot" is
   * listed in turn, a regular file is added.
   */
  method ListerEntree(e: Node, fileList: FileList)
    requires ListableNode(e)
    modifies fileList
    ensures fileList.items == old(fileList.items) + Paths(Visit(e))
    decreases e, 1
  {
    VisitPaths(e);
    if e.Dir? {
      if !IsSnapShotName(e.name) {
        ListerFichier(e, fileList);
      }
    } else {
      fileList.Add(e.path);
    }
  }

  /** Visiting entry `i` appends the paths of what the walk reaches from it. */
  lemma ListStepPaths(tabd: seq<Node>, i: nat)
    requires i < |tabd|
    ensures ListedUpTo(tabd, i + 1) == ListedUpTo(tabd, i) + Paths(Visit(tabd[i]))
  {
    var e := tabd[i];
    assert tabd[..i + 1][..i] == tabd[..i];
    assert Flatten(tabd[..i + 1]) == Flatten(tabd[..i]) + Visit(e);
    PathsAppend(Flatten(tabd[..i]), Visit(e));
  }

  /** The paths one entry contributes to the listing. */
  lemma VisitPaths(e: Node)
    requires ListableNode(e)
    ensures e.File? ==> Paths(Visit(e)) == [e.path]
    ensures e.Dir? && IsSnapShotName(e.name) ==> Paths(Visit(e)) == []
    ensures e.Dir? && !IsSnapShotName(e.name) ==>
      e.listable && ListableAll(e.children) && Visit(e) == Flatten(e.children)
  {
    if e.File? {
      assert [e][..0] == [];
    }
  }

  /** The listing walk is the walker whose test keeps every file. */
  lemma ListingIsAnyFileSearch(d: Node)
    requires d.Dir? && d.listable && ListableAll(d.children)
    ensures Searchable(d, AnyFile)
    ensures Matches(d.children, AnyFile) == Paths(Flatten(d.children))
  {
    SelectAnyFile(Flatten(d.children));
  }

  /** The twenty-two check boxes of the search window. */
  datatype Choice =
    | NeDate | EqDate | LeDate | LtDate | GtDate | GeDate
    | EqDim | NeDim
    | EqHaut | NeHaut | LeHaut | LtHaut | GtHaut | GeHaut
    | EqLarg | NeLarg | LeLarg | LtLarg | GtLarg | GeLarg
    | EqName | NeName

  /** The order in which the search applies the boxes. */
  const Order: seq<Choice> := [
    NeDate, EqDate, LeDate, LtDate, GtDate, GeDate,
    EqDim, NeDim,
    EqHaut, NeHaut, LeHaut, LtHaut, GtHaut, GeHaut,
    EqLarg, NeLarg, LeLarg, LtLarg, GtLarg, GeLarg,
    EqName, NeName]

  lemma OrderCoversAll(ch: Choice)
    ensures ch in Order
  {
  }

  /** The five groups of boxes; each group's input is checked once. */
  datatype Group = DateGroup | DimGroup | HautGroup | LargGroup | NameGroup

  function GroupOf(ch: Choice): Group
  {
    match ch
    case NeDate | EqDate | LeDate | LtDate | GtDate | GeDate => DateGroup
    case EqDim | NeDim => DimGroup
    case EqHaut | NeHaut | LeHaut | LtHaut | GtHaut | GeHaut => HautGroup
    case EqLarg | NeLarg | LeLarg | LtLarg | GtLarg | GeLarg => LargGroup
    case EqName | NeName => NameGroup
  }

  /**
   * The window's text inputs: the picked date and time joined by a space,
   * and the dimension, name, height and width fields as typed.
   */
  datatype Form = Form(date: string, dimension: string, name: string, haut: string, larg: string)

  /** A group's input is usable: a date, a dimension, a height or width other than -1. */
  predicate GroupValid(g: Group, form: Form)
  {
    match g
    case DateGroup => IsDate(form.date)
    case DimGroup => IsDimension(form.dimension)
    case HautGroup => ParseOrSentinel(form.haut) != -1
    case LargGroup => ParseOrSentinel(form.larg) != -1
    case NameGroup => true
  }

  /** The walker test each box runs. */
  function CriterionOf(ch: Choice, form: Form): Criterion
  {
    var dim, hauteur, largeur := form.dimension, ParseOrSentinel(form.haut), ParseOrSentinel(form.larg);
    match ch
    case NeDate => ByDate(Ne, form.date)
    case EqDate => ByDate(Eq, form.date)
    case LeDate => ByDate(Le, form.date)
    case LtDate => ByDate(Lt, form.date)
    case GtDate => ByDate(Gt, form.date)
    case GeDate => ByDate(Ge, form.date)
    case EqDim => ByDim(true, GetHauteur(dim), GetLargeur(dim))
    case NeDim => ByDim(false, GetHauteur(dim), GetLargeur(dim))
    case EqHaut => ByHeight(Eq, hauteur)
    case NeHaut => ByHeight(Ne, hauteur)
    case LeHaut => ByHeight(Le, hauteur)
    case LtHaut => ByHeight(Lt, hauteur)
    case GtHaut => ByHeight(Gt, hauteur)
    case GeHaut => ByHeight(Ge, hauteur)
    case EqLarg => ByWidth(Eq, largeur)
    case NeLarg => ByWidth(Ne, largeur)
    case LeLarg => ByWidth(Le, largeur)
    case LtLarg => ByWidth(Lt, largeur)
    case GtLarg => ByWidth(Gt, largeur)
    case GeLarg => ByWidth(Ge, largeur)
    case EqName => ByName(true, Trim(form.name))
    case NeName => ByName(false, Trim(form.name))
  }

  /** Every walk the search may run can run on the tree without an exception. */
  predicate Ready(root: Node, selected: set<Choice>, form: Form)
  {
    root.Dir? && root.listable && ListableAll(root.children) &&
    forall ch :: ch in selected && GroupValid(GroupOf(ch), form) ==> Searchable(root, CriterionOf(ch, form))
  }

  /**
   * The box's walk narrows the result: it is selected, its group's input is
   * valid and, unless `keepLtLarg`, it is not "width strictly less", whose
   * narrowed list the search computes and drops.
   */
  predicate Applies(ch: Choice, selected: set<Choice>, form: Form, keepLtLarg: bool)
  {
    ch in selected && GroupValid(GroupOf(ch), form) && (keepLtLarg || ch != LtLarg)
  }

  /** The tests that narrow the result, box by box in the order of `chs`. */
  function PlanOver(chs: seq<Choice>, selected: set<Choice>, form: Form, keepLtLarg: bool): seq<Criterion>
  {
    if chs == [] then []
    else
      var ch := chs[|chs| - 1];
      PlanOver(chs[..|chs| - 1], selected, form, keepLtLarg)
      + (if Applies(ch, selected, form, keepLtLarg) then [CriterionOf(ch, form)] else [])
  }

  /** The tests that narrow the result, in the search's order. */
  function Plan(selected: set<Choice>, form: Form, keepLtLarg: bool): seq<Criterion>
  {
    PlanOver(Order, selected, form, keepLtLarg)
  }

  /** A test is planned exactly when some box of `chs` that applies runs it. */
  lemma PlanOverMembers(chs: seq<Choice>, selected: set<Choice>, form: Form, keepLtLarg: bool, c: Criterion)
    ensures c in PlanOver(chs, selected, form, keepLtLarg) <==>
      exists k :: 0 <= k < |chs| && Applies(chs[k], selected, form, keepLtLarg) && c == CriterionOf(chs[k], form)
  {
    if c in PlanOver(chs, selected, form, keepLtLarg) {
      var k := PlannedBy(chs, selected, form, keepLtLarg, c);
    }
    if exists k :: 0 <= k < |chs| && Applies(chs[k], selected, form, keepLtLarg) && c == CriterionOf(chs[k], form) {
      var k :| 0 <= k < |chs| && Applies(chs[k], selected, form, keepLtLarg) && c == CriterionOf(chs[k], form);
      AppliedIsPlanned(chs, selected, form, keepLtLarg, k);
    }
  }

  /** The box of `chs` a planned test comes from. */
  lemma {:induction false} PlannedBy(chs: seq<Choice>, selected: set<Choice>, form: Form, keepLtLarg: bool, c: Criterion)
    returns (k: nat)
    requires c in PlanOver(chs, selected, form, keepLtLarg)
    ensures k < |chs| && Applies(chs[k], selected, form, keepLtLarg) && c == CriterionOf(chs[k], form)
  {
    var init := chs[..|chs| - 1];
    if c in PlanOver(init, selected, form, keepLtLarg) {
      k := PlannedBy(init, selected, form, keepLtLarg, c);
      assert chs[k] == init[k];
    } else {
      k := |chs| - 1;
    }
  }

  /** The test of every box of `chs` that applies is planned. */
  lemma {:induction false} AppliedIsPlanned(chs: seq<Choice>, selected: set<Choice>, form: Form, keepLtLarg: bool, k: nat)
    requires k < |chs| && Applies(chs[k], selected, form, keepLtLarg)
    ensures CriterionOf(chs[k], form) in PlanOver(chs, selected, form, keepLtLarg)
  {
    var init := chs[..|chs| - 1];
    if k < |init| {
      assert init[k] == chs[k];
      AppliedIsPlanned(init, selected, form, keepLtLarg, k);
    }
  }

  /** Every planned test can run on the whole listing. */
  lemma PlanDefined(root: Node, selected: set<Choice>, form: Form, keepLtLarg: bool)
    requires Ready(root, selected, form)
    ensures DefinedForAll(Flatten(root.children), Plan(selected, form, keepLtLarg))
  {
    var plan := Plan(selected, form, keepLtLarg);
    forall i | 0 <= i < |plan| ensures AllDefined(Flatten(root.children), plan[i]) {
      PlanOverMembers(Order, selected, form, keepLtLarg, plan[i]);
    }
  }

  /** Every box that applies has its test in the plan. */
  lemma PlanHasEveryApplied(selected: set<Choice>, form: Form, keepLtLarg: bool, ch: Choice)
    requires Applies(ch, selected, form, keepLtLarg)
    ensures CriterionOf(ch, form) in Plan(selected, form, keepLtLarg)
  {
    OrderCoversAll(ch);
    var k :| 0 <= k < |Order| && Order[k] == ch;
    PlanOverMembers(Order, selected, form, keepLtLarg, CriterionOf(ch, form));
  }

  /** Some selected box has an unusable input: the search then shows nothing. */
  predicate Dra(selected: set<Choice>, form: Form)
  {
    exists ch :: ch in selected && !GroupValid(GroupOf(ch), form)
  }

  /** Some box of `chs` is selected with an unusable input. */
  predicate InvalidAmong(chs: seq<Choice>, selected: set<Choice>, form: Form)
  {
    chs != [] &&
    (InvalidAmong(chs[..|chs| - 1], selected, form) ||
     (chs[|chs| - 1] in selected && !GroupValid(GroupOf(chs[|chs| - 1]), form)))
  }

  lemma {:induction false} InvalidAmongMeans(chs: seq<Choice>, selected: set<Choice>, form: Form)
    ensures InvalidAmong(chs, selected, form) <==>
      exists k :: 0 <= k < |chs| && chs[k] in selected && !GroupValid(GroupOf(chs[k]), form)
  {
    if chs != [] {
      var init := chs[..|chs| - 1];
      InvalidAmongMeans(init, selected, form);
      if exists k :: 0 <= k < |chs| && chs[k] in selected && !GroupValid(GroupOf(chs[k]), form) {
        var k :| 0 <= k < |chs| && chs[k] in selected && !GroupValid(GroupOf(chs[k]), form);
        if k < |init| {
          assert init[k] == chs[k];
        }
      }
    }
  }

  /** Scanning every box in order finds an unusable input exactly when there is one. */
  lemma DraOverOrder(selected: set<Choice>, form: Form)
    ensures Dra(selected, form) <==> InvalidAmong(Order, selected, form)
  {
    InvalidAmongMeans(Order, selected, form);
    if Dra(selected, form) {
      var ch :| ch in selected && !GroupValid(GroupOf(ch), form);
      OrderCoversAll(ch);
    }
  }

  /** Box `i` of the order extends the plan and the unusable-input scan by itself alone. */
  lemma OrderStep(i: nat, selected: set<Choice>, form: Form, keepLtLarg: bool)
    requires i < |Order|
    ensures PlanOver(Order[..i + 1], selected, form, keepLtLarg) ==
      PlanOver(Order[..i], selected, form, keepLtLarg)
      + (if Applies(Order[i], selected, form, keepLtLarg) then [CriterionOf(Order[i], form)] else [])
    ensures InvalidAmong(Order[..i + 1], selected, form) ==
      (InvalidAmong(Order[..i], selected, form) || (Order[i] in selected && !GroupValid(GroupOf(Order[i]), form)))
  {
    assert Order[..i + 1][..i] == Order[..i];
  }

  /**
   * One block of the search: run the walker into a fresh list and
   * narrow `resultat` to the paths that walk reported.
   */
  method NarrowBy(root: Node, c: Criterion, resultat: seq<string>) returns (narrowed: seq<string>)
    requires Searchable(root, c)
    ensures narrowed == Keep(resultat, Matches(root.children, c))
  {
    var walk := new FileList();
    RechercheFichier(root, c, walk);
    assert walk.items == Matches(root.children, c);
    narrowed := Compare2(resultat, walk.items);
  }

  /** One more test narrows the previous result by that test's walk. */
  lemma NarrowStep(all: seq<Node>, plan: seq<Criterion>, c: Criterion)
    requires forall k :: 0 <= k < |all| ==> all[k].File?
    requires DefinedForAll(all, plan) && AllDefined(all, c)
    ensures DefinedForAll(all, plan + [c])
    ensures Narrowed(all, plan + [c]) == Keep(Narrowed(all, plan), Paths(Select(all, c)))
  {
    DefinedForAllSnoc(all, plan, c);
    assert (plan + [c])[..|plan|] == plan;
  }

  /** `resultat` and `dra` after the search has handled the first `i` boxes of the order. */
  predicate HandledUpTo(root: Node, selected: set<Choice>, form: Form, keepLtLarg: bool,
                        i: nat, resultat: seq<string>, dra: int)
    requires root.Dir? && i <= |Order|
  {
    var plan := PlanOver(Order[..i], selected, form, keepLtLarg);
    DefinedForAll(Flatten(root.children), plan) &&
    resultat == Narrowed(Flatten(root.children), plan) &&
    dra == if InvalidAmong(Order[..i], selected, form) then 1 else 0
  }

  /**
   * The search's block for box `i`: when the box is selected, run its walk
   * and narrow `resultat` if its input is usable (dropping the narrowed
   * list for width-strictly-less unless `keepLtLarg`), else set `dra`.
   */
  method ApplyBox(root: Node, selected: set<Choice>, form: Form, keepLtLarg: bool,
                  i: nat, resultat: seq<string>, dra: int)
    returns (resultat': seq<string>, dra': int)
    requires Ready(root, selected, form) && i < |Order|
    requires HandledUpTo(root, selected, form, keepLtLarg, i, resultat, dra)
    ensures HandledUpTo(root, selected, form, keepLtLarg, i + 1, resultat', dra')
  {
    ghost var all := Flatten(root.children);
    var ch := Order[i];
    ghost var plan := PlanOver(Order[..i], selected, form, keepLtLarg);
    ghost var next := PlanOver(Order[..i + 1], selected, form, keepLtLarg);
    OrderStep(i, selected, form, keepLtLarg);
    resultat', dra' := resultat, dra;
    if ch in selected && GroupValid(GroupOf(ch), form) {
      var c := CriterionOf(ch, form);
      var narrowed := NarrowBy(root, c, resultat);
      if keepLtLarg || ch != LtLarg {
        assert next == plan + [c];
        NarrowStep(all, plan, c);
        resultat' := narrowed;
      } else {
        assert next == plan;
      }
    } else {
      assert next == plan;
      if ch in selected {
        dra' := 1;
      }
    }
  }

  /**
   * The narrowing part of `recherche`: `resultat` starts as the whole
   * listing and each applying box's walk replaces it by
   * `compare2(resultat, walk)`; `dra` records an unusable input of a
   * selected box. With `keepLtLarg` false, the width-strictly-less result
   * is computed and dropped, as the search does.
   */
  method Narrowing(root: Node, selected: set<Choice>, form: Form, keepLtLarg: bool)
    returns (resultat: seq<string>, dra: int)
    requires Ready(root, selected, form)
    ensures DefinedForAll(Flatten(root.children), Plan(selected, form, keepLtLarg))
    ensures resultat == Narrowed(Flatten(root.children), Plan(selected, form, keepLtLarg))
    ensures dra == if Dra(selected, form) then 1 else 0
  {
    var files := new FileList();
    ListerFichier(root, files);
    resultat := files.items;
    dra := 0;
    HandledNone(root, selected, form, keepLtLarg, resultat);
    var i := 0;
    while i < |Order|
      invariant 0 <= i <= |Order|
      invariant HandledUpTo(root, selected, form, keepLtLarg, i, resultat, dra)
    {
      resultat, dra := ApplyBox(root, selected, form, keepLtLarg, i, resultat, dra);
      i := i + 1;
    }
    HandledAll(root, selected, form, keepLtLarg, resultat, dra);
  }

  /** Before any box, `resultat` is the whole listing and `dra` is 0. */
  lemma HandledNone(root: Node, selected: set<Choice>, form: Form, keepLtLarg: bool, resultat: seq<string>)
    requires root.Dir? && resultat == Paths(Flatten(root.children))
    ensures HandledUpTo(root, selected, form, keepLtLarg, 0, resultat, 0)
  {
    assert Order[..0] == [];
  }

  /** After every box, `resultat` is the listing narrowed by the whole plan. */
  lemma HandledAll(root: Node, selected: set<Choice>, form: Form, keepLtLarg: bool, resultat: seq<string>, dra: int)
    requires root.Dir? && HandledUpTo(root, selected, form, keepLtLarg, |Order|, resultat, dra)
    ensures DefinedForAll(Flatten(root.children), Plan(selected, form, keepLtLarg))
    ensures resultat == Narrowed(Flatten(root.children), Plan(selected, form, keepLtLarg))
    ensures dra == if Dra(selected, form) then 1 else 0
  {
    assert Order[..|Order|] == Order;
    DraOverOrder(selected, form);
  }

  /**
   * `recherche` once a directory is chosen: the narrowed list is shown,
   * unless an input was unusable or the box counter reads zero, in which
   * case an error is shown instead (`None`).
   */
  method Recherche(root: Node, selected: set<Choice>, form: Form, selectedCount: int)
    returns (shown: Option<seq<string>>)
    requires Ready(root, selected, form)
    ensures DefinedForAll(Flatten(root.children), Plan(selected, form, false))
    ensures shown == if Dra(selected, form) || selectedCount == 0 then None
      else Some(Narrowed(Flatten(root.children), Plan(selected, form, false)))
  {
    var resultat, dra := Narrowing(root, selected, form, false);
    if dra == 1 || selectedCount == 0 {
      shown := None;
    } else {
      shown := Some(resultat);
    }
  }

  /** The search with the width-strictly-less result assigned back like the others. */
  method RechercheCorrigee(root: Node, selected: set<Choice>, form: Form, selectedCount: int)
    returns (shown: Option<seq<string>>)
    requires Ready(root, selected, form)
    ensures DefinedForAll(Flatten(root.children), Plan(selected, form, true))
    ensures shown == if Dra(selected, form) || selectedCount == 0 then None
      else Some(Narrowed(Flatten(root.children), Plan(selected, form, true)))
  {
    var resultat, dra := Narrowing(root, selected, form, true);
    if dra == 1 || selectedCount == 0 {
      shown := None;
    } else {
      shown := Some(resultat);
    }
  }

  /** Narrowing never adds a path: the shown list lies within the full listing. */
  lemma {:induction false} NarrowedWithinListing(files: seq<Node>, cs: seq<Criterion>, p: string)
    requires forall k :: 0 <= k < |files| ==> files[k].File?
    requires DefinedForAll(files, cs)
    ensures |Narrowed(files, cs)| <= |files|
    ensures p in Narrowed(files, cs) ==> p in Paths(files)
    decreases |cs|
  {
    if cs != [] {
      var init := cs[..|cs| - 1];
      assert DefinedForAll(files, init);
      NarrowedWithinListing(files, init, p);
    }
  }

  /**
   * When no two files share a path, the search shows exactly the files
   * that pass every planned test, in listing order.
   */
  lemma SearchShowsFilesPassingEveryTest(root: Node, selected: set<Choice>, form: Form, keepLtLarg: bool)
    requires Ready(root, selected, form) && UniquePaths(Flatten(root.children))
    ensures DefinedForAll(Flatten(root.children), Plan(selected, form, keepLtLarg))
    ensures Narrowed(Flatten(root.children), Plan(selected, form, keepLtLarg))
      == Paths(SelectAll(Flatten(root.children), Plan(selected, form, keepLtLarg)))
  {
    PlanDefined(root, selected, form, keepLtLarg);
    NarrowedMeans(Flatten(root.children), Plan(selected, form, keepLtLarg));
  }

  /**
   * The finding, as written: no test "width strictly less" is ever
   * planned, so ticking that box never narrows the result (it still
   * counts as a ticked box, and an unreadable width still sets `dra`).
   */
  lemma LtLargNeverNarrows(selected: set<Choice>, form: Form, c: Criterion)
    requires c in Plan(selected, form, false)
    ensures !(c.ByWidth? && c.widthOp == Lt)
  {
    PlanOverMembers(Order, selected, form, false, c);
  }

  /**
   * Corrected: a selected "width strictly less" box with a usable width
   * is planned, so every file that passes the plan is an EXIF image
   * narrower than the typed width.
   */
  lemma LtLargNarrowsWhenCorrected(root: Node, selected: set<Choice>, form: Form)
    requires Ready(root, selected, form)
    requires LtLarg in selected && ParseOrSentinel(form.larg) != -1
    ensures DefinedForAll(Flatten(root.children), Plan(selected, form, true))
    ensures forall f :: f in SelectAll(Flatten(root.children), Plan(selected, form, true)) ==>
      f.File? && f.attrs.exif && f.attrs.width < ParseOrSentinel(form.larg)
  {
    var all, plan := Flatten(root.children), Plan(selected, form, true);
    var c := ByWidth(Lt, ParseOrSentinel(form.larg));
    PlanDefined(root, selected, form, true);
    PlanHasEveryApplied(selected, form, true, LtLarg);
    var i :| 0 <= i < |plan| && plan[i] == c;
    forall f | f in SelectAll(all, plan)
      ensures f.File? && f.attrs.exif && f.attrs.width < ParseOrSentinel(form.larg)
    {
      SelectAllMembers(all, plan, f);
      assert Satisfies(f, plan[i]);
    }
  }
}
