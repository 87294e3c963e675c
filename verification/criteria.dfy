/**
 * The per-file tests of the twenty-two `recherche_fichier_*` walkers. The
 * walkers differ only in this test, so each becomes one `Criterion` value
 * and `Satisfies` is the test it applies to a regular file.
 */
module Criteria {
  import opened Text
  import opened Tree
  import opened Fichier
  import opened Dates

  /** How a file's value is compared with the reference: `value op reference`. */
  datatype Op = Eq | Ne | Lt | Le | Gt | Ge

  /**
   * `ByDate`: `date`, `date_dif`, `date_inf`, `date_inf_egale`, `date_sup`,
   * `date_sup_egale`. `ByName`: `nom` (same) and `nom_dif`. `ByDim`: `dim`
   * (same) and `dim_dif`. `ByHeight` / `ByWidth`: `hauteur_*` / `largeur_*`.
   * `AnyFile`: the listing walk that keeps every file.
   */
  datatype Criterion =
    | ByDate(dateOp: Op, date: string)
    | ByName(sameName: bool, nom: string)
    | ByDim(sameDim: bool, h: int, l: int)
    | ByHeight(heightOp: Op, h: int)
    | ByWidth(widthOp: Op, l: int)
    | AnyFile

  predicate Compare(op: Op, value: int, reference: int)
  {
    match op
    case Eq => value == reference
    case Ne => value != reference
    case Lt => value < reference
    case Le => value <= reference
    case Gt => value > reference
    case Ge => value >= reference
  }

  /** The operator that selects exactly the files `op` rejects. */
  function Complement(op: Op): Op
  {
    match op
    case Eq => Ne
    case Ne => Eq
    case Lt => Ge
    case Ge => Lt
    case Le => Gt
    case Gt => Le
  }

  /** The complementary comparison holds exactly where the comparison fails. */
  lemma ComplementNegates(op: Op, value: int, reference: int)
    ensures Compare(Complement(op), value, reference) <==> !Compare(op, value, reference)
  {
  }

  /** The date tests that call `DateSup` and so parse both dates. */
  predicate ParsesDates(c: Criterion)
  {
    c.ByDate? && c.dateOp != Eq && c.dateOp != Ne
  }

  /** The test runs on `f` without throwing. */
  predicate Defined(f: Node, c: Criterion)
  {
    f.File? && (ParsesDates(c) ==> DateText(f.attrs.created) && DateText(c.date))
  }

  /**
   * The test of the walker `c` stands for. The date tests use the creation
   * date; the image tests only look at files the metadata reader treats as
   * EXIF images, and, except for the two dimension tests, drop a -1 reading.
   */
  predicate Satisfies(f: Node, c: Criterion)
    requires Defined(f, c)
  {
    var a := f.attrs;
    match c
    case ByDate(op, date) =>
      (match op
       case Eq => DateEgale(a.created, date)
       case Ne => !DateEgale(a.created, date)
       case Gt => DateSup(a.created, date)
       case Ge => DateSup(a.created, date) || DateEgale(a.created, date)
       case Le => !DateSup(a.created, date)
       case Lt => !DateSup(a.created, date) && !DateEgale(a.created, date))
    case ByName(same, nom) => if same then nom == f.name else nom != f.name
    case ByDim(same, h, l) =>
      a.exif && (if same then a.width == l && h == a.height else a.width != l || h != a.height)
    case ByHeight(op, h) => a.exif && Compare(op, a.height, h) && a.height != -1
    case ByWidth(op, l) => a.exif && Compare(op, a.width, l) && a.width != -1
    case AnyFile => true
  }

  /** Every height or width test keeps only EXIF images with a known value. */
  lemma MeasuredValueIsKnown(f: Node, c: Criterion)
    requires Defined(f, c) && (c.ByHeight? || c.ByWidth?)
    ensures Satisfies(f, c) ==> f.attrs.exif
    ensures c.ByHeight? && Satisfies(f, c) ==> f.attrs.height != -1 && Compare(c.heightOp, f.attrs.height, c.h)
    ensures c.ByWidth? && Satisfies(f, c) ==> f.attrs.width != -1 && Compare(c.widthOp, f.attrs.width, c.l)
  {
  }

  /**
   * The tests come in complementary pairs. For dates and names they split
   * every file in two; for a height or a width, every EXIF image with a
   * known value; for dimensions, every EXIF image.
   */
  lemma ComplementSplits(f: Node, c: Criterion)
    requires Defined(f, c)
    ensures c.ByDate? ==>
      (Defined(f, c.(dateOp := Complement(c.dateOp)))
       && Satisfies(f, c.(dateOp := Complement(c.dateOp))) == !Satisfies(f, c))
    ensures c.ByName? ==> Satisfies(f, c.(sameName := !c.sameName)) == !Satisfies(f, c)
    ensures c.ByDim? && f.attrs.exif ==> Satisfies(f, c.(sameDim := !c.sameDim)) == !Satisfies(f, c)
    ensures c.ByHeight? && f.attrs.exif && f.attrs.height != -1 ==>
      Satisfies(f, c.(heightOp := Complement(c.heightOp))) == !Satisfies(f, c)
    ensures c.ByWidth? && f.attrs.exif && f.attrs.width != -1 ==>
      Satisfies(f, c.(widthOp := Complement(c.widthOp))) == !Satisfies(f, c)
  {
    match c
    case ByDate(op, date) => DateComplementSplits(f, op, date);
    case _ =>
  }

  lemma DateComplementSplits(f: Node, op: Op, date: string)
    requires Defined(f, ByDate(op, date))
    ensures Defined(f, ByDate(Complement(op), date))
    ensures Satisfies(f, ByDate(Complement(op), date)) == !Satisfies(f, ByDate(op, date))
  {
    var a := f.attrs.created;
    if ParsesDates(ByDate(op, date)) {
      OrderedDateTests(f, date);
    } else {
      assert Satisfies(f, ByDate(Eq, date)) == DateEgale(a, date);
      assert Satisfies(f, ByDate(Ne, date)) == !DateEgale(a, date);
    }
  }

  /** The four ordered date tests in terms of `DateSup` and `DateEgale`. */
  lemma OrderedDateTests(f: Node, date: string)
    requires f.File? && DateText(f.attrs.created) && DateText(date)
    ensures var a := f.attrs.created;
      && Satisfies(f, ByDate(Gt, date)) == DateSup(a, date)
      && Satisfies(f, ByDate(Le, date)) == !DateSup(a, date)
      && Satisfies(f, ByDate(Ge, date)) == (DateSup(a, date) || DateEgale(a, date))
      && Satisfies(f, ByDate(Lt, date)) == (!DateSup(a, date) && !DateEgale(a, date))
  {
    DateTest(f, Gt, date);
    DateTest(f, Le, date);
    DateTest(f, Ge, date);
    DateTest(f, Lt, date);
  }

  /** One ordered date test, with the comparison left unevaluated. */
  lemma DateTest(f: Node, op: Op, date: string)
    requires f.File? && DateText(f.attrs.created) && DateText(date) && op != Eq && op != Ne
    ensures var a := f.attrs.created; var sup := DateSup(a, date); var eq := DateEgale(a, date);
      Satisfies(f, ByDate(op, date)) ==
        match op
        case Gt => sup
        case Le => !sup
        case Ge => sup || eq
        case Lt => !sup && !eq
        case _ => false
  {
  }

  /**
   * Unlike the other image tests, `dim_dif` does not drop a -1 reading: an
   * EXIF file whose dimensions are unknown differs from any real size.
   */
  lemma DimDifferentKeepsUnknown(name: string, path: string, created: string, h: int, l: int)
    requires h != -1
    ensures Satisfies(File(name, path, Attrs(created, true, -1, -1, 0, None)), ByDim(false, h, l))
    ensures !Satisfies(File(name, path, Attrs(created, true, -1, -1, 0, None)), ByHeight(Ne, h))
  {
  }

  /**
   * On creation dates that match `IsDate`, the four ordered date tests are
   * the chronological order, both ways round.
   */
  lemma DateTestsAreChronological(f: Node, date: string)
    requires f.File? && IsDate(f.attrs.created) && IsDate(date)
    ensures DateText(f.attrs.created) && DateText(date)
    ensures Satisfies(f, ByDate(Gt, date)) <==> DateSup(f.attrs.created, date)
    ensures Satisfies(f, ByDate(Ge, date)) <==> !DateSup(date, f.attrs.created)
    ensures Satisfies(f, ByDate(Lt, date)) <==> DateSup(date, f.attrs.created)
    ensures Satisfies(f, ByDate(Le, date)) <==> DateSup(date, f.attrs.created) || f.attrs.created == date
  {
    OrderedDateTests(f, date);
    DateTrichotomy(f.attrs.created, date);
  }

  /** 15/03/2023 at 10:30:00 is after New Year 2023. */
  lemma NewYearExample(created: string, reference: string)
    requires created == "15/03/2023 10:30:00" && reference == "01/01/2023 00:00:00"
    ensures DateText(created) && DateText(reference) && DateSup(created, reference)
  {
    assert IsDate(created) && IsDate(reference);
    LaterByMonth(created, reference);
  }

  /** Of two valid dates in the same year, the one with the later month is later. */
  lemma LaterByMonth(date: string, date1: string)
    requires IsDate(date) && IsDate(date1)
    requires date[6] == date1[6] && date[7] == date1[7] && date[8] == date1[8] && date[9] == date1[9]
    requires date[3] > date1[3] || (date[3] == date1[3] && date[4] > date1[4])
    ensures DateText(date) && DateText(date1) && DateSup(date, date1)
  {
    IsDateLayout(date);
    IsDateLayout(date1);
    LayoutFields(date);
    LayoutFields(date1);
    assert date[6..10] == date1[6..10];
    MonthDecides(date, date1);
  }

  lemma MonthDecides(date: string, date1: string)
    requires DateText(date) && DateText(date1)
    requires Annee(date) == Annee(date1) && Mois(date) > Mois(date1)
    ensures DateSup(date, date1)
  {
  }
}
