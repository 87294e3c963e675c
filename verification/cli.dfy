/**
 * The command line's search options: which option words it recognises,
 * and how `activeChoix` reads an option's values from the arguments, runs
 * the matching walker into the caller's list and moves the argument index
 * past those values.
 */
module Cli {
  import opened Text
  import opened Fichier
  import opened Tree
  import opened Dates
  import opened Criteria
  import opened Search

  /** `AllChoice(choix)`: one of the twenty-two search option words. */
  predicate AllChoice(choix: string)
  {
    choix == "-nehaut" || choix == "-lehaut" || choix == "-lthaut" || choix == "-gehaut" ||
    choix == "-eqhaut" || choix == "-gthaut" || choix == "-eqdim" || choix == "-nedim" ||
    choix == "-eqname" || choix == "-nename" || choix == "-eqdate" || choix == "-nedate" ||
    choix == "-ledate" || choix == "-ltdate" || choix == "-gedate" || choix == "-gtdate" ||
    choix == "-lelarg" || choix == "-ltlarg" || choix == "-gelarg" || choix == "-gtlarg" ||
    choix == "-nelarg" || choix == "-eqlarg"
  }

  /** What an option word asks for: the attribute it tests and how. */
  datatype OptionKind =
    | DateOption(dateOp: Op)
    | DimOption(sameDim: bool)
    | NameOption(sameName: bool)
    | HautOption(heightOp: Op)
    | LargOption(widthOp: Op)

  /** The option word for each kind: "-", the comparison, the attribute. */
  function OptionName(k: OptionKind): string
  {
    match k
    case DateOption(op) =>
      (match op
       case Eq => "-eqdate" case Ne => "-nedate" case Lt => "-ltdate"
       case Le => "-ledate" case Gt => "-gtdate" case Ge => "-gedate")
    case DimOption(same) => if same then "-eqdim" else "-nedim"
    case NameOption(same) => if same then "-eqname" else "-nename"
    case HautOption(op) =>
      (match op
       case Eq => "-eqhaut" case Ne => "-nehaut" case Lt => "-lthaut"
       case Le => "-lehaut" case Gt => "-gthaut" case Ge => "-gehaut")
    case LargOption(op) =>
      (match op
       case Eq => "-eqlarg" case Ne => "-nelarg" case Lt => "-ltlarg"
       case Le => "-lelarg" case Gt => "-gtlarg" case Ge => "-gelarg")
  }

  /** The case of `activeChoix`'s switch an option word selects, if any. */
  function Kind(choix: string): Option<OptionKind>
  {
    if choix == "-eqdate" then Some(DateOption(Eq))
    else if choix == "-gedate" then Some(DateOption(Ge))
    else if choix == "-gtdate" then Some(DateOption(Gt))
    else if choix == "-ledate" then Some(DateOption(Le))
    else if choix == "-ltdate" then Some(DateOption(Lt))
    else if choix == "-nedate" then Some(DateOption(Ne))
    else if choix == "-eqdim" then Some(DimOption(true))
    else if choix == "-eqname" then Some(NameOption(true))
    else if choix == "-gthaut" then Some(HautOption(Gt))
    else if choix == "-gehaut" then Some(HautOption(Ge))
    else if choix == "-lthaut" then Some(HautOption(Lt))
    else if choix == "-lehaut" then Some(HautOption(Le))
    else if choix == "-nehaut" then Some(HautOption(Ne))
    else if choix == "-nelarg" then Some(LargOption(Ne))
    else if choix == "-gelarg" then Some(LargOption(Ge))
    else if choix == "-gtlarg" then Some(LargOption(Gt))
    else if choix == "-lelarg" then Some(LargOption(Le))
    else if choix == "-ltlarg" then Some(LargOption(Lt))
    else if choix == "-eqlarg" then Some(LargOption(Eq))
    else if choix == "-eqhaut" then Some(HautOption(Eq))
    else if choix == "-nedim" then Some(DimOption(false))
    else if choix == "-nename" then Some(NameOption(false))
    else None
  }

  /** The recogniser and the switch agree: every recognised word has a case, and only those. */
  lemma AllChoiceHasCase(choix: string)
    ensures AllChoice(choix) <==> Kind(choix).Some?
  {
  }

  /** Each kind's option word is recognised and selects that kind's case. */
  lemma OptionNameRoundTrip(k: OptionKind)
    ensures Kind(OptionName(k)) == Some(k) && AllChoice(OptionName(k))
  {
    match k
    case DateOption(op) => DateOptionRoundTrip(op);
    case DimOption(same) => DimOptionRoundTrip(same);
    case NameOption(same) => NameOptionRoundTrip(same);
    case HautOption(op) => HautOptionRoundTrip(op);
    case LargOption(op) => LargOptionRoundTrip(op);
  }

  lemma DimOptionRoundTrip(same: bool)
    ensures Kind(OptionName(DimOption(same))) == Some(DimOption(same))
    ensures AllChoice(OptionName(DimOption(same)))
  {
    if same {
      assert Kind("-eqdim") == Some(DimOption(true));
    } else {
      assert Kind("-nedim") == Some(DimOption(false));
    }
  }

  lemma NameOptionRoundTrip(same: bool)
    ensures Kind(OptionName(NameOption(same))) == Some(NameOption(same))
    ensures AllChoice(OptionName(NameOption(same)))
  {
    if same {
      assert Kind("-eqname") == Some(NameOption(true));
    } else {
      assert Kind("-nename") == Some(NameOption(false));
    }
  }

  lemma DateOptionRoundTrip(op: Op)
    ensures Kind(OptionName(DateOption(op))) == Some(DateOption(op))
    ensures AllChoice(OptionName(DateOption(op)))
  {
    var w := OptionName(DateOption(op));
    assert |w| == 7 && w[1] != '-' && w[2] != '-' && w[3] != '-';
    match op {
      case Eq => assert Kind("-eqdate") == Some(DateOption(op));
      case Ne => assert Kind("-nedate") == Some(DateOption(op));
      case Lt => assert Kind("-ltdate") == Some(DateOption(op));
      case Le => assert Kind("-ledate") == Some(DateOption(op));
      case Gt => assert Kind("-gtdate") == Some(DateOption(op));
      case Ge => assert Kind("-gedate") == Some(DateOption(op));
    }
  }

  lemma HautOptionRoundTrip(op: Op)
    ensures Kind(OptionName(HautOption(op))) == Some(HautOption(op))
    ensures AllChoice(OptionName(HautOption(op)))
  {
    var w := OptionName(HautOption(op));
    assert |w| == 7 && w[1] != '-' && w[2] != '-' && w[3] != '-';
    match op {
      case Eq => assert Kind("-eqhaut") == Some(HautOption(op));
      case Ne => assert Kind("-nehaut") == Some(HautOption(op));
      case Lt => assert Kind("-lthaut") == Some(HautOption(op));
      case Le => assert Kind("-lehaut") == Some(HautOption(op));
      case Gt => assert Kind("-gthaut") == Some(HautOption(op));
      case Ge => assert Kind("-gehaut") == Some(HautOption(op));
    }
  }

  lemma LargOptionRoundTrip(op: Op)
    ensures Kind(OptionName(LargOption(op))) == Some(LargOption(op))
    ensures AllChoice(OptionName(LargOption(op)))
  {
    var w := OptionName(LargOption(op));
    assert |w| == 7 && w[1] != '-' && w[2] != '-' && w[3] != '-';
    match op {
      case Eq => assert Kind("-eqlarg") == Some(LargOption(op));
      case Ne => assert Kind("-nelarg") == Some(LargOption(op));
      case Lt => assert Kind("-ltlarg") == Some(LargOption(op));
      case Le => assert Kind("-lelarg") == Some(LargOption(op));
      case Gt => assert Kind("-gtlarg") == Some(LargOption(op));
      case Ge => assert Kind("-gelarg") == Some(LargOption(op));
    }
  }

  /** How many argument positions past `i` an option's values take. */
  function Advance(choix: string): (n: nat)
    ensures n == 0 <==> !AllChoice(choix)
  {
    match Kind(choix)
    case None => 0
    case Some(DateOption(_)) => 2
    case Some(DimOption(_)) => 3
    case Some(_) => 1
  }

  /**
   * The walk `activeChoix(choix, i, args, ...)` runs, if any: the option's
   * values sit from `args[3 + i]` on; a date is two words joined by a
   * space, a dimension is "W x H" over three words, and a date, a
   * dimension, a height or a width that does not read is skipped.
   */
  function Planned(choix: string, i: nat, args: seq<string>): (c: Option<Criterion>)
    ensures c.Some? ==> AllChoice(choix)
  {
    match Kind(choix)
    case None => None
    case Some(DateOption(op)) =>
      if |args| >= 5 + i && IsDate(args[3 + i] + " " + args[4 + i])
      then Some(ByDate(op, args[3 + i] + " " + args[4 + i])) else None
    case Some(DimOption(same)) =>
      if |args| >= 6 + i && args[4 + i] == "x"
         && ParseOrSentinel(args[5 + i]) != -1 && ParseOrSentinel(args[3 + i]) != -1
      then Some(ByDim(same, ParseOrSentinel(args[5 + i]), ParseOrSentinel(args[3 + i]))) else None
    case Some(NameOption(same)) =>
      if |args| >= 4 + i then Some(ByName(same, args[3 + i])) else None
    case Some(HautOption(op)) =>
      if |args| >= 4 + i && ParseOrSentinel(args[3 + i]) != -1
      then Some(ByHeight(op, ParseOrSentinel(args[3 + i]))) else None
    case Some(LargOption(op)) =>
      if |args| >= 4 + i && ParseOrSentinel(args[3 + i]) != -1
      then Some(ByWidth(op, ParseOrSentinel(args[3 + i]))) else None
  }

  /** The walk to run can run on the start without an exception. */
  predicate CanRun(choix: string, i: nat, args: seq<string>, root: Node)
  {
    var c := Planned(choix, i, args);
    c.Some? ==> Searchable(root, c.value)
  }

  /**
   * `activeChoix(choix, i, args, fileOrDirectory, Al)`: appends to `al`
   * the files the option's walker reports (nothing when the option is
   * unknown or its values are missing or do not read) and returns the
   * index past the option's values, whether or not they were read.
   */
  method ActiveChoix(choix: string, i: nat, args: seq<string>, root: Node, al: FileList)
    returns (next: nat)
    requires CanRun(choix, i, args, root)
    modifies al
    ensures next == i + Advance(choix)
    ensures Planned(choix, i, args).Some? ==>
      al.items == old(al.items) + Matches(root.children, Planned(choix, i, args).value)
    ensures Planned(choix, i, args).None? ==> al.items == old(al.items)
  {
    next := i;
    match Kind(choix)
    case None =>
    case Some(DateOption(op)) =>
      if |args| >= 5 + i {
        var date := args[3 + i] + " " + args[4 + i];
        if IsDate(date) {
          RechercheFichier(root, ByDate(op, date), al);
        }
      }
      next := i + 2;
    case Some(DimOption(same)) =>
      if |args| >= 6 + i {
        if args[4 + i] == "x" {
          var largeur := ParseOrSentinel(args[3 + i]);
          var haut := ParseOrSentinel(args[5 + i]);
          if haut != -1 && largeur != -1 {
            RechercheFichier(root, ByDim(same, haut, largeur), al);
          }
        }
      }
      next := i + 3;
    case Some(NameOption(same)) =>
      if |args| >= 4 + i {
        RechercheFichier(root, ByName(same, args[3 + i]), al);
      }
      next := i + 1;
    case Some(HautOption(op)) =>
      if |args| >= 4 + i {
        var haut := ParseOrSentinel(args[3 + i]);
        if haut != -1 {
          RechercheFichier(root, ByHeight(op, haut), al);
        }
      }
      next := i + 1;
    case Some(LargOption(op)) =>
      if |args| >= 4 + i {
        var larg := ParseOrSentinel(args[3 + i]);
        if larg != -1 {
          RechercheFichier(root, ByWidth(op, larg), al);
        }
      }
      next := i + 1;
  }

  /** An unrecognised word consumes no argument and runs no walk. */
  lemma UnknownOptionIgnored(choix: string, i: nat, args: seq<string>)
    requires !AllChoice(choix)
    ensures Planned(choix, i, args) == None && Advance(choix) == 0
  {
    AllChoiceHasCase(choix);
  }

  /** "-eqdim W x H" with both numbers written in digits runs the dimension walk on them. */
  lemma DimensionArguments(args: seq<string>, i: nat, w: nat, h: nat, same: bool)
    requires w <= IntMax && h <= IntMax && |args| >= 6 + i
    requires args[3 + i] == NatToDigits(w) && args[4 + i] == "x" && args[5 + i] == NatToDigits(h)
    ensures Planned(OptionName(DimOption(same)), i, args) == Some(ByDim(same, h, w))
  {
    ParseOrSentinelOfDigits(w);
    ParseOrSentinelOfDigits(h);
    OptionNameRoundTrip(DimOption(same));
  }

  /** A height or width option's walk only runs on a value other than -1. */
  lemma MeasureOptionNeedsValue(choix: string, i: nat, args: seq<string>)
    requires Kind(choix).Some? && (Kind(choix).value.HautOption? || Kind(choix).value.LargOption?)
    ensures Planned(choix, i, args).Some? <==> |args| >= 4 + i && ParseInt(args[3 + i]).Some? && ParseInt(args[3 + i]) != Some(-1)
  {
  }

  /** The name option compares with the word exactly as given, spaces included. */
  lemma NameOptionUntrimmed(i: nat, args: seq<string>, same: bool)
    requires |args| >= 4 + i
    ensures Planned(OptionName(NameOption(same)), i, args) == Some(ByName(same, args[3 + i]))
  {
    OptionNameRoundTrip(NameOption(same));
  }
}
