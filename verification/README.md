# Extracteur de métadonnées — a Dafny model of its search, listing and snapshot core

Extracteur-Metadonnees is a Java tool that walks a directory tree and
reports on its files. It has a command line (`CLI`) and a Swing window
(`GUI`). This project models the logic behind both front ends:

- **The file record `Fichier`.** It holds a path and a last-modified time.
  It also has helpers: the extension, the MIME subtype, the fields of a
  `dd/MM/yyyy HH:mm:ss` date, and the `larg`/`haut` number readers that
  return -1 for unreadable input.
- **The directory scan in `Repertoire`.**
  - The constructor and `liste_fichiers`.
  - `collectStatistics`, which counts files and tallies image extensions.
  - The twenty-two `recherche_fichier_*` walkers. They collect the files
    passing a date, name, dimension, height or width test, and skip any
    directory whose name contains "SnapShot".
  - `DateSup` / `DateEgale` / `IsDate`.
  - The list intersections `compare2` and `compare3`.
- **Snapshots in `Snapshot`.**
  - `sauvegarder` writes the current scan as `SnapShot/snapshot<n>.ser`.
  - `comparer` reports the removed, added and modified paths between a
    saved scan and the current one. This covers `Nombre_supprimer`,
    `Nombre_ajouter` and `Fichiers_modifié`.
- **The search window's logic in `GUI`.**
  - The dimension syntax check `isDimension` and its readers
    `getLargeur`/`getHauteur`.
  - The listing walk `listerfichier`.
  - The `recherche` fold: it starts from every listed file and narrows the
    result with `compare2`, once for each ticked box whose input is valid.
- **The command line's option recogniser `AllChoice` and its dispatcher
  `activeChoix`.**

The directory tree is a value: `Tree.Node` is a file, with its name, path
and the attributes the tool reads from it, or a directory. A directory
lists its children or, when `listFiles()` would return `null`, is not
listable. The walkers and `liste_fichiers` append to a list they are
given, so that list is a `FileList` or `Repertoire` object whose `items` /
`tab` field the methods update. The walk's order is each directory's
listing order, depth first.

The 22 walkers have the same loop and differ only in the test applied to
each file. They are modelled as one method, `Search.RechercheFichier`,
over a `Criterion` value; `Criteria.Satisfies` is that test, one case per
walker. The `recherche` handler's 22 `if` blocks likewise become one loop
over the boxes in the source's order (`Gui.Order`). The command line's 22
`case`s become one `match` over the option's kind (`Cli.OptionKind`).

## Model

| member | source | states |
|---|---|---|
| Text.ParseInt | Projet/src/main/java/fonctionnel/Fichier.java:213-220 | `Integer.parseInt`: a value is produced only for ASCII digits with at most one leading sign, it lies in the 32-bit range, and it is negative only after a minus sign |
| Text.ParseIntOfDigits | Projet/src/main/java/fonctionnel/Fichier.java:213-220 | every decimal numeral of an `int` reads back as that number |
| Text.IntToText | Projet/src/main/java/fonctionnel/Fichier.java:213-220 | the decimal text of an `int` carries a minus sign exactly when the number is negative |
| Text.ParseIntOfText | Projet/src/main/java/fonctionnel/Fichier.java:213-220 | the decimal text of every `int`, negative ones included, reads back as that number |
| Text.ParseIntPlusSign | Projet/src/main/java/fonctionnel/Fichier.java:213-220 | a leading plus sign is accepted and changes nothing |
| Text.ParseIntOverflow | Projet/src/main/java/fonctionnel/Fichier.java:213-220 | a numeral beyond the largest `int` is rejected rather than wrapped |
| Text.ParseIntRejectsLetters | Projet/src/main/java/fonctionnel/Fichier.java:213-220 | a text with a non-digit after its first character does not read as a number |
| Text.NatToDigits | Projet/src/main/java/fonctionnel/Snapshot.java:36 | the decimal numeral of `n` is non-empty, all digits, without a leading zero, and denotes `n` |
| Text.NatToDigitsInjective | Projet/src/main/java/fonctionnel/Snapshot.java:36 | different numbers have different numerals |
| Text.Trim | Projet/src/main/java/Graphique/GUI.java:700 | `String.trim`: the result is no longer than the text and starts and ends with a character above the space |
| Text.TrimMeans | Projet/src/main/java/Graphique/GUI.java:700 | cutting the text where only characters up to the space lie before and after a core that starts and ends above the space gives exactly the trimmed text |
| Text.TrimStart | Projet/src/main/java/Graphique/GUI.java:700 | the leading part removed holds only characters up to the space, and what is left is a suffix starting above it |
| Text.TrimEnd | Projet/src/main/java/Graphique/GUI.java:700 | the trailing part removed holds only characters up to the space, and what is left is a prefix ending above it |
| Text.TrimDigits | Projet/src/main/java/Graphique/GUI.java:1004-1021 | trimming leaves a numeral unchanged |
| Text.IndexOf | Projet/src/main/java/fonctionnel/Repertoire.java:167 | the first occurrence of `sub` at or after `from`, or -1 when there is none |
| Text.ContainsMeans | Projet/src/main/java/fonctionnel/Repertoire.java:167 | `contains` holds exactly when the text occurs somewhere |
| Text.LastIndexOf | Projet/src/main/java/fonctionnel/Fichier.java:94-101 | the index of the last occurrence of the character, or -1 |
| Text.ToLower | Projet/src/main/java/fonctionnel/Fichier.java:253-256 | lower-cases character by character, keeping the length |
| Text.ToLowerIdempotent | Projet/src/main/java/fonctionnel/Fichier.java:94-101 | lower-casing twice is lower-casing once |
| Text.SplitNoSeparator | Projet/src/main/java/Graphique/GUI.java:1004-1021 | a text without the separator splits into itself alone |
| Text.SplitSpaceFree | Projet/src/main/java/Graphique/GUI.java:1004-1021 | a text without a space splits on " x " into itself alone |
| Text.SplitAroundX | Projet/src/main/java/Graphique/GUI.java:1004-1021 | `w + " x " + h`, with space-free non-empty `w` and `h`, splits into exactly `[w, h]` |
| Fichier.GetExtension | Projet/src/main/java/fonctionnel/Fichier.java:94-101 | with no dot, the result is "Aucune extension"; otherwise it is shorter than the name and holds no dot |
| Fichier.GetExtensionOf | Projet/src/main/java/fonctionnel/Fichier.java:94-101 | the extension of `stem.ext` is `ext` lower-cased, whatever dots the stem holds |
| Fichier.ImageExtensionShape | Projet/src/main/java/fonctionnel/Fichier.java:118-120 | an image extension is one of jpg, jpeg, png and webp, is lower case, and is never the no-extension marker |
| Fichier.IsImageMimeType | Projet/src/main/java/fonctionnel/Fichier.java:108-110 | a MIME type is an image type when it is present and starts with "image/" |
| Fichier.IsImageExtension | Projet/src/main/java/fonctionnel/Fichier.java:118-120 | the image extensions are jpg, jpeg, png and webp; `ImageExtensionShape` gives their properties |
| Fichier.RecupMyme | Projet/src/main/java/fonctionnel/Fichier.java:243-246 | the result holds no '/', and a type without '/' is returned lower-cased |
| Fichier.RecupMymeOfType | Projet/src/main/java/fonctionnel/Fichier.java:243-246 | `kind/sub` gives `sub` lower-cased, and `image/sub` is an image MIME type (lines 108-110) |
| Fichier.ParseIntBound | Projet/src/main/java/fonctionnel/Fichier.java:147-150 | a numeral of `n` characters reads as a number below 10^n and above -10^(n-1) |
| Fichier.Annee | Projet/src/main/java/fonctionnel/Fichier.java:147-150 | the year field of a date, read from characters 6 to 10, lies between -999 and 9999 |
| Fichier.Jour | Projet/src/main/java/fonctionnel/Fichier.java:158-161 | the two-character day field lies between -9 and 99 |
| Fichier.Mois | Projet/src/main/java/fonctionnel/Fichier.java:169-172 | the two-character month field lies between -9 and 99 |
| Fichier.Heure | Projet/src/main/java/fonctionnel/Fichier.java:180-183 | the two-character hour field lies between -9 and 99 |
| Fichier.Minute | Projet/src/main/java/fonctionnel/Fichier.java:191-194 | the two-character minute field lies between -9 and 99 |
| Fichier.Seconde | Projet/src/main/java/fonctionnel/Fichier.java:202-205 | the two-character second field lies between -9 and 99 |
| Fichier.ParseOrSentinel | Projet/src/main/java/fonctionnel/Fichier.java:213-235 | `larg`/`haut`: -1 exactly when the text does not read or reads as -1; otherwise the number read |
| Fichier.ParseOrSentinelOfDigits | Projet/src/main/java/Graphique/GUI.java:954-976 | a written non-negative `int` reads back as itself |
| Fichier.MinusOneIsAmbiguous | Projet/src/main/java/fonctionnel/Fichier.java:213-235 | "-1" and an unreadable text give the same -1 |
| Fichier.NewFichier | Projet/src/main/java/fonctionnel/Fichier.java:32-39 | a record holds the path and modification time exactly when the path is an existing file; otherwise modif is 0 |
| Fichier.GetPath | Projet/src/main/java/fonctionnel/Fichier.java:253-256 | the key is the path lower-cased position by position, so it holds no upper-case letter |
| Fichier.GetPathIgnoresCase | Projet/src/main/java/fonctionnel/Fichier.java:253-256 | two records share a key exactly when their paths have the same length and differ at most in the case of ASCII letters |
| Fichier.LowerCharSame | Projet/src/main/java/fonctionnel/Fichier.java:253-256 | two characters lower-case alike exactly when they are equal or the same ASCII letter in the other case |
| Tree.Flatten | Projet/src/main/java/fonctionnel/Repertoire.java:186-201 | the walk of a listing yields its entries that are not directories, in the model always files, and skips "SnapShot" directories |
| Tree.Visit | Projet/src/main/java/fonctionnel/Repertoire.java:190-197 | the walk of one entry yields the entry itself when it is not a directory, in the model always a file, and the walk of its children otherwise |
| Tree.FlattenAppend | Projet/src/main/java/fonctionnel/Repertoire.java:186-201 | walking two listings in turn is walking their concatenation |
| Tree.FlattenSplit | Projet/src/main/java/fonctionnel/Repertoire.java:186-201 | the walk is the entries before `i`, entry `i`, then the rest |
| Tree.SnapShotContentsIgnored | Projet/src/main/java/fonctionnel/Repertoire.java:191 | replacing a "SnapShot" directory by any other directory of that name does not change the walk |
| Tree.Paths | Projet/src/main/java/Graphique/GUI.java:1070 | the path list matches the file list position by position |
| Tree.PathsAppend | Projet/src/main/java/Graphique/GUI.java:1060-1074 | the paths of a concatenation are the concatenated paths |
| Tree.PathsMembership | Projet/src/main/java/Graphique/GUI.java:1060-1074 | a path is listed exactly when some file has it |
| Dates.Fields | Projet/src/main/java/fonctionnel/Repertoire.java:806-847 | the six fields compared, year first, in the order `DateSup` tests them |
| Dates.DateEgale | Projet/src/main/java/fonctionnel/Repertoire.java:794-798 | the date test `equals` on the two texts; `DateTrichotomy` shows it is the case where neither date is later |
| Dates.DateSup | Projet/src/main/java/fonctionnel/Repertoire.java:806-847 | the year decides first: a later year is always later, and a later date never has an earlier year |
| Dates.DateSupIsLexGreater | Projet/src/main/java/fonctionnel/Repertoire.java:806-847 | `DateSup` is the lexicographic order on (year, month, day, hour, minute, second) |
| Dates.LexIrreflexive | Projet/src/main/java/fonctionnel/Repertoire.java:806-847 | the field order is irreflexive |
| Dates.LexTransitive | Projet/src/main/java/fonctionnel/Repertoire.java:806-847 | the field order is transitive |
| Dates.LexTotal | Projet/src/main/java/fonctionnel/Repertoire.java:806-847 | two different field lists are ordered one way and never both |
| Dates.DateSupIrreflexive | Projet/src/main/java/fonctionnel/Repertoire.java:806-847 | no date is later than itself |
| Dates.DateSupTransitive | Projet/src/main/java/fonctionnel/Repertoire.java:806-847 | later-than is transitive |
| Dates.DateSupAsymmetric | Projet/src/main/java/fonctionnel/Repertoire.java:806-847 | two dates are never each later than the other |
| Dates.LayoutFields | Projet/src/main/java/fonctionnel/Fichier.java:147-205 | on the `dd/MM/yyyy HH:mm:ss` layout every field reads as its two digits' value |
| Dates.PairPatterns | Projet/src/main/java/fonctionnel/Repertoire.java:854-866 | each pattern's digit pairs are exactly the values 1-31, 1-12, 0-23 and 0-59 |
| Dates.IsDate | Projet/src/main/java/fonctionnel/Repertoire.java:854-866 | every text the pattern accepts can be compared by `DateSup` without an exception |
| Dates.IsDateMeans | Projet/src/main/java/fonctionnel/Repertoire.java:854-866 | `IsDate` holds exactly for the layout with day 1-31, month 1-12, hour 0-23 and minute and second 0-59 |
| Dates.IsDateIsDateText | Projet/src/main/java/fonctionnel/Repertoire.java:854-866 | a date `IsDate` accepts can be compared by `DateSup` without an exception |
| Dates.IsDateAcceptsImpossibleDay | Projet/src/main/java/fonctionnel/Repertoire.java:854-866 | the check is per field: 31 February is accepted |
| Dates.SentinelIsNoDate | Projet/src/main/java/fonctionnel/Fichier.java:137 | the fallback creation date "00/00/0000" is neither a date nor comparable |
| Dates.DigitsValueInjective | Projet/src/main/java/fonctionnel/Fichier.java:147-150 | numerals of one length with the same value are equal |
| Dates.PairInjective | Projet/src/main/java/fonctionnel/Fichier.java:157-205 | two-digit fields with the same value have the same digits |
| Dates.YearInjective | Projet/src/main/java/fonctionnel/Fichier.java:147-150 | four-digit years with the same value have the same digits |
| Dates.IsDateLayout | Projet/src/main/java/fonctionnel/Repertoire.java:854-866 | an accepted date has the fixed layout |
| Dates.FieldsInjective | Projet/src/main/java/fonctionnel/Repertoire.java:794-798 | two accepted dates with the same fields are the same text |
| Dates.SameFieldsSameDate | Projet/src/main/java/fonctionnel/Repertoire.java:794-798 | two accepted dates whose year, month, day, hour, minute and second agree are the same text |
| Dates.SameDigitsSameDate | Projet/src/main/java/fonctionnel/Repertoire.java:794-798 | two dates on the layout with the same digits are the same text |
| Dates.DateTrichotomy | Projet/src/main/java/fonctionnel/Repertoire.java:794-847 | for two accepted dates exactly one of later, equal and earlier holds |
| Criteria.Complement | Projet/src/main/java/fonctionnel/Repertoire.java:186-776 | the opposite comparison of each walker pair; `ComplementNegates` states it |
| Criteria.ComplementNegates | Projet/src/main/java/fonctionnel/Repertoire.java:186-776 | the opposite comparison holds exactly where the comparison fails |
| Criteria.Satisfies | Projet/src/main/java/fonctionnel/Repertoire.java:186-776 | the test of each of the 22 walkers, one case per walker; `ComplementSplits`, `MeasuredValueIsKnown` and `DateTestsAreChronological` give its meaning |
| Criteria.MeasuredValueIsKnown | Projet/src/main/java/fonctionnel/Repertoire.java:437-776 | a height or width test passes only for an EXIF image whose value is known (not -1) and compares as asked |
| Criteria.ComplementSplits | Projet/src/main/java/fonctionnel/Repertoire.java:186-776 | each walker and its opposite (`_dif`, `inf` against `sup_egale`, ...) split the files: exactly one passes, for dates, names, and EXIF images with a known value |
| Criteria.DateComplementSplits | Projet/src/main/java/fonctionnel/Repertoire.java:186-329 | each date test and its complement split the comparable files |
| Criteria.OrderedDateTests | Projet/src/main/java/fonctionnel/Repertoire.java:210-329 | the after, not-after, not-before and before tests in terms of `DateSup` and `DateEgale` |
| Criteria.DateTest | Projet/src/main/java/fonctionnel/Repertoire.java:210-329 | each ordered date test is its combination of `DateSup` and `DateEgale` |
| Criteria.DimDifferentKeepsUnknown | Projet/src/main/java/fonctionnel/Repertoire.java:409-429 | `dim_dif` keeps an EXIF image with an unknown size while `hauteur_dif` drops it |
| Criteria.DateTestsAreChronological | Projet/src/main/java/fonctionnel/Repertoire.java:210-329 | for accepted dates, the after, not-before, before and not-after tests are chronological |
| Criteria.NewYearExample | Projet/src/main/java/fonctionnel/Repertoire.java:806-847 | 15/03/2023 10:30:00 is later than 01/01/2023 00:00:00 |
| Criteria.LaterByMonth | Projet/src/main/java/fonctionnel/Repertoire.java:806-847 | with the same year, a later month makes a date later |
| Criteria.MonthDecides | Projet/src/main/java/fonctionnel/Repertoire.java:806-847 | with equal years, a greater month decides `DateSup` |
| Search.FileList.constructor | Projet/src/main/java/Graphique/GUI.java:741 | a new list is empty |
| Search.FileList.Add | Projet/src/main/java/fonctionnel/Repertoire.java:196 | `add` appends exactly the path at the end |
| Search.AllDefinedAppend | Projet/src/main/java/fonctionnel/Repertoire.java:186-201 | a test runs on a concatenation exactly when it runs on both parts |
| Search.Select | Projet/src/main/java/fonctionnel/Repertoire.java:186-201 | the files kept all pass the test, and there are no more of them than files |
| Search.SelectMembers | Projet/src/main/java/fonctionnel/Repertoire.java:186-201 | a file is kept exactly when it is listed and passes the test |
| Search.SelectAppend | Projet/src/main/java/fonctionnel/Repertoire.java:186-201 | filtering a concatenation filters each part in turn |
| Search.WalkStep | Projet/src/main/java/fonctionnel/Repertoire.java:189-199 | one loop turn adds the matches of entry `i` to those of the entries before it |
| Search.RechercheFichier | Projet/src/main/java/fonctionnel/Repertoire.java:186-776 | every `recherche_fichier_*`: appends to `fileList` the paths of the files the walk visits and the test passes, in walk order |
| Search.RechercheEntree | Projet/src/main/java/fonctionnel/Repertoire.java:190-198 | one entry of the walk: a file adds its path when it passes the test, a "SnapShot" directory adds nothing, any other directory adds the matches of its walk |
| Search.SelectedPathsMeans | Projet/src/main/java/fonctionnel/Repertoire.java:186-776 | a path is reported exactly when a visited file with that path passes the test |
| Search.SelectedPathFrom | Projet/src/main/java/fonctionnel/Repertoire.java:186-776 | every reported path belongs to a visited file that passes the test |
| Search.PassingPathSelected | Projet/src/main/java/fonctionnel/Repertoire.java:186-776 | every visited file that passes the test has its path reported |
| Search.SelectAnyFile | Projet/src/main/java/Graphique/GUI.java:1060-1074 | the test that keeps every file keeps the listing unchanged |
| Search.SnapShotNeverReported | Projet/src/main/java/fonctionnel/Repertoire.java:191 | the contents of a "SnapShot" directory never change what a walker reports |
| Combine.Keep | Projet/src/main/java/fonctionnel/Repertoire.java:875-889 | the result holds exactly the entries of the first list that are in the second, and is no longer than the first |
| Combine.KeepBoth | Projet/src/main/java/fonctionnel/Repertoire.java:900-917 | the result is no longer than the first list |
| Combine.Compare2 | Projet/src/main/java/fonctionnel/Repertoire.java:875-889 | `compare2`'s loop computes the entries of `c1`, in order, that `c2` contains |
| Combine.Compare3 | Projet/src/main/java/fonctionnel/Repertoire.java:900-917 | `compare3`'s loop computes the entries of `c1`, in order, that both `c2` and `c3` contain |
| Combine.KeepBothIsKeepTwice | Projet/src/main/java/fonctionnel/Repertoire.java:875-917 | `compare3(a, b, c)` is `compare2(compare2(a, b), c)` |
| Combine.KeepAppend | Projet/src/main/java/fonctionnel/Repertoire.java:875-889 | intersection distributes over concatenation of the first list |
| Combine.KeepAll | Projet/src/main/java/fonctionnel/Repertoire.java:875-889 | intersecting with a list that holds every entry changes nothing |
| Combine.KeepDependsOnMembership | Projet/src/main/java/fonctionnel/Repertoire.java:875-889 | the result depends only on which entries the second list holds |
| Combine.DefinedForAllInit | Projet/src/main/java/Graphique/GUI.java:752-923 | every test of the plan runs on a prefix of the files and on the last file |
| Combine.SelectAll | Projet/src/main/java/Graphique/GUI.java:752-923 | filtering by all tests keeps only files and is no longer than the input |
| Combine.SelectAllMembers | Projet/src/main/java/Graphique/GUI.java:752-923 | a file is kept by all the tests exactly when it is listed and passes each of them |
| Combine.SelectAllNone | Projet/src/main/java/Graphique/GUI.java:741-742 | with no test, every file is kept |
| Combine.LastPathIsNew | Projet/src/main/java/Graphique/GUI.java:752-923 | in a list of distinct paths, the last path occurs nowhere before it |
| Combine.PathFromSubList | Projet/src/main/java/Graphique/GUI.java:752-923 | a path reported from a sub-list belongs to a file of the full list |
| Combine.DefinedForAllSnoc | Projet/src/main/java/Graphique/GUI.java:752-923 | a test that runs on every file can be added to the plan |
| Combine.LastNotReported | Projet/src/main/java/Graphique/GUI.java:752-923 | with distinct paths, the last file's path is not reported from the files before it |
| Combine.PassesAllSnoc | Projet/src/main/java/Graphique/GUI.java:752-923 | passing the plan plus one test is passing the plan and that test |
| Combine.KeepSnoc | Projet/src/main/java/fonctionnel/Repertoire.java:875-889 | adding a new path to both lists adds it to the intersection exactly when it went into both |
| Combine.SelectSnoc | Projet/src/main/java/fonctionnel/Repertoire.java:186-201 | filtering one more file reports its path exactly when it passes |
| Combine.SelectAllSnoc | Projet/src/main/java/Graphique/GUI.java:752-923 | filtering one more file by all tests reports its path exactly when it passes them all |
| Combine.KeepNarrows | Projet/src/main/java/Graphique/GUI.java:752-923 | with distinct paths, `compare2` of the result so far and one more walk equals filtering by the plan plus that test |
| Combine.NarrowedMeans | Projet/src/main/java/Graphique/GUI.java:741-923 | with distinct paths, the fold of `compare2` over the walks is the list of files passing every test, in walk order |
| Repertoire.Record | Projet/src/main/java/fonctionnel/Repertoire.java:173 | the record of a listed file holds its path and modification time |
| Repertoire.Records | Projet/src/main/java/fonctionnel/Repertoire.java:161-177 | the records match the files position by position |
| Repertoire.RecordsAppend | Projet/src/main/java/fonctionnel/Repertoire.java:161-177 | the records of a concatenation are the concatenated records |
| Repertoire.SuffixSplit | Projet/src/main/java/fonctionnel/Repertoire.java:161-177 | the walk from index `i` is entry `i`'s walk followed by the rest |
| Repertoire.AsWrittenAgreesWithoutSnapShots | Projet/src/main/java/fonctionnel/Repertoire.java:161-177 | without "SnapShot" directories, `liste_fichiers` as written lists every file in walk order |
| Repertoire.ListeFichiersSkipsSibling | Projet/src/main/java/fonctionnel/Repertoire.java:165-176 | a "SnapShot" directory followed by a file lists nothing, although the file should be listed |
| Repertoire.SnapShotThenFile | Projet/src/main/java/fonctionnel/Repertoire.java:161-177 | the walk of a "SnapShot" directory then a file is that file alone |
| Repertoire.RecordOfOne | Projet/src/main/java/fonctionnel/Repertoire.java:173 | the records of one file are that file's record |
| Repertoire.Scan | Projet/src/main/java/fonctionnel/Repertoire.java:25-41 | the records of a new `Repertoire` all name existing files, and there are none for a missing path or a file |
| Repertoire.TopListed | Projet/src/main/java/fonctionnel/Repertoire.java:29-39 | the records the constructor's loop appends all name existing files |
| Repertoire.TopEntry | Projet/src/main/java/fonctionnel/Repertoire.java:31-37 | the records one top-level entry adds all name existing files |
| Repertoire.TopStep | Projet/src/main/java/fonctionnel/Repertoire.java:29-39 | one turn of the constructor's loop adds what its body appends for entry `i` |
| Repertoire.TopAgreesWithoutSnapShots | Projet/src/main/java/fonctionnel/Repertoire.java:25-41 | without "SnapShot" directories, the constructor records every file the walk reaches, in walk order |
| Repertoire.ConstructorSkipsSibling | Projet/src/main/java/fonctionnel/Repertoire.java:25-41 | a root holding `sub`, which lists a "SnapShot" directory then a file, gets no record although the walk reaches the file |
| Repertoire.ListedFrom | Projet/src/main/java/fonctionnel/Repertoire.java:161-177 | the records `liste_fichiers` as written appends from index `i` all name existing files |
| Repertoire.ListedDir | Projet/src/main/java/fonctionnel/Repertoire.java:161-177 | the records `liste_fichiers` as written appends for a directory all name existing files |
| Repertoire.Repertoire.constructor | Projet/src/main/java/fonctionnel/Repertoire.java:25-41 | `new Repertoire(path)`: one step per top-level entry, a record per top-level file, and each other subdirectory listed by `liste_fichiers` as written; none for a file or a missing path |
| Repertoire.Repertoire.ListeFichiers | Projet/src/main/java/fonctionnel/Repertoire.java:161-177 | `liste_fichiers` as written appends what its double step lists |
| Repertoire.Repertoire.ListeFichiersCorrige | Projet/src/main/java/fonctionnel/Repertoire.java:161-177 | with the single step, appends a record for every file the walk visits, in order |
| Repertoire.Repertoire.ListeEntree | Projet/src/main/java/fonctionnel/Repertoire.java:166-174 | one loop turn appends the records of one entry's walk |
| Repertoire.ListStep | Projet/src/main/java/fonctionnel/Repertoire.java:164-176 | the records of the first `i + 1` entries extend those of the first `i` by entry `i`'s |
| Repertoire.VisitRecords | Projet/src/main/java/fonctionnel/Repertoire.java:166-174 | a file gives its own record, a "SnapShot" directory none, any other directory its children's |
| Repertoire.ImageFormats.constructor | Projet/src/main/java/fonctionnel/Repertoire.java:57 | the tally starts empty |
| Repertoire.ImageFormats.Increment | Projet/src/main/java/fonctionnel/Repertoire.java:87 | `put(ext, getOrDefault(ext, 0) + 1)` raises that one count by one and changes no other |
| Repertoire.AllFiles | Projet/src/main/java/fonctionnel/Repertoire.java:78-99 | the files `collectStatistics` visits are regular files |
| Repertoire.Entry | Projet/src/main/java/fonctionnel/Repertoire.java:83-95 | the files one entry contributes are regular files |
| Repertoire.TallyAppend | Projet/src/main/java/fonctionnel/Repertoire.java:78-99 | tallying two lists in turn is tallying their concatenation |
| Repertoire.TallyCounts | Projet/src/main/java/fonctionnel/Repertoire.java:78-99 | each extension's count grows by the number of image files with that extension |
| Repertoire.CountFileCounts | Projet/src/main/java/fonctionnel/Repertoire.java:85-87 | one file raises the count of its extension by one when it is an image extension, and nothing else |
| Repertoire.TallyKeys | Projet/src/main/java/fonctionnel/Repertoire.java:78-99 | the tally only gains image extensions as keys |
| Repertoire.ImagesAtMostFiles | Projet/src/main/java/fonctionnel/Repertoire.java:78-99 | the four image counts together never exceed the number of files |
| Repertoire.CollectStatistics | Projet/src/main/java/fonctionnel/Repertoire.java:78-99 | when no image-extension file has an unknown MIME type, returns the number of files under the directory, and the tally adds their image extensions |
| Repertoire.CountEntry | Projet/src/main/java/fonctionnel/Repertoire.java:83-95 | one loop turn counts one entry's files and tallies them |
| Repertoire.CountImage | Projet/src/main/java/fonctionnel/Repertoire.java:85-91 | an image extension is counted, and the warning is due exactly when the MIME subtype differs from the file's extension |
| Repertoire.FileEntry | Projet/src/main/java/fonctionnel/Repertoire.java:83-87 | a file contributes itself and its own tally step |
| Repertoire.CountStep | Projet/src/main/java/fonctionnel/Repertoire.java:82-96 | the count and tally for the first `i + 1` entries extend those for the first `i` |
| Repertoire.StatisticsCountSnapShots | Projet/src/main/java/fonctionnel/Repertoire.java:78-99 | the statistics count files inside a "SnapShot" directory that the listing skips |
| Snapshot.Keys | Projet/src/main/java/fonctionnel/Snapshot.java:87 | the keys compared are the lower-cased paths, position by position |
| Snapshot.Unmatched | Projet/src/main/java/fonctionnel/Snapshot.java:85-97 | no more paths are reported than records on the first side |
| Snapshot.Position | Projet/src/main/java/fonctionnel/Snapshot.java:174-179 | the index where the inner loop stops: the first record with that key |
| Snapshot.PositionIsFirst | Projet/src/main/java/fonctionnel/Snapshot.java:174-179 | the first index holding the key is the position |
| Snapshot.Modified | Projet/src/main/java/fonctionnel/Snapshot.java:173-192 | no more paths are reported than current records |
| Snapshot.UnmatchedMeans | Projet/src/main/java/fonctionnel/Snapshot.java:85-97 | a path is reported as removed (added) exactly when its key is saved but not current (current but not saved) |
| Snapshot.ModifiedMeans | Projet/src/main/java/fonctionnel/Snapshot.java:173-192 | a path is reported as modified exactly when a current record's key first matches a saved record with another modification time |
| Snapshot.ModifiedBy | Projet/src/main/java/fonctionnel/Snapshot.java:173-192 | every reported modified path comes from a current record whose first saved match has another modification time |
| Snapshot.ChangedIsModified | Projet/src/main/java/fonctionnel/Snapshot.java:173-192 | every current record whose first saved match has another modification time is reported as modified |
| Snapshot.DiffClassesDisjoint | Projet/src/main/java/fonctionnel/Snapshot.java:74-204 | no path is both removed and added, and no modified path is removed or added |
| Snapshot.SelfDiffEmpty | Projet/src/main/java/fonctionnel/Snapshot.java:74-204 | comparing a scan with itself, with distinct keys, reports nothing |
| Snapshot.SelfUnmatchedPrefix | Projet/src/main/java/fonctionnel/Snapshot.java:85-97 | no record of a prefix is missing from the whole |
| Snapshot.SelfModifiedPrefix | Projet/src/main/java/fonctionnel/Snapshot.java:173-192 | with distinct keys, a prefix of a scan has no modified record against it |
| Snapshot.CaseCollisionReportsModified | Projet/src/main/java/fonctionnel/Snapshot.java:173-192 | two paths differing only in case make an unchanged scan report a modified file |
| Snapshot.NombreSupprimer | Projet/src/main/java/fonctionnel/Snapshot.java:74-108 | the loop reports the saved paths whose key is not current, and counts them |
| Snapshot.NombreAjouter | Projet/src/main/java/fonctionnel/Snapshot.java:116-152 | the loop reports the current paths whose key was not saved, and counts them |
| Snapshot.FichiersModifies | Projet/src/main/java/fonctionnel/Snapshot.java:160-204 | the nested loops report the current paths whose first saved match has another modification time, and count them |
| Snapshot.FirstSaved | Projet/src/main/java/fonctionnel/Snapshot.java:174-179 | the inner loop finds the first saved record with the key, or reports that none has it |
| Snapshot.ModifiedStep | Projet/src/main/java/fonctionnel/Snapshot.java:173-192 | one outer turn adds the current record's path exactly when its first match differs in time |
| Snapshot.Comparer | Projet/src/main/java/fonctionnel/Snapshot.java:58-66 | no report when the snapshot cannot be read; otherwise the removed, added and modified paths against what `new Repertoire(path)` now holds |
| Snapshot.UnchangedTreeReportsNothing | Projet/src/main/java/fonctionnel/Snapshot.java:58-66 | comparing a tree, with distinct keys, with its own snapshot reports nothing |
| Snapshot.EntryName | Projet/src/main/java/fonctionnel/Snapshot.java:36 | a checkpoint name is "snapshot", a numeral, ".ser" |
| Snapshot.EntryNameInjective | Projet/src/main/java/fonctionnel/Snapshot.java:36 | different numbers give different checkpoint names |
| Snapshot.CheckpointPathShape | Projet/src/main/java/fonctionnel/Snapshot.java:25-36 | the file written is `path/SnapShot/snapshot<n>.ser` |
| Snapshot.CheckpointFolder.constructor | Projet/src/main/java/fonctionnel/Snapshot.java:25-28 | a folder that does not exist holds no checkpoint |
| Snapshot.CheckpointFolder.Sauvegarder | Projet/src/main/java/fonctionnel/Snapshot.java:23-50 | the folder exists afterwards when the path is a directory, and what `new Repertoire(path)` holds is stored under the name numbered by the folder's entry count |
| Snapshot.NumberedFolderGetsFreshName | Projet/src/main/java/fonctionnel/Snapshot.java:34-36 | while the folder holds exactly snapshot0..snapshot(n-1), the new name is fresh |
| Snapshot.GapOverwrites | Projet/src/main/java/fonctionnel/Snapshot.java:34-36 | when the folder holds only snapshot1, the next save overwrites it |
| Gui.DigitsEnd | Projet/src/main/java/Graphique/GUI.java:983-996 | where `\d+` stops: every character before is a digit and the next is not |
| Gui.SpacesEnd | Projet/src/main/java/Graphique/GUI.java:983-996 | where `\s+` stops: every character before is a space and the next is not |
| Gui.DigitsEndOf | Projet/src/main/java/Graphique/GUI.java:983-996 | any end of a digit run is the end found |
| Gui.SpacesEndOf | Projet/src/main/java/Graphique/GUI.java:983-996 | any end of a space run is the end found |
| Gui.IsDimension | Projet/src/main/java/Graphique/GUI.java:983-996 | the pattern digits, spaces, "x", spaces, digits over the whole text; `IsDimensionAccepts` and `IsDimensionShape` state it both ways |
| Gui.IsDimensionAccepts | Projet/src/main/java/Graphique/GUI.java:983-996 | digits, spaces, "x", spaces and digits always match |
| Gui.IsDimensionShape | Projet/src/main/java/Graphique/GUI.java:983-996 | a match is made of digits, spaces, "x", spaces and digits |
| Gui.GetLargeur | Projet/src/main/java/Graphique/GUI.java:1004-1021 | the first of exactly two " x " pieces, trimmed and read as a number; -1 when there are not two pieces or that piece does not read, so -1 also stands for a written "-1" |
| Gui.GetHauteur | Projet/src/main/java/Graphique/GUI.java:1029-1046 | the second of exactly two " x " pieces, trimmed and read as a number; -1 when there are not two pieces or that piece does not read, so -1 also stands for a written "-1" |
| Gui.WrittenDimensionAccepted | Projet/src/main/java/Graphique/GUI.java:983-996 | "W x H" written from two numbers is a dimension |
| Gui.DimensionRoundTrip | Projet/src/main/java/Graphique/GUI.java:983-1046 | "W x H" written from two `int`s is accepted and reads back as W and H |
| Gui.TabSeparatedDimension | Projet/src/main/java/Graphique/GUI.java:983-1046 | "5\tx\t6" is a dimension, but both readers return -1 for it |
| Gui.TabSeparatedIsDimension | Projet/src/main/java/Graphique/GUI.java:983-996 | tabs count as the spaces of the pattern |
| Gui.TabSeparatedUnread | Projet/src/main/java/Graphique/GUI.java:1004-1046 | without " x " the readers find one piece and return -1 |
| Gui.ListerFichier | Projet/src/main/java/Graphique/GUI.java:1060-1074 | `listerfichier` appends the path of every file the walk visits, in walk order |
| Gui.ListerEntree | Projet/src/main/java/Graphique/GUI.java:1064-1071 | one loop turn appends the paths of one entry's walk |
| Gui.ListStepPaths | Projet/src/main/java/Graphique/GUI.java:1062-1072 | the paths of the first `i + 1` entries extend those of the first `i` by entry `i`'s |
| Gui.VisitPaths | Projet/src/main/java/Graphique/GUI.java:1064-1071 | a file gives its path, a "SnapShot" directory nothing, any other directory its children's |
| Gui.ListingIsAnyFileSearch | Projet/src/main/java/Graphique/GUI.java:1060-1074 | the listing is the walker whose test keeps every file |
| Gui.OrderCoversAll | Projet/src/main/java/Graphique/GUI.java:752-923 | every box is handled by the search |
| Gui.PlanOverMembers | Projet/src/main/java/Graphique/GUI.java:752-923 | a test is run exactly when some box that applies asks for it |
| Gui.PlannedBy | Projet/src/main/java/Graphique/GUI.java:752-923 | every test that is run is asked for by some box that applies |
| Gui.AppliedIsPlanned | Projet/src/main/java/Graphique/GUI.java:752-923 | every box that applies has its test run |
| Gui.PlanDefined | Projet/src/main/java/Graphique/GUI.java:752-923 | every planned walk runs on every listed file |
| Gui.PlanHasEveryApplied | Projet/src/main/java/Graphique/GUI.java:752-923 | every box that applies has its walk run |
| Gui.InvalidAmongMeans | Projet/src/main/java/Graphique/GUI.java:790-902 | an input is reported invalid exactly when some ticked box's group input is invalid |
| Gui.DraOverOrder | Projet/src/main/java/Graphique/GUI.java:744-902 | the error flag `dra` is set exactly when some ticked box's input is invalid |
| Gui.OrderStep | Projet/src/main/java/Graphique/GUI.java:752-923 | handling one more box adds its walk when it applies, and its error when its input is invalid |
| Gui.NarrowBy | Projet/src/main/java/Graphique/GUI.java:754-758 | one box: the result becomes `compare2` of the result and that box's walk |
| Gui.NarrowStep | Projet/src/main/java/Graphique/GUI.java:754-758 | the fold over the plan plus one test is `compare2` of the fold so far and that test's walk |
| Gui.ApplyBox | Projet/src/main/java/Graphique/GUI.java:752-923 | handling box `i` keeps the invariant that the result and `dra` are those of the boxes before it |
| Gui.HandledNone | Projet/src/main/java/Graphique/GUI.java:741-744 | before any box is handled, the result is the whole listing and `dra` is 0 |
| Gui.HandledAll | Projet/src/main/java/Graphique/GUI.java:752-923 | once every box is handled, the result is the listing narrowed by every box that applies, and `dra` flags an invalid input |
| Gui.Narrowing | Projet/src/main/java/Graphique/GUI.java:741-923 | the result is the listing narrowed by the walk of every box that applies, in order; `dra` is 1 exactly on an invalid input |
| Gui.Recherche | Projet/src/main/java/Graphique/GUI.java:741-930 | as written: nothing shown on an invalid input or with no box ticked, else the narrowed listing, where "width less than" is computed and dropped |
| Gui.RechercheCorrigee | Projet/src/main/java/Graphique/GUI.java:741-930 | corrected: the same, with "width less than" narrowing the result too |
| Gui.NarrowedWithinListing | Projet/src/main/java/Graphique/GUI.java:741-923 | the search only shows listed paths, and no more of them than the listing holds |
| Gui.SearchShowsFilesPassingEveryTest | Projet/src/main/java/Graphique/GUI.java:741-923 | with distinct paths, the search shows exactly the listed files that pass every applied test, in walk order |
| Gui.LtLargNeverNarrows | Projet/src/main/java/Graphique/GUI.java:885-889 | as written, no "width less than" test ever narrows the result |
| Gui.LtLargNarrowsWhenCorrected | Projet/src/main/java/Graphique/GUI.java:885-889 | corrected, a ticked "width less than" with a valid width keeps only images narrower than it |
| Cli.AllChoiceHasCase | Projet/src/main/java/Console/CLI.java:1691-1698 | a word is recognised exactly when `activeChoix`'s switch has a case for it |
| Cli.AllChoice | Projet/src/main/java/Console/CLI.java:1691-1698 | the 22 option words the command line recognises |
| Cli.Kind | Projet/src/main/java/Console/CLI.java:1711-2148 | the `case` of `activeChoix`'s switch a word selects, if any; `AllChoiceHasCase` ties it to `AllChoice` |
| Cli.OptionNameRoundTrip | Projet/src/main/java/Console/CLI.java:1691-1698 | every option kind's word is recognised and selects that kind's case |
| Cli.DimOptionRoundTrip | Projet/src/main/java/Console/CLI.java:1845-2129 | each dimension option word selects its dimension comparison |
| Cli.NameOptionRoundTrip | Projet/src/main/java/Console/CLI.java:1869-2145 | each name option word selects its name comparison |
| Cli.DateOptionRoundTrip | Projet/src/main/java/Console/CLI.java:1711-1733 | each date option word selects its date comparison |
| Cli.HautOptionRoundTrip | Projet/src/main/java/Console/CLI.java:1885-1895 | each height option word selects its height comparison |
| Cli.LargOptionRoundTrip | Projet/src/main/java/Console/CLI.java:1711-2148 | each width option word selects its width comparison |
| Cli.Advance | Projet/src/main/java/Console/CLI.java:1711-2148 | the index moves on by a positive step exactly for a recognised word (2 for dates, 3 for dimensions, else 1) |
| Cli.Planned | Projet/src/main/java/Console/CLI.java:1711-2148 | a walk is run only for a recognised word |
| Cli.ActiveChoix | Projet/src/main/java/Console/CLI.java:1711-2148 | `activeChoix` appends the matches of the walk the option asks for, or nothing, and returns the index past the option's values |
| Cli.UnknownOptionIgnored | Projet/src/main/java/Console/CLI.java:1711-2148 | an unrecognised word runs no walk and consumes no argument |
| Cli.DimensionArguments | Projet/src/main/java/Console/CLI.java:1845-1860 | "W x H" as three arguments runs the dimension walk with height H and width W |
| Cli.MeasureOptionNeedsValue | Projet/src/main/java/Console/CLI.java:1885-1895 | a height or width option runs its walk exactly when its value is present and reads as a number other than -1 |
| Cli.NameOptionUntrimmed | Projet/src/main/java/Console/CLI.java:1869-1877 | the name option compares with the argument as given, without trimming |

## Left out

- The metadata readers are not modelled; their results are attributes of a file node (`Tree.Attrs`). This covers the creation date (`DateDeCreation`), the EXIF reader (`Image`: `estExif`, `hauteur`, `largeur`), `lastModified` and the MIME probe `leMyme` (`mime`: `None` for a null answer, `Some("")` when the probe fails). `Image.java` is not part of this model.
- `DateDeCreation`'s own formatting is not modelled. A node's creation text is any string, including its "00/00/0000" fallback.
- All printing is left out: `System.out` messages, `affichage`, `afficherStatistiques`, `listerFichiers`/`listFilesRecursively` and the Swing widgets. The search result is returned instead of printed.
- The GUI's `selectedCount[0]` is a parameter of `Gui.Recherche`, since it is computed by widget listeners.
- Serialization is not modelled. `sauvegarder` stores the scan in a map from checkpoint name to records, and `comparer` receives the loaded snapshot as an `Option`: `None` when the `.ser` file cannot be read.
- `mkdir`'s result is not modelled. The folder simply exists after the first save.
- `Nombre_supprimer`, `Nombre_ajouter` and `Fichiers_modifié` each deserialize the snapshot separately. They are modelled with one loaded value, so a file that changes between the reads is not captured.
- Lower-casing only maps A-Z. Java's locale-dependent and Unicode case mapping is not modelled.
- Repertoire.Record: every entry that is not a directory is taken as an existing regular file (`Tree.Node` is a file or a directory). A special file (device, pipe, socket) or a broken symbolic link also takes the file branch of `liste_fichiers`, the constructor, the 22 walkers and `listerfichier` (`Repertoire.java:172-173`, 194-197, `GUI.java:1068-1070`). There, `new Fichier(path)` leaves `chemin` and `fich` null (`Fichier.java:34-38`), whereas `collectStatistics` counts only `isFile()` entries (`Repertoire.java:83`). The model therefore never builds a record without a path, and its walks and statistics never disagree on such an entry.
- Snapshot.Comparer: requires the saved records to have a path (`Present`). A snapshot saved from a tree holding a special file or a broken link would hold a null-path record, on which the Java `comparer` throws a null dereference in `get_Path`; a current tree holding one throws in the same way.
- Directory symbolic links: `isDirectory` follows them, so a link cycle makes the Java walks recurse without end. A `Tree.Node` is a finite value and cannot hold a cycle.
- Text.ParseInt: reads only the ASCII digits '0'-'9'. `Integer.parseInt` also accepts the other Unicode decimal digits (Arabic-Indic, Devanagari, full-width, ...), so a number typed in those digits is read by the program and refused by the model; this reaches `larg`/`haut`, the command line's height, width and dimension options and the search window's height and width fields.
- Paths are strings. `getAbsolutePath` is taken to be the path the node holds.
- The command line's `main`, its argument parsing around `activeChoix`, and the other CLI options are not modelled.
- `Cli.ActiveChoix`: the argument index is a `nat`, so a negative index is not modelled.
- `Cli.ActiveChoix`: the 22 `case`s are grouped by option kind into 5 branches. Each branch does what its cases do with the comparison as a parameter.
- The exceptions the source would throw are modelled as preconditions of the callers, not as error results:
  - a directory whose `listFiles()` is `null`: `ListableAll`, `Scannable`, `Ready`;
  - `DateSup` on a text too short or not numeric: `Defined`, `Searchable`;
  - an option whose walk would throw: `CanRun`;
  - an image-extension file whose MIME type `leMyme` reports as null, on which `recupMyme` dereferences null and `collectStatistics` stops: `MimeKnown`;
  - a record without a path, on which `get_Path` dereferences null (`Fichier.java:255`) when `comparer` reads it (`Snapshot.java:87`, 92, 131, 137, 175): `Present`, on the snapshot `Comparer` reads.
- `Gui.NarrowedWithinListing`: states that every shown path is listed and that there are no more of them. It does not state that the result is a subsequence of the listing; `Gui.SearchShowsFilesPassingEveryTest` gives the exact result when paths are distinct.
- `Search.RechercheFichier`: the 22 walkers are one method over a `Criterion`. The per-file test of each walker is a case of `Criteria.Satisfies`.
- The names of option words are not proved pairwise distinct; only the round trip from kind to word to kind is.
- `Combine.KeepBoth`: its contract only bounds the length. Its meaning is given by `Combine.KeepBothIsKeepTwice`.
- `Dates.DateSupIsLexGreater` and the order lemmas are stated on texts the comparison can read (`DateText`), not on arbitrary strings.

## Findings

| source | as written | input that shows it | evidently intended | confidence | as-written member | corrected member |
|---|---|---|---|---|---|---|
| Projet/src/main/java/fonctionnel/Repertoire.java:167-175 | after a directory whose name contains "SnapShot", `i` is incremented twice, so the entry right after it is never listed | a subdirectory `sub` listing `[sub/SnapShot, sub/a.txt]` in that order: `liste_fichiers(sub)` adds no record for `a.txt`, and neither does `new Repertoire(r)` for a root `r` holding `sub` (`Repertoire.ConstructorSkipsSibling`), so `comparer` and `sauvegarder` never see that file | skip only the "SnapShot" directory, as every walker does | not executed | Repertoire.ListeFichiersSkipsSibling | Repertoire.Repertoire.ListeFichiersCorrige |
| Projet/src/main/java/Graphique/GUI.java:888 | the result of `compare2(resultat, ltlargt)` is discarded, so "width less than" never narrows the search | tick only "width <" with width 10 on a folder holding a 20-pixel-wide image: the image is still shown | `resultat = compare2(resultat, ltlargt)`, as for the other boxes | not executed | Gui.LtLargNeverNarrows | Gui.LtLargNarrowsWhenCorrected |
