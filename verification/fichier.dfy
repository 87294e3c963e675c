/**
 * `Fichier`: one file record (path and last-modified time) and the string
 * utilities attached to it — extension and MIME suffix extraction, the
 * fixed-offset fields of a `dd/MM/yyyy HH:mm:ss` date, and integer parsing
 * with a -1 sentinel.
 */
module Fichier {
  import opened Text

  /** What `getExtension` answers for a name without any dot. */
  const NoExtension: string := "Aucune extension"

  /** The lower-case extensions counted as images. */
  const ImageExtensions: set<string> := {"jpg", "jpeg", "png", "webp"}

  /** `getExtension(file)`, given the file's base name. */
  function GetExtension(name: string): (ext: string)
    ensures '.' !in name ==> ext == NoExtension
    ensures '.' in name ==> '.' !in ext && |ext| < |name|
  {
    var k := LastIndexOf(name, '.');
    if k == -1 then NoExtension else ToLower(name[k + 1..])
  }

  /** The extension is the lower-cased text after the last dot. */
  lemma {:induction false} GetExtensionOf(stem: string, ext: string)
    requires '.' !in ext
    ensures GetExtension(stem + "." + ext) == ToLower(ext)
  {
    var name := stem + "." + ext;
    assert name[|stem|] == '.';
    var k := LastIndexOf(name, '.');
    assert k == |stem|;
    assert name[k + 1..] == ext;
  }

  /** `isImageMimeType`: a known type that starts with "image/". */
  predicate IsImageMimeType(mimeType: Option<string>)
  {
    mimeType.Some? && StartsWith(mimeType.value, "image/")
  }

  /** `isImageExtension` (and its twin `Repertoire.isImage`). */
  predicate IsImageExtension(extension: string)
  {
    extension == "jpg" || extension == "jpeg" || extension == "png" || extension == "webp"
  }

  /**
   * An image extension is always already lower-case and is never the
   * no-extension answer, so it is exactly one of the four names.
   */
  lemma ImageExtensionShape(extension: string)
    ensures IsImageExtension(extension) <==> extension in ImageExtensions
    ensures IsImageExtension(extension) ==> ToLower(extension) == extension
    ensures !IsImageExtension(NoExtension) && !IsImageExtension(ToLower(NoExtension))
  {
    if IsImageExtension(extension) {
      assert ToLower(extension) == extension;
    }
    assert ToLower(NoExtension)[0] == 'a';
  }

  /** `recupMyme`: the lower-cased text after the last '/', or all of it. */
  function RecupMyme(my: string): (r: string)
    ensures '/' !in my ==> r == ToLower(my)
    ensures '/' !in r
  {
    var k := LastIndexOf(my, '/');
    AfterLastSlash(my, k);
    ToLowerKeepsOut(my[k + 1..], '/');
    ToLower(my[k + 1..])
  }

  /** What follows the last '/' holds none, and with no '/' it is the whole text. */
  lemma AfterLastSlash(my: string, k: int)
    requires k == LastIndexOf(my, '/')
    ensures '/' !in my[k + 1..]
    ensures '/' !in my ==> my[k + 1..] == my
  {
    var tail := my[k + 1..];
    forall m | 0 <= m < |tail|
      ensures tail[m] != '/'
    {
      assert tail[m] == my[k + 1 + m];
    }
    if '/' !in my {
      assert k == -1;
    }
  }

  lemma {:induction false} RecupMymeOfType(kind: string, sub: string)
    requires '/' !in sub
    ensures RecupMyme(kind + "/" + sub) == ToLower(sub)
    ensures IsImageMimeType(Some("image/" + sub))
  {
    var my := kind + "/" + sub;
    assert my[|kind|] == '/';
    var k := LastIndexOf(my, '/');
    assert k == |kind|;
    assert my[k + 1..] == sub;
    assert ("image/" + sub)[..6] == "image/";
  }

  /** A parsed Java int never has more digits than its text allows. */
  lemma ParseIntBound(s: string)
    requires |s| >= 1 && ParseInt(s).Some?
    ensures -(Pow10(|s| - 1) as int) < ParseInt(s).value < Pow10(|s|)
  {
    if s[0] == '-' || s[0] == '+' {
      assert Pow10(|s|) == 10 * Pow10(|s| - 1);
    }
  }

  /** A two-character field that parses: `dd`, `MM`, `HH`, `mm`, `ss`. */
  predicate PairParses(date: string, lo: nat)
  {
    lo + 2 <= |date| && ParseInt(date[lo..lo + 2]).Some?
  }

  function Pair(date: string, lo: nat): (v: int)
    requires PairParses(date, lo)
    ensures -9 <= v <= 99
  {
    ParseIntBound(date[lo..lo + 2]);
    assert Pow10(1) == 10 && Pow10(2) == 100;
    ParseInt(date[lo..lo + 2]).value
  }

  /** `annee`: characters 6..10. */
  function Annee(date: string): (y: int)
    requires |date| >= 10 && ParseInt(date[6..10]).Some?
    ensures -999 <= y <= 9999
  {
    ParseIntBound(date[6..10]);
    assert Pow10(3) == 1000 && Pow10(4) == 10000;
    ParseInt(date[6..10]).value
  }

  /** `jour`: characters 0..2. */
  function Jour(date: string): (d: int)
    requires PairParses(date, 0)
    ensures -9 <= d <= 99
  {
    Pair(date, 0)
  }

  /** `mois`: characters 3..5. */
  function Mois(date: string): (m: int)
    requires PairParses(date, 3)
    ensures -9 <= m <= 99
  {
    Pair(date, 3)
  }

  /** `heure`: characters 11..13. */
  function Heure(date: string): (h: int)
    requires PairParses(date, 11)
    ensures -9 <= h <= 99
  {
    Pair(date, 11)
  }

  /** `minute`: characters 14..16. */
  function Minute(date: string): (m: int)
    requires PairParses(date, 14)
    ensures -9 <= m <= 99
  {
    Pair(date, 14)
  }

  /** `seconde`: characters 17..19. */
  function Seconde(date: string): (s: int)
    requires PairParses(date, 17)
    ensures -9 <= s <= 99
  {
    Pair(date, 17)
  }

  /**
   * `larg` / `haut` (and the identical `GUI.larg` / `GUI.haut`): the parsed
   * int, or -1 when `Integer.parseInt` throws.
   */
  function ParseOrSentinel(text: string): (v: int)
    ensures v != -1 ==> ParseInt(text) == Some(v)
    ensures v == -1 <==> ParseInt(text).None? || ParseInt(text) == Some(-1)
  {
    match ParseInt(text)
    case Some(n) => n
    case None => -1
  }

  /** A written-out width or height reads back as itself. */
  lemma ParseOrSentinelOfDigits(n: nat)
    requires n <= IntMax
    ensures ParseOrSentinel(NatToDigits(n)) == n
  {
    ParseIntOfDigits(n);
  }

  /** The text "-1" cannot be told apart from text that does not parse. */
  lemma MinusOneIsAmbiguous()
    ensures ParseOrSentinel("-1") == ParseOrSentinel("abc") == -1
  {
    assert "-1"[1..] == "1";
    assert ParseInt("abc") == None by {
      ParseIntRejectsLetters("abc", 1);
    }
  }

  /**
   * The serialized record: `chemin` and `modif` are only set when the path
   * names an existing regular file; otherwise they keep their defaults
   * (null and 0), and `fich` stays null with them.
   */
  datatype Fichier = Fichier(chemin: Option<string>, modif: int)

  /** The constructor `Fichier(path)`; the filesystem answers are parameters. */
  function NewFichier(path: string, existsAsFile: bool, lastModified: int): (f: Fichier)
    ensures f.chemin.Some? <==> existsAsFile
    ensures existsAsFile ==> f.chemin == Some(path) && f.modif == lastModified
    ensures !existsAsFile ==> f.modif == 0
  {
    if existsAsFile then Fichier(Some(path), lastModified) else Fichier(None, 0)
  }

  /**
   * `get_Path`: the absolute path, lower-cased. A record whose file did not
   * exist has no `fich`, and the call would throw; callers must avoid it.
   */
  function GetPath(f: Fichier): (p: string)
    requires f.chemin.Some?
    ensures |p| == |f.chemin.value|
    ensures forall k :: 0 <= k < |p| ==> p[k] == LowerChar(f.chemin.value[k])
    ensures forall k :: 0 <= k < |p| ==> !('A' <= p[k] <= 'Z')
  {
    ToLower(f.chemin.value)
  }

  /** Two characters that are equal once ASCII letters are lower-cased. */
  predicate SameIgnoringCase(c: char, d: char)
  {
    c == d
    || ('A' <= c <= 'Z' && d as int == c as int + 32)
    || ('A' <= d <= 'Z' && c as int == d as int + 32)
  }

  lemma LowerCharSame(c: char, d: char)
    ensures LowerChar(c) == LowerChar(d) <==> SameIgnoringCase(c, d)
  {
  }

  /**
   * Identity through `get_Path` ignores case: two records share a key
   * exactly when their paths have the same length and agree position by
   * position up to the case of ASCII letters, whatever their times.
   */
  lemma {:induction false} GetPathIgnoresCase(a: string, b: string, m: int, n: int)
    ensures GetPath(Fichier(Some(a), m)) == GetPath(Fichier(Some(b), n)) <==>
      |a| == |b| && forall k :: 0 <= k < |a| ==> SameIgnoringCase(a[k], b[k])
  {
    var pa, pb := GetPath(Fichier(Some(a), m)), GetPath(Fichier(Some(b), n));
    if |a| == |b| && forall k :: 0 <= k < |a| ==> SameIgnoringCase(a[k], b[k]) {
      forall k | 0 <= k < |a| ensures pa[k] == pb[k] {
        LowerCharSame(a[k], b[k]);
      }
    }
    if pa == pb {
      forall k | 0 <= k < |a| ensures SameIgnoringCase(a[k], b[k]) {
        assert pa[k] == pb[k];
        LowerCharSame(a[k], b[k]);
      }
    }
  }
}
