/**
 * The few pieces of the Java library that the file-search and snapshot code
 * leans on, stated on `string == seq<char>`: `Integer.parseInt`, `String.trim`,
 * `indexOf`/`lastIndexOf`/`contains`, ASCII `toLowerCase` and the regex
 * `String.split` used with a literal separator.
 */
module Text {

  datatype Option<T> = None | Some(value: T)

  /** Java's `Integer.MIN_VALUE` and `Integer.MAX_VALUE`. */
  const IntMin: int := -0x8000_0000
  const IntMax: int := 0x7fff_ffff

  /** Regrouping an append; called where the solver would otherwise search for it. */
  lemma SplitAt<T>(s: seq<T>, i: nat)
    requires i < |s|
    ensures s == s[..i] + [s[i]] + s[i + 1..]
  {
  }

  lemma AppendAssociative<T>(a: seq<T>, b: seq<T>, c: seq<T>)
    ensures a + b + c == a + (b + c)
  {
  }

  predicate IsDigit(c: char) { '0' <= c <= '9' }

  predicate AllDigits(s: string) { forall k :: 0 <= k < |s| ==> IsDigit(s[k]) }

  function Pow10(n: nat): (p: nat)
    ensures p >= 1
  {
    if n == 0 then 1 else 10 * Pow10(n - 1)
  }

  /** The decimal value of a run of ASCII digits, most significant first. */
  function DigitsValue(s: string): (v: nat)
    requires AllDigits(s)
    ensures v < Pow10(|s|)
  {
    if s == [] then 0
    else DigitsValue(s[..|s| - 1]) * 10 + (s[|s| - 1] as int - '0' as int)
  }

  function DigitChar(d: nat): (c: char)
    requires d < 10
    ensures IsDigit(c) && c as int - '0' as int == d
  {
    (d + '0' as int) as char
  }

  /** The shortest decimal rendering of `n` (what `"" + n` prints for n >= 0). */
  function NatToDigits(n: nat): (s: string)
    ensures |s| >= 1 && AllDigits(s)
    ensures DigitsValue(s) == n
    ensures s[0] != '0' || n == 0
  {
    if n < 10 then [DigitChar(n)]
    else
      var t := NatToDigits(n / 10);
      var s := t + [DigitChar(n % 10)];
      assert s[..|s| - 1] == t;
      s
  }

  lemma {:induction false} NatToDigitsInjective(m: nat, n: nat)
    requires NatToDigits(m) == NatToDigits(n)
    ensures m == n
  {
  }

  /**
   * `Integer.parseInt(s)`: an optional sign, then at least one digit, and a
   * value inside the 32-bit range; anything else throws
   * NumberFormatException, modelled as None.
   */
  function ParseInt(s: string): (r: Option<int>)
    ensures r.Some? ==> IntMin <= r.value <= IntMax
    ensures r.Some? ==>
      (|s| >= 1 && AllDigits(s)) || (|s| >= 2 && (s[0] == '-' || s[0] == '+') && AllDigits(s[1..]))
    ensures r.Some? && r.value < 0 ==> s[0] == '-'
  {
    if |s| == 0 then None
    else if s[0] == '-' || s[0] == '+' then
      if |s| == 1 || !AllDigits(s[1..]) then None
      else
        var v: int := if s[0] == '-' then -(DigitsValue(s[1..]) as int) else DigitsValue(s[1..]);
        if IntMin <= v <= IntMax then Some(v) else None
    else if !AllDigits(s) then None
    else if DigitsValue(s) <= IntMax then Some(DigitsValue(s))
    else None
  }

  /** `Integer.toString(n)`: a minus sign for negative values, then the digits. */
  function IntToText(n: int): (s: string)
    ensures |s| >= 1
    ensures n < 0 <==> s[0] == '-'
  {
    if n < 0 then "-" + NatToDigits(-n) else NatToDigits(n)
  }

  /** Rendering a Java int in decimal and parsing it back gives it back. */
  lemma ParseIntOfDigits(n: nat)
    requires n <= IntMax
    ensures ParseInt(NatToDigits(n)) == Some(n)
  {
    var s := NatToDigits(n);
    assert IsDigit(s[0]);
  }

  /** The same for every Java int, negative ones included. */
  lemma ParseIntOfText(n: int)
    requires IntMin <= n <= IntMax
    ensures ParseInt(IntToText(n)) == Some(n)
  {
    if n < 0 {
      var t := NatToDigits(-n);
      var s := IntToText(n);
      assert s[0] == '-' && s[1..] == t;
    } else {
      ParseIntOfDigits(n);
    }
  }

  /** An explicit plus sign is read as no sign at all. */
  lemma ParseIntPlusSign(n: nat)
    requires n <= IntMax
    ensures ParseInt("+" + NatToDigits(n)) == Some(n)
  {
    var s := "+" + NatToDigits(n);
    assert s[1..] == NatToDigits(n);
  }

  /** A numeral beyond `Integer.MAX_VALUE` is rejected, not wrapped around. */
  lemma ParseIntOverflow(n: nat)
    requires n > IntMax
    ensures ParseInt(NatToDigits(n)) == None
  {
    var s := NatToDigits(n);
    assert IsDigit(s[0]);
  }

  /** A string that is neither signed nor all digits never parses. */
  lemma ParseIntRejectsLetters(s: string, k: nat)
    requires 0 < k < |s| && !IsDigit(s[k])
    ensures ParseInt(s) == None
  {
    if s[0] == '-' || s[0] == '+' {
      assert s[1..][k - 1] == s[k];
    }
  }

  /** Java's `String.trim()`: drops every leading and trailing char <= ' '. */
  function TrimStart(s: string): (t: string)
    ensures |t| <= |s|
    ensures t == [] || t[0] > ' '
    ensures t == s[|s| - |t|..]
    ensures forall k :: 0 <= k < |s| - |t| ==> s[k] <= ' '
  {
    if s != [] && s[0] <= ' ' then TrimStart(s[1..]) else s
  }

  function TrimEnd(s: string): (t: string)
    ensures |t| <= |s|
    ensures t == [] || t[|t| - 1] > ' '
    ensures t == s[..|t|]
    ensures forall k :: |t| <= k < |s| ==> s[k] <= ' '
  {
    if s != [] && s[|s| - 1] <= ' ' then TrimEnd(s[..|s| - 1]) else s
  }

  function Trim(s: string): (t: string)
    ensures |t| <= |s|
    ensures t == [] || (t[0] > ' ' && t[|t| - 1] > ' ')
  {
    TrimEnd(TrimStart(s))
  }

  /**
   * What `trim` promises: cutting `s` at any `i <= j` such that everything
   * before `i` and from `j` on is `<= ' '`, while `s[i..j]` starts and ends
   * above `' '`, gives exactly `trim`'s result.
   */
  lemma {:induction false} TrimMeans(s: string, i: nat, j: nat)
    requires i <= j <= |s|
    requires forall k :: 0 <= k < i ==> s[k] <= ' '
    requires forall k :: j <= k < |s| ==> s[k] <= ' '
    requires i < j ==> s[i] > ' ' && s[j - 1] > ' '
    ensures Trim(s) == s[i..j]
  {
    if i < j {
      TrimStartAt(s, i);
      TrimEndOfSuffix(s, i, j);
    } else {
      TrimStartAt(s, |s|);
    }
  }

  /** Trimming the end of the suffix from `i`, which starts above `' '`. */
  lemma TrimEndOfSuffix(s: string, i: nat, j: nat)
    requires i < j <= |s|
    requires forall k :: j <= k < |s| ==> s[k] <= ' '
    requires s[j - 1] > ' '
    ensures TrimEnd(s[i..]) == s[i..j]
  {
    var u := s[i..];
    forall k | j - i <= k < |u| ensures u[k] <= ' ' {
      assert u[k] == s[i + k];
    }
    TrimEndAt(u, j - i);
    assert u[..j - i] == s[i..j];
  }

  lemma {:induction false} TrimStartAt(s: string, i: nat)
    requires i <= |s|
    requires forall k :: 0 <= k < i ==> s[k] <= ' '
    requires i < |s| ==> s[i] > ' '
    ensures TrimStart(s) == s[i..]
  {
    if i > 0 {
      TrimStartAt(s[1..], i - 1);
      assert s[1..][i - 1..] == s[i..];
    }
  }

  lemma {:induction false} TrimEndAt(s: string, j: nat)
    requires j <= |s|
    requires forall k :: j <= k < |s| ==> s[k] <= ' '
    requires j > 0 ==> s[j - 1] > ' '
    ensures TrimEnd(s) == s[..j]
    decreases |s|
  {
    if j < |s| {
      TrimEndAt(s[..|s| - 1], j);
      assert s[..|s| - 1][..j] == s[..j];
    }
  }

  lemma TrimDigits(s: string)
    requires |s| >= 1 && AllDigits(s)
    ensures Trim(s) == s
  {
    assert IsDigit(s[0]) && IsDigit(s[|s| - 1]);
  }

  predicate OccursAt(s: string, sub: string, k: int)
  {
    0 <= k && k + |sub| <= |s| && s[k..k + |sub|] == sub
  }

  /** `s.indexOf(sub, from)`: the first occurrence at or after `from`, or -1. */
  function IndexOf(s: string, sub: string, from: nat): (k: int)
    decreases |s| - from
    ensures k == -1 || (from <= k && OccursAt(s, sub, k))
    ensures forall m :: from <= m && (k == -1 || m < k) ==> !OccursAt(s, sub, m)
  {
    if from + |sub| > |s| then -1
    else if s[from..from + |sub|] == sub then from
    else IndexOf(s, sub, from + 1)
  }

  /** `s.contains(sub)`. */
  predicate Contains(s: string, sub: string)
  {
    IndexOf(s, sub, 0) != -1
  }

  lemma ContainsMeans(s: string, sub: string)
    ensures Contains(s, sub) <==> exists k :: OccursAt(s, sub, k)
  {
    if exists k :: OccursAt(s, sub, k) {
      var k :| OccursAt(s, sub, k);
      assert 0 <= k;
    }
  }

  /** `s.lastIndexOf(c)`: the last position holding `c`, or -1. */
  function LastIndexOf(s: string, c: char): (k: int)
    ensures -1 <= k < |s|
    ensures k >= 0 ==> s[k] == c
    ensures forall m :: k < m < |s| ==> s[m] != c
  {
    if s == [] then -1
    else if s[|s| - 1] == c then |s| - 1
    else LastIndexOf(s[..|s| - 1], c)
  }

  function LowerChar(c: char): char
  {
    if 'A' <= c <= 'Z' then (c as int - 'A' as int + 'a' as int) as char else c
  }

  /** `toLowerCase()`, restricted to the ASCII letters. */
  function ToLower(s: string): (t: string)
    ensures |t| == |s|
    ensures forall k :: 0 <= k < |s| ==> t[k] == LowerChar(s[k])
  {
    seq(|s|, k requires 0 <= k < |s| => LowerChar(s[k]))
  }

  /** Lower-casing puts no character into a text that is not a lower-case letter. */
  lemma ToLowerKeepsOut(s: string, c: char)
    requires c !in s && !('a' <= c <= 'z')
    ensures c !in ToLower(s)
  {
    forall k | 0 <= k < |s|
      ensures ToLower(s)[k] != c
    {
      assert s[k] != c;
    }
  }

  lemma ToLowerIdempotent(s: string)
    ensures ToLower(ToLower(s)) == ToLower(s)
  {
  }

  /** `s.startsWith(prefix)`. */
  predicate StartsWith(s: string, prefix: string)
  {
    |prefix| <= |s| && s[..|prefix|] == prefix
  }

  /**
   * The pieces between successive non-overlapping occurrences of `sep`,
   * scanning left to right.
   */
  function Pieces(s: string, sep: string): (p: seq<string>)
    requires |sep| > 0
    decreases |s|
    ensures |p| >= 1
  {
    var k := IndexOf(s, sep, 0);
    if k == -1 then [s] else [s[..k]] + Pieces(s[k + |sep|..], sep)
  }

  function DropTrailingEmpty(p: seq<string>): (q: seq<string>)
    ensures |q| <= |p| && q == p[..|q|]
    ensures q == [] || q[|q| - 1] != ""
  {
    if p != [] && p[|p| - 1] == "" then DropTrailingEmpty(p[..|p| - 1]) else p
  }

  /**
   * `s.split(sep)` with a separator free of regex metacharacters and limit 0:
   * no occurrence gives `[s]`, otherwise the pieces with the trailing empty
   * ones removed (a leading empty piece stays).
   */
  function Split(s: string, sep: string): (p: seq<string>)
    requires |sep| > 0
  {
    if IndexOf(s, sep, 0) == -1 then [s] else DropTrailingEmpty(Pieces(s, sep))
  }

  /** A string with no occurrence of `sep` splits into itself. */
  lemma SplitNoSeparator(s: string, sep: string)
    requires |sep| > 0 && IndexOf(s, sep, 0) == -1
    ensures Split(s, sep) == [s]
  {
  }

  /** A string without a space holds no `" x "`, so it splits into itself. */
  lemma SplitSpaceFree(s: string)
    requires forall k :: 0 <= k < |s| ==> s[k] != ' '
    ensures Split(s, " x ") == [s]
  {
    forall m | 0 <= m && m + 3 <= |s| ensures !OccursAt(s, " x ", m) {
      assert s[m..m + 3][0] == s[m];
    }
  }

  /** Two space-free, non-empty fields joined by `" x "` split back apart. */
  lemma SplitAroundX(w: string, h: string)
    requires |w| > 0 && |h| > 0
    requires forall k :: 0 <= k < |w| ==> w[k] != ' '
    requires forall k :: 0 <= k < |h| ==> h[k] != ' '
    ensures Split(w + " x " + h, " x ") == [w, h]
  {
    var s := w + " x " + h;
    var sep := " x ";
    assert OccursAt(s, sep, |w|) by {
      assert s[|w|..|w| + 3] == sep;
    }
    forall m | 0 <= m < |w| ensures !OccursAt(s, sep, m) {
      assert s[m] == w[m];
    }
    var k := IndexOf(s, sep, 0);
    assert k == |w|;
    assert s[..k] == w;
    assert s[k + 3..] == h;
    forall m | 0 <= m && m + 3 <= |h| ensures !OccursAt(h, sep, m) {
      assert h[m..m + 3][0] == h[m] != ' ';
    }
    assert IndexOf(h, sep, 0) == -1;
    assert Pieces(s, sep) == [w, h];
  }
}
