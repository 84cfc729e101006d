/**
 * File-name helpers shared by every validator (src/lib/fileUtils.ts, with
 * copies in the climate helpers and the upload middleware): the lower-cased
 * extension, the human-readable size and the suspicious-name test.
 */
module FileUtils {
  import opened Text

  /**
   * `getFileExtension`: everything from the last dot on, lower-cased, or the
   * empty string when the name has no dot.
   */
  function FileExtension(name: string): (ext: string)
    ensures |ext| <= |name|
  {
    var k := LastIndexOf(name, '.');
    if k != -1 then Lower(name[k..]) else ""
  }

  /**
   * The extension is empty exactly when the name has no dot; otherwise it
   * starts with the only dot it contains, and it has no upper-case letter.
   */
  lemma FileExtensionShape(name: string)
    ensures FileExtension(name) == [] <==> '.' !in name
    ensures FileExtension(name) != [] ==>
      FileExtension(name)[0] == '.' && '.' !in FileExtension(name)[1..]
    ensures IsLower(FileExtension(name))
    ensures Lower(FileExtension(name)) == FileExtension(name)
  {
    var k := LastIndexOf(name, '.');
    if k != -1 {
      var ext := Lower(name[k..]);
      LowerFacts(name[k..]);
      LowerAt(name[k..]);
      assert ext[0] == AsciiLower(name[k]) == '.';
      assert '.' !in name[k + 1..];
      forall j | 1 <= j < |ext| ensures ext[j] != '.' {
        assert ext[j] == AsciiLower(name[k..][j]) && name[k..][j] == name[k + 1..][j - 1];
      }
      LowerFacts(ext);
    }
  }

  /** The extension is the lower-cased tail of the name. */
  lemma FileExtensionSuffix(name: string)
    ensures FileExtension(name) == Lower(name)[|name| - |FileExtension(name)|..]
  {
    var k := LastIndexOf(name, '.');
    if k != -1 {
      var ext := FileExtension(name);
      assert ext == Lower(name[k..]);
      assert |ext| == |name| - k;
      LowerSuffix(name, k);
      assert ext == Lower(name)[k..];
      assert |name| - |FileExtension(name)| == k;
    }
  }

  /** Taking the extension of an extension changes nothing. */
  lemma FileExtensionIdempotent(name: string)
    ensures FileExtension(FileExtension(name)) == FileExtension(name)
  {
    var ext := FileExtension(name);
    FileExtensionShape(name);
    if ext != [] {
      assert ext[0] == '.' && '.' !in ext[1..];
      assert ext == [ext[0]] + ext[1..];
      assert LastIndexOf(ext, '.') == 0;
      LowerFacts(ext);
    }
  }

  /**
   * For an extension without dots and upper-case letters, "the extension of
   * `name` is `.e`" and "`name` ends in `.e`, ignoring case" are the same
   * test. This is what lets a comparison against `getFileExtension` and a
   * case-insensitive `\.e$` pattern stand in for each other.
   */
  lemma ExtensionIsSuffix(name: string, e: string)
    requires '.' !in e && IsLower(e)
    ensures FileExtension(name) == "." + e <==> EndsWith(Lower(name), "." + e)
  {
    var low := Lower(name);
    LowerAt(name);
    if EndsWith(low, "." + e) {
      var p := |name| - |e| - 1;
      assert low[p..] == "." + e;
      assert low[p] == '.';
      assert name[p] == '.';
      forall j | p < j < |name| ensures name[j] != '.' {
        assert low[j] == low[p..][j - p] == e[j - p - 1];
      }
      LastIndexOfIs(name, '.', p);
      LowerSuffix(name, p);
    }
    if FileExtension(name) == "." + e {
      FileExtensionSuffix(name);
    }
  }

  /** `Math.pow(b, e)` on naturals. */
  function Pow(b: nat, e: nat): (r: nat)
    ensures b >= 1 ==> r >= 1
  {
    if e == 0 then 1 else b * Pow(b, e - 1)
  }

  lemma PowMonotone(e: nat, f: nat)
    requires e <= f
    ensures Pow(1024, e) <= Pow(1024, f)
    decreases f
  {
    if e < f { PowMonotone(e, f - 1); }
  }

  lemma DivideBy1024(n: nat, p: nat)
    requires 1 <= p && p <= n / 1024 < 1024 * p
    ensures 1024 * p <= n < 1024 * (1024 * p)
  {
    assert n == n / 1024 * 1024 + n % 1024;
  }

  /**
   * The unit `formatBytes` picks for a positive size: the largest `i` with
   * `1024^i <= n`, which is `floor(log(n) / log(1024))` computed exactly.
   */
  function UnitIndex(n: nat): (i: nat)
    requires n >= 1
    ensures Pow(1024, i) <= n < Pow(1024, i + 1)
  {
    if n < 1024 then 0
    else
      var i := UnitIndex(n / 1024);
      DivideBy1024(n, Pow(1024, i));
      i + 1
  }

  /** `sizes[i]`, which is `undefined` once the size reaches a terabyte. */
  function UnitName(i: nat): string {
    if i == 0 then "Bytes"
    else if i == 1 then "KB"
    else if i == 2 then "MB"
    else if i == 3 then "GB"
    else "undefined"
  }

  /**
   * `(n / p).toFixed(2)` as a count of hundredths: the nearest whole number
   * of hundredths, a tie going to the larger one.
   */
  function Hundredths(n: nat, p: nat): (h: nat)
    requires p >= 1
    ensures 200 * n - p < 2 * p * h <= 200 * n + p
  {
    var q := 200 * n + p;
    assert q == q / (2 * p) * (2 * p) + q % (2 * p);
    q / (2 * p)
  }

  /** A number of hundredths printed as `parseFloat` leaves it: no trailing zeros, no bare point. */
  function HundredthsText(h: nat): string {
    var whole, frac := h / 100, h % 100;
    Decimal(whole)
      + if frac == 0 then ""
        else if frac % 10 == 0 then "." + [DigitChar(frac / 10)]
        else "." + [DigitChar(frac / 10), DigitChar(frac % 10)]
  }

  /** `formatBytes`: a size in the largest binary unit that does not exceed it. */
  function FormatBytes(n: nat): string {
    if n == 0 then "0 Bytes"
    else
      var i := UnitIndex(n);
      HundredthsText(Hundredths(n, Pow(1024, i))) + " " + UnitName(i)
  }

  /** The unit index is the only `i` with `1024^i <= n < 1024^(i+1)`. */
  lemma UnitIndexUnique(n: nat, i: nat)
    requires Pow(1024, i) <= n < Pow(1024, i + 1)
    ensures UnitIndex(n) == i
  {
    var j := UnitIndex(n);
    if j < i {
      PowMonotone(j + 1, i);
    } else if j > i {
      PowMonotone(i + 1, j);
    }
  }

  lemma {:induction false} MulAtLeast(t: nat, d: nat)
    requires t >= 1
    ensures t * d >= d
    decreases t
  {
    if t > 1 {
      MulAtLeast(t - 1, d);
      assert t * d == (t - 1) * d + d;
    }
  }

  /** Euclidean division has one quotient and one remainder. */
  lemma DivUnique(q: int, d: int, a: int, r: int)
    requires d > 0 && 0 <= r < d && q == a * d + r
    ensures q / d == a && q % d == r
  {
    var a', r' := q / d, q % d;
    var t := a' - a;
    assert t * d == a' * d - a * d;
    assert t * d == r - r';
    if t >= 1 {
      MulAtLeast(t, d);
    }
  }

  lemma HundredthsOfMultiple(m: nat, p: nat)
    requires p >= 1
    ensures Hundredths(m * p, p) == 100 * m
  {
    assert 200 * (m * p) + p == (100 * m) * (2 * p) + p;
    DivUnique(200 * (m * p) + p, 2 * p, 100 * m, p);
  }

  /**
   * A whole number of units is printed as that number and the unit's name:
   * 10 MB is "10 MB", 50 MB is "50 MB".
   */
  lemma FormatWholeUnits(m: nat, i: nat)
    requires 1 <= m < 1024 && i < 4
    ensures FormatBytes(m * Pow(1024, i)) == Decimal(m) + " " + UnitName(i)
  {
    var p := Pow(1024, i);
    MulAtLeast(m, p);
    assert 1024 * p - m * p == (1024 - m) * p;
    MulAtLeast(1024 - m, p);
    assert Pow(1024, i + 1) == 1024 * p;
    UnitIndexUnique(m * p, i);
    HundredthsOfMultiple(m, p);
    DivUnique(100 * m, 100, m, 0);
  }

  lemma TenMegabytes()
    ensures FormatBytes(10 * 1024 * 1024) == "10 MB"
  {
    FormatWholeUnits(10, 2);
  }

  /** `.e` for some `e` of `exts` ends the name, letters compared without case (`/\.(…)$/i`). */
  predicate EndsWithExtensionFrom(name: string, exts: seq<string>) {
    exists e :: e in exts && EndsWith(Lower(name), "." + e)
  }

  const ExecutableExtensions: seq<string> :=
    ["exe", "bat", "cmd", "com", "scr", "pif", "vbs", "js", "jar", "php", "asp", "aspx", "jsp"]
  const ShellExtensions: seq<string> := ["sh", "bash", "zsh", "fish", "ps1", "psm1"]
  const DatabaseExtensions: seq<string> := ["sql", "db", "sqlite", "sqlite3"]
  const TemporaryExtensions: seq<string> := ["log", "tmp", "temp", "bak", "backup"]

  /** The characters `/[<>:"|?*]/` rejects. */
  predicate IsInvalidNameChar(c: char) {
    c == '<' || c == '>' || c == ':' || c == '"' || c == '|' || c == '?' || c == '*'
  }

  predicate IsHidden(name: string) { StartsWith(name, ".") }
  predicate HasInvalidChar(name: string) { exists i :: 0 <= i < |name| && IsInvalidNameChar(name[i]) }
  predicate HasDotRun(name: string) { Contains(name, "..") }
  predicate IsOnlyDots(name: string) { |name| > 0 && forall i :: 0 <= i < |name| ==> name[i] == '.' }

  /** `hasSuspiciousPattern`: any of the eight patterns matches the name as given. */
  predicate HasSuspiciousPattern(name: string) {
    || IsHidden(name)
    || HasInvalidChar(name)
    || HasDotRun(name)
    || IsOnlyDots(name)
    || EndsWithExtensionFrom(name, ExecutableExtensions)
    || EndsWithExtensionFrom(name, ShellExtensions)
    || EndsWithExtensionFrom(name, DatabaseExtensions)
    || EndsWithExtensionFrom(name, TemporaryExtensions)
  }

  /** `hasDangerousExtension`: the extension is `.e` for some listed `e`. */
  predicate HasDangerousExtension(ext: string, dangerous: seq<string>) {
    exists e :: e in dangerous && ext == "." + e
  }

  /**
   * `isSuspiciousFileName`: a dangerous extension or a suspicious pattern. The
   * list of dangerous extensions is configuration the model takes as given.
   */
  predicate IsSuspiciousFileName(name: string, dangerous: seq<string>) {
    HasDangerousExtension(Lower(FileExtension(name)), dangerous) || HasSuspiciousPattern(name)
  }

  /** A name made only of dots is already caught by the hidden-file pattern. */
  lemma OnlyDotsIsHidden(name: string)
    requires IsOnlyDots(name)
    ensures IsHidden(name)
  {
  }

  /**
   * With dot-free lower-case entries, a dangerous extension is exactly a
   * case-insensitive `.e` suffix, so the extension comparison behaves like
   * one more suffix pattern.
   */
  lemma DangerousExtensionIsSuffix(name: string, dangerous: seq<string>)
    requires forall e :: e in dangerous ==> '.' !in e && IsLower(e)
    ensures HasDangerousExtension(Lower(FileExtension(name)), dangerous)
        <==> EndsWithExtensionFrom(name, dangerous)
  {
    FileExtensionShape(name);
    forall e | e in dangerous
      ensures FileExtension(name) == "." + e <==> EndsWith(Lower(name), "." + e)
    {
      ExtensionIsSuffix(name, e);
    }
  }

  /**
   * When every dangerous extension is one of the four pattern families, the
   * extension test adds nothing: the name is suspicious exactly when one of
   * the eight patterns matches.
   */
  lemma DangerousWithinPatterns(name: string, dangerous: seq<string>)
    requires forall e :: e in dangerous ==> '.' !in e && IsLower(e)
    requires forall e :: e in dangerous ==>
      e in ExecutableExtensions || e in ShellExtensions || e in DatabaseExtensions || e in TemporaryExtensions
    ensures IsSuspiciousFileName(name, dangerous) <==> HasSuspiciousPattern(name)
  {
    DangerousExtensionIsSuffix(name, dangerous);
  }
}
