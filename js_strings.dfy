/**
 * The JavaScript string built-ins the services rely on: `trim`/`trimStart`,
 * `startsWith`, `split`, `lastIndexOf` and number-to-text in template literals.
 * JavaScript strings are sequences of UTF-16 code units; here a string is a
 * sequence of characters, which agrees with JavaScript on every character the
 * scanner and the router look at: all of them lie in the Basic Multilingual
 * Plane (the white space of `IsSpace` included), where one character is one
 * UTF-16 code unit.
 */
module JsStrings {

  /** The WhiteSpace and LineTerminator code points that `String.prototype.trim` removes. */
  predicate IsSpace(c: char) {
    var n := c as int;
    n == 0x09 || n == 0x0A || n == 0x0B || n == 0x0C || n == 0x0D || n == 0x20
    || n == 0xA0 || n == 0x1680 || (0x2000 <= n <= 0x200A) || n == 0x2028
    || n == 0x2029 || n == 0x202F || n == 0x205F || n == 0x3000 || n == 0xFEFF
  }

  /** `!s.trim()`: nothing but white space (possibly nothing at all). */
  predicate IsBlank(s: string) {
    forall i :: 0 <= i < |s| ==> IsSpace(s[i])
  }

  /** `s.trimStart()`: the suffix left after dropping the leading white space. */
  function TrimStart(s: string): (r: string)
    ensures |r| <= |s| && r == s[|s| - |r|..]
    ensures IsBlank(s[..|s| - |r|])
    ensures r == [] || !IsSpace(r[0])
  {
    if s != [] && IsSpace(s[0]) then
      var r := TrimStart(s[1..]);
      assert s[1..][..|s| - 1 - |r|] == s[1..|s| - |r|];
      r
    else
      s
  }

  /** Trimming leaves nothing exactly when the text is blank. */
  lemma {:induction false} TrimStartEmptyIffBlank(s: string)
    ensures TrimStart(s) == [] <==> IsBlank(s)
  {
    var r := TrimStart(s);
    if r == [] {
      assert s[..|s| - |r|] == s;
    } else {
      assert s[|s| - |r|] == r[0];
    }
  }

  /** `s.startsWith(p)`. */
  predicate StartsWith(s: string, p: string) {
    |p| <= |s| && s[..|p|] == p
  }

  /** The inverse of `split`: the pieces glued back together with the separator between them. */
  function Join(pieces: seq<string>, sep: char): string
    requires |pieces| >= 1
  {
    if |pieces| == 1 then pieces[0] else pieces[0] + [sep] + Join(pieces[1..], sep)
  }

  /** `s.split(sep)` for a one-character separator: always at least one piece, none holding the separator. */
  function Split(s: string, sep: char): (r: seq<string>)
    ensures |r| >= 1
    ensures forall k :: 0 <= k < |r| ==> sep !in r[k]
    ensures Join(r, sep) == s
  {
    if s == [] then [[]]
    else
      var rest := Split(s[1..], sep);
      if s[0] == sep then
        assert Join([[]] + rest, sep) == [sep] + Join(rest, sep);
        [[]] + rest
      else
        var r := [[s[0]] + rest[0]] + rest[1..];
        assert r[1..] == rest[1..];
        assert Join(r, sep) == [s[0]] + Join(rest, sep);
        r
  }

  /** `split` cuts somewhere exactly when the separator occurs. */
  lemma {:induction false} SplitSeparatorCount(s: string, sep: char)
    ensures sep in s <==> |Split(s, sep)| > 1
  {
    if s != [] {
      SplitSeparatorCount(s[1..], sep);
    }
  }

  /** Joining peels off the last piece: it follows the last separator. */
  lemma {:induction false} JoinLast(pieces: seq<string>, sep: char)
    requires |pieces| >= 2
    ensures Join(pieces, sep) == Join(pieces[..|pieces| - 1], sep) + [sep] + pieces[|pieces| - 1]
  {
    var n := |pieces|;
    if n > 2 {
      JoinLast(pieces[1..], sep);
      assert pieces[..n - 1][1..] == pieces[1..][..n - 2];
      assert pieces[1..][n - 2] == pieces[n - 1];
    }
  }

  /** `needle` occurs in `hay` at index `k`. */
  predicate OccursAt(hay: string, needle: string, k: int) {
    0 <= k && k + |needle| <= |hay| && hay[k..k + |needle|] == needle
  }

  /** Text without the separator, ended by it, splits into that text and an empty last piece. */
  lemma {:induction false} SplitEndingInSeparator(a: string, sep: char)
    requires sep !in a
    ensures Split(a + [sep], sep) == [a, []]
  {
    if a == [] {
      assert [sep][1..] == [];
    } else {
      assert (a + [sep])[1..] == a[1..] + [sep];
      SplitEndingInSeparator(a[1..], sep);
      assert [a[0]] + a[1..] == a;
    }
  }

  /** The largest index at most `k` where `needle` occurs in `hay`, or -1. */
  function LastIndexAtMost(hay: string, needle: string, k: int): (r: int)
    ensures r == -1 || 0 <= r <= k
    ensures r != -1 ==> OccursAt(hay, needle, r)
    ensures forall j :: r < j <= k ==> !OccursAt(hay, needle, j)
    decreases k + 1
  {
    if k < 0 then -1
    else if OccursAt(hay, needle, k) then k
    else LastIndexAtMost(hay, needle, k - 1)
  }

  /** `hay.lastIndexOf(needle)`: the last occurrence of `needle` in `hay`, or -1 when there is none. */
  function LastIndexOf(hay: string, needle: string): (r: int)
    ensures r == -1 || OccursAt(hay, needle, r)
    ensures forall j :: r < j ==> !OccursAt(hay, needle, j)
  {
    LastIndexAtMost(hay, needle, |hay| - |needle|)
  }

  function DigitChar(d: nat): char
    requires d < 10
  {
    ('0' as int + d) as char
  }

  function DigitValue(c: char): nat {
    if '0' <= c <= '9' then (c as int - '0' as int) as nat else 0
  }

  /** The decimal text of a non-negative integer, as a template literal shows it. */
  function Decimal(n: nat): (r: string)
    ensures |r| >= 1
    ensures forall i :: 0 <= i < |r| ==> '0' <= r[i] <= '9'
    ensures r[0] == '0' ==> n == 0
  {
    if n < 10 then [DigitChar(n)] else Decimal(n / 10) + [DigitChar(n % 10)]
  }

  /** The number a string of decimal digits denotes. */
  function DecimalValue(s: string): nat {
    if s == [] then 0 else DecimalValue(s[..|s| - 1]) * 10 + DigitValue(s[|s| - 1])
  }

  /** Reading back the decimal text of `n` gives `n`. */
  lemma {:induction false} DecimalRoundTrip(n: nat)
    ensures DecimalValue(Decimal(n)) == n
  {
    if n >= 10 {
      DecimalRoundTrip(n / 10);
      var s := Decimal(n / 10) + [DigitChar(n % 10)];
      assert s[..|s| - 1] == Decimal(n / 10);
      assert DigitValue(s[|s| - 1]) == n % 10;
    }
  }
}
