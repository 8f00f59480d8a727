/** Python's string operations as the add-on uses them: `startswith`, `endswith`, the substring
    test `a in b`, `split()`, `split(sep)`, `sep.join(words)` and the ordering `<`. */
module Strings {

  /** `s.startswith(prefix)`. */
  predicate StartsWith(s: string, prefix: string) {
    |prefix| <= |s| && s[..|prefix|] == prefix
  }

  /** `s.endswith(suffix)`. */
  predicate EndsWith(s: string, suffix: string) {
    |suffix| <= |s| && s[|s| - |suffix|..] == suffix
  }

  /** `part in s`: `part` occurs in `s` at some position. */
  predicate IsSubstring(part: string, s: string) {
    exists i | 0 <= i <= |s| - |part| :: StartsWith(s[i..], part)
  }

  /** The empty string is a prefix, a suffix and a substring of every string; a non-empty string is
      none of these of the empty string. */
  lemma EmptyPattern(s: string)
    ensures StartsWith(s, "") && EndsWith(s, "") && IsSubstring("", s)
    ensures forall p | p != "" :: !StartsWith("", p) && !EndsWith("", p) && !IsSubstring(p, "")
  {
    assert s[0..] == s;
  }

  /** A substring is never longer than the string that holds it, and a string holds itself. */
  lemma SubstringLength(part: string, s: string)
    ensures IsSubstring(part, s) ==> |part| <= |s|
    ensures IsSubstring(s, s)
  {
    assert s[0..] == s;
  }

  /** The characters `str.split()` separates words at, those `str.isspace()` accepts: ASCII
      whitespace, the ASCII file, group, record and unit separators, NEL, and the Unicode space
      separators and line and paragraph separators (NO-BREAK SPACE, OGHAM SPACE MARK, EN QUAD to
      HAIR SPACE, LINE SEPARATOR, PARAGRAPH SEPARATOR, NARROW NO-BREAK SPACE, MEDIUM MATHEMATICAL
      SPACE and IDEOGRAPHIC SPACE). */
  predicate IsSpace(c: char) {
    || c in {' ', '\t', '\n', '\r'}
    || c as int in {0x0B, 0x0C, 0x1C, 0x1D, 0x1E, 0x1F, 0x85, 0xA0, 0x1680}
    || 0x2000 <= c as int <= 0x200A
    || c as int in {0x2028, 0x2029, 0x202F, 0x205F, 0x3000}
  }

  predicate NoSpace(w: string) {
    forall k | 0 <= k < |w| :: !IsSpace(w[k])
  }

  /** The length of the longest prefix of `s` with no whitespace. */
  function RunLength(s: string): (n: nat)
    ensures n <= |s| && NoSpace(s[..n]) && (n < |s| ==> IsSpace(s[n]))
  {
    if |s| == 0 || IsSpace(s[0]) then 0
    else
      var n := 1 + RunLength(s[1..]);
      assert s[..n] == [s[0]] + s[1..][..n - 1];
      n
  }

  /** `s.split()`: the maximal runs of non-whitespace characters, in order. */
  function Words(s: string): (r: seq<string>)
    ensures forall k | 0 <= k < |r| :: |r[k]| > 0 && NoSpace(r[k])
    decreases |s|
  {
    if |s| == 0 then []
    else if IsSpace(s[0]) then Words(s[1..])
    else
      var n := RunLength(s);
      [s[..n]] + Words(s[n..])
  }

  /** `sep.join(words)`. */
  function Join(sep: string, words: seq<string>): string {
    if |words| == 0 then ""
    else if |words| == 1 then words[0]
    else words[0] + sep + Join(sep, words[1..])
  }

  /** `s.index(c)`: the position of the first `c` in `s`. */
  function IndexOf(c: char, s: string): (i: nat)
    requires c in s
    ensures i < |s| && s[i] == c && forall k | 0 <= k < i :: s[k] != c
  {
    if s[0] == c then 0
    else
      assert c in s[1..] by { var j :| 0 <= j < |s| && s[j] == c; assert s[1..][j - 1] == c; }
      1 + IndexOf(c, s[1..])
  }

  /** The first `c` is the one with no `c` before it. */
  lemma {:induction false} IndexOfUnique(c: char, s: string, j: nat)
    requires j < |s| && s[j] == c && forall k | 0 <= k < j :: s[k] != c
    ensures IndexOf(c, s) == j
  {
    if j > 0 {
      assert s[1..][j - 1] == c;
      IndexOfUnique(c, s[1..], j - 1);
    }
  }

  /** `s.split(sep)` for a one-character separator: the pieces between separators, empty pieces
      included, so that there is always one piece more than there are separators. */
  function Split(sep: char, s: string): (r: seq<string>)
    ensures |r| > 0
    ensures forall k | 0 <= k < |r| :: sep !in r[k]
  {
    if sep !in s then [s]
    else
      var i := IndexOf(sep, s);
      [s[..i]] + Split(sep, s[i + 1..])
  }

  /** Joining words free of the separator and splitting the result again gives back the words. */
  lemma {:induction false} SplitJoin(sep: char, words: seq<string>)
    requires |words| > 0 && forall k | 0 <= k < |words| :: sep !in words[k]
    ensures Split(sep, Join([sep], words)) == words
  {
    if |words| > 1 {
      var s := Join([sep], words);
      var rest := Join([sep], words[1..]);
      assert s == words[0] + [sep] + rest;
      var w := |words[0]|;
      assert s[w] == sep && s[..w] == words[0];
      forall k | 0 <= k < w
        ensures s[k] != sep
      {
        assert s[k] == words[0][k];
      }
      IndexOfUnique(sep, s, w);
      assert s[w + 1..] == rest;
      SplitJoin(sep, words[1..]);
    }
  }

  /** A joined string holds no whitespace when neither the words nor the separator do. */
  lemma {:induction false} JoinNoSpace(sep: string, words: seq<string>)
    requires NoSpace(sep) && forall k | 0 <= k < |words| :: NoSpace(words[k])
    ensures NoSpace(Join(sep, words))
  {
    if |words| > 1 {
      JoinNoSpace(sep, words[1..]);
      var rest := Join(sep, words[1..]);
      var s := words[0] + sep + rest;
      forall k | 0 <= k < |s|
        ensures !IsSpace(s[k])
      {
        if k < |words[0]| {
          assert s[k] == words[0][k];
        } else if k < |words[0]| + |sep| {
          assert s[k] == sep[k - |words[0]|];
        } else {
          assert s[k] == rest[k - |words[0]| - |sep|];
        }
      }
    }
  }

  /** The digit character for `0 <= d < 10`. */
  function DigitChar(d: nat): char
    requires d < 10
  {
    (0x30 + d) as char
  }

  /** The value of a digit character; anything else reads as 0. */
  function DigitValue(c: char): nat {
    if '0' <= c <= '9' then c as int - 0x30 else 0
  }

  /** `str(k)`: the decimal numeral of `k`, with no leading zeros. */
  function Decimal(k: nat): (s: string)
    ensures |s| >= 1
  {
    if k < 10 then [DigitChar(k)] else Decimal(k / 10) + [DigitChar(k % 10)]
  }

  /** `"%03d" % k`: the numeral padded on the left with zeros to at least three digits. */
  function Padded3(k: nat): string {
    var s := Decimal(k);
    if |s| >= 3 then s else seq(3 - |s|, _ => '0') + s
  }

  /** `int(s)` for a string of digits. */
  function ParseDecimal(s: string): nat {
    if |s| == 0 then 0 else ParseDecimal(s[..|s| - 1]) * 10 + DigitValue(s[|s| - 1])
  }

  lemma {:induction false} ParseDecimalOf(k: nat)
    ensures ParseDecimal(Decimal(k)) == k
  {
    if k >= 10 {
      var s := Decimal(k);
      assert s[..|s| - 1] == Decimal(k / 10);
      ParseDecimalOf(k / 10);
    }
  }

  lemma {:induction false} ParseZeros(z: string)
    requires forall i | 0 <= i < |z| :: z[i] == '0'
    ensures ParseDecimal(z) == 0
  {
    if |z| > 0 {
      ParseZeros(z[..|z| - 1]);
    }
  }

  /** Leading zeros do not change a numeral's value. */
  lemma {:induction false} ParseLeadingZeros(z: string, s: string)
    requires forall i | 0 <= i < |z| :: z[i] == '0'
    ensures ParseDecimal(z + s) == ParseDecimal(s)
  {
    if |s| == 0 {
      assert z + s == z;
      ParseZeros(z);
    } else {
      assert (z + s)[..|z + s| - 1] == z + s[..|s| - 1];
      ParseLeadingZeros(z, s[..|s| - 1]);
    }
  }

  /** The padded numeral reads back as the number, so different numbers pad differently. */
  lemma Padded3Parses(k: nat)
    ensures ParseDecimal(Padded3(k)) == k
  {
    ParseDecimalOf(k);
    var s := Decimal(k);
    if |s| < 3 {
      ParseLeadingZeros(seq(3 - |s|, _ => '0'), s);
    }
  }

  /** A one-digit number pads to two zeros and its digit. */
  lemma Padded3OneDigit(d: nat)
    requires d < 10
    ensures Padded3(d) == ['0', '0', DigitChar(d)]
  {
    assert seq(2, _ => '0') == ['0', '0'];
  }

  /** Python's `a < b` on strings: code point by code point, a proper prefix coming first. */
  predicate LexLess(a: string, b: string) {
    if |a| == 0 then |b| > 0
    else if |b| == 0 then false
    else a[0] < b[0] || (a[0] == b[0] && LexLess(a[1..], b[1..]))
  }

  lemma {:induction false} LexLessIrreflexive(a: string)
    ensures !LexLess(a, a)
  {
    if |a| > 0 {
      LexLessIrreflexive(a[1..]);
    }
  }

  lemma {:induction false} LexLessTransitive(a: string, b: string, c: string)
    requires LexLess(a, b) && LexLess(b, c)
    ensures LexLess(a, c)
  {
    if |a| > 0 && |b| > 0 && |c| > 0 && a[0] == b[0] && b[0] == c[0] {
      LexLessTransitive(a[1..], b[1..], c[1..]);
    }
  }

  /** Of two different strings one is smaller. */
  lemma {:induction false} LexLessTotal(a: string, b: string)
    requires a != b
    ensures LexLess(a, b) || LexLess(b, a)
  {
    if |a| > 0 && |b| > 0 && a[0] == b[0] {
      assert a == [a[0]] + a[1..] && b == [b[0]] + b[1..];
      LexLessTotal(a[1..], b[1..]);
    }
  }
}
