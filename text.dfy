/** The JavaScript string operations the application relies on, on Dafny strings
    (sequences of Unicode scalar values): `trim`, `toLowerCase`, `includes`,
    the `\d` and `\s` regular-expression classes, `split`, rendering an integer
    with a template literal, and the binary string order a document store sorts by. */
module Text {

  /** The WhiteSpace and LineTerminator code points of ECMA-262 (sections 12.2 and 12.3):
      what `String.prototype.trim` removes and what the class `\s` matches. */
  predicate IsSpace(c: char) {
    c == '\t' || c == '\n' || c == '\U{B}' || c == '\U{C}' || c == '\r' || c == ' '
    || c == '\U{A0}' || c == '\U{1680}' || ('\U{2000}' <= c <= '\U{200A}')
    || c == '\U{2028}' || c == '\U{2029}' || c == '\U{202F}' || c == '\U{205F}'
    || c == '\U{3000}' || c == '\U{FEFF}'
  }

  /** Every character is white space (the empty string included). */
  predicate IsBlank(s: string) {
    forall i :: 0 <= i < |s| ==> IsSpace(s[i])
  }

  /** The leading white space removed: the rest of `s` after a blank prefix,
      starting with a character that is not white space. */
  function TrimStart(s: string): (r: string)
    ensures |r| <= |s| && r == s[|s| - |r|..]
    ensures IsBlank(s[..|s| - |r|])
    ensures r == [] || !IsSpace(r[0])
  {
    if s != [] && IsSpace(s[0]) then TrimStart(s[1..]) else s
  }

  /** The trailing white space removed. */
  function TrimEnd(s: string): (r: string)
    ensures |r| <= |s| && r == s[..|r|]
    ensures IsBlank(s[|r|..])
    ensures r == [] || !IsSpace(r[|r| - 1])
  {
    if s != [] && IsSpace(s[|s| - 1]) then TrimEnd(s[..|s| - 1]) else s
  }

  /** `String.prototype.trim`. */
  function Trim(s: string): string {
    TrimEnd(TrimStart(s))
  }

  /** `s.trim() === ""` holds exactly for the blank strings. */
  lemma TrimEmptyIffBlank(s: string)
    ensures Trim(s) == "" <==> IsBlank(s)
  {
    var t := TrimStart(s);
    assert t != [] ==> t[0] == s[|s| - |t|];
    if Trim(s) == "" {
      assert t[0..] == t;
      assert t == [];
      assert s[..|s|] == s;
    }
  }

  /** `toLowerCase` on one character (ASCII letters only). */
  function LowerChar(c: char): char {
    if 'A' <= c <= 'Z' then (c as int + 32) as char else c
  }

  /** `toLowerCase` (ASCII letters only). */
  function Lower(s: string): (r: string)
    ensures |r| == |s|
  {
    seq(|s|, i requires 0 <= i < |s| => LowerChar(s[i]))
  }

  /** `s.includes(t)`: `t` occurs in `s` as a contiguous block. */
  predicate Contains(s: string, t: string) {
    exists i | 0 <= i <= |s| - |t| :: OccursAt(s, t, i)
  }

  /** `t` occurs in `s` starting at position `i`. */
  predicate OccursAt(s: string, t: string, i: int) {
    0 <= i <= |s| - |t| && s[i..i + |t|] == t
  }

  /** A case-insensitive literal substring match: `$regex` with option `i` for a
      term without regular-expression metacharacters, and `a.toLowerCase().includes(b.toLowerCase())`. */
  predicate ContainsIgnoreCase(s: string, t: string) {
    Contains(Lower(s), Lower(t))
  }

  /** A case-insensitive equality (Prisma's `mode: 'insensitive'`). */
  predicate EqualsIgnoreCase(a: string, b: string) {
    Lower(a) == Lower(b)
  }

  /** Every string includes the empty string, so an empty search term matches everything. */
  lemma ContainsEmpty(s: string)
    ensures Contains(s, "")
  {
    assert OccursAt(s, "", 0);
  }

  /** A string that occurs in `s` is no longer than `s`; in particular only the empty
      string occurs in the empty string. */
  lemma ContainsShorter(s: string, t: string)
    requires Contains(s, t)
    ensures |t| <= |s|
  {
    var i :| 0 <= i <= |s| - |t| && OccursAt(s, t, i);
  }

  /** The character class `\d`. */
  predicate IsDigit(c: char) {
    '0' <= c <= '9'
  }

  /** The regular expression `^\d{10}$`. */
  predicate IsTenDigits(s: string) {
    |s| == 10 && forall i :: 0 <= i < |s| ==> IsDigit(s[i])
  }

  /** `c` occurs somewhere in `s`. */
  predicate HasChar(s: string, c: char) {
    exists i :: 0 <= i < |s| && s[i] == c
  }

  /** The decimal digit for `d`. */
  function DigitChar(d: nat): (c: char)
    requires d < 10
    ensures IsDigit(c)
  {
    ('0' as int + d) as char
  }

  /** A natural number as a template literal renders it: its decimal digits, no sign. */
  function Decimal(n: nat): (r: string)
    ensures |r| > 0
    ensures forall i :: 0 <= i < |r| ==> IsDigit(r[i])
  {
    if n < 10 then [DigitChar(n)] else Decimal(n / 10) + [DigitChar(n % 10)]
  }

  /** The value of a string of decimal digits. */
  function DecimalValue(s: string): nat
    requires forall i :: 0 <= i < |s| ==> IsDigit(s[i])
  {
    if s == [] then 0 else 10 * DecimalValue(s[..|s| - 1]) + DigitValue(s[|s| - 1])
  }

  /** The value of one decimal digit. */
  function DigitValue(c: char): (d: nat)
    requires IsDigit(c)
    ensures d < 10
  {
    c as int - '0' as int
  }

  /** The rendered digits read back as the number they came from. */
  lemma {:induction false} DecimalRoundTrip(n: nat)
    ensures DecimalValue(Decimal(n)) == n
  {
    if n >= 10 {
      DecimalRoundTrip(n / 10);
      var r := Decimal(n);
      assert r[..|r| - 1] == Decimal(n / 10);
    }
  }

  /** `s.split(sep)` for a one-character separator: the pieces between separators,
      always at least one. */
  function Split(s: string, sep: char): (r: seq<string>)
    ensures |r| >= 1
  {
    if s == [] then [[]]
    else if s[0] == sep then [[]] + Split(s[1..], sep)
    else
      var rest := Split(s[1..], sep);
      [[s[0]] + rest[0]] + rest[1..]
  }

  /** A string without the separator splits into itself. */
  lemma {:induction false} SplitNoSeparator(s: string, sep: char)
    requires !HasChar(s, sep)
    ensures Split(s, sep) == [s]
  {
    if s != [] {
      assert !HasChar(s[1..], sep) by {
        forall i | 0 <= i < |s[1..]| ensures s[1..][i] != sep {
          assert s[1..][i] == s[i + 1];
        }
      }
      SplitNoSeparator(s[1..], sep);
      assert s[0] != sep;
      assert [s[0]] + s[1..] == s;
    }
  }

  /** Splitting `a + sep + b`, where `a` has no separator, yields `a` followed by the pieces of `b`. */
  lemma {:induction false} SplitAfterPiece(a: string, sep: char, b: string)
    requires !HasChar(a, sep)
    ensures Split(a + [sep] + b, sep) == [a] + Split(b, sep)
  {
    if a == [] {
      assert a + [sep] + b == [sep] + b;
      assert ([sep] + b)[1..] == b;
    } else {
      assert !HasChar(a[1..], sep) by {
        forall i | 0 <= i < |a[1..]| ensures a[1..][i] != sep {
          assert a[1..][i] == a[i + 1];
        }
      }
      SplitAfterPiece(a[1..], sep, b);
      assert (a + [sep] + b)[1..] == a[1..] + [sep] + b;
      assert a[0] != sep;
      assert [a[0]] + a[1..] == a;
    }
  }

  /** `s.split(sep)[0]`: the part of `s` before its first `sep`, or all of `s`. */
  function Before(s: string, sep: char): string {
    Split(s, sep)[0]
  }

  /** The part before the first separator is a prefix holding no separator, and
      when `s` holds a separator it is followed by one. */
  lemma BeforeIsPrefix(s: string, sep: char)
    ensures |Before(s, sep)| <= |s| && Before(s, sep) == s[..|Before(s, sep)|]
    ensures !HasChar(Before(s, sep), sep)
    ensures |Before(s, sep)| < |s| ==> s[|Before(s, sep)|] == sep
    ensures HasChar(s, sep) ==> |Before(s, sep)| < |s|
  {
    BeforePrefix(s, sep);
    BeforeHasNoSeparator(s, sep);
    BeforeEndsAtSeparator(s, sep);
  }

  lemma {:induction false} BeforePrefix(s: string, sep: char)
    ensures |Before(s, sep)| <= |s| && Before(s, sep) == s[..|Before(s, sep)|]
  {
    if s != [] && s[0] != sep {
      BeforePrefix(s[1..], sep);
      BeforeCons(s, sep);
      assert s[..|Before(s[1..], sep)| + 1] == [s[0]] + s[1..][..|Before(s[1..], sep)|];
    }
  }

  lemma {:induction false} BeforeHasNoSeparator(s: string, sep: char)
    ensures !HasChar(Before(s, sep), sep)
  {
    if s != [] && s[0] != sep {
      BeforeHasNoSeparator(s[1..], sep);
      BeforeCons(s, sep);
      var p := Before(s[1..], sep);
      forall i | 0 <= i < |[s[0]] + p| ensures ([s[0]] + p)[i] != sep {
        if i > 0 { assert ([s[0]] + p)[i] == p[i - 1]; }
      }
    }
  }

  lemma {:induction false} BeforeEndsAtSeparator(s: string, sep: char)
    ensures |Before(s, sep)| < |s| ==> s[|Before(s, sep)|] == sep
    ensures HasChar(s, sep) ==> |Before(s, sep)| < |s|
  {
    if s != [] && s[0] != sep {
      BeforeEndsAtSeparator(s[1..], sep);
      BeforeCons(s, sep);
      if HasChar(s, sep) {
        var i :| 0 <= i < |s| && s[i] == sep;
        assert s[1..][i - 1] == sep;
      }
    }
  }

  /** A first character other than the separator leads the first piece. */
  lemma BeforeCons(s: string, sep: char)
    requires s != [] && s[0] != sep
    ensures Before(s, sep) == [s[0]] + Before(s[1..], sep)
  {
  }

  /** Lexicographic order on code points, which for UTF-8 strings is the binary
      order a document store sorts strings by. */
  predicate StrLess(a: string, b: string) {
    if a == [] then b != []
    else if b == [] then false
    else if a[0] != b[0] then a[0] < b[0]
    else StrLess(a[1..], b[1..])
  }

  lemma {:induction false} StrLessIrreflexive(a: string)
    ensures !StrLess(a, a)
  {
    if a != [] { StrLessIrreflexive(a[1..]); }
  }

  lemma {:induction false} StrLessTransitive(a: string, b: string, c: string)
    requires StrLess(a, b) && StrLess(b, c)
    ensures StrLess(a, c)
  {
    if a != [] && b != [] && c != [] && a[0] == b[0] && b[0] == c[0] {
      StrLessTransitive(a[1..], b[1..], c[1..]);
    }
  }

  /** Two different strings are ordered one way or the other. */
  lemma {:induction false} StrLessTotal(a: string, b: string)
    requires a != b
    ensures StrLess(a, b) || StrLess(b, a)
  {
    if a != [] && b != [] && a[0] == b[0] {
      assert a == [a[0]] + a[1..] && b == [b[0]] + b[1..];
      StrLessTotal(a[1..], b[1..]);
    }
  }
}
