/** The handful of Python string operations the application relies on:
    `str.strip()`, `str.lower()`, `str.replace(" ", "_")`, `str(n)` for a
    non-negative integer and `sep.join(parts)`. */
module Text {

  /** Python's `str.isspace()` for a single character: the characters that
      `str.strip()` with no argument removes. */
  predicate IsSpace(c: char) {
    || ('\t' <= c <= '\r')
    || ('\U{1C}' <= c <= ' ')
    || c == '\U{85}'
    || c == '\U{A0}'
    || c == '\U{1680}'
    || ('\U{2000}' <= c <= '\U{200A}')
    || c == '\U{2028}'
    || c == '\U{2029}'
    || c == '\U{202F}'
    || c == '\U{205F}'
    || c == '\U{3000}'
  }

  /** `r` is `s[i..j]`, everything before `i` and from `j` on is white space,
      and `r` neither starts nor ends with white space. */
  ghost predicate StripAt(r: string, s: string, i: nat, j: nat) {
    && i <= j <= |s|
    && r == s[i..j]
    && (forall k :: 0 <= k < i ==> IsSpace(s[k]))
    && (forall k :: j <= k < |s| ==> IsSpace(s[k]))
    && (|r| > 0 ==> !IsSpace(s[i]) && !IsSpace(s[j - 1]))
  }

  /** `r` is `s` with its leading and trailing white space removed. */
  ghost predicate IsStripOf(r: string, s: string) {
    exists i: nat, j: nat :: StripAt(r, s, i, j)
  }

  /** The index of the first character of `s` at or after `i` that is not
      white space, or `|s|` when there is none. */
  function SkipSpaces(s: string, i: nat): (r: nat)
    requires i <= |s|
    ensures i <= r <= |s|
    ensures forall k :: i <= k < r ==> IsSpace(s[k])
    ensures r < |s| ==> !IsSpace(s[r])
    decreases |s| - i
  {
    if i < |s| && IsSpace(s[i]) then SkipSpaces(s, i + 1) else i
  }

  /** The index just past the last character of `s` before `j` and at or
      after `lo` that is not white space, or `lo` when there is none. */
  function SkipSpacesBack(s: string, lo: nat, j: nat): (r: nat)
    requires lo <= j <= |s|
    ensures lo <= r <= j
    ensures forall k :: r <= k < j ==> IsSpace(s[k])
    ensures r > lo ==> !IsSpace(s[r - 1])
    decreases j
  {
    if j > lo && IsSpace(s[j - 1]) then SkipSpacesBack(s, lo, j - 1) else j
  }

  /** Python's `s.strip()`. */
  function Strip(s: string): (r: string)
    ensures IsStripOf(r, s)
  {
    var i := SkipSpaces(s, 0);
    var j := SkipSpacesBack(s, i, |s|);
    assert StripAt(s[i..j], s, i, j);
    s[i..j]
  }

  /** Two descriptions of the stripped form agree on where it starts and ends. */
  lemma StripAtBounds(r: string, s: string, i: nat, j: nat, r': string, i': nat, j': nat)
    requires StripAt(r, s, i, j) && StripAt(r', s, i', j')
    requires |r| > 0
    ensures i == i' && j == j'
  {
  }

  /** The stripped form is unique: any string meeting the description of
      `IsStripOf` is what `Strip` returns. */
  lemma StripUnique(r: string, s: string)
    requires IsStripOf(r, s)
    ensures r == Strip(s)
  {
    var i: nat, j: nat :| StripAt(r, s, i, j);
    var r' := Strip(s);
    var i': nat, j': nat :| StripAt(r', s, i', j');
    if |r| > 0 {
      StripAtBounds(r, s, i, j, r', i', j');
    } else if |r'| > 0 {
      StripAtBounds(r', s, i', j', r, i, j);
    }
  }

  /** Stripping twice changes nothing more. */
  lemma StripIdempotent(s: string)
    ensures Strip(Strip(s)) == Strip(s)
  {
    var r := Strip(s);
    var i: nat, j: nat :| StripAt(r, s, i, j);
    assert r == r[0..|r|];
    if |r| > 0 {
      assert r[0] == s[i] && r[|r| - 1] == s[j - 1];
    }
    assert StripAt(r, r, 0, |r|);
    StripUnique(r, r);
  }

  predicate IsUpper(c: char) {
    'A' <= c <= 'Z'
  }

  /** Lower-cases one ASCII letter and leaves every other character alone. */
  function LowerChar(c: char): (d: char)
    ensures !IsUpper(d)
    ensures IsUpper(c) ==> d as int == c as int + 32
    ensures !IsUpper(c) ==> d == c
  {
    if IsUpper(c) then (c as int + 32) as char else c
  }

  /** `s.lower()`, for the ASCII letters. */
  function Lower(s: string): (r: string)
    ensures |r| == |s|
    ensures forall k :: 0 <= k < |r| ==> !IsUpper(r[k])
    ensures forall k :: 0 <= k < |s| ==> r[k] == LowerChar(s[k])
    ensures forall k :: 0 <= k < |s| && !IsUpper(s[k]) ==> r[k] == s[k]
  {
    if |s| == 0 then [] else [LowerChar(s[0])] + Lower(s[1..])
  }

  /** Lower-casing a string that has no upper-case letter leaves it as it is. */
  lemma {:induction false} LowerFixesLower(s: string)
    requires forall k :: 0 <= k < |s| ==> !IsUpper(s[k])
    ensures Lower(s) == s
  {
    if |s| > 0 {
      LowerFixesLower(s[1..]);
    }
  }

  /** `s.replace(" ", "_")`. */
  function ReplaceSpaces(s: string): (r: string)
    ensures |r| == |s|
    ensures forall k :: 0 <= k < |r| ==> r[k] != ' '
    ensures forall k :: 0 <= k < |s| && s[k] != ' ' && s[k] != '_' ==> r[k] == s[k]
    ensures forall k :: 0 <= k < |s| && (s[k] == ' ' || s[k] == '_') ==> r[k] == '_'
  {
    if |s| == 0 then [] else [if s[0] == ' ' then '_' else s[0]] + ReplaceSpaces(s[1..])
  }

  /** Two strings that differ only in where they have a space and where an
      underscore are given the same replacement. */
  lemma {:induction false} ReplaceSpacesMerges(a: string, b: string)
    requires |a| == |b|
    requires forall k :: 0 <= k < |a| ==> a[k] == b[k] || (a[k] in " _" && b[k] in " _")
    ensures ReplaceSpaces(a) == ReplaceSpaces(b)
  {
    if |a| > 0 {
      ReplaceSpacesMerges(a[1..], b[1..]);
    }
  }

  predicate IsDigit(c: char) {
    '0' <= c <= '9'
  }

  function DigitChar(d: nat): (c: char)
    requires d < 10
    ensures IsDigit(c) && c as int - '0' as int == d
  {
    ('0' as int + d) as char
  }

  /** Python's `str(n)` for a non-negative integer: its decimal digits. */
  function NatToString(n: nat): (r: string)
    ensures |r| > 0
    ensures forall k :: 0 <= k < |r| ==> IsDigit(r[k])
    ensures r[0] == '0' <==> n == 0
    ensures |r| > 1 ==> r[0] != '0'
  {
    if n < 10 then [DigitChar(n)] else NatToString(n / 10) + [DigitChar(n % 10)]
  }

  /** The value of a string of decimal digits. */
  function DigitsValue(s: string): nat
    requires forall k :: 0 <= k < |s| ==> IsDigit(s[k])
  {
    if |s| == 0 then 0
    else
      assert IsDigit(s[|s| - 1]);
      10 * DigitsValue(s[..|s| - 1]) + (s[|s| - 1] as int - '0' as int)
  }

  /** Reading back the digits of `n` gives `n`. */
  lemma {:induction false} NatToStringRoundTrip(n: nat)
    ensures DigitsValue(NatToString(n)) == n
  {
    if n >= 10 {
      var s := NatToString(n);
      assert s[..|s| - 1] == NatToString(n / 10);
      NatToStringRoundTrip(n / 10);
    }
  }

  /** Distinct numbers are written differently. */
  lemma NatToStringInjective(m: nat, n: nat)
    requires NatToString(m) == NatToString(n)
    ensures m == n
  {
    NatToStringRoundTrip(m);
    NatToStringRoundTrip(n);
  }

  /** Python's `sep.join(parts)`. */
  function Join(sep: string, parts: seq<string>): string
  {
    if |parts| == 0 then ""
    else if |parts| == 1 then parts[0]
    else Join(sep, parts[..|parts| - 1]) + sep + parts[|parts| - 1]
  }

  /** Where part `k` starts in `Join(sep, parts)`: after every earlier part
      and the separator behind each of them. */
  function Offset(sep: string, parts: seq<string>, k: nat): nat
    requires k <= |parts|
  {
    if k == 0 then 0 else Offset(sep, parts, k - 1) + |parts[k - 1]| + |sep|
  }

  lemma {:induction false} OffsetPrefix(sep: string, parts: seq<string>, n: nat, k: nat)
    requires k <= n <= |parts|
    ensures Offset(sep, parts[..n], k) == Offset(sep, parts, k)
  {
    if k > 0 {
      OffsetPrefix(sep, parts, n, k - 1);
    }
  }

  /** The joined string ends where its last part ends. */
  lemma {:induction false} JoinLength(sep: string, parts: seq<string>)
    requires |parts| > 0
    ensures |Join(sep, parts)| == Offset(sep, parts, |parts| - 1) + |parts[|parts| - 1]|
  {
    var n := |parts|;
    if n >= 2 {
      JoinLength(sep, parts[..n - 1]);
      OffsetPrefix(sep, parts, n - 1, n - 2);
    }
  }

  /** Part `k` sits in the joined string at `Offset(sep, parts, k)`. */
  lemma {:induction false} JoinPart(sep: string, parts: seq<string>, k: nat)
    requires k < |parts|
    ensures Offset(sep, parts, k) + |parts[k]| <= |Join(sep, parts)|
    ensures Join(sep, parts)[Offset(sep, parts, k)..Offset(sep, parts, k) + |parts[k]|] == parts[k]
  {
    var n := |parts|;
    JoinLength(sep, parts);
    if n >= 2 {
      var init := parts[..n - 1];
      var j := Join(sep, init);
      var o := Offset(sep, parts, k);
      assert Join(sep, parts) == j + sep + parts[n - 1];
      if k < n - 1 {
        JoinPart(sep, init, k);
        OffsetPrefix(sep, parts, n - 1, k);
        assert init[k] == parts[k];
        SliceInFront(j + sep, parts[n - 1], o, o + |parts[k]|);
        SliceInFront(j, sep, o, o + |parts[k]|);
      } else {
        JoinLength(sep, init);
        OffsetPrefix(sep, parts, n - 1, n - 2);
        SliceBehind(j + sep, parts[n - 1]);
      }
    }
  }

  /** One separator follows every part but the last. */
  lemma {:induction false} JoinSeparator(sep: string, parts: seq<string>, k: nat)
    requires k + 1 < |parts|
    ensures Offset(sep, parts, k + 1) <= |Join(sep, parts)|
    ensures Join(sep, parts)[Offset(sep, parts, k) + |parts[k]|..Offset(sep, parts, k + 1)] == sep
  {
    var n := |parts|;
    JoinPart(sep, parts, k + 1);
    var init := parts[..n - 1];
    var j := Join(sep, init);
    var a := Offset(sep, parts, k) + |parts[k]|;
    var b := Offset(sep, parts, k + 1);
    var full := Join(sep, parts);
    assert full == j + sep + parts[n - 1];
    if k + 2 < n {
      JoinSeparator(sep, init, k);
      OffsetPrefix(sep, parts, n - 1, k + 1);
      assert init[k] == parts[k];
      SliceInFront(j + sep, parts[n - 1], a, b);
      SliceInFront(j, sep, a, b);
    } else {
      JoinLength(sep, init);
      OffsetPrefix(sep, parts, n - 1, n - 2);
      assert a == |j| && b == a + |sep|;
      SliceInFront(j + sep, parts[n - 1], a, b);
      SliceBehind(j, sep);
    }
  }

  lemma SliceInFront(x: string, y: string, i: nat, j: nat)
    requires i <= j <= |x|
    ensures (x + y)[i..j] == x[i..j]
  {
  }

  lemma SliceBehind(x: string, y: string)
    ensures (x + y)[|x|..] == y && (x + y)[|x|..|x| + |y|] == y
  {
  }

  lemma JoinTwo(sep: string, a: string, b: string)
    ensures Join(sep, [a, b]) == a + sep + b
  {
    assert [a, b][..1] == [a];
    assert [a][..0] == [];
  }

  /** A join of non-empty parts is empty exactly when there are no parts. */
  lemma JoinEmptyIff(sep: string, parts: seq<string>)
    requires forall k :: 0 <= k < |parts| ==> |parts[k]| > 0
    ensures Join(sep, parts) == "" <==> |parts| == 0
  {
    if |parts| > 0 {
      JoinLength(sep, parts);
    }
  }
}
