/**
 * The JavaScript string operations the application relies on, over `string` (a sequence of
 * UTF-16 code units is modelled as a sequence of characters): `includes`, `indexOf`,
 * `startsWith`, `split` with a string separator, `Array.prototype.pop` on the split result,
 * `replace` with a string pattern, `trim`, `Number.prototype.toString` on integers and
 * `parseInt(s, 10)`.
 */
module JsStrings {
  import opened Wrappers

  // ---------------------------------------------------------------------------
  // Searching
  // ---------------------------------------------------------------------------

  /** `p` occurs in `s` starting at index `i`. */
  predicate OccursAt(s: string, p: string, i: nat) {
    i + |p| <= |s| && s[i..i + |p|] == p
  }

  /** `s.indexOf(p, from)`: the first index at or after `from` where `p` occurs. */
  function IndexFrom(s: string, p: string, from: nat): (r: Option<nat>)
    decreases |s| - from
    ensures r.Some? ==> from <= r.value && OccursAt(s, p, r.value)
    ensures r.Some? ==> forall j :: from <= j < r.value ==> !OccursAt(s, p, j)
    ensures r.None? ==> forall j :: from <= j ==> !OccursAt(s, p, j)
  {
    if |s| < from + |p| then None
    else if s[from..from + |p|] == p then Some(from)
    else IndexFrom(s, p, from + 1)
  }

  /** `s.indexOf(p)`, with `None` for JavaScript's -1. */
  function IndexOf(s: string, p: string): Option<nat> {
    IndexFrom(s, p, 0)
  }

  /** `s.includes(p)`. */
  predicate Includes(s: string, p: string) {
    IndexOf(s, p).Some?
  }

  /** `includes` holds exactly when there is an occurrence somewhere. */
  lemma IncludesIff(s: string, p: string)
    ensures Includes(s, p) <==> exists i :: OccursAt(s, p, i)
  {
    if Includes(s, p) {
      assert OccursAt(s, p, IndexOf(s, p).value);
    }
  }

  /** An occurrence with no earlier one is what `indexOf` finds. */
  lemma IndexOfIs(s: string, p: string, i: nat)
    requires OccursAt(s, p, i)
    requires forall j :: 0 <= j < i ==> !OccursAt(s, p, j)
    ensures IndexOf(s, p) == Some(i)
  {
  }

  /** A string in which `p` starts nowhere does not include `p`. */
  lemma NotIncludes(s: string, p: string)
    requires forall j :: 0 <= j ==> !OccursAt(s, p, j)
    ensures !Includes(s, p)
  {
  }

  /** A pattern holding a character the string lacks does not occur in it. */
  lemma MissingCharNotIncluded(s: string, p: string, k: nat)
    requires k < |p| && p[k] !in s
    ensures !Includes(s, p)
  {
    forall j | 0 <= j ensures !OccursAt(s, p, j) {
      if j + |p| <= |s| {
        assert s[j..j + |p|][k] == s[j + k];
      }
    }
  }

  /** A one-character pattern occurs exactly where that character stands. */
  lemma OccursAtChar(s: string, c: char, j: nat)
    ensures OccursAt(s, [c], j) <==> j < |s| && s[j] == c
  {
    if j < |s| {
      assert s[j..j + 1] == [s[j]];
    }
  }

  /** Two occurrences closer than the pattern's length make a suffix of the pattern equal a prefix. */
  lemma OverlapBorder(s: string, sep: string, i: nat, j: nat)
    requires OccursAt(s, sep, i) && OccursAt(s, sep, j) && i < j < i + |sep|
    ensures sep[j - i..] == sep[..|sep| - (j - i)]
  {
    var k := j - i;
    forall m | 0 <= m < |sep| - k ensures sep[k + m] == sep[m] {
      assert sep[k + m] == s[i..i + |sep|][k + m] == s[j + m];
      assert sep[m] == s[j..j + |sep|][m] == s[j + m];
    }
  }

  /** `s.startsWith(p)`. */
  predicate StartsWith(s: string, p: string) {
    |p| <= |s| && s[..|p|] == p
  }

  /** `sep` cannot overlap a second copy of itself: no proper suffix equals a prefix. */
  predicate NoSelfOverlap(sep: string) {
    forall k :: 0 < k < |sep| ==> sep[k..] != sep[..|sep| - k]
  }

  // ---------------------------------------------------------------------------
  // split / join / pop / [0]
  // ---------------------------------------------------------------------------

  /**
   * `s.split(sep)` for a non-empty string separator: scanning left to right, each occurrence
   * of `sep` ends a piece and the text after the last occurrence is the final piece.
   */
  function Split(s: string, sep: string): (pieces: seq<string>)
    requires sep != ""
    ensures pieces != []
    decreases |s|
  {
    match IndexOf(s, sep)
    case None => [s]
    case Some(i) => [s[..i]] + Split(s[i + |sep|..], sep)
  }

  /** `pieces.join(sep)`. */
  function Join(pieces: seq<string>, sep: string): string
    requires pieces != []
  {
    if |pieces| == 1 then pieces[0] else pieces[0] + sep + Join(pieces[1..], sep)
  }

  /** `s.split(sep)[0]`: the text before the first occurrence of `sep`. */
  function FirstPiece(s: string, sep: string): string
    requires sep != ""
  {
    Split(s, sep)[0]
  }

  /** `s.split(sep).pop()`: the final piece (never undefined, since `split` never returns `[]`). */
  function LastPiece(s: string, sep: string): string
    requires sep != ""
  {
    var pieces := Split(s, sep);
    pieces[|pieces| - 1]
  }

  /** Joining the pieces with the separator gives back the original string. */
  lemma {:induction false} JoinSplit(s: string, sep: string)
    requires sep != ""
    ensures Join(Split(s, sep), sep) == s
    decreases |s|
  {
    match IndexOf(s, sep)
    case None =>
    case Some(i) =>
      JoinSplit(s[i + |sep|..], sep);
      assert s == s[..i] + sep + s[i + |sep|..];
  }

  /** An occurrence in a prefix is an occurrence in the whole string, ending inside the prefix. */
  lemma OccursInPrefix(s: string, p: string, i: nat, j: nat)
    requires i <= |s| && OccursAt(s[..i], p, j)
    ensures OccursAt(s, p, j) && j + |p| <= i
  {
    assert s[j..j + |p|] == s[..i][j..j + |p|];
  }

  /** No piece of a split contains the separator. */
  lemma {:induction false} SplitPiecesExcludeSeparator(s: string, sep: string, k: nat)
    requires sep != "" && k < |Split(s, sep)|
    ensures !Includes(Split(s, sep)[k], sep)
    decreases |s|
  {
    match IndexOf(s, sep)
    case None =>
    case Some(i) =>
      if k == 0 {
        var piece := s[..i];
        forall j | 0 <= j ensures !OccursAt(piece, sep, j) {
          if OccursAt(piece, sep, j) {
            OccursInPrefix(s, sep, i, j);
          }
        }
        NotIncludes(piece, sep);
      } else {
        SplitPiecesExcludeSeparator(s[i + |sep|..], sep, k - 1);
      }
  }

  /** The number of times `c` appears in `s`. */
  function CountChar(s: string, c: char): (n: nat)
    ensures n <= |s|
  {
    if s == [] then 0 else (if s[0] == c then 1 else 0) + CountChar(s[1..], c)
  }

  lemma CountCharAppend(a: string, b: string, c: char)
    ensures CountChar(a + b, c) == CountChar(a, c) + CountChar(b, c)
  {
    if a != [] {
      assert (a + b)[0] == a[0];
      assert (a + b)[1..] == a[1..] + b;
      CountCharAppend(a[1..], b, c);
    } else {
      assert a + b == b;
    }
  }

  /** A single-character split yields exactly one more piece than there are separators. */
  lemma {:induction false} SplitCharCount(s: string, c: char)
    ensures |Split(s, [c])| == CountChar(s, c) + 1
    decreases |s|
  {
    match IndexOf(s, [c])
    case None =>
      forall j | 0 <= j < |s| ensures s[j] != c {
        OccursAtChar(s, c, j);
      }
      NoCharNoCount(s, c);
    case Some(i) =>
      var rest := s[i + 1..];
      SplitCharCount(rest, c);
      assert s == s[..i] + [c] + rest;
      OccursAtChar(s, c, i);
      forall j | 0 <= j < i ensures s[..i][j] != c {
        OccursAtChar(s, c, j);
      }
      NoCharNoCount(s[..i], c);
      CountCharAppend(s[..i] + [c], rest, c);
      CountCharAppend(s[..i], [c], c);
  }

  lemma NoCharNoCount(s: string, c: char)
    requires forall j :: 0 <= j < |s| ==> s[j] != c
    ensures CountChar(s, c) == 0
  {
    if s != [] {
      NoCharNoCount(s[1..], c);
    }
  }

  /** For a one-character separator not in any piece, `split` undoes `join`. */
  lemma {:induction false} SplitJoin(pieces: seq<string>, c: char)
    requires pieces != []
    requires forall k :: 0 <= k < |pieces| ==> c !in pieces[k]
    ensures Split(Join(pieces, [c]), [c]) == pieces
    decreases |pieces|
  {
    if |pieces| == 1 {
      FirstPieceWhole(pieces[0], c);
    } else {
      var head := pieces[0];
      var rest := Join(pieces[1..], [c]);
      var s := head + [c] + rest;
      assert Join(pieces, [c]) == s;
      IndexOfChar(head, c, rest);
      assert s[..|head|] == head;
      assert s[|head| + 1..] == rest;
      assert Split(s, [c]) == [head] + Split(rest, [c]);
      assert forall k :: 0 <= k < |pieces[1..]| ==> c !in pieces[1..][k] by {
        forall k | 0 <= k < |pieces[1..]| ensures c !in pieces[1..][k] {
          assert pieces[1..][k] == pieces[k + 1];
        }
      }
      SplitJoin(pieces[1..], c);
      assert pieces == [head] + pieces[1..];
    }
  }

  /** When `s` is `p + sep + t` and `t` holds no separator, `split(sep).pop()` is `t`. */
  lemma {:induction false} LastPieceAfter(p: string, sep: string, t: string)
    requires sep != "" && NoSelfOverlap(sep)
    requires !Includes(t, sep)
    ensures LastPiece(p + sep + t, sep) == t
    decreases |p|
  {
    var s := p + sep + t;
    assert s[|p|..|p| + |sep|] == sep;
    assert OccursAt(s, sep, |p|);
    assert IndexOf(s, sep).Some?;
    var i := IndexOf(s, sep).value;
    assert i <= |p|;
    var rest := s[i + |sep|..];
    LastPieceStep(s, sep, i);
    if i == |p| {
      assert rest == t;
      assert IndexOf(t, sep).None?;
    } else {
      if |p| < i + |sep| {
        OverlapBorder(s, sep, i, |p|);
        assert false;
      }
      var p' := p[i + |sep|..];
      assert rest == p' + sep + t;
      LastPieceAfter(p', sep, t);
    }
  }

  /** Past the first separator, the final piece is the final piece of the rest. */
  lemma LastPieceStep(s: string, sep: string, i: nat)
    requires sep != "" && IndexOf(s, sep) == Some(i)
    ensures LastPiece(s, sep) == LastPiece(s[i + |sep|..], sep)
  {
    var rest := Split(s[i + |sep|..], sep);
    assert Split(s, sep) == [s[..i]] + rest;
  }

  /** With a one-character separator absent from `a`, `split(c)[0]` of `a + [c] + b` is `a`. */
  lemma FirstPieceBefore(a: string, c: char, b: string)
    requires c !in a
    ensures FirstPiece(a + [c] + b, [c]) == a
  {
    IndexOfChar(a, c, b);
    assert (a + [c] + b)[..|a|] == a;
  }

  /** A string without the separator character is its own first piece. */
  lemma FirstPieceWhole(s: string, c: char)
    requires c !in s
    ensures FirstPiece(s, [c]) == s
  {
    forall j | 0 <= j ensures !OccursAt(s, [c], j) {
      OccursAtChar(s, c, j);
    }
    NotIncludes(s, [c]);
  }

  /** The first `c` in `a + [c] + b`, when `a` has none, is at `|a|`. */
  lemma IndexOfChar(a: string, c: char, b: string)
    requires c !in a
    ensures IndexOf(a + [c] + b, [c]) == Some(|a|)
  {
    var s := a + [c] + b;
    forall j | 0 <= j < |a| ensures !OccursAt(s, [c], j) {
      OccursAtChar(s, c, j);
      assert s[j] == a[j];
    }
    OccursAtChar(s, c, |a|);
    IndexOfIs(s, [c], |a|);
  }

  /** The first piece for a one-character separator never contains that character. */
  lemma FirstPieceExcludes(s: string, c: char)
    ensures c !in FirstPiece(s, [c])
  {
    SplitPiecesExcludeSeparator(s, [c], 0);
    var piece := FirstPiece(s, [c]);
    forall j | 0 <= j < |piece| ensures piece[j] != c {
      OccursAtChar(piece, c, j);
    }
  }

  /** Every character of a first piece comes from the original string. */
  lemma FirstPieceChars(s: string, sep: string)
    requires sep != ""
    ensures forall x :: x in FirstPiece(s, sep) ==> x in s
  {
    match IndexOf(s, sep)
    case None =>
    case Some(i) =>
      assert FirstPiece(s, sep) == s[..i];
  }

  /** A prefix without the separator character passes through `split(c)[0]` untouched. */
  lemma FirstPieceAppend(a: string, c: char, b: string)
    requires c !in a
    ensures FirstPiece(a + b, [c]) == a + FirstPiece(b, [c])
  {
    match IndexOf(b, [c])
    case None =>
      forall k | 0 <= k < |b| ensures b[k] != c {
        OccursAtChar(b, c, k);
      }
      FirstPieceWhole(b, c);
      FirstPieceWhole(a + b, c);
    case Some(j) =>
      OccursAtChar(b, c, j);
      forall k | 0 <= k < j ensures b[k] != c {
        OccursAtChar(b, c, k);
      }
      var before, after := b[..j], b[j + 1..];
      assert b == before + [c] + after;
      FirstPieceBefore(before, c, after);
      assert a + b == (a + before) + [c] + after;
      FirstPieceBefore(a + before, c, after);
  }

  // ---------------------------------------------------------------------------
  // replace with a string pattern
  // ---------------------------------------------------------------------------

  /** `s.replace(pat, rep)` for a string pattern: only the first occurrence is replaced. */
  function ReplaceFirst(s: string, pat: string, rep: string): string {
    match IndexOf(s, pat)
    case None => s
    case Some(i) => s[..i] + rep + s[i + |pat|..]
  }

  /** Replacing by the empty string only removes characters: nothing new appears. */
  lemma RemoveFirstChars(s: string, pat: string)
    ensures forall x :: x in ReplaceFirst(s, pat, "") ==> x in s
  {
    match IndexOf(s, pat)
    case None =>
    case Some(i) =>
      assert ReplaceFirst(s, pat, "") == s[..i] + s[i + |pat|..];
  }

  /** `s.replace(pat, rep)` leaves a string without `pat` unchanged. */
  lemma ReplaceAbsent(s: string, pat: string, rep: string)
    requires !Includes(s, pat)
    ensures ReplaceFirst(s, pat, rep) == s
  {
  }

  /** Removing a leading copy of `pat` by `replace(pat, "")` leaves what follows it. */
  lemma RemoveLeading(pat: string, rest: string)
    ensures ReplaceFirst(pat + rest, pat, "") == rest
  {
    var s := pat + rest;
    assert s[0..|pat|] == pat;
    IndexOfIs(s, pat, 0);
    assert s[|pat|..] == rest;
  }

  // ---------------------------------------------------------------------------
  // trim
  // ---------------------------------------------------------------------------

  /** The characters `String.prototype.trim` removes: WhiteSpace and LineTerminator code points. */
  predicate IsWhitespace(c: char) {
    || c == '\t' || c == '\n' || c == '\U{000B}' || c == '\U{000C}' || c == '\r'
    || c == ' ' || c == '\U{00A0}' || c == '\U{1680}'
    || ('\U{2000}' <= c <= '\U{200A}')
    || c == '\U{2028}' || c == '\U{2029}' || c == '\U{202F}' || c == '\U{205F}'
    || c == '\U{3000}' || c == '\U{FEFF}'
  }

  /** Leading whitespace removed: `r` is a suffix of `s`, everything dropped is whitespace, and `r` starts with none. */
  function TrimStart(s: string): (r: string)
    ensures |r| <= |s| && r == s[|s| - |r|..]
    ensures forall k :: 0 <= k < |s| - |r| ==> IsWhitespace(s[k])
    ensures r == [] || !IsWhitespace(r[0])
  {
    if s != [] && IsWhitespace(s[0]) then TrimStart(s[1..]) else s
  }

  /** Trailing whitespace removed: `r` is a prefix of `s`, everything dropped is whitespace, and `r` ends with none. */
  function TrimEnd(s: string): (r: string)
    ensures |r| <= |s| && r == s[..|r|]
    ensures forall k :: |r| <= k < |s| ==> IsWhitespace(s[k])
    ensures r == [] || !IsWhitespace(r[|r| - 1])
  {
    if s != [] && IsWhitespace(s[|s| - 1]) then TrimEnd(s[..|s| - 1]) else s
  }

  /** `s.trim()`: empty, or beginning and ending with a character that is not whitespace. */
  function Trim(s: string): (r: string)
    ensures |r| <= |s|
    ensures r == [] || (!IsWhitespace(r[0]) && !IsWhitespace(r[|r| - 1]))
  {
    var u := TrimStart(s);
    assert u == [] || !IsWhitespace(u[0]);
    TrimEnd(u)
  }

  /** `trim` yields the empty string exactly for all-whitespace input. */
  lemma TrimEmptyIff(s: string)
    ensures Trim(s) == "" <==> forall k :: 0 <= k < |s| ==> IsWhitespace(s[k])
  {
    var u := TrimStart(s);
    if !(forall k :: 0 <= k < |s| ==> IsWhitespace(s[k])) {
      var k :| 0 <= k < |s| && !IsWhitespace(s[k]);
      assert k >= |s| - |u|;
      assert u[k - (|s| - |u|)] == s[k];
      assert TrimEnd(u) != [];
    }
  }

  /** A string that neither begins nor ends with whitespace is its own trim. */
  lemma TrimFixed(s: string)
    requires s == [] || (!IsWhitespace(s[0]) && !IsWhitespace(s[|s| - 1]))
    ensures Trim(s) == s
  {
  }

  /** `trim` only removes characters: everything in its result was in its input. */
  lemma TrimKeepsChars(s: string, c: char)
    requires c in Trim(s)
    ensures c in s
  {
    var u := TrimStart(s);
    var r := TrimEnd(u);
    var j :| 0 <= j < |r| && r[j] == c;
    assert u[j] == c;
    assert s[|s| - |u| + j] == c;
  }

  /** One leading space before a trimmed, non-empty string is removed by `trim`. */
  lemma TrimLeadingSpace(s: string)
    requires s != [] && !IsWhitespace(s[0]) && !IsWhitespace(s[|s| - 1])
    ensures Trim([' '] + s) == s
  {
    assert ([' '] + s)[1..] == s;
  }

  // ---------------------------------------------------------------------------
  // Integers as decimal text
  // ---------------------------------------------------------------------------

  predicate IsDigit(c: char) {
    '0' <= c <= '9'
  }

  predicate AllDigits(s: string) {
    forall k :: 0 <= k < |s| ==> IsDigit(s[k])
  }

  function DigitChar(d: nat): (c: char)
    requires d < 10
    ensures IsDigit(c) && (c as int) - ('0' as int) == d
  {
    (('0' as int) + d) as char
  }

  function DigitValue(c: char): (d: nat)
    requires IsDigit(c)
    ensures d < 10
  {
    (c as int) - ('0' as int)
  }

  /** `n.toString()` for a non-negative integer: decimal, with no leading zero except for 0 itself. */
  function NatToString(n: nat): (r: string)
    ensures r != [] && AllDigits(r)
    ensures |r| > 1 ==> r[0] != '0'
  {
    if n < 10 then [DigitChar(n)] else NatToString(n / 10) + [DigitChar(n % 10)]
  }

  /** The number a string of decimal digits denotes. */
  function DigitsValue(s: string): nat
    requires AllDigits(s)
  {
    if s == [] then 0 else 10 * DigitsValue(s[..|s| - 1]) + DigitValue(s[|s| - 1])
  }

  /** Reading back the decimal text of `n` gives `n`. */
  lemma {:induction false} NatToStringValue(n: nat)
    ensures DigitsValue(NatToString(n)) == n
  {
    if n >= 10 {
      NatToStringValue(n / 10);
      var s := NatToString(n);
      assert s[..|s| - 1] == NatToString(n / 10);
    }
  }

  /** Distinct numbers have distinct decimal text. */
  lemma NatToStringInjective(m: nat, n: nat)
    requires NatToString(m) == NatToString(n)
    ensures m == n
  {
    NatToStringValue(m);
    NatToStringValue(n);
  }

  /** `i.toString()` for an integer value. */
  function IntToString(i: int): (r: string)
    ensures r != []
  {
    if i < 0 then "-" + NatToString(-i) else NatToString(i)
  }

  /** The longest prefix of `s` made of decimal digits. */
  function DigitPrefix(s: string): (d: string)
    ensures AllDigits(d) && |d| <= |s| && d == s[..|d|]
    ensures |d| < |s| ==> !IsDigit(s[|d|])
  {
    if s != [] && IsDigit(s[0]) then [s[0]] + DigitPrefix(s[1..]) else []
  }

  lemma DigitPrefixAll(s: string)
    requires AllDigits(s)
    ensures DigitPrefix(s) == s
  {
    if s != [] {
      DigitPrefixAll(s[1..]);
    }
  }

  /**
   * `parseInt(s, 10)`, with `None` for NaN: leading whitespace is skipped, one optional sign
   * is read, then the longest run of decimal digits; no digits at all gives NaN. Trailing
   * text after the digits is ignored.
   */
  function ParseInt(s: string): Option<int> {
    var t := TrimStart(s);
    var negative := t != [] && t[0] == '-';
    var unsigned := if t != [] && (t[0] == '-' || t[0] == '+') then t[1..] else t;
    var digits := DigitPrefix(unsigned);
    if digits == [] then None
    else if negative then Some(0 - DigitsValue(digits))
    else Some(DigitsValue(digits))
  }

  /** `parseInt(String(i), 10) == i`: an integer survives being written out and read back. */
  lemma ParseIntToString(i: int)
    ensures ParseInt(IntToString(i)) == Some(i)
  {
    var s := IntToString(i);
    var digits := NatToString(if i < 0 then -i else i);
    assert !IsWhitespace(s[0]);
    assert TrimStart(s) == s;
    DigitPrefixAll(digits);
    NatToStringValue(if i < 0 then -i else i);
    if i < 0 {
      assert s[1..] == digits;
    }
  }

  /** A string with no digit after its optional sign is NaN to `parseInt`. */
  lemma ParseIntNoDigits(s: string)
    requires s != [] && !IsWhitespace(s[0]) && !IsDigit(s[0]) && s[0] != '-' && s[0] != '+'
    ensures ParseInt(s) == None
  {
  }
}
