/** The string operations the components call: `trim`, `toLowerCase`, `includes`,
    `split(c)` with `pop()`, and the default code-unit ordering of `sort()`. */
module Strings {

  /** The characters `String.prototype.trim` removes: ECMAScript WhiteSpace and
      LineTerminator. */
  predicate IsSpace(c: char) {
    || c == '\t' || c == '\n' || c == '\U{000B}' || c == '\U{000C}' || c == '\r'
    || c == ' ' || c == '\U{00A0}' || c == '\U{1680}' || ('\U{2000}' <= c <= '\U{200A}')
    || c == '\U{2028}' || c == '\U{2029}' || c == '\U{202F}' || c == '\U{205F}'
    || c == '\U{3000}' || c == '\U{FEFF}'
  }

  /** Every character is white space. */
  predicate AllSpace(s: string) {
    forall k :: 0 <= k < |s| ==> IsSpace(s[k])
  }

  /** Drops leading white space: the result is the suffix of `s` that starts at the
      first non-space character. */
  function TrimStart(s: string): (r: string)
    ensures |r| <= |s| && r == s[|s| - |r|..]
    ensures r == [] || !IsSpace(r[0])
    ensures AllSpace(s[..|s| - |r|])
  {
    if s != [] && IsSpace(s[0]) then
      var r := TrimStart(s[1..]);
      SpacePrefixExtend(s, r);
      r
    else s
  }

  /** Drops trailing white space: the result is the prefix of `s` that ends at the
      last non-space character. */
  function TrimEnd(s: string): (r: string)
    ensures |r| <= |s| && r == s[..|r|]
    ensures r == [] || !IsSpace(r[|r| - 1])
    ensures AllSpace(s[|r|..])
  {
    if s != [] && IsSpace(s[|s| - 1]) then
      var r := TrimEnd(s[..|s| - 1]);
      SpaceSuffixExtend(s, r);
      r
    else s
  }

  /** One more leading space: a suffix of `s[1..]` after white space is a suffix of `s`
      after white space. */
  lemma SpacePrefixExtend(s: string, r: string)
    requires s != [] && IsSpace(s[0])
    requires |r| <= |s| - 1 && r == s[1..][|s| - 1 - |r|..] && AllSpace(s[1..][..|s| - 1 - |r|])
    ensures r == s[|s| - |r|..] && AllSpace(s[..|s| - |r|])
  {
    assert s[..|s| - |r|] == [s[0]] + s[1..][..|s| - 1 - |r|];
  }

  /** One more trailing space: a prefix of the rest before white space is a prefix of
      `s` before white space. */
  lemma SpaceSuffixExtend(s: string, r: string)
    requires s != [] && IsSpace(s[|s| - 1])
    requires |r| <= |s| - 1 && r == s[..|s| - 1][..|r|] && AllSpace(s[..|s| - 1][|r|..])
    ensures r == s[..|r|] && AllSpace(s[|r|..])
  {
    assert s[|r|..] == s[..|s| - 1][|r|..] + [s[|s| - 1]];
  }

  /** `s.trim()` */
  function Trim(s: string): string {
    TrimEnd(TrimStart(s))
  }

  /** `r` is the piece of `s` at position `i`, and everything around it is white space. */
  predicate CutAt(s: string, r: string, i: int) {
    && 0 <= i && i + |r| <= |s| && r == s[i..i + |r|]
    && AllSpace(s[..i]) && AllSpace(s[i + |r|..])
  }

  /** `trim` cuts a contiguous piece out of `s`, and everything it cuts off is white
      space. */
  lemma TrimCut(s: string)
    ensures CutAt(s, Trim(s), |s| - |TrimStart(s)|)
  {
    var t := TrimStart(s);
    assert Trim(s) == TrimEnd(t);
    CutCompose(s, t, TrimEnd(t));
  }

  /** A white-space prefix cut off `s`, then a white-space suffix cut off the rest,
      leave a piece of `s` surrounded by white space. */
  lemma CutCompose(s: string, t: string, r: string)
    requires |t| <= |s| && t == s[|s| - |t|..] && AllSpace(s[..|s| - |t|])
    requires |r| <= |t| && r == t[..|r|] && AllSpace(t[|r|..])
    ensures CutAt(s, r, |s| - |t|)
  {
    var i := |s| - |t|;
    assert r == s[i..i + |r|];
    assert s[i + |r|..] == t[|r|..];
  }

  /** Neither the first nor the last character is white space. */
  predicate NoEdgeSpace(s: string) {
    s == [] || (!IsSpace(s[0]) && !IsSpace(s[|s| - 1]))
  }

  /** The piece `trim` keeps neither starts nor ends with white space. */
  lemma TrimEdges(s: string)
    ensures NoEdgeSpace(Trim(s))
  {
    var t := TrimStart(s);
    var r := TrimEnd(t);
    if r != [] {
      assert t != [] && r[0] == t[0];
    }
  }

  /** Trimming twice is trimming once. */
  lemma TrimIdempotent(s: string)
    ensures Trim(Trim(s)) == Trim(s)
  {
    TrimEdges(s);
    var r := Trim(s);
    if r != [] {
      assert TrimStart(r) == r;
      assert TrimEnd(r) == r;
    }
  }

  /** `toLowerCase` on one character; the ASCII letters are the ones mapped here. */
  function LowerChar(c: char): char {
    if 'A' <= c <= 'Z' then (c as int + 32) as char else c
  }

  /** `s.toLowerCase()` */
  function ToLower(s: string): (r: string)
    ensures |r| == |s|
    ensures forall k :: 0 <= k < |s| ==> r[k] == LowerChar(s[k])
  {
    seq(|s|, k requires 0 <= k < |s| => LowerChar(s[k]))
  }

  /** Lower-casing is idempotent and leaves no upper-case ASCII letter. */
  lemma ToLowerIdempotent(s: string)
    ensures ToLower(ToLower(s)) == ToLower(s)
    ensures forall k :: 0 <= k < |s| ==> !('A' <= ToLower(s)[k] <= 'Z')
  {
  }

  /** `needle` occurs in `hay` starting at position `i`. */
  predicate OccursAt(hay: string, needle: string, i: int) {
    0 <= i && i + |needle| <= |hay| && hay[i..i + |needle|] == needle
  }

  predicate StartsWith(s: string, prefix: string) {
    |prefix| <= |s| && s[..|prefix|] == prefix
  }

  /** `hay.includes(needle)`, by trying each start position in turn. */
  function Contains(hay: string, needle: string): bool {
    StartsWith(hay, needle) || (hay != [] && Contains(hay[1..], needle))
  }

  /** `includes` holds exactly when the needle occurs at some position. */
  lemma {:induction false} ContainsSpec(hay: string, needle: string)
    ensures Contains(hay, needle) <==> exists i :: OccursAt(hay, needle, i)
  {
    if StartsWith(hay, needle) {
      assert OccursAt(hay, needle, 0);
    } else if hay == [] {
    } else {
      ContainsSpec(hay[1..], needle);
      if exists i :: OccursAt(hay[1..], needle, i) {
        var i :| OccursAt(hay[1..], needle, i);
        assert hay[1..][i..i + |needle|] == hay[i + 1..i + 1 + |needle|];
        assert OccursAt(hay, needle, i + 1);
      }
      if exists i :: OccursAt(hay, needle, i) {
        var i :| OccursAt(hay, needle, i);
        assert i != 0;
        assert hay[1..][i - 1..i - 1 + |needle|] == hay[i..i + |needle|];
        assert OccursAt(hay[1..], needle, i - 1);
      }
    }
  }

  /** The empty string is included in every string. */
  lemma ContainsEmpty(hay: string)
    ensures Contains(hay, "")
  {
    assert StartsWith(hay, "");
  }

  /** Number of occurrences of `c` in `s`. */
  function Count(s: string, c: char): nat {
    if s == [] then 0 else (if s[0] == c then 1 else 0) + Count(s[1..], c)
  }

  /** `s.split(c)` for a one-character separator: the maximal pieces between the
      separators, in order. */
  function Split(s: string, c: char): (parts: seq<string>)
    ensures |parts| >= 1
  {
    if s == [] then [[]]
    else
      var rest := Split(s[1..], c);
      if s[0] == c then [[]] + rest
      else [[s[0]] + rest[0]] + rest[1..]
  }

  /** `parts.join(c)` */
  function Join(parts: seq<string>, c: char): string
    requires |parts| >= 1
  {
    if |parts| == 1 then parts[0] else parts[0] + [c] + Join(parts[1..], c)
  }

  /** `split` makes one piece more than there are separators, no piece holds the
      separator, and joining the pieces gives back the string. */
  lemma {:induction false} SplitSpec(s: string, c: char)
    ensures |Split(s, c)| == Count(s, c) + 1
    ensures forall k :: 0 <= k < |Split(s, c)| ==> c !in Split(s, c)[k]
    ensures Join(Split(s, c), c) == s
  {
    if s != [] {
      SplitSpec(s[1..], c);
      var rest := Split(s[1..], c);
      if s[0] == c {
        assert Split(s, c)[1..] == rest;
      } else {
        var parts := Split(s, c);
        assert parts[1..] == rest[1..];
        forall k | 0 <= k < |parts| ensures c !in parts[k] {
          if k > 0 { assert parts[k] == rest[k]; }
        }
        if |rest| > 1 {
          assert Join(rest, c) == rest[0] + [c] + Join(rest[1..], c);
        }
      }
    }
  }

  /** The longest suffix of `s` free of `c`: what follows the last separator. */
  function AfterLast(s: string, c: char): (r: string)
    ensures |r| <= |s| && r == s[|s| - |r|..] && c !in r
    ensures |r| < |s| ==> s[|s| - |r| - 1] == c
  {
    if s == [] || s[|s| - 1] == c then []
    else
      var r := AfterLast(s[..|s| - 1], c);
      SuffixExtend(s, r);
      r + [s[|s| - 1]]
  }

  /** A suffix of `s` without its last character, extended by that character, is a
      suffix of `s`. */
  lemma SuffixExtend<T>(s: seq<T>, r: seq<T>)
    requires s != [] && |r| <= |s| - 1 && r == s[..|s| - 1][|s| - 1 - |r|..]
    ensures r + [s[|s| - 1]] == s[|s| - |r| - 1..]
  {
  }

  /** `s.split(c).pop()` */
  function LastSegment(s: string, c: char): string {
    var parts := Split(s, c);
    parts[|parts| - 1]
  }

  /** `split` gives a single piece, the string itself, exactly when the separator does
      not occur. */
  lemma {:induction false} SplitSingle(s: string, c: char)
    ensures c !in s <==> |Split(s, c)| == 1
    ensures c !in s ==> Split(s, c) == [s]
  {
    if s != [] {
      SplitSingle(s[1..], c);
      assert s == [s[0]] + s[1..];
    }
  }

  /** Peeling the first character: the last piece is the whole string when no separator
      occurs, and otherwise the last piece of the rest. */
  lemma LastSegmentStep(s: string, c: char)
    requires s != []
    ensures LastSegment(s, c) == if c !in s then s else LastSegment(s[1..], c)
  {
    var parts, rest := Split(s, c), Split(s[1..], c);
    assert c in s <==> s[0] == c || c in s[1..] by {
      assert s == [s[0]] + s[1..];
    }
    SplitSingle(s[1..], c);
    if s[0] == c {
      assert parts == [[]] + rest;
      assert parts[|parts| - 1] == rest[|rest| - 1];
    } else if c !in s[1..] {
      assert parts == [[s[0]] + s[1..]];
      assert [s[0]] + s[1..] == s;
    } else {
      assert parts == [[s[0]] + rest[0]] + rest[1..];
      assert parts[|parts| - 1] == rest[|rest| - 1];
    }
  }

  /** A separator-free suffix that reaches back to a separator, or to the start, is
      the one `AfterLast` finds. */
  lemma AfterLastUnique(s: string, c: char, r: string)
    requires |r| <= |s| && r == s[|s| - |r|..] && c !in r
    requires |r| < |s| ==> s[|s| - |r| - 1] == c
    ensures r == AfterLast(s, c)
  {
  }

  /** The last piece of `split` is what follows the last separator (the whole string
      when there is none). */
  lemma {:induction false} LastSegmentIsAfterLast(s: string, c: char)
    ensures LastSegment(s, c) == AfterLast(s, c)
    ensures c !in s ==> LastSegment(s, c) == s
  {
    if s == [] {
      assert LastSegment(s, c) == [];
    } else {
      LastSegmentStep(s, c);
      if c !in s {
        AfterLastUnique(s, c, s);
      } else {
        LastSegmentIsAfterLast(s[1..], c);
        AfterLastDropFirst(s, c);
      }
    }
  }

  /** Dropping the first character does not change what follows the last separator,
      as long as a separator remains somewhere in the string. */
  lemma AfterLastDropFirst(s: string, c: char)
    requires s != [] && c in s
    ensures AfterLast(s, c) == AfterLast(s[1..], c)
  {
    var b := AfterLast(s[1..], c);
    SeparatorFreeSuffixShift(s, c, b);
    AfterLastUnique(s, c, b);
  }

  /** A separator-free suffix of `s[1..]` that reaches back to a separator there, or
      to its start, does the same in `s` when `s` holds a separator. */
  lemma SeparatorFreeSuffixShift(s: string, c: char, b: string)
    requires s != [] && c in s
    requires |b| <= |s| - 1 && b == s[1..][|s| - 1 - |b|..] && c !in b
    requires |b| < |s| - 1 ==> s[1..][|s| - 2 - |b|] == c
    ensures b == s[|s| - |b|..]
    ensures |b| < |s| ==> s[|s| - |b| - 1] == c
  {
    var t := s[1..];
    assert t[|t| - |b|..] == s[|s| - |b|..];
    if |b| == |t| {
      assert forall j | 1 <= j < |s| :: s[j] == t[j - 1];
    }
  }

  /** The strict ordering `Array.prototype.sort()` uses by default: lexicographic on
      characters, a proper prefix first. */
  predicate LexLess(a: string, b: string) {
    b != [] && (a == [] || a[0] < b[0] || (a[0] == b[0] && LexLess(a[1..], b[1..])))
  }

  lemma {:induction false} LexLessIrreflexive(a: string)
    ensures !LexLess(a, a)
  {
    if a != [] { LexLessIrreflexive(a[1..]); }
  }

  lemma {:induction false} LexLessTransitive(a: string, b: string, c: string)
    requires LexLess(a, b) && LexLess(b, c)
    ensures LexLess(a, c)
  {
    if a != [] && a[0] == b[0] && b[0] == c[0] {
      LexLessTransitive(a[1..], b[1..], c[1..]);
    }
  }

  lemma {:induction false} LexLessTotal(a: string, b: string)
    ensures a == b || LexLess(a, b) || LexLess(b, a)
  {
    if a != [] && b != [] && a[0] == b[0] {
      LexLessTotal(a[1..], b[1..]);
      if a[1..] == b[1..] {
        assert a == [a[0]] + a[1..] && b == [b[0]] + b[1..];
      }
    }
  }

  /** "Not after": the comparator that `sort()` uses, as a preorder. */
  function StringLe(): (string, string) -> bool {
    (a, b) => !LexLess(b, a)
  }

  /** The default string ordering is total and transitive, and two strings tied under
      it are equal. */
  lemma StringLeIsTotalOrder()
    ensures forall a, b :: StringLe()(a, b) || StringLe()(b, a)
    ensures forall a, b, c :: StringLe()(a, b) && StringLe()(b, c) ==> StringLe()(a, c)
    ensures forall a, b :: StringLe()(a, b) && StringLe()(b, a) ==> a == b
  {
    forall a, b ensures StringLe()(a, b) || StringLe()(b, a) {
      LexLessTotal(a, b);
      if LexLess(a, b) && LexLess(b, a) {
        LexLessTransitive(a, b, a);
        LexLessIrreflexive(a);
      }
    }
    forall a, b, c | StringLe()(a, b) && StringLe()(b, c) ensures StringLe()(a, c) {
      if LexLess(c, a) {
        LexLessTotal(a, b);
        LexLessTotal(b, c);
        if LexLess(a, b) { LexLessTransitive(c, a, b); }
        else if a == b {}
        else {}
        if LexLess(c, b) {} else if b == c {} else {}
      }
    }
    forall a, b | StringLe()(a, b) && StringLe()(b, a) ensures a == b {
      LexLessTotal(a, b);
    }
  }
}
