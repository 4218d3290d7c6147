/** Java string operations the core relies on: whitespace and blankness as
    `Character.isWhitespace`, `String.isBlank` and Spring's `StringUtils.hasText`
    define them, `String.replace` on literal targets, and joining / splitting on
    a separator character. */
module Text {
  import opened Wrappers

  /** `Character.isWhitespace`: the Unicode space, line and paragraph separators
      except the three non-breaking spaces, plus the controls U+0009..U+000D and
      U+001C..U+001F. */
  predicate IsWhitespace(c: char) {
    var n := c as int;
    (9 <= n <= 13) || (28 <= n <= 32) || n == 0x1680
    || (0x2000 <= n <= 0x2006) || (0x2008 <= n <= 0x200A)
    || n == 0x2028 || n == 0x2029 || n == 0x205F || n == 0x3000
  }

  /** `String.isBlank`: empty, or whitespace only. */
  predicate IsBlank(s: string) {
    forall i | 0 <= i < |s| :: IsWhitespace(s[i])
  }

  /** `StringUtils.hasText`: not null and holding some non-whitespace character. */
  predicate HasText(s: Option<string>) {
    s.Some? && !IsBlank(s.value)
  }

  /** `t` occurs in `s` starting at index `i`. */
  predicate OccursAt(s: string, t: string, i: int) {
    0 <= i && i + |t| <= |s| && s[i..i + |t|] == t
  }

  predicate Occurs(s: string, t: string) {
    exists i | 0 <= i <= |s| :: OccursAt(s, t, i)
  }

  /** `s.replace(t, v)`: scanning left to right, every non-overlapping occurrence
      of the literal `t` is replaced by `v`. */
  function Replace(s: string, t: string, v: string): string
    requires |t| > 0
    decreases |s|
  {
    if |s| < |t| then s
    else if s[..|t|] == t then v + Replace(s[|t|..], t, v)
    else [s[0]] + Replace(s[1..], t, v)
  }

  /** A string in which `t` does not occur is left as it is. */
  lemma {:induction false} ReplaceAbsent(s: string, t: string, v: string)
    requires |t| > 0
    requires !Occurs(s, t)
    ensures Replace(s, t, v) == s
    decreases |s|
  {
    if |s| < |t| {
    } else {
      assert !OccursAt(s, t, 0);
      assert s[..|t|] == s[0..0 + |t|];
      forall i | 0 <= i <= |s[1..]| ensures OccursAt(s[1..], t, i) ==> OccursAt(s, t, i + 1) {
        OccursShift(s, t, i);
      }
      ReplaceAbsent(s[1..], t, v);
    }
  }

  lemma OccursShift(s: string, t: string, i: int)
    requires |s| > 0
    ensures OccursAt(s[1..], t, i) ==> OccursAt(s, t, i + 1)
  {
    if OccursAt(s[1..], t, i) {
      assert s[1..][i..i + |t|] == s[i + 1..i + 1 + |t|];
    }
  }

  /** Replacing a target by itself changes nothing. */
  lemma {:induction false} ReplaceBySelf(s: string, t: string)
    requires |t| > 0
    ensures Replace(s, t, t) == s
    decreases |s|
  {
    if |s| < |t| {
    } else if s[..|t|] == t {
      ReplaceBySelf(s[|t|..], t);
      assert s == s[..|t|] + s[|t|..];
    } else {
      ReplaceBySelf(s[1..], t);
      assert s == [s[0]] + s[1..];
    }
  }

  /** `t`'s first character does not recur in it, so two occurrences of `t`
      can never overlap (a placeholder `<name>` with no `<` in `name` is one). */
  predicate NonOverlapping(t: string) {
    |t| > 0 && t[0] !in t[1..]
  }

  /** A prefix `a` in which no occurrence of `t` starts is copied unchanged. */
  lemma {:induction false} ReplacePrefix(a: string, r: string, t: string, v: string)
    requires |t| > 0
    requires forall i | 0 <= i < |a| :: !OccursAt(a + r, t, i)
    ensures Replace(a + r, t, v) == a + Replace(r, t, v)
    decreases |a|
  {
    var s := a + r;
    if a == [] {
      assert s == r;
    } else if |s| < |t| {
      assert Replace(r, t, v) == r;
    } else {
      assert !OccursAt(s, t, 0);
      assert s[..|t|] == s[0..0 + |t|];
      assert Replace(s, t, v) == [s[0]] + Replace(s[1..], t, v);
      assert s[1..] == a[1..] + r;
      forall i | 0 <= i < |a[1..]| ensures !OccursAt(a[1..] + r, t, i) {
        OccursShift(s, t, i);
      }
      ReplacePrefix(a[1..], r, t, v);
      assert a == [a[0]] + a[1..];
    }
  }

  /** The first occurrence of `t` is replaced, then scanning resumes after it:
      when no occurrence starts inside `a`, `a` is kept, the `t` after it
      becomes `v`, and the rest is replaced in turn. */
  lemma ReplaceFirst(a: string, t: string, b: string, v: string)
    requires |t| > 0
    requires forall i | 0 <= i < |a| :: !OccursAt(a + t + b, t, i)
    ensures Replace(a + t + b, t, v) == a + v + Replace(b, t, v)
  {
    assert a + t + b == a + (t + b);
    ReplacePrefix(a, t + b, t, v);
    assert (t + b)[..|t|] == t;
    assert (t + b)[|t|..] == b;
  }

  /** No occurrence of `t` starts inside `a` when `t` is absent from `a` and
      cannot overlap itself: one that straddled into the `t` after `a` would
      meet `t`'s first character again inside `t`. */
  lemma NoEarlyOccurrence(a: string, t: string, b: string)
    requires NonOverlapping(t)
    requires !Occurs(a, t)
    ensures forall i | 0 <= i < |a| :: !OccursAt(a + t + b, t, i)
  {
    var s := a + t + b;
    forall i | 0 <= i < |a| && i + |t| <= |s| ensures !OccursAt(s, t, i) {
      if i + |t| <= |a| {
        assert s[i..i + |t|] == a[i..i + |t|];
        assert !OccursAt(a, t, i);
      } else {
        var k := |a| - i;
        assert 1 <= k < |t|;
        assert s[i..i + |t|][k] == s[|a|] == t[0];
        assert t[k] == t[1..][k - 1];
        assert t[k] != t[0];
      }
    }
  }

  /** No occurrence of `t` starts inside `a` when `a` lacks `t`'s first character. */
  lemma LeadAbsentNoEarly(a: string, t: string, b: string)
    requires |t| > 0
    requires t[0] !in a
    ensures forall i | 0 <= i < |a| :: !OccursAt(a + t + b, t, i)
  {
    forall i | 0 <= i < |a| && i + |t| <= |a + t + b| ensures !OccursAt(a + t + b, t, i) {
      assert (a + t + b)[i..i + |t|][0] == a[i];
    }
  }

  /** The pieces with the string `sep` between neighbours. */
  function Intercalate(xs: seq<string>, sep: string): string
    decreases |xs|
  {
    if |xs| == 0 then ""
    else if |xs| == 1 then xs[0]
    else xs[0] + sep + Intercalate(xs[1..], sep)
  }

  /** Every occurrence of a target that cannot overlap itself is replaced: a
      text made of pieces in which `t` does not occur, separated by `t`,
      becomes the same pieces separated by `v`. */
  lemma {:induction false} ReplaceEvery(xs: seq<string>, t: string, v: string)
    requires NonOverlapping(t) && |xs| >= 1
    requires forall i | 0 <= i < |xs| :: !Occurs(xs[i], t)
    ensures Replace(Intercalate(xs, t), t, v) == Intercalate(xs, v)
    decreases |xs|
  {
    if |xs| == 1 {
      ReplaceAbsent(xs[0], t, v);
    } else {
      NoEarlyOccurrence(xs[0], t, Intercalate(xs[1..], t));
      ReplaceFirst(xs[0], t, Intercalate(xs[1..], t), v);
      ReplaceEvery(xs[1..], t, v);
    }
  }

  /** A target that starts with a character absent from `s` cannot occur in `s`. */
  lemma LeadAbsentNoOccurrence(s: string, t: string)
    requires |t| > 0
    requires t[0] !in s
    ensures !Occurs(s, t)
  {
    forall i | 0 <= i <= |s| && i + |t| <= |s|
      ensures !OccursAt(s, t, i)
    {
      assert s[i..i + |t|][0] == s[i];
    }
  }

  /** `Collectors.joining(sep)`: the pieces with `sep` between neighbours. */
  function Join(xs: seq<string>, sep: char): string
    decreases |xs|
  {
    if |xs| == 0 then ""
    else if |xs| == 1 then xs[0]
    else xs[0] + [sep] + Join(xs[1..], sep)
  }

  /** Splits `s` at every `sep`: n separators give n + 1 pieces. */
  function Split(s: string, sep: char): (r: seq<string>)
    ensures |r| >= 1
    decreases |s|
  {
    if s == [] then [[]]
    else if s[0] == sep then [[]] + Split(s[1..], sep)
    else
      var rest := Split(s[1..], sep);
      [[s[0]] + rest[0]] + rest[1..]
  }

  /** Number of occurrences of the character `c` in `s`. */
  function Count(s: string, c: char): nat
    decreases |s|
  {
    if s == [] then 0
    else (if s[0] == c then 1 else 0) + Count(s[1..], c)
  }

  lemma {:induction false} CountAppend(a: string, b: string, c: char)
    ensures Count(a + b, c) == Count(a, c) + Count(b, c)
    decreases |a|
  {
    if a == [] {
      assert a + b == b;
    } else {
      assert (a + b)[1..] == a[1..] + b;
      CountAppend(a[1..], b, c);
    }
  }

  lemma {:induction false} CountAbsent(s: string, c: char)
    requires c !in s
    ensures Count(s, c) == 0
    decreases |s|
  {
    if s != [] {
      assert s[0] in s;
      assert forall x | x in s[1..] :: x in s;
      CountAbsent(s[1..], c);
    }
  }

  /** A separator that occurs in none of the pieces shows up exactly once between
      each pair of neighbours: n pieces give n - 1 separators. */
  lemma {:induction false} JoinCount(xs: seq<string>, sep: char)
    requires |xs| >= 1
    requires forall i | 0 <= i < |xs| :: sep !in xs[i]
    ensures Count(Join(xs, sep), sep) == |xs| - 1
    decreases |xs|
  {
    if |xs| == 1 {
      CountAbsent(xs[0], sep);
    } else {
      JoinCount(xs[1..], sep);
      CountAppend(xs[0] + [sep], Join(xs[1..], sep), sep);
      CountAppend(xs[0], [sep], sep);
      CountAbsent(xs[0], sep);
      assert Count([sep], sep) == 1 + Count([sep][1..], sep);
    }
  }

  /** Splitting a piece free of `sep` that is followed by `sep` yields that piece
      and then the split of the remainder. */
  lemma {:induction false} SplitAfterPiece(x: string, rest: string, sep: char)
    requires sep !in x
    ensures Split(x + [sep] + rest, sep) == [x] + Split(rest, sep)
    decreases |x|
  {
    if x == [] {
      assert x + [sep] + rest == [sep] + rest;
      assert ([sep] + rest)[1..] == rest;
    } else {
      var s := x + [sep] + rest;
      assert s[0] == x[0];
      assert s[1..] == x[1..] + [sep] + rest;
      assert forall c | c in x[1..] :: c in x;
      SplitAfterPiece(x[1..], rest, sep);
      assert x == [x[0]] + x[1..];
    }
  }

  lemma {:induction false} SplitFree(x: string, sep: char)
    requires sep !in x
    ensures Split(x, sep) == [x]
    decreases |x|
  {
    if x != [] {
      assert forall c | c in x[1..] :: c in x;
      SplitFree(x[1..], sep);
      assert x == [x[0]] + x[1..];
    }
  }

  /** Splitting undoes joining when no piece contains the separator. */
  lemma {:induction false} SplitJoin(xs: seq<string>, sep: char)
    requires |xs| >= 1
    requires forall i | 0 <= i < |xs| :: sep !in xs[i]
    ensures Split(Join(xs, sep), sep) == xs
    decreases |xs|
  {
    if |xs| == 1 {
      SplitFree(xs[0], sep);
    } else {
      SplitJoin(xs[1..], sep);
      SplitAfterPiece(xs[0], Join(xs[1..], sep), sep);
      assert xs == [xs[0]] + xs[1..];
    }
  }

  /** Cuts `s` at the first `c`: the text before it and the text after it. */
  function CutFirst(s: string, c: char): (r: Option<(string, string)>)
    ensures r.Some? ==> s == r.value.0 + [c] + r.value.1 && c !in r.value.0
    ensures r.None? <==> c !in s
    decreases |s|
  {
    if s == [] then None
    else if s[0] == c then Some(([], s[1..]))
    else
      match CutFirst(s[1..], c)
      case None => None
      case Some(p) => Some(([s[0]] + p.0, p.1))
  }

  /** Cuts `s` at the last `c`: the text before it and the text after it. */
  function CutLast(s: string, c: char): (r: Option<(string, string)>)
    ensures r.Some? ==> s == r.value.0 + [c] + r.value.1 && c !in r.value.1
    ensures r.None? <==> c !in s
    decreases |s|
  {
    if s == [] then None
    else if s[|s| - 1] == c then Some((s[..|s| - 1], []))
    else
      match CutLast(s[..|s| - 1], c)
      case None => None
      case Some(p) => Some((p.0, p.1 + [s[|s| - 1]]))
  }

  /** A decomposition with `c` absent from the left (right) part is the one the
      first (last) cut finds. */
  lemma {:induction false} CutFirstUnique(a: string, b: string, c: char)
    requires c !in a
    ensures CutFirst(a + [c] + b, c) == Some((a, b))
    decreases |a|
  {
    var s := a + [c] + b;
    if a == [] {
      assert s == [c] + b;
      assert s[1..] == b;
    } else {
      assert s[0] == a[0];
      assert s[1..] == a[1..] + [c] + b;
      assert forall x | x in a[1..] :: x in a;
      CutFirstUnique(a[1..], b, c);
      assert a == [a[0]] + a[1..];
    }
  }

  lemma {:induction false} CutLastUnique(a: string, b: string, c: char)
    requires c !in b
    ensures CutLast(a + [c] + b, c) == Some((a, b))
    decreases |b|
  {
    var s := a + [c] + b;
    if b == [] {
      assert s[..|s| - 1] == a;
    } else {
      var n := |b| - 1;
      assert s[|s| - 1] == b[n];
      assert s[..|s| - 1] == a + [c] + b[..n];
      assert forall x | x in b[..n] :: x in b;
      CutLastUnique(a, b[..n], c);
      assert b == b[..n] + [b[n]];
    }
  }
}
