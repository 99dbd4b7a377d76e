/**
 * The pieces of Python's `str` and `sorted` that the bot uses, over `string` (= seq<char>):
 * `str.strip()`, `str.removeprefix()`, `str.split(sep)`, `sep.join(parts)`, substring
 * search, and the code-point lexicographic order that `sorted` applies to strings.
 */
module Text {

  /** `c.isspace()` in Python 3: the characters `str.strip()` with no argument removes. */
  predicate IsWhitespace(c: char) {
    c == ' ' || ('\t' <= c <= '\r') || ('\U{1C}' <= c <= '\U{1F}') || c == '\U{85}' ||
    c == '\U{A0}' || c == '\U{1680}' || ('\U{2000}' <= c <= '\U{200A}') ||
    c == '\U{2028}' || c == '\U{2029}' || c == '\U{202F}' || c == '\U{205F}' || c == '\U{3000}'
  }

  /** The number of whitespace characters at the start of `s`. */
  function LeadingSpace(s: string): (n: nat)
    ensures n <= |s|
    ensures forall i :: 0 <= i < n ==> IsWhitespace(s[i])
    ensures n < |s| ==> !IsWhitespace(s[n])
  {
    if s == [] || !IsWhitespace(s[0]) then 0 else 1 + LeadingSpace(s[1..])
  }

  /** The number of whitespace characters at the end of `s`. */
  function TrailingSpace(s: string): (n: nat)
    ensures n <= |s|
    ensures forall i :: |s| - n <= i < |s| ==> IsWhitespace(s[i])
    ensures n < |s| ==> !IsWhitespace(s[|s| - 1 - n])
  {
    if s == [] || !IsWhitespace(s[|s| - 1]) then 0 else 1 + TrailingSpace(s[..|s| - 1])
  }

  /** `s.strip()`: `s` without its leading and trailing whitespace. */
  function Strip(s: string): (r: string)
    ensures r == [] || (!IsWhitespace(r[0]) && !IsWhitespace(r[|r| - 1]))
    ensures forall c :: c in r ==> c in s
  {
    s[LeadingSpace(s)..StripEnd(s)]
  }

  /** Where `s.strip()` ends in `s`: before the trailing whitespace of what follows the leading. */
  function StripEnd(s: string): (e: nat)
    ensures LeadingSpace(s) <= e <= |s|
    ensures forall i :: e <= i < |s| ==> IsWhitespace(s[i])
    ensures e > LeadingSpace(s) ==> !IsWhitespace(s[e - 1])
  {
    var t := s[LeadingSpace(s)..];
    |s| - TrailingSpace(t)
  }

  /**
   * `s.strip()` is a slice of `s` outside of which there is only whitespace, and which neither
   * starts nor ends with whitespace: the longest such trimming.
   */
  lemma StripIsSlice(s: string)
    ensures exists a, b :: (0 <= a <= b <= |s| && Strip(s) == s[a..b] &&
      (forall i :: 0 <= i < a ==> IsWhitespace(s[i])) &&
      (forall i :: b <= i < |s| ==> IsWhitespace(s[i])))
  {
    var a, b := LeadingSpace(s), StripEnd(s);
    assert Strip(s) == s[a..b];
  }

  /** Every non-whitespace character of `s` lies inside the stripped slice. */
  lemma StripBounds(s: string, i: nat)
    requires i < |s| && !IsWhitespace(s[i])
    ensures LeadingSpace(s) <= i < StripEnd(s)
  {
  }

  /** Stripping twice is stripping once. */
  lemma StripIdempotent(s: string)
    ensures Strip(Strip(s)) == Strip(s)
  {
    var r := Strip(s);
    if r != [] {
      assert LeadingSpace(r) == 0;
      assert TrailingSpace(r) == 0;
    }
  }

  /** A text with no whitespace at its ends, followed by a blank line, strips back to itself. */
  lemma StripBlankLine(x: string)
    requires x != [] && !IsWhitespace(x[0]) && !IsWhitespace(x[|x| - 1])
    ensures Strip(x + "\n\n") == x
  {
    var s := x + "\n\n";
    assert s[..|s| - 1] == x + "\n";
    assert (x + "\n")[..|x|] == x;
    assert TrailingSpace(x) == 0;
    assert TrailingSpace(x + "\n") == 1;
    assert TrailingSpace(s) == 2;
    assert LeadingSpace(s) == 0;
  }

  /** `s.removeprefix(p)`. */
  function RemovePrefix(s: string, p: string): (r: string)
    ensures p <= s ==> s == p + r
    ensures !(p <= s) ==> r == s
  {
    if p <= s then s[|p|..] else s
  }

  /** `u` occurs in `s` as a contiguous substring (Python's `u in s`). */
  predicate IsInfix(u: string, s: string) {
    exists i :: 0 <= i <= |s| && u <= s[i..]
  }

  /** A slice that starts and ends on non-whitespace survives `strip()`. */
  lemma StripKeepsSlice(s: string, lo: nat, hi: nat)
    requires lo < hi <= |s| && !IsWhitespace(s[lo]) && !IsWhitespace(s[hi - 1])
    ensures IsInfix(s[lo..hi], Strip(s))
  {
    StripBounds(s, lo);
    StripBounds(s, hi - 1);
    var sa, se := LeadingSpace(s), StripEnd(s);
    var r := Strip(s);
    SliceOfSlice(s, sa, se, lo - sa, hi - sa);
    assert s[lo..hi] <= r[lo - sa..];
  }

  /**
   * Whatever surrounds `u`, stripping the whole keeps the stripped `u`: stripping only ever
   * removes whitespace at the two ends.
   */
  lemma StripKeepsCore(x: string, u: string, y: string)
    ensures IsInfix(Strip(u), Strip(x + u + y))
  {
    var core := Strip(u);
    var s := x + u + y;
    if core == [] {
      assert core <= Strip(s)[0..];
    } else {
      var a, e := LeadingSpace(u), StripEnd(u);
      var lo, hi := |x| + a, |x| + e;
      assert s[lo..hi] == core by {
        assert s[|x|..|x| + |u|] == u;
        SliceOfSlice(s, |x|, |x| + |u|, a, e);
      }
      StripKeepsSlice(s, lo, hi);
    }
  }

  lemma SliceOfSlice(s: string, a: nat, b: nat, c: nat, d: nat)
    requires a <= b <= |s| && c <= d <= b - a
    ensures s[a..b][c..d] == s[a + c..a + d]
  {
    assert forall k :: 0 <= k < d - c ==> s[a..b][c..d][k] == s[a + c + k];
  }

  /**
   * `s.split(c)`: the pieces of `s` between occurrences of `c`, in order; a string with `k`
   * occurrences of `c` has `k + 1` pieces, some of which may be empty.
   */
  function Split(s: string, c: char): (r: seq<string>)
    ensures |r| >= 1
    ensures forall i :: 0 <= i < |r| ==> c !in r[i]
  {
    if s == [] then [[]]
    else
      var p := Split(s[..|s| - 1], c);
      if s[|s| - 1] == c then p + [[]]
      else p[..|p| - 1] + [p[|p| - 1] + [s[|s| - 1]]]
  }

  /** `sep.join(parts)`. */
  function Join(parts: seq<string>, sep: string): string {
    if parts == [] then []
    else if |parts| == 1 then parts[0]
    else Join(parts[..|parts| - 1], sep) + sep + parts[|parts| - 1]
  }

  /** A join starts with the first part. */
  lemma {:induction false} JoinStarts(parts: seq<string>, sep: string)
    requires parts != []
    ensures parts[0] <= Join(parts, sep)
  {
    if |parts| > 1 {
      var init := parts[..|parts| - 1];
      JoinStarts(init, sep);
      assert Join(parts, sep) == Join(init, sep) + (sep + parts[|parts| - 1]);
    }
  }

  /** Splitting on `c` and joining with `c` gives back the original string. */
  lemma {:induction false} JoinSplit(s: string, c: char)
    ensures Join(Split(s, c), [c]) == s
  {
    if s != [] {
      var s' := s[..|s| - 1];
      var p := Split(s', c);
      JoinSplit(s', c);
      var r := Split(s, c);
      if s[|s| - 1] == c {
        assert r[..|r| - 1] == p;
      } else if |p| > 1 {
        assert r[..|r| - 1] == p[..|p| - 1];
      }
    }
  }

  /** `[p for p in parts if p]`: the non-empty pieces, in order. */
  function NonEmpty(parts: seq<string>): (r: seq<string>)
    ensures |r| <= |parts|
    ensures forall i :: 0 <= i < |r| ==> r[i] != [] && r[i] in parts
    ensures forall p :: p in parts && p != [] ==> p in r
  {
    if parts == [] then []
    else
      var r := NonEmpty(parts[..|parts| - 1]);
      if parts[|parts| - 1] != [] then r + [parts[|parts| - 1]] else r
  }

  /** Filtering distributes over appending one more piece. */
  lemma NonEmptyAppend(parts: seq<string>, p: string)
    ensures NonEmpty(parts + [p]) == NonEmpty(parts) + (if p != [] then [p] else [])
  {
    assert (parts + [p])[..|parts|] == parts;
  }

  /** `s` with every trailing `c` removed (`s.rstrip(c)`). */
  function TrimTrailing(s: string, c: char): (r: string)
    ensures r <= s
    ensures r == [] || r[|r| - 1] != c
  {
    if s != [] && s[|s| - 1] == c then TrimTrailing(s[..|s| - 1], c) else s
  }

  /** The part of `s` after its last `c` (all of `s` when `c` does not occur). */
  function AfterLast(s: string, c: char): (r: string)
    ensures c !in r
    ensures |r| <= |s| && r == s[|s| - |r|..]
  {
    if s == [] || s[|s| - 1] == c then []
    else AfterLast(s[..|s| - 1], c) + [s[|s| - 1]]
  }

  /** What follows a final `c` that is not itself followed by a `c`. */
  lemma {:induction false} AfterLastSuffix(x: string, y: string, c: char)
    requires x != [] && x[|x| - 1] == c && c !in y
    ensures AfterLast(x + y, c) == y
  {
    if y != [] {
      var y' := y[..|y| - 1];
      AfterLastSuffix(x, y', c);
      assert (x + y)[..|x + y| - 1] == x + y';
    } else {
      assert x + y == x;
    }
  }

  /** Every character of `s` is `c`. */
  predicate OnlyOf(s: string, c: char) {
    forall i :: 0 <= i < |s| ==> s[i] == c
  }

  /** The last piece of `s.split(c)` is what follows the last `c`. */
  lemma {:induction false} SplitLast(s: string, c: char)
    ensures Split(s, c)[|Split(s, c)| - 1] == AfterLast(s, c)
  {
    if s != [] && s[|s| - 1] != c {
      SplitLast(s[..|s| - 1], c);
    }
  }

  /** A string made only of separators splits into empty pieces only. */
  lemma {:induction false} SplitOnlySeparators(s: string, c: char)
    requires OnlyOf(s, c)
    ensures NonEmpty(Split(s, c)) == []
  {
    if s != [] {
      var s' := s[..|s| - 1];
      SplitOnlySeparators(s', c);
      var p := Split(s', c);
      var r := Split(s, c);
      assert r == p + [[]];
      assert r[..|r| - 1] == p;
    }
  }

  /**
   * When `s` holds a character other than `c`, the non-empty pieces of `s.split(c)` are not
   * empty, and the last of them is the text between the last `c` and the trailing run of `c`s.
   */
  lemma {:induction false} LastNonEmptyPiece(s: string, c: char)
    requires !OnlyOf(s, c)
    ensures NonEmpty(Split(s, c)) != []
    ensures NonEmpty(Split(s, c))[|NonEmpty(Split(s, c))| - 1] == AfterLast(TrimTrailing(s, c), c)
  {
    var s' := s[..|s| - 1];
    var p := Split(s', c);
    var r := Split(s, c);
    if s[|s| - 1] == c {
      assert !OnlyOf(s', c) by {
        var i :| 0 <= i < |s| && s[i] != c;
        assert s'[i] == s[i];
      }
      LastNonEmptyPiece(s', c);
      assert r == p + [[]];
      NonEmptyAppend(p, []);
      assert NonEmpty(r) == NonEmpty(p);
      assert TrimTrailing(s, c) == TrimTrailing(s', c);
    } else {
      SplitLast(s', c);
      var last := p[|p| - 1] + [s[|s| - 1]];
      assert r == p[..|p| - 1] + [last];
      NonEmptyAppend(p[..|p| - 1], last);
      assert NonEmpty(r) == NonEmpty(p[..|p| - 1]) + [last];
      assert TrimTrailing(s, c) == s;
      assert last == AfterLast(s, c);
    }
  }

  /** `a <= b` for Python strings: lexicographic by code point, a prefix first. */
  predicate LexLe(a: string, b: string) {
    a == [] || (b != [] && (a[0] < b[0] || (a[0] == b[0] && LexLe(a[1..], b[1..]))))
  }

  lemma {:induction false} LexLeReflexive(a: string)
    ensures LexLe(a, a)
  {
    if a != [] {
      LexLeReflexive(a[1..]);
    }
  }

  lemma {:induction false} LexLeTotal(a: string, b: string)
    ensures LexLe(a, b) || LexLe(b, a)
  {
    if a != [] && b != [] && a[0] == b[0] {
      LexLeTotal(a[1..], b[1..]);
    }
  }

  lemma {:induction false} LexLeAntisymmetric(a: string, b: string)
    requires LexLe(a, b) && LexLe(b, a)
    ensures a == b
  {
    if a != [] {
      LexLeAntisymmetric(a[1..], b[1..]);
      assert a == [a[0]] + a[1..] && b == [b[0]] + b[1..];
    }
  }

  lemma {:induction false} LexLeTransitive(a: string, b: string, c: string)
    requires LexLe(a, b) && LexLe(b, c)
    ensures LexLe(a, c)
  {
    if a != [] && a[0] == b[0] && b[0] == c[0] {
      LexLeTransitive(a[1..], b[1..], c[1..]);
    }
  }

  /** Ascending in Python's string order. */
  predicate Sorted(s: seq<string>) {
    forall i, j :: 0 <= i < j < |s| ==> LexLe(s[i], s[j])
  }

  /** Insert `x` into the sorted `s` before the first element not below it. */
  function Insert(x: string, s: seq<string>): (r: seq<string>)
    requires Sorted(s)
    ensures Sorted(r)
    ensures multiset(r) == multiset(s) + multiset{x}
  {
    if s == [] then [x]
    else if LexLe(x, s[0]) then
      assert forall j :: 0 <= j < |s| ==> LexLe(x, s[j]) by {
        forall j | 0 <= j < |s| ensures LexLe(x, s[j]) {
          if j > 0 { LexLeTransitive(x, s[0], s[j]); }
        }
      }
      [x] + s
    else
      var t := Insert(x, s[1..]);
      LexLeTotal(x, s[0]);
      assert forall j :: 0 <= j < |t| ==> LexLe(s[0], t[j]) by {
        forall j | 0 <= j < |t| ensures LexLe(s[0], t[j]) {
          assert t[j] in multiset(t);
          assert t[j] == x || t[j] in multiset(s[1..]);
          if t[j] != x {
            var k :| 0 <= k < |s[1..]| && s[1..][k] == t[j];
            assert s[k + 1] == t[j];
          }
        }
      }
      assert s == [s[0]] + s[1..];
      [s[0]] + t
  }

  /** `sorted(s)`, by insertion. */
  function Sort(s: seq<string>): (r: seq<string>)
    ensures Sorted(r)
    ensures multiset(r) == multiset(s)
  {
    if s == [] then []
    else
      assert s == [s[0]] + s[1..];
      Insert(s[0], Sort(s[1..]))
  }

  /** The head of a sorted sequence is below every one of its elements. */
  lemma SortedHeadLeast(a: seq<string>, x: string)
    requires Sorted(a) && x in multiset(a)
    ensures LexLe(a[0], x)
  {
    var j :| 0 <= j < |a| && a[j] == x;
    if j == 0 {
      LexLeReflexive(x);
    }
  }

  /** Removing the head removes one copy of it from the multiset. */
  lemma MultisetTail(a: seq<string>)
    requires a != []
    ensures multiset(a[1..]) == multiset(a) - multiset{a[0]}
  {
    assert a == [a[0]] + a[1..];
  }

  /**
   * Two sorted arrangements of the same strings are equal, so `Sort` agrees with Python's
   * `sorted` (or any other correct sort) element for element.
   */
  lemma {:induction false} SortedUnique(a: seq<string>, b: seq<string>)
    requires Sorted(a) && Sorted(b)
    requires multiset(a) == multiset(b)
    ensures a == b
  {
    if a != [] {
      assert a[0] in multiset(b) && b != [];
      SortedHeadLeast(a, b[0]);
      SortedHeadLeast(b, a[0]);
      LexLeAntisymmetric(a[0], b[0]);
      MultisetTail(a);
      MultisetTail(b);
      SortedUnique(a[1..], b[1..]);
    } else {
      assert |b| == |multiset(b)|;
    }
  }
}
