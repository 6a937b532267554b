/** The string and collection primitives the parser relies on: substring
    search (`str::contains`, `str::find`), splitting at a separator
    (`str::split`) and its last piece, and `Iterator::filter` on sequences.
    Strings are sequences of ASCII characters, so byte and character
    offsets coincide. */
module Strings {
  import opened Wrappers

  /** `t` occurs in `s` starting at offset `i`. */
  predicate OccursAt(s: string, t: string, i: int) {
    0 <= i && i + |t| <= |s| && s[i..i + |t|] == t
  }

  /** `s.contains(t)` */
  predicate Contains(s: string, t: string) {
    exists i | 0 <= i <= |s| - |t| :: OccursAt(s, t, i)
  }

  /** No occurrence of `t` in `s` starts before offset `k`. */
  predicate NoOccurrenceBefore(s: string, t: string, k: int) {
    forall j :: 0 <= j < k ==> !OccursAt(s, t, j)
  }

  /** The first occurrence of `t` in `s` at or after offset `k`. */
  function FindFrom(s: string, t: string, k: nat): (r: Option<nat>)
    decreases |s| - k
    ensures r.Some? ==> k <= r.value && OccursAt(s, t, r.value)
    ensures r.Some? ==> forall j :: k <= j < r.value ==> !OccursAt(s, t, j)
    ensures r.None? ==> forall j :: k <= j ==> !OccursAt(s, t, j)
  {
    if k + |t| > |s| then None
    else if s[k..k + |t|] == t then Some(k)
    else FindFrom(s, t, k + 1)
  }

  /** An occurrence of an occurrence is an occurrence: whatever contains
      `t` contains every piece of `t`. */
  lemma ContainsTransitive(s: string, t: string, u: string)
    requires Contains(s, t) && Contains(t, u)
    ensures Contains(s, u)
  {
    var i :| 0 <= i <= |s| - |t| && OccursAt(s, t, i);
    var j :| 0 <= j <= |t| - |u| && OccursAt(t, u, j);
    forall k | 0 <= k < |u|
      ensures s[i + j..i + j + |u|][k] == u[k]
    {
      assert s[i..i + |t|][j + k] == s[i + j + k];
      assert t[j..j + |u|][k] == t[j + k];
    }
    assert OccursAt(s, u, i + j);
  }

  /** `s.find(t)`: the offset of the first occurrence of `t`, if any. */
  function Find(s: string, t: string): (r: Option<nat>)
    ensures r.Some? <==> Contains(s, t)
    ensures r.Some? ==> OccursAt(s, t, r.value) && NoOccurrenceBefore(s, t, r.value)
  {
    FindFrom(s, t, 0)
  }

  /** `s.split(sep).last()`: the text after the last `sep`, or all of `s`
      when `sep` does not occur. The iterator always yields at least one
      piece, so the source's `unwrap()` on it cannot fail. */
  function LastSegment(s: string, sep: char): (r: string)
    ensures |r| <= |s| && r == s[|s| - |r|..]
    ensures sep !in r
    ensures |r| < |s| ==> s[|s| - |r| - 1] == sep
  {
    if s == [] then []
    else if s[|s| - 1] == sep then []
    else LastSegment(s[..|s| - 1], sep) + [s[|s| - 1]]
  }

  /** Without `sep`, the last piece is the whole text. */
  lemma {:induction false} LastSegmentWithoutSep(s: string, sep: char)
    requires sep !in s
    ensures LastSegment(s, sep) == s
  {
    if s != [] {
      assert s[|s| - 1] in s;
      assert s == s[..|s| - 1] + [s[|s| - 1]];
      LastSegmentWithoutSep(s[..|s| - 1], sep);
    }
  }

  /** The last piece is what follows the last `sep`. */
  lemma {:induction false} LastSegmentAfterSep(p: string, sep: char, s: string)
    requires sep !in s
    ensures LastSegment(p + [sep] + s, sep) == s
  {
    var whole := p + [sep] + s;
    if s == [] {
      assert whole == p + [sep];
    } else {
      assert whole[..|whole| - 1] == p + [sep] + s[..|s| - 1];
      assert s[|s| - 1] in s;
      assert s == s[..|s| - 1] + [s[|s| - 1]];
      LastSegmentAfterSep(p, sep, s[..|s| - 1]);
    }
  }

  /** `s.split(sep)`, collected: the pieces between the occurrences of
      `sep`, always at least one, none containing `sep`. */
  function Split(s: string, sep: char): (r: seq<string>)
    ensures |r| >= 1
    ensures forall k :: 0 <= k < |r| ==> sep !in r[k]
  {
    if s == [] then [[]]
    else
      var parts := Split(s[..|s| - 1], sep);
      var c := s[|s| - 1];
      if c == sep then parts + [[]]
      else parts[..|parts| - 1] + [parts[|parts| - 1] + [c]]
  }

  /** The pieces glued back together with `sep` between them. */
  function Join(parts: seq<string>, sep: char): string
    requires |parts| >= 1
  {
    if |parts| == 1 then parts[0]
    else Join(parts[..|parts| - 1], sep) + [sep] + parts[|parts| - 1]
  }

  /** Splitting loses nothing: joining the pieces gives back the text. */
  lemma {:induction false} JoinSplit(s: string, sep: char)
    ensures Join(Split(s, sep), sep) == s
  {
    if s != [] {
      var init := s[..|s| - 1];
      var parts := Split(init, sep);
      var c := s[|s| - 1];
      JoinSplit(init, sep);
      if c == sep {
        assert (parts + [[]])[..|parts|] == parts;
      } else {
        var r := parts[..|parts| - 1] + [parts[|parts| - 1] + [c]];
        if |parts| == 1 {
          assert Join(r, sep) == parts[0] + [c];
        } else {
          assert r[..|r| - 1] == parts[..|parts| - 1];
          assert Join(r, sep) == Join(parts[..|parts| - 1], sep) + [sep] + parts[|parts| - 1] + [c];
        }
      }
      assert s == init + [c];
    }
  }

  lemma JoinSnoc(parts: seq<string>, sep: char, p: string)
    requires |parts| >= 1
    ensures Join(parts + [p], sep) == Join(parts, sep) + [sep] + p
  {
    assert (parts + [p])[..|parts|] == parts;
  }

  /** One more step of `Split`: the text grown by one character. */
  lemma SplitSnoc(s: string, sep: char, c: char)
    ensures var parts := Split(s, sep);
      Split(s + [c], sep) ==
        if c == sep then parts + [[]]
        else parts[..|parts| - 1] + [parts[|parts| - 1] + [c]]
  {
    assert (s + [c])[..|s|] == s;
  }

  /** A text free of `sep` splits into itself alone. */
  lemma {:induction false} SplitWithoutSep(p: string, sep: char)
    requires sep !in p
    ensures Split(p, sep) == [p]
  {
    if p != [] {
      var q := p[..|p| - 1];
      assert p[|p| - 1] in p;
      assert forall x :: x in q ==> x in p;
      SplitWithoutSep(q, sep);
      SplitSnoc(q, sep, p[|p| - 1]);
      assert p == q + [p[|p| - 1]];
    }
  }

  /** Joining one more piece free of `sep` adds exactly that piece to the
      split. */
  lemma {:induction false} SplitJoinPiece(init: seq<string>, sep: char, p: string)
    requires |init| >= 1 && Split(Join(init, sep), sep) == init
    requires sep !in p
    ensures Split(Join(init + [p], sep), sep) == init + [p]
  {
    hide Split;
    JoinSnoc(init, sep, p);
    if p == [] {
      assert Join(init, sep) + [sep] + [] == Join(init, sep) + [sep];
      SplitSnoc(Join(init, sep), sep, sep);
    } else {
      var q := p[..|p| - 1];
      var c := p[|p| - 1];
      assert c in p;
      assert forall x :: x in q ==> x in p;
      SplitJoinPiece(init, sep, q);
      JoinSnoc(init, sep, q);
      assert p == q + [c];
      assert Join(init + [p], sep) == Join(init + [q], sep) + [c];
      SplitSnoc(Join(init + [q], sep), sep, c);
      assert (init + [q])[..|init|] == init;
    }
  }

  /** Splitting is the inverse of joining pieces free of `sep`. */
  lemma {:induction false} SplitJoin(parts: seq<string>, sep: char)
    requires |parts| >= 1
    requires forall k :: 0 <= k < |parts| ==> sep !in parts[k]
    ensures Split(Join(parts, sep), sep) == parts
  {
    if |parts| == 1 {
      assert Join(parts, sep) == parts[0];
      hide Split, Join;
      SplitWithoutSep(parts[0], sep);
      assert parts == [parts[0]];
    } else {
      hide Split, Join;
      var init := parts[..|parts| - 1];
      forall k | 0 <= k < |init|
        ensures sep !in init[k]
      {
        assert init[k] == parts[k];
      }
      SplitJoin(init, sep);
      SplitJoinPiece(init, sep, parts[|parts| - 1]);
      assert parts == init + [parts[|parts| - 1]];
    }
  }

  /** `xs.into_iter().filter(keep)`, collected: the elements of `xs` that
      satisfy `keep`, in their original order. */
  function Filter<T(!new)>(xs: seq<T>, keep: T -> bool): (r: seq<T>)
    ensures |r| <= |xs|
    ensures forall x :: x in r <==> x in xs && keep(x)
  {
    if xs == [] then []
    else Filter(xs[..|xs| - 1], keep) + (if keep(xs[|xs| - 1]) then [xs[|xs| - 1]] else [])
  }

  /** Nothing is kept when no element satisfies `keep`. */
  lemma {:induction false} FilterNone<T(!new)>(xs: seq<T>, keep: T -> bool)
    requires forall x :: x in xs ==> !keep(x)
    ensures Filter(xs, keep) == []
  {
    if xs != [] {
      assert xs[|xs| - 1] in xs;
      assert forall x :: x in xs[..|xs| - 1] ==> x in xs;
      FilterNone(xs[..|xs| - 1], keep);
    }
  }

  /** One more element: it is kept or not. */
  lemma FilterSnoc<T(!new)>(xs: seq<T>, i: nat, keep: T -> bool)
    requires i < |xs|
    ensures Filter(xs[..i + 1], keep) == Filter(xs[..i], keep) + (if keep(xs[i]) then [xs[i]] else [])
  {
    assert xs[..i + 1][..i] == xs[..i];
  }

  /** Filtering commutes with concatenation: the kept elements of `a`
      come first, in order, then those of `b`. */
  lemma {:induction false} FilterAppend<T(!new)>(a: seq<T>, b: seq<T>, keep: T -> bool)
    ensures Filter(a + b, keep) == Filter(a, keep) + Filter(b, keep)
    decreases |b|
  {
    if b == [] {
      assert a + b == a;
    } else {
      var b' := b[..|b| - 1];
      assert (a + b)[..|a + b| - 1] == a + b';
      FilterAppend(a, b', keep);
    }
  }
}
