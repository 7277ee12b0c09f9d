/**
 * Character classes and the string primitives the parsers are built from:
 * Python's str.strip(), str.split(), str.split(c), sep.join(parts), str.lower()
 * and str.find(), and the leftmost-match discipline of re.search.
 */
module Text {
  import opened Wrappers

  /**
   * Python's str.isspace(), which is also what str.split(), str.strip() and the
   * regex class \s use: \t \n \v \f \r, \x1c-\x1f, space, \x85, the no-break
   * space \xa0, and the Unicode spaces and separators U+1680, U+2000-U+200A,
   * U+2028, U+2029, U+202F, U+205F and U+3000.
   */
  predicate IsSpace(c: char) {
    c == ' ' || ('\t' <= c <= '\r') || ('\U{1C}' <= c <= '\U{1F}')
    || c == '\U{85}' || c == '\U{A0}' || c == '\U{1680}' || ('\U{2000}' <= c <= '\U{200A}')
    || c == '\U{2028}' || c == '\U{2029}' || c == '\U{202F}' || c == '\U{205F}' || c == '\U{3000}'
  }

  predicate NotSpace(c: char) { !IsSpace(c) }

  /** The regex class \d, on ASCII digits. */
  predicate IsDigit(c: char) { '0' <= c <= '9' }

  /** The regex class [A-Z]. */
  predicate IsUpper(c: char) { 'A' <= c <= 'Z' }

  predicate IsBlank(s: string) { forall i :: 0 <= i < |s| ==> IsSpace(s[i]) }

  /** A token of str.split(): non-empty and free of whitespace. */
  predicate IsWord(w: string) { w != [] && forall i :: 0 <= i < |w| ==> !IsSpace(w[i]) }

  /** The end of the longest run of characters satisfying p that starts at i. */
  function RunEnd(s: string, i: nat, p: char -> bool): (j: nat)
    requires i <= |s|
    ensures i <= j <= |s|
    ensures forall k :: i <= k < j ==> p(s[k])
    ensures j < |s| ==> !p(s[j])
    decreases |s| - i
  {
    if i < |s| && p(s[i]) then RunEnd(s, i + 1, p) else i
  }

  /** A run is determined by where it starts: any maximal run from i ends where RunEnd says. */
  lemma RunEndIs(s: string, i: nat, p: char -> bool, e: nat)
    requires i <= e <= |s|
    requires forall k :: i <= k < e ==> p(s[k])
    requires e < |s| ==> !p(s[e])
    ensures RunEnd(s, i, p) == e
  {
    var j := RunEnd(s, i, p);
    assert j >= e;
    assert j <= e;
  }

  /** The start of the longest run of characters satisfying p that ends at j, not before lo. */
  function RunStart(s: string, lo: nat, j: nat, p: char -> bool): (k: nat)
    requires lo <= j <= |s|
    ensures lo <= k <= j
    ensures forall m :: k <= m < j ==> p(s[m])
    ensures lo < k ==> !p(s[k - 1])
    decreases j - lo
  {
    if lo < j && p(s[j - 1]) then RunStart(s, lo, j - 1, p) else j
  }

  /** Python's str.strip(): drop leading and trailing whitespace. */
  function Strip(s: string): (r: string)
    ensures |r| <= |s|
    ensures r == [] <==> IsBlank(s)
    ensures r != [] ==> !IsSpace(r[0]) && !IsSpace(r[|r| - 1])
  {
    var i := RunEnd(s, 0, IsSpace);
    s[i..RunStart(s, i, |s|, IsSpace)]
  }

  /** Python's str.split() with no argument: the maximal runs of non-whitespace. */
  function Tokens(s: string): (r: seq<string>)
    ensures forall k :: 0 <= k < |r| ==> IsWord(r[k])
    decreases |s|
  {
    if s == [] then []
    else if IsSpace(s[0]) then Tokens(s[1..])
    else
      var n := RunEnd(s, 0, NotSpace);
      [s[..n]] + Tokens(s[n..])
  }

  /** Python's sep.join(parts). */
  function Join(parts: seq<string>, sep: string): string
    decreases |parts|
  {
    if |parts| == 0 then []
    else if |parts| == 1 then parts[0]
    else parts[0] + sep + Join(parts[1..], sep)
  }

  /** Joining puts the separator between the first part and the join of the rest. */
  lemma JoinCons(w: string, ws: seq<string>, sep: string)
    requires |ws| >= 1
    ensures Join([w] + ws, sep) == w + sep + Join(ws, sep)
  {
    assert ([w] + ws)[1..] == ws;
  }

  /** Python's s.split(c) for a one-character separator c. */
  function Split(s: string, c: char): (r: seq<string>)
    ensures |r| >= 1
    ensures forall k :: 0 <= k < |r| ==> c !in r[k]
    decreases |s|
  {
    var i := SeparatorIndex(s, c);
    if i == |s| then [s] else [s[..i]] + Split(s[i + 1..], c)
  }

  /** The index of the first c in s, or |s| when there is none. */
  function SeparatorIndex(s: string, c: char): (i: nat)
    ensures i <= |s| && c !in s[..i]
    ensures i < |s| ==> s[i] == c
  {
    var i := RunEnd(s, 0, d => d != c);
    assert forall k :: 0 <= k < i ==> s[..i][k] == s[k];
    i
  }

  /** Python's s.replace(c, '') for a one-character c. */
  function RemoveChar(s: string, c: char): (r: string)
    ensures c !in r
    ensures c !in s ==> r == s
    decreases |s|
  {
    if s == [] then [] else (if s[0] == c then [] else [s[0]]) + RemoveChar(s[1..], c)
  }

  function LowerChar(c: char): char {
    if IsUpper(c) then (c as int + 32) as char else c
  }

  /** Python's str.lower(), on ASCII letters. */
  function Lower(s: string): (r: string)
    ensures |r| == |s|
    ensures forall i :: 0 <= i < |s| ==> r[i] == LowerChar(s[i])
  {
    seq(|s|, i requires 0 <= i < |s| => LowerChar(s[i]))
  }

  predicate LiteralAt(s: string, p: nat, lit: string) {
    p + |lit| <= |s| && s[p..p + |lit|] == lit
  }

  /** A literal can only occur where its first character does. */
  lemma LiteralAtHead(s: string, p: nat, lit: string)
    requires |lit| > 0
    ensures LiteralAt(s, p, lit) ==> p < |s| && s[p] == lit[0]
  {
    if p + |lit| <= |s| {
      assert s[p..p + |lit|][0] == s[p];
    }
  }

  /** Python's s.startswith(prefix). */
  predicate StartsWith(s: string, prefix: string) { LiteralAt(s, 0, prefix) }

  /** A regex match: where it starts and what its group captured. */
  datatype Match = Match(pos: nat, capture: string)

  /**
   * re.search: try the pattern `at` at every position from `from` up to |s|
   * (both included) and report the first position where it matches.
   */
  function Search(s: string, at: (string, nat) -> Option<string>, from: nat): (r: Option<Match>)
    ensures r.Some? ==> from <= r.value.pos <= |s| && at(s, r.value.pos) == Some(r.value.capture)
    ensures r.Some? ==> forall q :: from <= q < r.value.pos ==> at(s, q).None?
    ensures r.None? ==> forall q :: from <= q <= |s| ==> at(s, q).None?
    decreases |s| + 1 - from
  {
    if from > |s| then None
    else if at(s, from).Some? then Some(Match(from, at(s, from).value))
    else Search(s, at, from + 1)
  }

  /** p is the leftmost position where the pattern matches, and it captures c there. */
  predicate LeftmostMatch(s: string, at: (string, nat) -> Option<string>, p: nat, c: string) {
    p <= |s| && at(s, p) == Some(c) && forall q :: 0 <= q < p ==> at(s, q).None?
  }

  predicate MatchesNowhere(s: string, at: (string, nat) -> Option<string>) {
    forall q :: 0 <= q <= |s| ==> at(s, q).None?
  }

  /**
   * "Try pattern A, else pattern B": the capture of the leftmost match of
   * `first`; if it matches nowhere, that of `second`; if neither matches, empty.
   */
  function CaptureWithFallback(s: string, first: (string, nat) -> Option<string>, second: (string, nat) -> Option<string>): (r: string)
    ensures !MatchesNowhere(s, first) ==> exists p :: LeftmostMatch(s, first, p, r)
    ensures MatchesNowhere(s, first) && !MatchesNowhere(s, second) ==> exists p :: LeftmostMatch(s, second, p, r)
    ensures MatchesNowhere(s, first) && MatchesNowhere(s, second) ==> r == []
  {
    var m := Search(s, first, 0);
    if m.Some? then
      assert LeftmostMatch(s, first, m.value.pos, m.value.capture);
      m.value.capture
    else
      var alt := Search(s, second, 0);
      if alt.Some? then
        assert LeftmostMatch(s, second, alt.value.pos, alt.value.capture);
        alt.value.capture
      else []
  }

  /** The pattern that matches the literal text lit and captures it. */
  function LiteralPattern(lit: string): (string, nat) -> Option<string> {
    (s: string, p: nat) => if LiteralAt(s, p, lit) then Some(lit) else None
  }

  /** Python's s.find(sub): the first index where sub occurs, or -1. */
  function Find(s: string, sub: string): (r: int)
    ensures r >= -1
    ensures r >= 0 ==> LiteralAt(s, r, sub) && forall q :: 0 <= q < r ==> !LiteralAt(s, q, sub)
    ensures r == -1 ==> forall q :: 0 <= q <= |s| ==> !LiteralAt(s, q, sub)
  {
    var pattern := LiteralPattern(sub);
    assert forall q: nat :: pattern(s, q).Some? <==> LiteralAt(s, q, sub);
    var m := Search(s, pattern, 0);
    if m.Some? then m.value.pos else -1
  }

  /** Python's `sub in s`. */
  predicate Contains(s: string, sub: string) { Find(s, sub) >= 0 }

  /** Find reports the first occurrence: any k where sub occurs and before which it does not is the answer. */
  lemma FindIs(s: string, sub: string, k: nat)
    requires LiteralAt(s, k, sub)
    requires forall q :: 0 <= q < k ==> !LiteralAt(s, q, sub)
    ensures Find(s, sub) == k
  {
    var r := Find(s, sub);
    assert r >= k;
    assert r <= k;
  }

  /** An occurrence anywhere makes `sub in s` true. */
  lemma ContainsAt(s: string, sub: string, k: nat)
    requires LiteralAt(s, k, sub)
    ensures Contains(s, sub)
  {
    assert k <= |s|;
  }

  /** Python's a < b on strings: code point by code point, a proper prefix first. */
  predicate Before(a: string, b: string)
    decreases |a|
  {
    b != [] && (a == [] || a[0] < b[0] || (a[0] == b[0] && Before(a[1..], b[1..])))
  }

  lemma {:induction false} BeforeIrreflexive(a: string)
    ensures !Before(a, a)
    decreases |a|
  {
    if a != [] {
      BeforeIrreflexive(a[1..]);
    }
  }

  lemma {:induction false} BeforeTransitive(a: string, b: string, c: string)
    requires Before(a, b) && Before(b, c)
    ensures Before(a, c)
    decreases |a|
  {
    if a != [] && a[0] == b[0] && b[0] == c[0] {
      BeforeTransitive(a[1..], b[1..], c[1..]);
    }
  }

  /** Any two different strings are ordered one way or the other. */
  lemma {:induction false} BeforeTotal(a: string, b: string)
    ensures a == b || Before(a, b) || Before(b, a)
    decreases |a|
  {
    if a != [] && b != [] && a[0] == b[0] {
      BeforeTotal(a[1..], b[1..]);
      if a[1..] == b[1..] {
        assert a == [a[0]] + a[1..] && b == [b[0]] + b[1..];
      }
    }
  }

  /** "Not after" is transitive: a <= b and b <= c give a <= c. */
  lemma NotBeforeTransitive(a: string, b: string, c: string)
    requires !Before(b, a) && !Before(c, b)
    ensures !Before(c, a)
  {
    BeforeTotal(a, b);
    if Before(c, a) && Before(a, b) {
      BeforeTransitive(c, a, b);
    }
  }

  /** At most one of a < b and b < a holds. */
  lemma BeforeAsymmetric(a: string, b: string)
    requires Before(a, b)
    ensures !Before(b, a)
  {
    if Before(b, a) {
      BeforeTransitive(a, b, a);
      BeforeIrreflexive(a);
    }
  }

  /** The index of the first element satisfying p, or |s| when there is none. */
  function FirstIndex<T>(s: seq<T>, p: T -> bool): (k: nat)
    ensures k <= |s|
    ensures forall j :: 0 <= j < k ==> !p(s[j])
    ensures k < |s| ==> p(s[k])
    decreases |s|
  {
    if |s| == 0 || p(s[0]) then 0 else 1 + FirstIndex(s[1..], p)
  }

  /** The lists f gives for the elements of xs, concatenated in order. */
  function FlatMap<T, U>(xs: seq<T>, f: T -> seq<U>): seq<U>
    decreases |xs|
  {
    if xs == [] then [] else FlatMap(xs[..|xs| - 1], f) + f(xs[|xs| - 1])
  }

  // ---------------------------------------------------------------------------
  // Properties of the primitives
  // ---------------------------------------------------------------------------

  /** Splitting on a separator and joining with it again gives the text back. */
  lemma {:induction false} SplitJoin(s: string, c: char)
    ensures Join(Split(s, c), [c]) == s
    decreases |s|
  {
    var i := SeparatorIndex(s, c);
    if i < |s| {
      var head, tail := s[..i], s[i + 1..];
      var rest := Split(tail, c);
      SplitJoin(tail, c);
      assert Split(s, c) == [head] + rest;
      assert ([head] + rest)[1..] == rest;
      assert Join([head] + rest, [c]) == head + [c] + Join(rest, [c]);
      assert s == head + [c] + tail;
    } else {
      assert Split(s, c) == [s];
    }
  }

  /** Text without the separator splits into itself alone. */
  lemma SplitWithoutSeparator(s: string, c: char)
    requires c !in s
    ensures Split(s, c) == [s]
  {
    assert SeparatorIndex(s, c) == |s|;
  }

  /** The first separator cuts off exactly the text before it. */
  lemma SplitAtFirstSeparator(a: string, c: char, b: string)
    requires c !in a
    ensures Split(a + [c] + b, c) == [a] + Split(b, c)
  {
    var s := a + [c] + b;
    var i := SeparatorIndex(s, c);
    assert forall k :: 0 <= k < |a| ==> s[k] == a[k];
    assert s[|a|] == c;
    assert s[..|a|] == a && s[|a| + 1..] == b;
  }

  /** A word followed by nothing or by whitespace is the first token. */
  lemma TokensOfWordThen(w: string, t: string)
    requires IsWord(w)
    requires t == [] || IsSpace(t[0])
    ensures Tokens(w + t) == [w] + Tokens(t)
  {
    var s := w + t;
    var n := RunEnd(s, 0, NotSpace);
    assert forall k :: 0 <= k < |w| ==> s[k] == w[k];
    assert |w| < |s| ==> s[|w|] == t[0];
    assert n == |w|;
    assert s[..n] == w && s[n..] == t;
  }

  /** Joining words with single spaces and splitting on whitespace gives the words back. */
  lemma {:induction false} TokensOfJoin(ws: seq<string>)
    requires forall k :: 0 <= k < |ws| ==> IsWord(ws[k])
    ensures Tokens(Join(ws, " ")) == ws
    decreases |ws|
  {
    if |ws| == 1 {
      TokensOfWordThen(ws[0], []);
      assert ws[0] + [] == ws[0];
    } else if |ws| > 1 {
      var rest := Join(ws[1..], " ");
      TokensOfJoin(ws[1..]);
      assert (" " + rest)[1..] == rest;
      TokensOfWordThen(ws[0], " " + rest);
      assert Join(ws, " ") == ws[0] + (" " + rest);
      assert ws == [ws[0]] + ws[1..];
    }
  }

  /** A text that neither starts nor ends with whitespace is left alone by Strip. */
  lemma StripTrimmed(s: string)
    requires s == [] || (!IsSpace(s[0]) && !IsSpace(s[|s| - 1]))
    ensures Strip(s) == s
  {
    if s != [] {
      assert RunEnd(s, 0, IsSpace) == 0;
      assert RunStart(s, 0, |s|, IsSpace) == |s|;
    }
  }

  /** Strip drops exactly the leading whitespace of a text whose first non-space is at i and whose end is not a space. */
  lemma StripFrom(s: string, i: nat)
    requires i < |s| && !IsSpace(s[i]) && !IsSpace(s[|s| - 1])
    requires forall k :: 0 <= k < i ==> IsSpace(s[k])
    ensures Strip(s) == s[i..]
  {
    RunEndIs(s, 0, IsSpace, i);
    assert RunStart(s, i, |s|, IsSpace) == |s|;
  }

  /** Strip is idempotent. */
  lemma StripIdempotent(s: string)
    ensures Strip(Strip(s)) == Strip(s)
  {
    StripTrimmed(Strip(s));
  }

  /** Words joined by a separator start with the first word and end with the last one. */
  lemma {:induction false} JoinEnds(ws: seq<string>, sep: string)
    requires |ws| >= 1 && forall k :: 0 <= k < |ws| ==> ws[k] != []
    ensures Join(ws, sep) != []
    ensures Join(ws, sep)[0] == ws[0][0]
    ensures Join(ws, sep)[|Join(ws, sep)| - 1] == ws[|ws| - 1][|ws[|ws| - 1]| - 1]
    decreases |ws|
  {
    if |ws| > 1 {
      JoinEnds(ws[1..], sep);
    }
  }

  /** Words joined by single spaces neither start nor end with whitespace. */
  lemma StripJoinedWords(ws: seq<string>)
    requires forall k :: 0 <= k < |ws| ==> IsWord(ws[k])
    ensures Strip(Join(ws, " ")) == Join(ws, " ")
  {
    if |ws| > 0 {
      JoinEnds(ws, " ");
    }
    StripTrimmed(Join(ws, " "));
  }

  /** The first position where the pattern matches is the one re.search reports. */
  lemma SearchFinds(s: string, at: (string, nat) -> Option<string>, from: nat, p: nat)
    requires from <= p <= |s| && at(s, p).Some?
    requires forall q :: from <= q < p ==> at(s, q).None?
    ensures Search(s, at, from) == Some(Match(p, at(s, p).value))
  {
    var r := Search(s, at, from);
    assert r.Some? by {
      assert r.None? ==> at(s, p).None?;
    }
    assert r.value.pos <= p by {
      assert r.value.pos > p ==> at(s, p).None?;
    }
  }

  lemma FlatMapStep<T, U>(xs: seq<T>, f: T -> seq<U>, i: nat)
    requires i < |xs|
    ensures FlatMap(xs[..i + 1], f) == FlatMap(xs[..i], f) + f(xs[i])
  {
    assert xs[..i + 1][..i] == xs[..i];
  }

  /** FlatMap distributes over concatenation: order is kept. */
  lemma {:induction false} FlatMapAppend<T, U>(a: seq<T>, b: seq<T>, f: T -> seq<U>)
    ensures FlatMap(a + b, f) == FlatMap(a, f) + FlatMap(b, f)
    decreases |b|
  {
    if b == [] {
      assert a + b == a;
    } else {
      var b' := b[..|b| - 1];
      FlatMapAppend(a, b', f);
      assert (a + b)[..|a + b| - 1] == a + b';
      assert (a + b)[|a + b| - 1] == b[|b| - 1];
    }
  }

  /** When every element yields at most one item, there are at most as many items as elements. */
  lemma {:induction false} FlatMapAtMostOne<T, U>(xs: seq<T>, f: T -> seq<U>)
    requires forall k :: 0 <= k < |xs| ==> |f(xs[k])| <= 1
    ensures |FlatMap(xs, f)| <= |xs|
    decreases |xs|
  {
    if xs != [] {
      FlatMapAtMostOne(xs[..|xs| - 1], f);
    }
  }

  /** A pattern has at most one leftmost match. */
  lemma LeftmostMatchUnique(s: string, at: (string, nat) -> Option<string>, p: nat, c: string, p': nat, c': string)
    requires LeftmostMatch(s, at, p, c) && LeftmostMatch(s, at, p', c')
    ensures p == p' && c == c'
  {
    assert p < p' ==> at(s, p).None?;
    assert p' < p ==> at(s, p').None?;
  }

  /** When the first pattern matches somewhere, the capture is its leftmost match. */
  lemma CaptureOfLeftmost(s: string, first: (string, nat) -> Option<string>, second: (string, nat) -> Option<string>, p: nat, c: string)
    requires LeftmostMatch(s, first, p, c)
    ensures CaptureWithFallback(s, first, second) == c
  {
    var r := CaptureWithFallback(s, first, second);
    assert !MatchesNowhere(s, first);
    var p' :| LeftmostMatch(s, first, p', r);
    LeftmostMatchUnique(s, first, p, c, p', r);
  }

  /** The first index is the one position before which nothing satisfies p and at which p holds. */
  lemma FirstIndexIs<T>(s: seq<T>, p: T -> bool, k: nat)
    requires k <= |s| && forall j :: 0 <= j < k ==> !p(s[j])
    requires k < |s| ==> p(s[k])
    ensures FirstIndex(s, p) == k
  {
    var f := FirstIndex(s, p);
    assert f >= k;
    assert f <= k;
  }

  /** Lower-casing twice is lower-casing once. */
  lemma LowerIdempotent(s: string)
    ensures Lower(Lower(s)) == Lower(s)
  {
  }

  /** A no-break space separates tokens as any other whitespace does: `+\xa0307` is the flag and the value. */
  lemma NoBreakSpaceSeparates()
    ensures Tokens("+\U{A0}307") == ["+", "307"]
  {
    var value: string := "307";
    var rest: string := ['\U{A0}'] + value;
    TokensOfWordThen(value, []);
    assert value + [] == value;
    assert rest[1..] == value;
    assert Tokens(rest) == Tokens(value);
    TokensOfWordThen("+", rest);
    assert "+" + rest == "+\U{A0}307";
  }
}
