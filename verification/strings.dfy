/** The string operations the recipe generator relies on: `str::find`,
    `str::split` on one character, itertools' `join`, and `str::trim`. */
module Strings {
  import opened Wrappers

  /** Index of the first occurrence of `c` in `s` (Rust's `str::find` on a char). */
  function IndexOf(s: string, c: char): (r: Option<nat>)
    ensures r.None? <==> c !in s
    ensures r.Some? ==> r.value < |s| && s[r.value] == c && c !in s[..r.value]
  {
    if |s| == 0 then None
    else if s[0] == c then Some(0)
    else match IndexOf(s[1..], c)
      case None => None
      case Some(i) =>
        assert s[..i + 1] == [s[0]] + s[1..][..i];
        Some(i + 1)
  }

  /** The first occurrence is unique: splitting at a separator-free prefix finds it. */
  lemma IndexOfAfterPrefix(a: string, c: char, b: string)
    requires c !in a
    ensures IndexOf(a + [c] + b, c) == Some(|a|)
  {
    var s := a + [c] + b;
    assert s[|a|] == c;
    assert s[..|a|] == a;
  }

  /** Rust's `str::split` on a single character: the text between separators, always at
      least one piece (SplitCount, SplitPieces and JoinSplit state the rest). */
  function Split(s: string, c: char): (r: seq<string>)
    ensures |r| >= 1
    decreases |s|
  {
    match IndexOf(s, c)
    case None => [s]
    case Some(i) => [s[..i]] + Split(s[i + 1..], c)
  }

  /** There is one more piece than there are separators. */
  lemma {:induction false} SplitCount(s: string, c: char)
    ensures |Split(s, c)| == multiset(s)[c] + 1
    decreases |s|
  {
    match IndexOf(s, c)
    case None =>
    case Some(i) =>
      SplitCount(s[i + 1..], c);
      assert s == s[..i] + [c] + s[i + 1..];
      assert multiset(s) == multiset(s[..i]) + multiset([c]) + multiset(s[i + 1..]);
  }

  /** No piece holds the separator. */
  lemma {:induction false} SplitPieces(s: string, c: char)
    ensures forall i :: 0 <= i < |Split(s, c)| ==> c !in Split(s, c)[i]
    decreases |s|
  {
    match IndexOf(s, c)
    case None =>
    case Some(i) =>
      SplitPieces(s[i + 1..], c);
  }

  /** itertools' `join`: the pieces with `sep` between neighbours. */
  function Join(xs: seq<string>, sep: string): string
  {
    if |xs| == 0 then ""
    else if |xs| == 1 then xs[0]
    else xs[0] + sep + Join(xs[1..], sep)
  }

  lemma JoinCons(x: string, xs: seq<string>, sep: string)
    requires |xs| >= 1
    ensures Join([x] + xs, sep) == x + sep + Join(xs, sep)
  {
    assert ([x] + xs)[1..] == xs;
  }

  /** Splitting `a c b c d` at `c` when none of the three parts holds `c`. */
  lemma SplitThree(a: string, b: string, d: string, c: char)
    requires c !in a && c !in b && c !in d
    ensures Split(a + [c] + b + [c] + d, c) == [a, b, d]
  {
    var bd := b + [c] + d;
    assert Split(bd, c) == [b, d] by {
      SplitNoSeparator(d, c);
      SplitAfterPrefix(b, c, d);
      assert [b] + [d] == [b, d];
    }
    assert a + [c] + b + [c] + d == a + [c] + bd;
    SplitAfterPrefix(a, c, bd);
    assert [a] + [b, d] == [a, b, d];
  }

  /** A character other than the separator put in front joins the first piece. */
  lemma SplitCons(ch: char, s: string, c: char)
    requires ch != c
    ensures Split([ch] + s, c) == [[ch] + Split(s, c)[0]] + Split(s, c)[1..]
  {
    match IndexOf(s, c)
    case None =>
    case Some(i) =>
      assert [ch] + s == ([ch] + s[..i]) + [c] + s[i + 1..];
      SplitAfterPrefix([ch] + s[..i], c, s[i + 1..]);
  }

  lemma SplitNoSeparator(s: string, c: char)
    requires c !in s
    ensures Split(s, c) == [s]
  {
  }

  lemma SplitAfterPrefix(a: string, c: char, b: string)
    requires c !in a
    ensures Split(a + [c] + b, c) == [a] + Split(b, c)
  {
    var s := a + [c] + b;
    IndexOfAfterPrefix(a, c, b);
    assert s[..|a|] == a;
    assert s[|a| + 1..] == b;
  }

  /** Joining the pieces of a split with the separator gives the text back. */
  lemma {:induction false} JoinSplit(s: string, c: char)
    ensures Join(Split(s, c), [c]) == s
    decreases |s|
  {
    match IndexOf(s, c)
    case None =>
    case Some(i) =>
      var rest := Split(s[i + 1..], c);
      JoinSplit(s[i + 1..], c);
      assert Split(s, c) == [s[..i]] + rest;
      assert s == s[..i] + [c] + s[i + 1..];
  }

  /** Splitting a join of separator-free pieces gives the pieces back. */
  lemma {:induction false} SplitJoin(xs: seq<string>, c: char)
    requires |xs| >= 1
    requires forall i :: 0 <= i < |xs| ==> c !in xs[i]
    ensures Split(Join(xs, [c]), c) == xs
  {
    if |xs| == 1 {
      SplitNoSeparator(xs[0], c);
    } else {
      SplitJoin(xs[1..], c);
      SplitAfterPrefix(xs[0], c, Join(xs[1..], [c]));
      assert xs == [xs[0]] + xs[1..];
    }
  }

  /** A character inside one of the pieces is inside their join. */
  lemma {:induction false} JoinContains(xs: seq<string>, sep: string, i: nat, c: char)
    requires i < |xs| && c in xs[i]
    ensures c in Join(xs, sep)
  {
    if i > 0 {
      JoinContains(xs[1..], sep, i - 1, c);
    }
  }

  /** Splitting adds no character: a piece holds only characters of the text. */
  lemma SplitPieceWithout(s: string, sep: char, c: char, i: nat)
    requires c !in s && i < |Split(s, sep)|
    ensures c !in Split(s, sep)[i]
  {
    if c in Split(s, sep)[i] {
      JoinSplit(s, sep);
      JoinContains(Split(s, sep), [sep], i, c);
    }
  }

  /** Pieces each ending in `c`, concatenated, are the `c`-join of the bare pieces plus a final `c`. */
  lemma {:induction false} JoinTerminated(ys: seq<string>, xs: seq<string>, c: char)
    requires |xs| >= 1 && |ys| == |xs|
    requires forall i :: 0 <= i < |xs| ==> ys[i] == xs[i] + [c]
    ensures Join(ys, "") == Join(xs, [c]) + [c]
  {
    if |xs| > 1 {
      JoinTerminated(ys[1..], xs[1..], c);
      assert Join(ys, "") == ys[0] + "" + Join(ys[1..], "");
    }
  }

  /** A join starts with its first piece and ends with its last. */
  lemma {:induction false} JoinEnds(xs: seq<string>, sep: string)
    requires |xs| >= 1
    ensures |Join(xs, sep)| >= |xs[0]| && Join(xs, sep)[..|xs[0]|] == xs[0]
    ensures |Join(xs, sep)| >= |xs[|xs| - 1]|
    ensures Join(xs, sep)[|Join(xs, sep)| - |xs[|xs| - 1]|..] == xs[|xs| - 1]
  {
    if |xs| > 1 {
      JoinEnds(xs[1..], sep);
      var j := Join(xs[1..], sep);
      assert Join(xs, sep) == xs[0] + sep + j;
      assert Join(xs, sep)[|Join(xs, sep)| - |j|..] == j;
    }
  }

  /** The characters with the Unicode White_Space property: U+0009 to U+000D, U+0020,
      U+0085, U+00A0, U+1680, U+2000 to U+200A, U+2028, U+2029, U+202F, U+205F, U+3000. */
  const WhitespaceChars: set<char> :=
    { '\t', '\n', '\U{000B}', '\U{000C}', '\r', ' ', '\U{0085}', '\U{00A0}', '\U{1680}',
    '\U{2000}', '\U{2001}', '\U{2002}', '\U{2003}', '\U{2004}', '\U{2005}', '\U{2006}',
    '\U{2007}', '\U{2008}', '\U{2009}', '\U{200A}', '\U{2028}', '\U{2029}', '\U{202F}',
    '\U{205F}', '\U{3000}' }

  /** Every character of `s` is one of `ws`. */
  predicate AllIn(s: string, ws: set<char>)
  {
    forall k :: 0 <= k < |s| ==> s[k] in ws
  }

  /** `s` neither starts nor ends with a character of `ws`. */
  predicate TrimmedBy(s: string, ws: set<char>)
  {
    |s| > 0 ==> s[0] !in ws && s[|s| - 1] !in ws
  }

  /** How many characters at the front of `s` belong to `ws`. */
  function LeadingRun(s: string, ws: set<char>): (n: nat)
    ensures n <= |s|
    ensures forall k :: 0 <= k < n ==> s[k] in ws
    ensures n < |s| ==> s[n] !in ws
  {
    if |s| > 0 && s[0] in ws then
      var m := LeadingRun(s[1..], ws);
      assert forall k :: 1 <= k < m + 1 ==> s[k] == s[1..][k - 1];
      m + 1
    else 0
  }

  /** How many characters at the back of `s` belong to `ws`. */
  function TrailingRun(s: string, ws: set<char>): (n: nat)
    ensures n <= |s|
    ensures forall k :: |s| - n <= k < |s| ==> s[k] in ws
    ensures n < |s| ==> s[|s| - n - 1] !in ws
  {
    if |s| > 0 && s[|s| - 1] in ws then
      var m := TrailingRun(s[..|s| - 1], ws);
      assert forall k :: |s| - 1 - m <= k < |s| - 1 ==> s[k] == s[..|s| - 1][k];
      m + 1
    else 0
  }

  /** Drops the leading run of `ws` characters. */
  function TrimStart(s: string, ws: set<char>): string
  {
    s[LeadingRun(s, ws)..]
  }

  /** Drops the trailing run of `ws` characters. */
  function TrimEnd(s: string, ws: set<char>): string
  {
    s[..|s| - TrailingRun(s, ws)]
  }

  /** Both ends trimmed (TrimMargins names the two runs removed). */
  function TrimBy(s: string, ws: set<char>): (r: string)
    ensures TrimmedBy(r, ws)
  {
    TrimEnd(TrimStart(s, ws), ws)
  }

  /** Rust's `str::trim`, which removes `char::is_whitespace` characters from both ends. */
  function Trim(s: string): (r: string)
    ensures TrimmedBy(r, WhitespaceChars)
  {
    TrimBy(s, WhitespaceChars)
  }

  /** The runs that TrimBy removes from each end. */
  lemma TrimMargins(s: string, ws: set<char>) returns (p: string, q: string)
    ensures AllIn(p, ws) && AllIn(q, ws)
    ensures s == p + TrimBy(s, ws) + q
  {
    var t := TrimStart(s, ws);
    var r := TrimEnd(t, ws);
    p := LeadingMargin(s, ws);
    q := TrailingMargin(t, ws);
    assert s == p + r + q;
  }

  lemma LeadingMargin(s: string, ws: set<char>) returns (p: string)
    ensures AllIn(p, ws) && s == p + TrimStart(s, ws)
  {
    var n := LeadingRun(s, ws);
    p := s[..n];
    assert forall k :: 0 <= k < |p| ==> p[k] == s[k];
    assert s == s[..n] + s[n..];
  }

  lemma TrailingMargin(t: string, ws: set<char>) returns (q: string)
    ensures AllIn(q, ws) && t == TrimEnd(t, ws) + q
  {
    var m := TrailingRun(t, ws);
    q := t[|t| - m..];
    assert forall k :: 0 <= k < |q| ==> q[k] == t[|t| - m + k];
    assert t == t[..|t| - m] + t[|t| - m..];
  }

  /** A run of `ws` characters followed by text that does not start with one is exactly the leading run. */
  lemma LeadingRunOf(p: string, u: string, ws: set<char>)
    requires AllIn(p, ws)
    requires |u| > 0 ==> u[0] !in ws
    ensures LeadingRun(p + u, ws) == |p|
  {
    var s := p + u;
    assert forall k :: 0 <= k < |p| ==> s[k] == p[k];
    assert |u| > 0 ==> s[|p|] == u[0];
  }

  /** Text that does not end with a `ws` character followed by a run of them: that run is the trailing run. */
  lemma TrailingRunOf(u: string, q: string, ws: set<char>)
    requires AllIn(q, ws)
    requires |u| > 0 ==> u[|u| - 1] !in ws
    ensures TrailingRun(u + q, ws) == |q|
  {
    var s := u + q;
    assert forall k :: |u| <= k < |s| ==> s[k] == q[k - |u|];
    assert |u| > 0 ==> s[|u| - 1] == u[|u| - 1];
  }

  /** Trimming has one answer: the trimmed text between two runs of `ws`. */
  lemma {:induction false} TrimUnique(p: string, t: string, q: string, ws: set<char>)
    requires AllIn(p, ws) && AllIn(q, ws) && TrimmedBy(t, ws)
    ensures TrimBy(p + t + q, ws) == t
  {
    if |t| == 0 {
      AppendAllIn(p, q, ws);
      assert p + t + q == (p + q) + "";
      LeadingRunOf(p + q, "", ws);
      assert TrimStart(p + t + q, ws) == "";
    } else {
      assert p + t + q == p + (t + q);
      LeadingRunOf(p, t + q, ws);
      assert TrimStart(p + t + q, ws) == t + q;
      TrailingRunOf(t, q, ws);
      assert (t + q)[..|t|] == t;
    }
  }

  lemma AppendAllIn(a: string, b: string, ws: set<char>)
    requires AllIn(a, ws) && AllIn(b, ws)
    ensures AllIn(a + b, ws)
  {
  }

  lemma SeqAssoc(a: string, p: string, t: string, q: string, b: string)
    ensures a + (p + t + q) + b == (a + p) + t + (q + b)
  {
  }

  /** Trimming twice trims no more than trimming once. */
  lemma TrimIdempotent(s: string)
    ensures Trim(Trim(s)) == Trim(s)
  {
    var t := Trim(s);
    assert t == "" + t + "";
    TrimUnique("", t, "", WhitespaceChars);
  }

  /** Whitespace added on either side of a text does not change its trim. */
  lemma TrimPadded(a: string, s: string, b: string)
    requires AllIn(a, WhitespaceChars) && AllIn(b, WhitespaceChars)
    ensures Trim(a + s + b) == Trim(s)
  {
    var ws := WhitespaceChars;
    var t := TrimBy(s, ws);
    var p, q := TrimMargins(s, ws);
    var ap, qb := a + p, q + b;
    AppendAllIn(a, p, ws);
    AppendAllIn(q, b, ws);
    TrimUnique(ap, t, qb, ws);
    calc {
      a + s + b;
      a + (p + t + q) + b;
      { SeqAssoc(a, p, t, q, b); }
      ap + t + qb;
    }
  }

  /** A trimmed text is a piece of the original, so it holds no character the original lacks. */
  lemma TrimSubset(s: string, c: char)
    requires c !in s
    ensures c !in Trim(s)
  {
    var p, q := TrimMargins(s, WhitespaceChars);
    assert Trim(s) <= s[|p|..];
  }
}
