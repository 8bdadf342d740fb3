/** String primitives the source takes from its runtimes: substring search
    (`String.prototype.indexOf`, `str::find`), white-space trimming
    (`String.prototype.trim`, `str::trim`), splitting on a separator
    (`String.prototype.split`, `str::split`) and lines ended by a line feed. */
module Text {
  import opened Common

  /** `p` occurs in `s` at index `i`. */
  predicate At(s: string, i: int, p: string) {
    0 <= i && i + |p| <= |s| && s[i..i + |p|] == p
  }

  /** `p` occurs somewhere in `s`. */
  predicate Contains(s: string, p: string) {
    exists i :: 0 <= i <= |s| && At(s, i, p)
  }

  /** The first index at or after `from` where `p` occurs, if any. */
  function IndexOf(s: string, p: string, from: nat): (r: Option<nat>)
    ensures r.Some? ==> from <= r.value && At(s, r.value, p)
    ensures r.Some? ==> forall k :: from <= k < r.value ==> !At(s, k, p)
    ensures r.None? ==> forall k :: from <= k ==> !At(s, k, p)
    decreases |s| - from
  {
    if from + |p| > |s| then None
    else if s[from..from + |p|] == p then Some(from)
    else IndexOf(s, p, from + 1)
  }

  /** The first occurrence is determined by where `p` occurs. */
  lemma IndexOfIs(s: string, p: string, from: nat, x: nat)
    requires from <= x && At(s, x, p)
    requires forall k :: from <= k < x ==> !At(s, k, p)
    ensures IndexOf(s, p, from) == Some(x)
  {
  }

  lemma IndexOfNone(s: string, p: string, from: nat)
    requires forall k :: from <= k ==> !At(s, k, p)
    ensures IndexOf(s, p, from) == None
  {
  }

  lemma ContainsIff(s: string, p: string)
    ensures Contains(s, p) <==> IndexOf(s, p, 0).Some?
  {
    if Contains(s, p) {
      var i :| At(s, i, p);
    }
  }

  /** An occurrence inside a slice is an occurrence in the whole string. */
  lemma AtSlice(s: string, a: nat, b: nat, k: int, p: string)
    requires a <= b <= |s| && At(s[a..b], k, p)
    ensures At(s, a + k, p)
  {
    assert 0 <= k && k + |p| <= b - a;
    var u, v := s[a..b][k..k + |p|], s[a + k..a + k + |p|];
    forall i | 0 <= i < |p| ensures u[i] == v[i] {
      assert u[i] == s[a..b][k + i] == s[a + k + i];
    }
    assert u == v;
  }

  /** An occurrence that ends inside `x` is an occurrence in `x + y`, and conversely. */
  lemma AtPrefix(x: string, y: string, k: int, p: string)
    requires k + |p| <= |x|
    ensures At(x + y, k, p) <==> At(x, k, p)
  {
    if 0 <= k {
      assert (x + y)[k..k + |p|] == x[k..k + |p|];
    }
  }

  /** Occurrences in `x + y` that start inside `y`, shifted. */
  lemma AtSuffix(x: string, y: string, k: int, p: string)
    requires |x| <= k
    ensures At(x + y, k, p) <==> At(y, k - |x|, p)
  {
    if k + |p| <= |x + y| {
      assert (x + y)[k..k + |p|] == y[k - |x|..k - |x| + |p|];
    }
  }

  /** A two-character pattern without a line feed cannot straddle a line feed:
      if `x` has no occurrence and is empty or ends in a line feed, every
      occurrence in `x + y` lies in `y`. */
  lemma AtAfterLineBreak(x: string, y: string, k: int, p: string)
    requires |p| == 2 && '\n' !in p
    requires !Contains(x, p)
    requires x == [] || x[|x| - 1] == '\n'
    ensures At(x + y, k, p) <==> (|x| <= k && At(y, k - |x|, p))
  {
    if k + 2 <= |x| {
      AtPrefix(x, y, k, p);
      assert !At(x, k, p);
    } else if 0 <= k == |x| - 1 && k + 2 <= |x + y| {
      assert (x + y)[k..k + 2][0] == x[|x| - 1];
      assert p[0] in p;
    } else if k >= |x| {
      AtSuffix(x, y, k, p);
    }
  }

  /** The first occurrence in `x + y` when `x` has none and ends in a line feed. */
  lemma IndexOfAfterLineBreak(x: string, y: string, p: string)
    requires |p| == 2 && '\n' !in p
    requires !Contains(x, p)
    requires x == [] || x[|x| - 1] == '\n'
    ensures IndexOf(x + y, p, 0) ==
            match IndexOf(y, p, 0) case None => None case Some(j) => Some(|x| + j)
  {
    forall k ensures At(x + y, k, p) <==> (|x| <= k && At(y, k - |x|, p)) {
      AtAfterLineBreak(x, y, k, p);
    }
    match IndexOf(y, p, 0)
    case None =>
      IndexOfNone(x + y, p, 0);
    case Some(j) =>
      IndexOfIs(x + y, p, 0, |x| + j);
  }

  /** The first occurrence in `x + y` when it already occurs in `x`. */
  lemma IndexOfInPrefix(x: string, y: string, p: string, from: nat)
    requires IndexOf(x, p, from).Some?
    ensures IndexOf(x + y, p, from) == IndexOf(x, p, from)
  {
    var j := IndexOf(x, p, from).value;
    AtPrefix(x, y, j, p);
    forall k | from <= k < j ensures !At(x + y, k, p) {
      AtPrefix(x, y, k, p);
    }
    IndexOfIs(x + y, p, from, j);
  }

  /** A search from `n` finds what a search of the suffix from `n` finds, shifted. */
  lemma IndexOfDrop(s: string, n: nat, p: string)
    requires n <= |s| && IndexOf(s[n..], p, 0).Some?
    ensures IndexOf(s, p, n) == Some(n + IndexOf(s[n..], p, 0).value)
  {
    var e := IndexOf(s[n..], p, 0).value;
    AtDrop(s, n, e, p);
    forall k | n <= k < n + e ensures !At(s, k, p) {
      AtDrop(s, n, k - n, p);
    }
    IndexOfIs(s, p, n, n + e);
  }

  /** Occurrences in a suffix, shifted. */
  lemma AtDrop(s: string, n: nat, q: int, p: string)
    requires n <= |s| && 0 <= q
    ensures At(s, n + q, p) <==> At(s[n..], q, p)
  {
    if n + q + |p| <= |s| {
      assert s[n..][q..q + |p|] == s[n + q..n + q + |p|];
    }
  }

  // ---------------------------------------------------------------- trimming

  /** The two runtimes whose `trim` the source calls. */
  datatype Runtime = JavaScript | Rust

  /** White space as the runtime's `trim` strips it: ECMAScript WhiteSpace and
      LineTerminator for JavaScript, the Unicode White_Space property for Rust.
      They differ in exactly two characters: U+FEFF (JavaScript only) and
      U+0085 (Rust only). */
  predicate IsSpace(rt: Runtime, c: char) {
    || c == '\t' || c == '\n' || c == '\U{000B}' || c == '\U{000C}' || c == '\r'
    || c == ' ' || c == '\U{00A0}' || c == '\U{1680}'
    || ('\U{2000}' <= c <= '\U{200A}')
    || c == '\U{2028}' || c == '\U{2029}' || c == '\U{202F}' || c == '\U{205F}' || c == '\U{3000}'
    || (rt == JavaScript && c == '\U{FEFF}')
    || (rt == Rust && c == '\U{0085}')
  }

  /** The number of white-space characters `s` starts with. */
  function LeadingSpaces(rt: Runtime, s: string): (n: nat)
    ensures n <= |s|
    ensures forall k :: 0 <= k < n ==> IsSpace(rt, s[k])
    ensures n < |s| ==> !IsSpace(rt, s[n])
  {
    if s == [] || !IsSpace(rt, s[0]) then 0 else 1 + LeadingSpaces(rt, s[1..])
  }

  /** The number of white-space characters `s` ends with. */
  function TrailingSpaces(rt: Runtime, s: string): (n: nat)
    ensures n <= |s|
    ensures forall k :: |s| - n <= k < |s| ==> IsSpace(rt, s[k])
    ensures n < |s| ==> !IsSpace(rt, s[|s| - 1 - n])
  {
    if s == [] || !IsSpace(rt, s[|s| - 1]) then 0 else 1 + TrailingSpaces(rt, s[..|s| - 1])
  }

  /** `s` with its leading and trailing white space removed. */
  function Trim(rt: Runtime, s: string): (r: string)
    ensures |r| <= |s|
    ensures r != [] ==> !IsSpace(rt, r[0]) && !IsSpace(rt, r[|r| - 1])
  {
    var a := LeadingSpaces(rt, s);
    var n := TrailingSpaces(rt, s[a..]);
    assert |s| - n > a ==> s[a] == s[a..][0] && s[|s| - n - 1] == s[a..][|s[a..]| - 1 - n];
    s[a..|s| - n]
  }

  /** What `trim` removes is white space at the two ends, and only that: the
      result is a slice of the input that neither starts nor ends with white
      space, and everything outside it is white space. */
  lemma TrimIsSlice(rt: Runtime, s: string)
    ensures var r := Trim(rt, s);
            && (r != [] ==> !IsSpace(rt, r[0]) && !IsSpace(rt, r[|r| - 1]))
            && exists a, b :: 0 <= a <= b <= |s| && r == s[a..b]
                              && (forall k :: 0 <= k < a ==> IsSpace(rt, s[k]))
                              && (forall k :: b <= k < |s| ==> IsSpace(rt, s[k]))
  {
    var a := LeadingSpaces(rt, s);
    var t := s[a..];
    var n := TrailingSpaces(rt, t);
    var b := |s| - n;
    var r := s[a..b];
    assert Trim(rt, s) == r;
    forall k | b <= k < |s| ensures IsSpace(rt, s[k]) {
      assert s[k] == t[k - a];
    }
    if r != [] {
      assert r[0] == s[a];
      assert r[|r| - 1] == t[|t| - 1 - n];
    }
  }

  /** Trimming never creates an occurrence of a pattern. */
  lemma TrimKeepsAbsent(rt: Runtime, s: string, p: string)
    requires !Contains(s, p)
    ensures !Contains(Trim(rt, s), p)
  {
    TrimIsSlice(rt, s);
    var a, b :| 0 <= a <= b <= |s| && Trim(rt, s) == s[a..b];
    if Contains(Trim(rt, s), p) {
      var k :| At(s[a..b], k, p);
      AtSlice(s, a, b, k, p);
    }
  }

  lemma {:induction false} LeadingSpacesAgree(s: string)
    requires '\U{0085}' !in s && '\U{FEFF}' !in s
    ensures LeadingSpaces(JavaScript, s) == LeadingSpaces(Rust, s)
  {
    if s != [] {
      assert s[0] in s;
      LeadingSpacesAgree(s[1..]);
    }
  }

  lemma {:induction false} TrailingSpacesAgree(s: string)
    requires '\U{0085}' !in s && '\U{FEFF}' !in s
    ensures TrailingSpaces(JavaScript, s) == TrailingSpaces(Rust, s)
  {
    if s != [] {
      assert s[|s| - 1] in s;
      TrailingSpacesAgree(s[..|s| - 1]);
    }
  }

  /** The two `trim`s agree on text without U+0085 and U+FEFF. */
  lemma TrimAgrees(s: string)
    requires '\U{0085}' !in s && '\U{FEFF}' !in s
    ensures Trim(JavaScript, s) == Trim(Rust, s)
  {
    LeadingSpacesAgree(s);
    var a := LeadingSpaces(Rust, s);
    TrailingSpacesAgree(s[a..]);
  }

  // ---------------------------------------------------------------- splitting

  /** The segments joined back with the separator. */
  function JoinWith(parts: seq<string>, sep: char): string {
    if parts == [] then ""
    else if |parts| == 1 then parts[0]
    else parts[0] + [sep] + JoinWith(parts[1..], sep)
  }

  /** The segments of `s` between occurrences of `sep`, as `s.split(sep)` in
      JavaScript and `s.split(sep)` in Rust both yield them. */
  function Split(s: string, sep: char): (parts: seq<string>)
    ensures |parts| >= 1
    ensures forall i :: 0 <= i < |parts| ==> sep !in parts[i]
    ensures JoinWith(parts, sep) == s
    decreases |s|
  {
    match IndexOf(s, [sep], 0)
    case None =>
      assert forall k :: 0 <= k < |s| ==> s[k] != sep by {
        forall k | 0 <= k < |s| ensures s[k] != sep {
          assert !At(s, k, [sep]);
          assert s[k..k + 1] == [s[k]];
        }
      }
      [s]
    case Some(i) =>
      var head, rest := s[..i], Split(s[i + 1..], sep);
      assert sep !in head by {
        forall k | 0 <= k < i ensures head[k] != sep {
          assert !At(s, k, [sep]);
          assert s[k..k + 1] == [s[k]];
        }
      }
      assert s[i..i + 1] == [sep];
      assert s == head + [sep] + s[i + 1..];
      [head] + rest
  }

  // ---------------------------------------------------------------- lines

  /** The lines, each followed by a line feed: the text of a file whose lines
      a line reader yields in this order. */
  function JoinLines(lines: seq<string>): string {
    if lines == [] then "" else JoinLines(lines[..|lines| - 1]) + lines[|lines| - 1] + "\n"
  }

  lemma {:induction false} JoinLinesAppend(a: seq<string>, b: seq<string>)
    ensures JoinLines(a + b) == JoinLines(a) + JoinLines(b)
    decreases |b|
  {
    if b != [] {
      var b' := b[..|b| - 1];
      assert (a + b)[..|a + b| - 1] == a + b';
      JoinLinesAppend(a, b');
    } else {
      assert a + b == a;
    }
  }

  /** A sequence around its element at `k`. */
  lemma SliceAround<T>(s: seq<T>, k: nat)
    requires k < |s|
    ensures s == s[..k] + ([s[k]] + s[k + 1..])
  {
    assert s[k..] == [s[k]] + s[k + 1..];
    assert s == s[..k] + s[k..];
  }

  lemma JoinLinesOne(line: string)
    ensures JoinLines([line]) == line + "\n"
  {
    assert [line][..0] == [];
  }

  /** The joined lines around line `k`. */
  lemma JoinLinesAround(lines: seq<string>, k: nat)
    requires k < |lines|
    ensures JoinLines(lines) == JoinLines(lines[..k]) + (lines[k] + ("\n" + JoinLines(lines[k + 1..])))
  {
    SliceAround(lines, k);
    JoinLinesAppend(lines[..k], [lines[k]] + lines[k + 1..]);
    JoinLinesAppend([lines[k]], lines[k + 1..]);
    JoinLinesOne(lines[k]);
  }

  /** The first line, its line feed, then the others. */
  lemma JoinLinesCons(lines: seq<string>)
    requires lines != []
    ensures JoinLines(lines) == lines[0] + "\n" + JoinLines(lines[1..])
  {
    assert lines == [lines[0]] + lines[1..];
    JoinLinesAppend([lines[0]], lines[1..]);
    JoinLinesOne(lines[0]);
  }

  /** Text collected before some lines, then one more line. */
  lemma JoinLinesSnoc(head: string, lines: seq<string>, line: string)
    ensures head + JoinLines(lines + [line]) == head + JoinLines(lines) + line + "\n"
  {
    assert (lines + [line])[..|lines|] == lines;
    var j := JoinLines(lines);
    assert head + (j + line + "\n") == head + j + line + "\n";
  }

  lemma JoinLinesNone(head: string)
    ensures head + JoinLines([]) == head
  {
    assert head + [] == head;
  }

  /** Joined lines end in a line feed (or are empty). */
  lemma JoinLinesEnds(lines: seq<string>)
    ensures JoinLines(lines) == [] || JoinLines(lines)[|JoinLines(lines)| - 1] == '\n'
  {
  }

  /** A two-character pattern without a line feed occurs in joined lines only
      if it occurs in one of the lines. */
  lemma {:induction false} JoinLinesAbsent(lines: seq<string>, p: string)
    requires |p| == 2 && '\n' !in p
    requires forall l :: 0 <= l < |lines| ==> !Contains(lines[l], p)
    ensures !Contains(JoinLines(lines), p)
    decreases |lines|
  {
    if lines != [] {
      var init := lines[..|lines| - 1];
      var last := lines[|lines| - 1];
      JoinLinesAbsent(init, p);
      JoinLinesEnds(init);
      var tail := last + "\n";
      assert !Contains(tail, p) by {
        forall k ensures !At(tail, k, p) {
          if k + 2 <= |last| {
            AtPrefix(last, "\n", k, p);
          } else if k + 2 == |tail| {
            assert tail[k + 1] == '\n';
          }
        }
      }
      forall k ensures !At(JoinLines(init) + tail, k, p) {
        AtAfterLineBreak(JoinLines(init), tail, k, p);
      }
      assert JoinLines(lines) == JoinLines(init) + tail;
    }
  }
}
