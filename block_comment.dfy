/** The first block comment of a file read line by line, as the Rust
    extractor computes it (src/config.rs), stated without its loop; and how it
    relates to the TypeScript extractor, which matches one regular expression
    against the whole text (src/config.ts). */
module BlockComment {
  import opened Common
  import opened Text
  import ConfigTs

  /** The first line at or after `from` that contains `p`. */
  function FirstLineWith(lines: seq<string>, p: string, from: nat): (r: Option<nat>)
    ensures r.Some? ==> from <= r.value < |lines|
    decreases |lines| - from
  {
    if from >= |lines| then None
    else if Contains(lines[from], p) then Some(from)
    else FirstLineWith(lines, p, from + 1)
  }

  /** The line found has `p`, no line before it does, and when none is found no line has it. */
  lemma {:induction false} FirstLineWithSpec(lines: seq<string>, p: string, from: nat)
    ensures var r := FirstLineWith(lines, p, from);
            && (r.Some? ==> Contains(lines[r.value], p))
            && (r.Some? ==> forall l :: from <= l < r.value ==> !Contains(lines[l], p))
            && (r.None? ==> forall l :: from <= l < |lines| ==> !Contains(lines[l], p))
    decreases |lines| - from
  {
    if from < |lines| && !Contains(lines[from], p) {
      FirstLineWithSpec(lines, p, from + 1);
    }
  }

  /** The first line with `p` is determined by where `p` occurs. */
  lemma {:induction false} FirstLineWithIs(lines: seq<string>, p: string, from: nat, x: nat)
    requires from <= x < |lines| && Contains(lines[x], p)
    requires forall l :: from <= l < x ==> !Contains(lines[l], p)
    ensures FirstLineWith(lines, p, from) == Some(x)
    decreases x - from
  {
    if from < x {
      FirstLineWithIs(lines, p, from + 1, x);
    }
  }

  lemma {:induction false} FirstLineWithNone(lines: seq<string>, p: string, from: nat)
    requires forall l :: from <= l < |lines| ==> !Contains(lines[l], p)
    ensures FirstLineWith(lines, p, from) == None
    decreases |lines| - from
  {
    if from < |lines| {
      FirstLineWithNone(lines, p, from + 1);
    }
  }

  /** What follows the first opening delimiter of a line (all of it when it has none). */
  function AfterOpening(line: string): string {
    match IndexOf(line, "/*", 0)
    case Some(s) => line[s + 2..]
    case None => line
  }

  /** What precedes the first closing delimiter of a line (all of it when it has none). */
  function BeforeClosing(line: string): string {
    match IndexOf(line, "*/", 0)
    case Some(e) => line[..e]
    case None => line
  }

  /** Where the Rust extractor stands after reading some lines: no block has
      opened yet; a block is open and this text is collected so far; or the
      block has closed with this text. */
  datatype Scan = Outside | Inside(text: string) | Closed(text: string)

  /** The reader's state after `lines`. The block opens at the first line
      containing an opening delimiter. If that line's remainder closes it, the
      text is what lies in between. Otherwise the text is the remainder (no
      line feed after it), then every following line, each followed by a line
      feed, up to the first line that closes it, then that line's text
      before its delimiter. */
  function ScanOf(lines: seq<string>): Scan {
    match FirstLineWith(lines, "/*", 0)
    case None => Outside
    case Some(k) =>
      var rest := AfterOpening(lines[k]);
      if Contains(rest, "*/") then Closed(BeforeClosing(rest))
      else
        match FirstLineWith(lines, "*/", k + 1)
        case None => Inside(rest + JoinLines(lines[k + 1..]))
        case Some(m) => Closed(rest + JoinLines(lines[k + 1..m]) + BeforeClosing(lines[m]))
  }

  /** The text the Rust extractor collects from `lines`, before trimming: a
      block never closed gives nothing. */
  function RawFromLines(lines: seq<string>): Option<string> {
    match ScanOf(lines)
    case Closed(text) => Some(text)
    case _ => None
  }

  /** Reading one more line (the body of the extractor's loop). A step never
      leaves a block once it has opened, a closed block absorbs every line,
      and the text collected so far is kept as a prefix. */
  function Step(state: Scan, line: string): (r: Scan)
    ensures state.Closed? ==> r == state
    ensures state.Inside? ==> !r.Outside?
    ensures r.Outside? ==> state.Outside? && forall k :: !At(line, k, "/*")
    ensures state.Inside? ==> |state.text| <= |r.text| && r.text[..|state.text|] == state.text
  {
    match state
    case Outside =>
      (match IndexOf(line, "/*", 0)
       case None => Outside
       case Some(s) =>
         var rest := line[s + 2..];
         match IndexOf(rest, "*/", 0)
         case Some(e) => Closed(rest[..e])
         case None => Inside(rest))
    case Inside(text) =>
      (match IndexOf(line, "*/", 0)
       case Some(e) => Closed(text + line[..e])
       case None => Inside(text + line + "\n"))
    case Closed(text) => state
  }

  /** The comment the Rust extractor returns: the collected text, trimmed. */
  function ExtractFromLines(lines: seq<string>): Option<string> {
    match RawFromLines(lines)
    case None => None
    case Some(raw) => Some(Trim(Rust, raw))
  }

  /** Nothing comes back exactly when no line opens a block, or the block that
      opens is closed neither on its own line nor on any later one. */
  lemma ExtractFromLinesNone(lines: seq<string>)
    ensures ExtractFromLines(lines).None? <==>
              || (forall l :: 0 <= l < |lines| ==> !Contains(lines[l], "/*"))
              || (exists k :: 0 <= k < |lines| && FirstLineWith(lines, "/*", 0) == Some(k)
                             && !Contains(AfterOpening(lines[k]), "*/")
                             && forall l :: k < l < |lines| ==> !Contains(lines[l], "*/"))
  {
    FirstLineWithSpec(lines, "/*", 0);
    match FirstLineWith(lines, "/*", 0)
    case None =>
    case Some(k) =>
      FirstLineWithSpec(lines, "*/", k + 1);
      assert Contains(lines[k], "/*");
  }

  /** The reader's state after the first `n` lines, one `Step` per line:
      what the extractor's loop computes. */
  function Scanned(lines: seq<string>, n: nat): Scan
    requires n <= |lines|
  {
    if n == 0 then Outside else Step(Scanned(lines, n - 1), lines[n - 1])
  }

  /** The loop's state is the one described line by line in `ScanOf`. */
  lemma {:induction false} ScannedIsScanOf(lines: seq<string>, n: nat)
    requires n <= |lines|
    ensures Scanned(lines, n) == ScanOf(lines[..n])
  {
    if n == 0 {
      FirstLineWithNone(lines[..0], "/*", 0);
    } else {
      ScannedIsScanOf(lines, n - 1);
      ScanStepLast(lines[..n]);
      assert lines[..n][..n - 1] == lines[..n - 1];
    }
  }

  /** A block closed after the first `n` lines stays closed. */
  lemma {:induction false} ScannedStaysClosed(lines: seq<string>, n: nat, m: nat)
    requires n <= m <= |lines| && Scanned(lines, n).Closed?
    ensures Scanned(lines, m) == Scanned(lines, n)
  {
    if n < m {
      ScannedStaysClosed(lines, n, m - 1);
    }
  }

  /** Once the block has closed, further lines (further delimiters included)
      make no difference. */
  lemma ScanIgnoresLaterLines(lines: seq<string>, more: seq<string>)
    requires ScanOf(lines).Closed?
    ensures ScanOf(lines + more) == ScanOf(lines)
  {
    var all := lines + more;
    var k := FirstLineWith(lines, "/*", 0).value;
    FirstLineInFront(lines, more, "/*", 0);
    assert all[k] == lines[k];
    if !Contains(AfterOpening(lines[k]), "*/") {
      var m := FirstLineWith(lines, "*/", k + 1).value;
      FirstLineInFront(lines, more, "*/", k + 1);
      assert all[k + 1..m] == lines[k + 1..m];
      assert all[m] == lines[m];
    }
  }

  lemma ExtractIgnoresLaterLines(lines: seq<string>, more: seq<string>)
    requires ExtractFromLines(lines).Some?
    ensures ExtractFromLines(lines + more) == ExtractFromLines(lines)
  {
    ScanIgnoresLaterLines(lines, more);
  }

  lemma ScanStepLast(lines: seq<string>)
    requires lines != []
    ensures ScanOf(lines) == Step(ScanOf(lines[..|lines| - 1]), lines[|lines| - 1])
  {
    var init, last := lines[..|lines| - 1], lines[|lines| - 1];
    ScanStep(init, last);
    assert init + [last] == lines;
  }

  /** The state after one more line is one `Step` from the state before it. */
  lemma ScanStep(lines: seq<string>, line: string)
    ensures ScanOf(lines + [line]) == Step(ScanOf(lines), line)
  {
    match ScanOf(lines)
    case Outside => ScanStepOutside(lines, line);
    case Inside(_) => ScanStepInside(lines, line);
    case Closed(_) => ScanIgnoresLaterLines(lines, [line]);
  }

  lemma ScanStepOutside(lines: seq<string>, line: string)
    requires ScanOf(lines).Outside?
    ensures ScanOf(lines + [line]) == Step(Outside, line)
  {
    var all := lines + [line];
    FirstLineAfter(lines, line, "/*", 0);
    ContainsIff(line, "/*");
    assert all[|lines|] == line;
    if Contains(line, "/*") {
      var rest := AfterOpening(line);
      ContainsIff(rest, "*/");
      if !Contains(rest, "*/") {
        FirstLineWithNone(all, "*/", |lines| + 1);
        assert all[|lines| + 1..] == [];
        JoinLinesNone(rest);
      }
    }
  }

  lemma ScanStepInside(lines: seq<string>, line: string)
    requires ScanOf(lines).Inside?
    ensures ScanOf(lines + [line]) == Step(ScanOf(lines), line)
  {
    var all := lines + [line];
    var k := FirstLineWith(lines, "/*", 0).value;
    var rest := AfterOpening(lines[k]);
    var text := rest + JoinLines(lines[k + 1..]);
    assert ScanOf(lines) == Inside(text);
    FirstLineInFront(lines, [line], "/*", 0);
    assert all[k] == lines[k];
    FirstLineAfter(lines, line, "*/", k + 1);
    ContainsIff(line, "*/");
    if Contains(line, "*/") {
      assert all[k + 1..|lines|] == lines[k + 1..];
      assert all[|lines|] == line;
      ScanClosesLater(all, k, |lines|);
      BeforeClosingIs(line);
    } else {
      assert all[k + 1..] == lines[k + 1..] + [line];
      JoinLinesSnoc(rest, lines[k + 1..], line);
      ScanStaysInside(all, k);
    }
  }

  lemma ScanClosesLater(lines: seq<string>, k: nat, m: nat)
    requires FirstLineWith(lines, "/*", 0) == Some(k) && !Contains(AfterOpening(lines[k]), "*/")
    requires FirstLineWith(lines, "*/", k + 1) == Some(m)
    ensures ScanOf(lines) == Closed(AfterOpening(lines[k]) + JoinLines(lines[k + 1..m]) + BeforeClosing(lines[m]))
  {
  }

  lemma ScanStaysInside(lines: seq<string>, k: nat)
    requires FirstLineWith(lines, "/*", 0) == Some(k) && !Contains(AfterOpening(lines[k]), "*/")
    requires FirstLineWith(lines, "*/", k + 1).None?
    ensures ScanOf(lines) == Inside(AfterOpening(lines[k]) + JoinLines(lines[k + 1..]))
  {
  }

  /** A pattern absent from `lines` is first found in a line appended to them, if there. */
  lemma FirstLineAfter(lines: seq<string>, line: string, p: string, from: nat)
    requires from <= |lines| + 1 && FirstLineWith(lines, p, from).None?
    ensures FirstLineWith(lines + [line], p, from) ==
            if from <= |lines| && Contains(line, p) then Some(|lines|) else None
  {
    var all := lines + [line];
    FirstLineWithSpec(lines, p, from);
    if from <= |lines| && Contains(line, p) {
      forall l | from <= l < |lines| ensures !Contains(all[l], p) {
        assert all[l] == lines[l];
      }
      FirstLineWithIs(all, p, from, |lines|);
    } else {
      forall l | from <= l < |all| ensures !Contains(all[l], p) {
        if l < |lines| {
          assert all[l] == lines[l];
        }
      }
      FirstLineWithNone(all, p, from);
    }
  }

  /** A line found in `lines` is found first in `lines + more` too. */
  lemma {:induction false} FirstLineInFront(lines: seq<string>, more: seq<string>, p: string, from: nat)
    requires FirstLineWith(lines, p, from).Some?
    ensures FirstLineWith(lines + more, p, from) == FirstLineWith(lines, p, from)
    decreases |lines| - from
  {
    assert (lines + more)[from] == lines[from];
    if !Contains(lines[from], p) {
      FirstLineInFront(lines, more, p, from + 1);
    }
  }

  // ------------------------------------------------ relation to the regex version

  /** A line without the pattern, followed by a line feed, is still without it. */
  lemma LineBreakKeepsAbsent(line: string, p: string)
    requires |p| == 2 && '\n' !in p && !Contains(line, p)
    ensures !Contains(line + "\n", p)
  {
    JoinLinesAbsent([line], p);
    JoinLinesOne(line);
  }

  /** Two pattern-free texts joined after a line feed are pattern-free. */
  lemma AbsentAfterLineBreak(x: string, y: string, p: string)
    requires |p| == 2 && '\n' !in p
    requires !Contains(x, p) && !Contains(y, p)
    requires x == [] || x[|x| - 1] == '\n'
    ensures !Contains(x + y, p)
  {
    forall k | At(x + y, k, p) ensures false {
      AtAfterLineBreak(x, y, k, p);
    }
  }

  lemma OpeningFound(prefix: string, line: string, tail: string)
    requires !Contains(prefix, "/*") && (prefix == [] || prefix[|prefix| - 1] == '\n')
    requires Contains(line, "/*")
    ensures IndexOf(line, "/*", 0).Some?
    ensures IndexOf(prefix + (line + tail), "/*", 0) == Some(|prefix| + IndexOf(line, "/*", 0).value)
  {
    ContainsIff(line, "/*");
    IndexOfAfterLineBreak(prefix, line + tail, "/*");
    IndexOfInPrefix(line, tail, "/*", 0);
  }

  lemma SuffixFrom(prefix: string, line: string, tail: string, n: nat)
    requires n <= |line|
    ensures (prefix + (line + tail))[|prefix| + n..] == line[n..] + tail
  {
    assert (prefix + (line + tail))[|prefix|..] == line + tail;
  }

  lemma AfterOpeningIs(line: string)
    requires IndexOf(line, "/*", 0).Some?
    ensures AfterOpening(line) == line[IndexOf(line, "/*", 0).value + 2..]
  {
  }

  /** The first opening delimiter of `prefix + (line + tail)` when `prefix`
      has none and is empty or ends in a line feed: `line`'s first. */
  lemma OpeningAfter(prefix: string, line: string, tail: string)
    requires !Contains(prefix, "/*") && (prefix == [] || prefix[|prefix| - 1] == '\n')
    requires Contains(line, "/*")
    ensures IndexOf(line, "/*", 0).Some?
    ensures var c, i := prefix + (line + tail), |prefix| + IndexOf(line, "/*", 0).value;
            IndexOf(c, "/*", 0) == Some(i) && i + 2 <= |c| && c[i + 2..] == AfterOpening(line) + tail
  {
    OpeningFound(prefix, line, tail);
    SuffixFrom(prefix, line, tail, IndexOf(line, "/*", 0).value + 2);
    AfterOpeningIs(line);
  }

  /** Where the regex version puts the opening delimiter: the first line with
      one, at that line's first one. What follows it is that line's remainder,
      a line feed, and the later lines. */
  lemma OpeningInJoinedLines(lines: seq<string>, k: nat)
    requires FirstLineWith(lines, "/*", 0) == Some(k)
    ensures IndexOf(lines[k], "/*", 0).Some? && IndexOf(JoinLines(lines), "/*", 0).Some?
    ensures IndexOf(JoinLines(lines), "/*", 0).value ==
            |JoinLines(lines[..k])| + IndexOf(lines[k], "/*", 0).value
    ensures IndexOf(JoinLines(lines), "/*", 0).value + 2 <= |JoinLines(lines)|
    ensures JoinLines(lines)[IndexOf(JoinLines(lines), "/*", 0).value + 2..] ==
            AfterOpening(lines[k]) + ("\n" + JoinLines(lines[k + 1..]))
  {
    FirstLineWithSpec(lines, "/*", 0);
    var prefix := JoinLines(lines[..k]);
    var tail := "\n" + JoinLines(lines[k + 1..]);
    JoinLinesAround(lines, k);
    JoinLinesAbsent(lines[..k], "/*");
    JoinLinesEnds(lines[..k]);
    OpeningAfter(prefix, lines[k], tail);
  }

  /** Searching for a closing delimiter after the opening one at `i`, where
      the text continues with `x + y` and `x` holds one: the first hit is `x`'s. */
  lemma ClosingInFront(c: string, i: nat, x: string, y: string)
    requires i + 2 <= |c| && c[i + 2..] == x + y && IndexOf(x, "*/", 0).Some?
    ensures IndexOf(c, "*/", i + 2) == Some(i + 2 + IndexOf(x, "*/", 0).value)
  {
    IndexOfInPrefix(x, y, "*/", 0);
    IndexOfDrop(c, i + 2, "*/");
  }

  lemma SliceInFront(c: string, i: nat, x: string, y: string, e: nat)
    requires i + 2 <= |c| && c[i + 2..] == x + y && e <= |x|
    ensures c[i + 2..i + 2 + e] == x[..e]
  {
    assert c[i + 2..i + 2 + e] == c[i + 2..][..e];
  }

  /** The regex version's match once both delimiters are located. */
  lemma RegexAt(c: string, i: nat, j: nat)
    requires IndexOf(c, "/*", 0) == Some(i) && IndexOf(c, "*/", i + 2) == Some(j)
    ensures ConfigTs.MatchBlockComment(c) == Some(c[i + 2..j])
  {
  }

  lemma RegexClosesAt(c: string, i: nat, x: string, y: string)
    requires IndexOf(c, "/*", 0) == Some(i) && i + 2 <= |c| && c[i + 2..] == x + y
    requires IndexOf(x, "*/", 0).Some?
    ensures ConfigTs.MatchBlockComment(c) == Some(x[..IndexOf(x, "*/", 0).value])
  {
    ClosingInFront(c, i, x, y);
    var e := IndexOf(x, "*/", 0).value;
    RegexAt(c, i, i + 2 + e);
    SliceInFront(c, i, x, y, e);
  }

  lemma BeforeClosingIs(x: string)
    requires IndexOf(x, "*/", 0).Some?
    ensures BeforeClosing(x) == x[..IndexOf(x, "*/", 0).value]
  {
  }

  /** The regex version's match when the text after its opening delimiter at
      `i` continues with `x + y` and `x` holds a closing one: the text of `x`
      before that closing delimiter. */
  lemma RegexClosesIn(c: string, i: nat, x: string, y: string)
    requires IndexOf(c, "/*", 0) == Some(i) && i + 2 <= |c| && c[i + 2..] == x + y
    requires Contains(x, "*/")
    ensures ConfigTs.MatchBlockComment(c) == Some(BeforeClosing(x))
  {
    ContainsIff(x, "*/");
    RegexClosesAt(c, i, x, y);
    BeforeClosingIs(x);
  }

  /** The same when the text after the opening delimiter continues with a
      part `free` that has no closing delimiter and ends in a line feed, then
      a line `line` that holds one: the match is `free`, then `line` before its
      closing delimiter. */
  lemma RegexClosesAfter(c: string, i: nat, free: string, line: string, y: string)
    requires IndexOf(c, "/*", 0) == Some(i) && i + 2 <= |c| && c[i + 2..] == (free + line) + y
    requires !Contains(free, "*/") && (free == [] || free[|free| - 1] == '\n')
    requires Contains(line, "*/")
    ensures ConfigTs.MatchBlockComment(c) == Some(free + BeforeClosing(line))
  {
    RegexClosesAfterAt(c, i, free, line, y);
    MatchThroughClosing(c, free, line);
  }

  lemma RegexClosesAfterAt(c: string, i: nat, free: string, line: string, y: string)
    requires IndexOf(c, "/*", 0) == Some(i) && i + 2 <= |c| && c[i + 2..] == (free + line) + y
    requires !Contains(free, "*/") && (free == [] || free[|free| - 1] == '\n')
    requires Contains(line, "*/")
    ensures IndexOf(line, "*/", 0).Some?
    ensures ConfigTs.MatchBlockComment(c) == Some((free + line)[..|free| + IndexOf(line, "*/", 0).value])
  {
    ClosingAfterFree(free, line);
    var x := free + line;
    assert IndexOf(x, "*/", 0).value == |free| + IndexOf(line, "*/", 0).value;
    RegexClosesAt(c, i, x, y);
  }

  lemma MatchThroughClosing(c: string, free: string, line: string)
    requires IndexOf(line, "*/", 0).Some?
    requires ConfigTs.MatchBlockComment(c) == Some((free + line)[..|free| + IndexOf(line, "*/", 0).value])
    ensures ConfigTs.MatchBlockComment(c) == Some(free + BeforeClosing(line))
  {
    var e := IndexOf(line, "*/", 0).value;
    assert ConfigTs.MatchBlockComment(c) == Some((free + line)[..|free| + e]);
    BeforeClosingIs(line);
    PrefixThrough(free, line, e);
  }

  lemma ClosingAfterFree(free: string, line: string)
    requires !Contains(free, "*/") && (free == [] || free[|free| - 1] == '\n')
    requires Contains(line, "*/")
    ensures IndexOf(line, "*/", 0).Some?
    ensures IndexOf(free + line, "*/", 0) == Some(|free| + IndexOf(line, "*/", 0).value)
  {
    ContainsIff(line, "*/");
    IndexOfAfterLineBreak(free, line, "*/");
  }

  lemma PrefixThrough(x: string, y: string, e: nat)
    requires e <= |y|
    ensures (x + y)[..|x| + e] == x + y[..e]
  {
  }

  lemma SameLineMatch(lines: seq<string>, k: nat)
    requires FirstLineWith(lines, "/*", 0) == Some(k)
    requires Contains(AfterOpening(lines[k]), "*/")
    ensures ConfigTs.MatchBlockComment(JoinLines(lines)) == Some(BeforeClosing(AfterOpening(lines[k])))
  {
    OpeningInJoinedLines(lines, k);
    var c := JoinLines(lines);
    RegexClosesIn(c, IndexOf(c, "/*", 0).value, AfterOpening(lines[k]), "\n" + JoinLines(lines[k + 1..]));
  }

  /** When the comment closes on its opening line, both versions take the same
      text; they return the same result unless that text has U+0085 or U+FEFF,
      the two characters their `trim`s disagree on. */
  lemma SameLineComment(lines: seq<string>, k: nat)
    requires FirstLineWith(lines, "/*", 0) == Some(k)
    requires Contains(AfterOpening(lines[k]), "*/")
    ensures var raw := BeforeClosing(AfterOpening(lines[k]));
            && RawFromLines(lines) == Some(raw)
            && ConfigTs.MatchBlockComment(JoinLines(lines)) == Some(raw)
            && ('\U{0085}' !in raw && '\U{FEFF}' !in raw ==>
                  ConfigTs.ExtractFirstBlockComment(JoinLines(lines)) == ExtractFromLines(lines))
  {
    SameLineMatch(lines, k);
    var raw := BeforeClosing(AfterOpening(lines[k]));
    if '\U{0085}' !in raw && '\U{FEFF}' !in raw {
      TrimAgrees(raw);
    }
  }

  lemma MultiLineMatch(lines: seq<string>, k: nat, m: nat)
    requires FirstLineWith(lines, "/*", 0) == Some(k)
    requires !Contains(AfterOpening(lines[k]), "*/")
    requires FirstLineWith(lines, "*/", k + 1) == Some(m)
    ensures ConfigTs.MatchBlockComment(JoinLines(lines)) ==
            Some(AfterOpening(lines[k]) + "\n" + JoinLines(lines[k + 1..m]) + BeforeClosing(lines[m]))
  {
    OpeningInJoinedLines(lines, k);
    var c := JoinLines(lines);
    var i := IndexOf(c, "/*", 0).value;
    MultiLineLayout(lines, k, m);
    FirstLineWithSpec(lines, "*/", k + 1);
    ClosingFreePart(lines, k, m);
    // The text after the opening delimiter: a closing-free part, then the closing line.
    var free := AfterOpening(lines[k]) + "\n" + JoinLines(lines[k + 1..m]);
    var after := "\n" + JoinLines(lines[m + 1..]);
    Regroup(AfterOpening(lines[k]), "\n", JoinLines(lines[k + 1..m]), lines[m], after);
    RegexClosesAfter(c, i, free, lines[m], after);
  }

  /** When the comment spans lines, the regex version keeps the line feed
      after the opening line's remainder, which the Rust version drops:
      the two texts differ by exactly that character. */
  lemma MultiLineComment(lines: seq<string>, k: nat, m: nat)
    requires FirstLineWith(lines, "/*", 0) == Some(k)
    requires !Contains(AfterOpening(lines[k]), "*/")
    requires FirstLineWith(lines, "*/", k + 1) == Some(m)
    ensures var rest, middle, last := AfterOpening(lines[k]), JoinLines(lines[k + 1..m]), BeforeClosing(lines[m]);
            && RawFromLines(lines) == Some(rest + middle + last)
            && ConfigTs.MatchBlockComment(JoinLines(lines)) == Some(rest + "\n" + middle + last)
  {
    MultiLineMatch(lines, k, m);
  }

  lemma Regroup(a: string, b: string, c: string, d: string, e: string)
    ensures a + (b + (c + (d + e))) == (a + b + c + d) + e
  {
  }

  /** The later lines around the closing one. */
  lemma MultiLineLayout(lines: seq<string>, k: nat, m: nat)
    requires k < m < |lines|
    ensures JoinLines(lines[k + 1..]) == JoinLines(lines[k + 1..m]) + (lines[m] + ("\n" + JoinLines(lines[m + 1..])))
  {
    var later := lines[k + 1..];
    JoinLinesAround(later, m - k - 1);
    assert later[..m - k - 1] == lines[k + 1..m];
    assert later[m - k - 1] == lines[m];
    assert later[m - k..] == lines[m + 1..];
  }

  /** The opening line's remainder, its line feed, and the lines before the
      closing one hold no closing delimiter and end in a line feed. */
  lemma ClosingFreePart(lines: seq<string>, k: nat, m: nat)
    requires k < m <= |lines|
    requires !Contains(AfterOpening(lines[k]), "*/")
    requires forall l :: k < l < m ==> !Contains(lines[l], "*/")
    ensures var free := AfterOpening(lines[k]) + "\n" + JoinLines(lines[k + 1..m]);
            !Contains(free, "*/") && free[|free| - 1] == '\n'
  {
    var rest, middle := AfterOpening(lines[k]), JoinLines(lines[k + 1..m]);
    LineBreakKeepsAbsent(rest, "*/");
    JoinLinesAbsent(lines[k + 1..m], "*/");
    AbsentAfterLineBreak(rest + "\n", middle, "*/");
    JoinLinesEnds(lines[k + 1..m]);
  }

  /** An input on which the two versions differ: a comment opened on one line
      and closed on the next. */
  lemma MultiLineWitness()
    ensures ExtractFromLines(["/*a", "b*/"]) == Some("ab")
    ensures ConfigTs.ExtractFirstBlockComment(JoinLines(["/*a", "b*/"])) == Some("a\nb")
  {
    var lines := ["/*a", "b*/"];
    WitnessDelimiters();
    MultiLineComment(lines, 0, 1);
    assert lines[1..1] == [];
    assert "a" + "" + "b" == "ab";
    assert "a" + "\n" + "" + "b" == "a\nb";
    WitnessTrims();
  }

  lemma WitnessDelimiters()
    ensures var lines := ["/*a", "b*/"];
            && FirstLineWith(lines, "/*", 0) == Some(0) && AfterOpening(lines[0]) == "a"
            && !Contains("a", "*/")
            && FirstLineWith(lines, "*/", 1) == Some(1) && BeforeClosing(lines[1]) == "b"
  {
    var lines := ["/*a", "b*/"];
    assert At(lines[0], 0, "/*");
    assert IndexOf(lines[0], "/*", 0) == Some(0);
    assert At(lines[1], 1, "*/");
    assert IndexOf(lines[1], "*/", 0) == Some(1) by {
      assert lines[1][0..2] == "b*";
    }
  }

  lemma WitnessTrims()
    ensures Trim(Rust, "ab") == "ab" && Trim(JavaScript, "a\nb") == "a\nb"
  {
    assert LeadingSpaces(Rust, "ab") == 0;
    assert TrailingSpaces(Rust, "ab") == 0;
    assert LeadingSpaces(JavaScript, "a\nb") == 0;
    assert TrailingSpaces(JavaScript, "a\nb") == 0;
  }
}
