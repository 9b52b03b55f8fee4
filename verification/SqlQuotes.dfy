/**
  The splitter's decisions about a line, in terms of its characters: what opens and closes a dollar quote, which lines
  are skipped, which end a statement, and what follows for the statements of a script.
*/
module SqlQuotes {
  import opened Text
  import opened SqlScript

  // ---------------------------------------------------------------- what opens a dollar quote

  /** Two dollars, at `i` and at `j`, with nothing but letters, digits and underscores between them. */
  ghost predicate TagAt(line: string, i: nat, j: nat) {
    && i < j < |line| && line[i] == '$' && line[j] == '$'
    && forall k | i < k < j ::
         'a' <= line[k] <= 'z' || 'A' <= line[k] <= 'Z' || '0' <= line[k] <= '9' || line[k] == '_'
  }

  /** The first such pair. */
  ghost predicate Leftmost(line: string, i: nat, j: nat) {
    TagAt(line, i, j) && forall i': nat, j': nat | TagAt(line, i', j') :: i <= i'
  }

  lemma {:induction false} WordEnds(s: string)
    ensures var n := WordLength(s);
            && (forall k | 0 <= k < n :: IsWord(s[k]))
            && (n < |s| ==> !IsWord(s[n]))
  {
    if s == "" || !IsWord(s[0]) {
    } else {
      WordEnds(s[1..]);
      forall k | 0 <= k < WordLength(s) ensures IsWord(s[k]) { if k > 0 { assert s[k] == s[1..][k - 1]; } }
    }
  }

  /** A tag that starts with the line ends where the word after its first dollar does. */
  lemma TagAtFront(line: string, j: nat)
    requires line != ""
    ensures TagAt(line, 0, j) <==> line[0] == '$' && j == WordLength(line[1..]) + 1 && j < |line| && line[j] == '$'
  {
    var n := WordLength(line[1..]);
    WordEnds(line[1..]);
    forall k | 0 < k <= n ensures IsWord(line[k]) { assert line[k] == line[1..][k - 1]; }
    if n + 1 < |line| { assert line[n + 1] == line[1..][n]; }
  }

  lemma TagAtShift(line: string, i: nat, j: nat)
    requires line != "" && 0 < i && 0 < j
    ensures TagAt(line, i, j) <==> TagAt(line[1..], i - 1, j - 1)
  {
    if TagAt(line[1..], i - 1, j - 1) {
      forall k | i < k < j ensures IsWord(line[k]) { assert line[k] == line[1..][k - 1]; }
    }
  }

  /** What is found is the first such pair and what follows it, and it is found whenever there is one. */
  lemma {:induction false} OpenTagFinds(line: string) returns (i: nat, j: nat)
    ensures OpenTag(line).None? ==> forall i': nat, j': nat :: !TagAt(line, i', j')
    ensures OpenTag(line).Some? ==>
        Leftmost(line, i, j) && OpenTag(line).value == Opening(line[i..j + 1], line[j + 1..])
  {
    i, j := 0, 0;
    if line == "" {
    } else {
      var n := WordLength(line[1..]) + 1;
      TagAtFront(line, n);
      if TagAt(line, 0, n) {
        i, j := 0, n;
      } else {
        var i', j' := OpenTagFinds(line[1..]);
        i, j := i' + 1, j' + 1;
        forall a: nat, b: nat | TagAt(line, a, b) ensures a > 0 && TagAt(line[1..], a - 1, b - 1) {
          if a == 0 { TagAtFront(line, b); } else { TagAtShift(line, a, b); }
        }
        TagAtShift(line, i, j);
        if OpenTag(line).Some? {
          assert line[1..][i'..j' + 1] == line[i..j + 1] && line[1..][j' + 1..] == line[j + 1..];
        }
      }
    }
  }

  lemma OneTagAt(line: string, i: nat, j: nat, k: nat)
    requires TagAt(line, i, j) && TagAt(line, i, k)
    ensures j == k
  {
  }

  /** A tag is found if and only if it is the first pair, and none if and only if there is no pair. */
  lemma OpenTagIff(line: string, o: Opening)
    ensures OpenTag(line) == Some(o) <==>
              exists i: nat, j: nat :: Leftmost(line, i, j) && o.tag == line[i..j + 1] && o.after == line[j + 1..]
    ensures OpenTag(line).None? <==> forall i: nat, j: nat :: !TagAt(line, i, j)
  {
    var i, j := OpenTagFinds(line);
    forall i': nat, j': nat | Leftmost(line, i', j') ensures i' == i && j' == j {
      if i' == i { OneTagAt(line, i, j, j'); }
    }
  }

  ghost predicate Occurs(text: string, part: string) { exists k :: At(text, k, part) }

  lemma OccursIff(text: string, part: string)
    ensures Occurs(text, part) <==> Contains(text, part)
  {
    FindLeast(text, part);
  }

  /** The line opens the quote `tag` and leaves it open. */
  ghost predicate OpensQuote(line: string, tag: string) {
    exists i: nat, j: nat :: Leftmost(line, i, j) && tag == line[i..j + 1] && !Occurs(line[j + 1..], tag)
  }

  /** The quote open after a line: the one there was, until a line holds its tag, or the one the line opens. */
  lemma QuoteAfterIff(quote: Quote, line: string, tag: DollarTag)
    ensures QuoteAfter(quote, line) == Some(tag) <==>
              match quote case Some(q) => tag == q && !Occurs(line, q) case None => OpensQuote(line, tag)
  {
    match quote
    case Some(q) => OccursIff(line, q);
    case None =>
      var i, j := OpenTagFinds(line);
      match OpenTag(line)
      case Some(o) =>
        OpenTagIff(line, o);
        OccursIff(o.after, o.tag);
        forall i': nat, j': nat | Leftmost(line, i', j') ensures i' == i && j' == j {
          if i' == i { OneTagAt(line, i, j, j'); }
        }
      case None =>
  }

  // ---------------------------------------------------------------- which lines are skipped, and which end a statement

  /** The space of a script's lines is white, and its printable characters are not. */
  lemma SpaceIs(c: char)
    ensures c in {' ', '\t', '\r', '\n'} ==> IsSpace(c)
    ensures '!' <= c <= '~' ==> !IsSpace(c)
  {
  }

  /** White up to `i` and from `j` on, and in between nothing, or text that neither begins nor ends white. */
  ghost predicate Stripped(s: string, i: nat, j: nat) {
    && i <= j <= |s|
    && (forall k | 0 <= k < i :: IsSpace(s[k])) && (forall k | j <= k < |s| :: IsSpace(s[k]))
    && (i < j ==> !IsSpace(s[i]) && !IsSpace(s[j - 1]))
  }

  lemma {:induction false} LStripDrops(s: string) returns (i: nat)
    ensures i <= |s| && LStrip(s) == s[i..] && forall k | 0 <= k < i :: IsSpace(s[k])
  {
    if s == "" || !IsSpace(s[0]) {
      i := 0;
    } else {
      i := LStripDrops(s[1..]);
      i := i + 1;
      assert s[1..][i - 1..] == s[i..];
      forall k | 0 <= k < i ensures IsSpace(s[k]) { if k > 0 { assert s[k] == s[1..][k - 1]; } }
    }
  }

  lemma {:induction false} RStripDrops(s: string) returns (j: nat)
    ensures j <= |s| && RStrip(s) == s[..j] && forall k | j <= k < |s| :: IsSpace(s[k])
  {
    if s == "" || !IsSpace(s[|s| - 1]) {
      j := |s|;
    } else {
      j := RStripDrops(s[..|s| - 1]);
      assert s[..|s| - 1][..j] == s[..j];
    }
  }

  lemma StripMeans(s: string) returns (i: nat, j: nat)
    ensures Stripped(s, i, j) && Strip(s) == s[i..j]
  {
    i := LStripDrops(s);
    j := RStripDrops(s[i..]);
    j := j + i;
    assert s[i..][..j - i] == s[i..j];
    forall k | j <= k < |s| ensures IsSpace(s[k]) { assert s[k] == s[i..][k - i]; }
    if i < j { assert s[j - 1] == s[i..j][j - 1 - i] && s[i] == s[i..j][0]; }
  }

  /** The first character that is not white, if any, starts a comment. */
  ghost predicate BlankOrComment(line: string) {
    exists i: nat :: White(line, i) && (i == |line| || At(line, i, "--") || At(line, i, "/*"))
  }

  predicate White(line: string, i: nat) { i <= |line| && forall k | 0 <= k < i :: IsSpace(line[k]) }

  lemma SkippableIff(line: string)
    ensures Skippable(line) <==> BlankOrComment(line)
  {
    var i, j := StripMeans(line);
    var s := Strip(line);
    hide Strip;
    if Skippable(line) {
      assert White(line, if i < j then i else |line|);
      if i + 2 <= j { HeadOfSlice(line, i, j); }
    }
    if BlankOrComment(line) {
      var k: nat :| White(line, k) && (k == |line| || At(line, k, "--") || At(line, k, "/*"));
      if k < |line| {
        CommentIsKept(line, i, j, k);
      }
    }
  }

  lemma HeadOfSlice(line: string, i: nat, j: nat)
    requires i + 2 <= j <= |line|
    ensures line[i..j][0..2] == line[i..i + 2]
  {
  }

  lemma CommentIsKept(line: string, i: nat, j: nat, k: nat)
    requires Stripped(line, i, j) && White(line, k) && (At(line, k, "--") || At(line, k, "/*"))
    ensures i == k && k + 2 <= j && (At(line[i..j], 0, "--") || At(line[i..j], 0, "/*"))
  {
    assert line[k] == line[k..k + 2][0] && line[k + 1] == line[k..k + 2][1];
    SpaceIs(line[k]);
    SpaceIs(line[k + 1]);
    assert line[i..j][0..2] == line[k..k + 2];
  }

  /** The last character that is not white is a semicolon. */
  ghost predicate EndsStatement(line: string) {
    exists i: nat :: i < |line| && line[i] == ';' && forall k | i < k < |line| :: IsSpace(line[k])
  }

  lemma EndsStatementIff(line: string)
    ensures EndsWith(Strip(line), ";") <==> EndsStatement(line)
  {
    var i, j := StripMeans(line);
    var s := Strip(line);
    hide Strip;
    if EndsWith(s, ";") {
      assert s[|s| - 1] == s[|s| - 1..|s|][0];
      assert line[j - 1] == ';';
    }
    if EndsStatement(line) {
      var k: nat :| k < |line| && line[k] == ';' && forall m | k < m < |line| :: IsSpace(line[m]);
      SpaceIs(line[k]);
      assert j == k + 1;
      assert s[|s| - 1..|s|] == [line[k]];
    }
  }

  // ---------------------------------------------------------------- what the splitter does with a line

  /** For every line and every state: it is skipped, ends its statement, or is kept with the quote then open. */
  lemma LineEffectIff(quote: Quote, line: string, tag: DollarTag)
    ensures LineEffect(quote, line).Skip? <==> quote.None? && BlankOrComment(line)
    ensures LineEffect(quote, line).Finish? <==>
              && EndsStatement(line)
              && match quote
                 case Some(q) => Occurs(line, q)
                 case None => !BlankOrComment(line) && forall q: DollarTag :: !OpensQuote(line, q)
    ensures LineEffect(quote, line) == Keep(Some(tag)) <==>
              match quote
              case Some(q) => tag == q && !Occurs(line, q)
              case None => !BlankOrComment(line) && OpensQuote(line, tag)
  {
    SkippableIff(line);
    EndsStatementIff(line);
    QuoteAfterIff(quote, line, tag);
    forall q: DollarTag
      ensures QuoteAfter(None, line) == Some(q) <==> OpensQuote(line, q)
    {
      QuoteAfterIff(None, line, q);
    }
    if quote.Some? { QuoteAfterIff(quote, line, quote.value); }
    hide QuoteAfter, Skippable, BlankOrComment, OpensQuote, EndsStatement, Strip, EndsWith, Occurs;
  }

  // ---------------------------------------------------------------- quoted lines stay together

  /** While the quote's tag does not come back, every line is kept and no statement ends. */
  lemma {:induction false} QuotedLinesAreKept(s: Scan, lines: seq<string>)
    requires s.quote.Some? && forall k | 0 <= k < |lines| :: !Occurs(lines[k], s.quote.value)
    ensures Run(s, lines) == Scan(s.done, s.current + lines, s.quote)
    decreases |lines|
  {
    if lines == [] {
      assert s.current + [] == s.current;
    } else {
      LineEffectIff(s.quote, lines[0], s.quote.value);
      hide LineEffect;
      QuotedLinesAreKept(Feed(s, lines[0]), lines[1..]);
      Shift(s.current, lines);
    }
  }

  /** From a line that opens a quote on, no statement ends before a line that holds its tag, whatever the lines hold. */
  lemma QuotedLinesStayTogether(s: Scan, lines: seq<string>, tag: DollarTag)
    requires s.quote.None? && lines != [] && !BlankOrComment(lines[0]) && OpensQuote(lines[0], tag)
    requires forall k | 1 <= k < |lines| :: !Occurs(lines[k], tag)
    ensures Run(s, lines) == Scan(s.done, s.current + lines, Some(tag))
  {
    LineEffectIff(None, lines[0], tag);
    hide LineEffect, OpensQuote, BlankOrComment;
    QuotedLinesAreKept(Feed(s, lines[0]), lines[1..]);
    Shift(s.current, lines);
  }

  /** A body between a line that opens a quote and one that closes it and ends in a semicolon is one statement. */
  lemma QuotedBodyIsOneStatement(s: Scan, head: string, body: seq<string>, foot: string, tag: DollarTag)
    requires s.quote.None? && !BlankOrComment(head) && OpensQuote(head, tag)
    requires (forall k | 0 <= k < |body| :: !Occurs(body[k], tag)) && Occurs(foot, tag) && EndsStatement(foot)
    ensures Run(s, ([head] + body) + [foot]) == Scan(s.done + [s.current + (([head] + body) + [foot])], [], None)
  {
    QuotedLinesStayTogether(s, [head] + body, tag);
    LineEffectIff(Some(tag), foot, tag);
    RunAppend(s, [head] + body, [foot]);
    Assoc(s.current, [head] + body, [foot]);
    hide LineEffect, OpensQuote, BlankOrComment, Occurs, EndsStatement;
    RunOne(Run(s, [head] + body), foot);
  }

  lemma RunOne(s: Scan, line: string)
    ensures Run(s, [line]) == Feed(s, line)
  {
    assert [line][1..] == [];
  }

  lemma {:induction false} RunAppend(s: Scan, a: seq<string>, b: seq<string>)
    ensures Run(s, a + b) == Run(Run(s, a), b)
    decreases |a|
  {
    hide Feed;
    if a == [] {
      assert a + b == b;
    } else {
      Uncons(a, b);
      RunAppend(Feed(s, a[0]), a[1..], b);
    }
  }

  /** A line of the group opens the quote, outside any other, and no later line holds its tag. */
  ghost predicate OpenedAt(g: seq<string>, k: nat, tag: DollarTag) {
    && k < |g| && QuoteAtEnd(None, g[..k]).None? && OpensQuote(g[k], tag)
    && forall m | k < m < |g| :: !Occurs(g[m], tag)
  }

  /** A quote is open after some lines if and only if one of them opened it and none since has closed it. */
  lemma {:induction false} QuoteAtEndIff(g: seq<string>, tag: DollarTag)
    ensures QuoteAtEnd(None, g) == Some(tag) <==> exists k: nat :: OpenedAt(g, k, tag)
    decreases |g|
  {
    hide OpensQuote, Occurs, QuoteAfter;
    if g == [] {
    } else {
      var n := |g| - 1;
      var init, before := g[..n], QuoteAtEnd(None, g[..n]);
      assert g == init + [g[n]];
      QuoteAtEndSnoc(None, init, g[n]);
      QuoteAtEndIff(init, tag);
      QuoteAfterIff(before, g[n], tag);
      forall k: nat | k < n ensures OpenedAt(g, k, tag) <==> OpenedAt(init, k, tag) && !Occurs(g[n], tag) {
        assert init[..k] == g[..k];
      }
      hide QuoteAtEnd;
      if before == Some(tag) && !Occurs(g[n], tag) {
        var k: nat :| OpenedAt(init, k, tag);
        assert OpenedAt(g, k, tag);
      }
      if before.None? && OpensQuote(g[n], tag) { assert OpenedAt(g, n, tag); }
      if k: nat :| OpenedAt(g, k, tag) { assert k < n ==> OpenedAt(init, k, tag); }
    }
  }

  lemma {:induction false} QuoteAtEndSnoc(quote: Quote, g: seq<string>, line: string)
    ensures QuoteAtEnd(quote, g + [line]) == QuoteAfter(QuoteAtEnd(quote, g), line)
    decreases |g|
  {
    hide QuoteAfter;
    if g == [] {
      assert [] + [line] == [line] && [line][1..] == [];
    } else {
      Uncons(g, [line]);
      QuoteAtEndSnoc(QuoteAfter(quote, g[0]), g[1..], line);
    }
  }

  /**
    In every script: a line of a statement that opens a quote is followed, in that statement, by a line that holds its
    tag; only the end of the script can come first.
  */
  lemma ScriptHoldsItsQuotes(lines: seq<string>, n: nat, i: nat, tag: DollarTag)
    requires n < |Groups(lines)| && i < |Groups(lines)[n]|
    requires var g := Groups(lines)[n]; QuoteAtEnd(None, g[..i]).None? && OpensQuote(g[i], tag)
    ensures var g := Groups(lines)[n];
            (exists k :: i < k < |g| && Occurs(g[k], tag)) || n == |Groups(lines)| - 1
  {
    var g := Groups(lines)[n];
    SplitPartitions(lines);
    if n < |Groups(lines)| - 1 {
      assert Terminated(None, g);
      TerminatedMeans(None, g);
      QuoteAtEndIff(g, tag);
      assert !OpenedAt(g, i, tag);
    }
  }

  // ---------------------------------------------------------------- lines and statements as text

  /** The lines of a text, joined again, are the text; no line holds a newline. */
  lemma {:induction false} LinesJoinBack(s: string)
    ensures Join(Lines(s)) == s && forall l | l in Lines(s) :: '\n' !in l
  {
    if s == "" {
    } else {
      LinesJoinBack(s[1..]);
      var rest := Lines(s[1..]);
      assert s == [s[0]] + s[1..];
      if s[0] == '\n' {
        assert ([""] + rest)[1..] == rest;
      } else {
        var first := [s[0]] + rest[0];
        assert ([first] + rest[1..])[1..] == rest[1..];
        if |rest| > 1 { Assoc([s[0]], rest[0] + "\n", Join(rest[1..])); Assoc([s[0]], rest[0], "\n"); }
      }
    }
  }

  /** A statement is the text of its group without the white text around it. */
  lemma StatementMeans(g: seq<string>) returns (i: nat, j: nat)
    ensures Stripped(Join(g), i, j) && Statement(g) == Join(g)[i..j]
  {
    i, j := StripMeans(Join(g));
  }
}
