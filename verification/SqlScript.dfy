/**
  The SQL script splitter of `run_migrations.py`: a line scanner that skips blank and comment lines
  outside dollar quotes and ends a statement at a line that ends in a semicolon outside them.
*/
module SqlScript {
  import opened Text

  // ---------------------------------------------------------------- Python's str.strip, split and join

  /** `str.isspace` of one character. */
  predicate IsSpace(c: char) {
    c == ' ' || '\t' <= c <= '\r' || '\U{1C}' <= c <= '\U{1F}' || c == '\U{85}' || c == '\U{A0}' || c == '\U{1680}'
    || '\U{2000}' <= c <= '\U{200A}'
    || c == '\U{2028}' || c == '\U{2029}' || c == '\U{202F}' || c == '\U{205F}' || c == '\U{3000}'
  }

  function LStrip(s: string): (r: string)
    ensures r == "" || !IsSpace(r[0])
  {
    if s != "" && IsSpace(s[0]) then LStrip(s[1..]) else s
  }

  function RStrip(s: string): (r: string)
    ensures r == "" || !IsSpace(r[|r| - 1])
  {
    if s != "" && IsSpace(s[|s| - 1]) then RStrip(s[..|s| - 1]) else s
  }

  function Strip(s: string): string {
    RStrip(LStrip(s))
  }

  function Lines(s: string): (r: seq<string>)
    ensures r != [] && forall l | l in r :: '\n' !in l
  {
    if s == "" then [""]
    else var rest := Lines(s[1..]);
      if s[0] == '\n' then [""] + rest else [[s[0]] + rest[0]] + rest[1..]
  }

  function Join(lines: seq<string>): string {
    if lines == [] then ""
    else if |lines| == 1 then lines[0]
    else lines[0] + "\n" + Join(lines[1..])
  }

  // ---------------------------------------------------------------- the scanner

  type DollarTag = t: string | |t| >= 2 && t[0] == '$' && t[|t| - 1] == '$' witness "$$"
  type Quote = Option<DollarTag>

  datatype Opening = Opening(tag: DollarTag, after: string)
  datatype Effect = Skip | Keep(quote: Quote) | Finish
  datatype Scan = Scan(done: seq<seq<string>>, current: seq<string>, quote: Quote)

  predicate IsWord(c: char) {
    'a' <= c <= 'z' || 'A' <= c <= 'Z' || '0' <= c <= '9' || c == '_'
  }

  function WordLength(s: string): (n: nat)
    ensures n <= |s|
  {
    if s != "" && IsWord(s[0]) then 1 + WordLength(s[1..]) else 0
  }

  /** The leftmost match of `\$[a-zA-Z0-9_]*\$` and the text after it. */
  function OpenTag(line: string): Option<Opening> {
    if line == "" then None
    else
      var n := WordLength(line[1..]) + 1;
      if line[0] == '$' && n < |line| && line[n] == '$' then Some(Opening(line[..n + 1], line[n + 1..]))
      else OpenTag(line[1..])
  }

  predicate Skippable(line: string) {
    var stripped := Strip(line);
    stripped == "" || StartsWith(stripped, "--") || StartsWith(stripped, "/*")
  }

  /** The dollar quote open after a line that is kept. */
  function QuoteAfter(quote: Quote, line: string): Quote {
    match quote
    case Some(tag) => if Contains(line, tag) then None else quote
    case None =>
      match OpenTag(line)
      case Some(o) => if Contains(o.after, o.tag) then None else Some(o.tag)
      case None => None
  }

  function LineEffect(quote: Quote, line: string): Effect {
    if quote.None? && Skippable(line) then Skip
    else if QuoteAfter(quote, line).None? && EndsWith(Strip(line), ";") then Finish
    else Keep(QuoteAfter(quote, line))
  }

  function Feed(s: Scan, line: string): Scan {
    match LineEffect(s.quote, line)
    case Skip => s
    case Keep(q) => Scan(s.done, s.current + [line], q)
    case Finish => Scan(s.done + [s.current + [line]], [], None)
  }

  function Run(s: Scan, lines: seq<string>): Scan
    decreases |lines|
  {
    if lines == [] then s else Run(Feed(s, lines[0]), lines[1..])
  }

  const START := Scan([], [], None)

  /** The line groups of a script, before trimming. */
  function Groups(lines: seq<string>): seq<seq<string>> {
    AllGroups(Run(START, lines))
  }

  function Statement(group: seq<string>): string { Strip(Join(group)) }

  function Statements(groups: seq<seq<string>>): (r: seq<string>)
    ensures |r| == |groups|
    ensures forall i | 0 <= i < |r| :: r[i] == Statement(groups[i])
  {
    seq(|groups|, i requires 0 <= i < |groups| => Statement(groups[i]))
  }

  function Split(sql: string): seq<string> {
    Statements(Groups(Lines(sql)))
  }

  method SplitSqlStatements(sql: string) returns (statements: seq<string>)
    ensures statements == Split(sql)
  {
    statements := [];
    var current: seq<string> := [];
    var inDollarQuote := false;
    var dollarTag: string := "";
    var lines := Lines(sql);
    ghost var s := START;
    hide Run, Strip, Join, OpenTag, Find, Unfinished, Terminated, Lines;
    assert lines[0..] == lines;
    StartWellFormed();
    for i := 0 to |lines|
      invariant Run(s, lines[i..]) == Run(START, lines)
      invariant WellFormed(s) && statements == Statements(s.done)
      invariant current == s.current && inDollarQuote == s.quote.Some? && (inDollarQuote ==> s.quote.value == dollarTag)
    {
      var line := lines[i];
      var stripped := Strip(line);
      RunStep(s, lines[i..]);
      assert lines[i..][1..] == lines[i + 1..];
      WellFormedStep(s, line);
      ghost var before := s;
      s := Feed(s, line);
      if !inDollarQuote && (stripped == "" || StartsWith(stripped, "--") || StartsWith(stripped, "/*")) {
        continue;
      }
      current := current + [line];
      if !inDollarQuote {
        var open := OpenTag(line);
        if open.Some? {
          if Contains(open.value.after, open.value.tag) {
            if EndsWith(stripped, ";") {
              var stmt := Strip(Join(current));
              if stmt != "" { statements := statements + [stmt]; }
              current := [];
            }
          } else {
            inDollarQuote := true;
            dollarTag := open.value.tag;
          }
        } else if EndsWith(stripped, ";") {
          var stmt := Strip(Join(current));
          if stmt != "" { statements := statements + [stmt]; }
          current := [];
        }
      } else {
        if Contains(line, dollarTag) {
          inDollarQuote := false;
          dollarTag := "";
          if EndsWith(stripped, ";") {
            var stmt := Strip(Join(current));
            if stmt != "" { statements := statements + [stmt]; }
            current := [];
          }
        }
      }
    }
    assert lines[|lines|..] == [];
    RunNone(s);
    if current != [] {
      UnfinishedNonempty(current);
      var stmt := Strip(Join(current));
      if stmt != "" { statements := statements + [stmt]; }
    }
  }

  lemma StartWellFormed()
    ensures WellFormed(START) && Statements(START.done) == []
  {}

  lemma RunNone(s: Scan)
    ensures Run(s, []) == s
  {}

  lemma RunStep(s: Scan, lines: seq<string>)
    requires lines != []
    ensures Run(s, lines) == Run(Feed(s, lines[0]), lines[1..])
  {}

  // ---------------------------------------------------------------- the shape of a group

  /** Every line is kept, and the last one, alone, ends the statement. */
  predicate Terminated(quote: Quote, g: seq<string>)
    decreases |g|
  {
    g != [] &&
    match LineEffect(quote, g[0])
    case Skip => false
    case Keep(q) => Terminated(q, g[1..])
    case Finish => |g| == 1
  }

  /** Every line is kept and none ends the statement. */
  predicate Unfinished(quote: Quote, g: seq<string>)
    decreases |g|
  {
    g != [] ==> var e := LineEffect(quote, g[0]); e.Keep? && Unfinished(e.quote, g[1..])
  }

  /** The dollar quote open at the end of a group. */
  function QuoteAtEnd(quote: Quote, g: seq<string>): Quote
    decreases |g|
  {
    if g == [] then quote else QuoteAtEnd(QuoteAfter(quote, g[0]), g[1..])
  }

  lemma {:induction false} Snoc(quote: Quote, g: seq<string>, line: string)
    requires Unfinished(quote, g)
    ensures QuoteAtEnd(quote, g + [line]) == QuoteAfter(QuoteAtEnd(quote, g), line)
    ensures Unfinished(quote, g + [line]) <==> LineEffect(QuoteAtEnd(quote, g), line).Keep?
    ensures Terminated(quote, g + [line]) <==> LineEffect(QuoteAtEnd(quote, g), line).Finish?
    decreases |g|
  {
    if g == [] {
      assert [line][1..] == [];
    } else {
      assert (g + [line])[1..] == g[1..] + [line];
      Snoc(LineEffect(quote, g[0]).quote, g[1..], line);
    }
  }

  /** What holds between any two lines of the scan. */
  predicate WellFormed(s: Scan) {
    && (forall g | g in s.done :: Terminated(None, g) && Statement(g) != "")
    && Unfinished(None, s.current) && s.quote == QuoteAtEnd(None, s.current)
  }

  lemma WellFormedStep(s: Scan, line: string)
    requires WellFormed(s)
    ensures WellFormed(Feed(s, line))
    ensures LineEffect(s.quote, line).Finish? ==> Statement(s.current + [line]) != ""
  {
    Snoc(None, s.current, line);
    if LineEffect(s.quote, line).Finish? { TerminatedNonempty(s.current + [line]); }
  }

  lemma {:induction false} RunWellFormed(s: Scan, lines: seq<string>)
    requires WellFormed(s)
    ensures WellFormed(Run(s, lines))
    decreases |lines|
  {
    if lines == [] {
    } else {
      WellFormedStep(s, lines[0]);
      RunWellFormed(Feed(s, lines[0]), lines[1..]);
    }
  }

  // ---------------------------------------------------------------- the splitter partitions the script

  function Flatten(groups: seq<seq<string>>): seq<string> {
    if groups == [] then [] else groups[0] + Flatten(groups[1..])
  }

  /** The kept lines: all but the blank and comment lines met outside a dollar quote. */
  function Kept(quote: Quote, lines: seq<string>): seq<string>
    decreases |lines|
  {
    if lines == [] then []
    else if quote.None? && Skippable(lines[0]) then Kept(quote, lines[1..])
    else [lines[0]] + Kept(QuoteAfter(quote, lines[0]), lines[1..])
  }

  lemma FlattenSnoc(groups: seq<seq<string>>, g: seq<string>)
    ensures Flatten(groups + [g]) == Flatten(groups) + g
  {
    if groups == [] {
      assert [g][1..] == [];
    } else {
      assert (groups + [g])[1..] == groups[1..] + [g];
      FlattenSnoc(groups[1..], g);
    }
  }

  lemma {:induction false} RunKeeps(s: Scan, lines: seq<string>)
    ensures var r := Run(s, lines);
            Flatten(r.done) + r.current == (Flatten(s.done) + s.current) + Kept(s.quote, lines)
    decreases |lines|
  {
    if lines == [] {
    } else {
      var line := lines[0];
      RunKeeps(Feed(s, line), lines[1..]);
      if !LineEffect(s.quote, line).Skip? {
        FlattenSnoc(s.done, s.current + [line]);
        Assoc(Flatten(s.done), s.current, [line]);
        Assoc(Flatten(s.done) + s.current, [line], Kept(QuoteAfter(s.quote, line), lines[1..]));
        assert Flatten(s.done + [s.current + [line]]) + [] == Flatten(s.done) + (s.current + [line]);
      }
    }
  }

  /** Groups that concatenate to the lines given, each complete, but for a last one that may run on. */
  predicate Partition(groups: seq<seq<string>>, lines: seq<string>) {
    && Flatten(groups) == lines
    && (forall i | 0 <= i < |groups| - 1 :: Terminated(None, groups[i]))
    && (groups != [] ==> var last := groups[|groups| - 1];
                         Terminated(None, last) || (last != [] && Unfinished(None, last)))
  }

  /**
    A line that is kept leaves its quote open or has no final semicolon; one that ends the statement has both
    otherwise.
  */
  lemma EffectMeans(quote: Quote, line: string)
    ensures var e := LineEffect(quote, line);
            && (e.Keep? ==> e.quote == QuoteAfter(quote, line) && (e.quote.Some? || !EndsWith(Strip(line), ";")))
            && (e.Finish? ==> QuoteAfter(quote, line).None? && EndsWith(Strip(line), ";"))
  {
  }

  lemma HeadOfTail(g: seq<string>, i: nat)
    requires 0 < i <= |g|
    ensures g[..i][0] == g[0] && g[..i][1..] == g[1..][..i - 1] && (i == 1 ==> g[..i][1..] == [])
  {
  }

  /** A complete group ends in a semicolon, outside every dollar quote, and no shorter prefix does. */
  lemma {:induction false} TerminatedMeans(quote: Quote, g: seq<string>)
    requires Terminated(quote, g)
    ensures EndsWith(Strip(g[|g| - 1]), ";") && QuoteAtEnd(quote, g).None?
    ensures forall i | 0 < i < |g| :: QuoteAtEnd(quote, g[..i]).Some? || !EndsWith(Strip(g[i - 1]), ";")
    decreases |g|
  {
    var e := LineEffect(quote, g[0]);
    EffectMeans(quote, g[0]);
    hide LineEffect, QuoteAfter, Strip, EndsWith;
    if e.Keep? {
      TerminatedMeans(e.quote, g[1..]);
      forall i | 0 < i < |g| ensures QuoteAtEnd(quote, g[..i]).Some? || !EndsWith(Strip(g[i - 1]), ";") {
        HeadOfTail(g, i);
        if i > 1 { assert g[1..][i - 2] == g[i - 1]; }
      }
    } else {
      assert g[1..] == [];
    }
  }

  lemma SplitPartitions(lines: seq<string>)
    ensures Partition(Groups(lines), Kept(None, lines))
    ensures forall g | g in Groups(lines) :: Statement(g) != ""
  {
    var s := Run(START, lines);
    RunWellFormed(START, lines);
    RunKeeps(START, lines);
    FlattenSnoc(s.done, s.current);
    assert Flatten(START.done) + START.current == [];
    if s.current != [] { UnfinishedNonempty(s.current); }
    else { assert Flatten(s.done) + s.current == Flatten(s.done); }
  }

  // ---------------------------------------------------------------- ... and is the only one

  lemma {:induction false} RunTerminated(s: Scan, g: seq<string>, rest: seq<string>)
    requires Terminated(s.quote, g)
    ensures Run(s, g + rest) == Run(Scan(s.done + [s.current + g], [], None), rest)
    decreases |g|
  {
    hide LineEffect;
    Uncons(g, rest);
    var e := LineEffect(s.quote, g[0]);
    if e.Keep? {
      RunTerminated(Feed(s, g[0]), g[1..], rest);
      Shift(s.current, g);
    } else {
      assert g == [g[0]] && g[1..] + rest == rest;
    }
  }

  lemma {:induction false} RunUnfinished(s: Scan, g: seq<string>)
    requires Unfinished(s.quote, g)
    ensures var r := Run(s, g); r.done == s.done && r.current == s.current + g
    decreases |g|
  {
    if g != [] {
      RunUnfinished(Feed(s, g[0]), g[1..]);
      Shift(s.current, g);
    } else { assert s.current + g == s.current; }
  }

  /** The groups a scan ends with, its unfinished one included. */
  function AllGroups(s: Scan): seq<seq<string>> {
    if s.current == [] then s.done else s.done + [s.current]
  }

  lemma {:induction false} PartitionIsGroups(done: seq<seq<string>>, groups: seq<seq<string>>)
    requires Partition(groups, Flatten(groups))
    ensures AllGroups(Run(Scan(done, [], None), Flatten(groups))) == done + groups
    decreases |groups|
  {
    hide Run, Terminated, Unfinished;
    if groups == [] {
      RunNone(Scan(done, [], None));
      assert done + groups == done;
    } else {
      var g, rest := groups[0], groups[1..];
      if Terminated(None, g) {
        RunTerminated(Scan(done, [], None), g, Flatten(rest));
        assert [] + g == g;
        assert rest != [] ==> rest[|rest| - 1] == groups[|groups| - 1];
        PartitionIsGroups(done + [g], rest);
        assert (done + [g]) + rest == done + groups;
      } else {
        assert rest == [] && g + [] == g && [] + g == g && groups == [g];
        RunUnfinished(Scan(done, [], None), g);
      }
    }
  }

  // ---------------------------------------------------------------- whitespace around a line does not matter

  lemma {:induction false} RStripAppend(x: string, y: string)
    ensures RStrip(x + y) == if RStrip(y) == "" then RStrip(x) else x + RStrip(y)
    decreases |y|
  {
    if y == "" {
      assert x + y == x;
    } else if IsSpace(y[|y| - 1]) {
      assert (x + y)[..|x + y| - 1] == x + y[..|y| - 1];
      RStripAppend(x, y[..|y| - 1]);
    }
  }

  lemma {:induction false} LStripAppend(x: string, y: string)
    ensures LStrip(x + y) == if LStrip(x) == "" then LStrip(y) else LStrip(x) + y
    decreases |x|
  {
    if x == "" {
      assert x + y == y;
    } else {
      assert (x + y)[1..] == x[1..] + y;
      if IsSpace(x[0]) { LStripAppend(x[1..], y); }
    }
  }

  /** Stripping one side first changes nothing, both sides see a blank line, and stripping is idempotent. */
  lemma StripTwice(s: string)
    ensures Strip(LStrip(s)) == Strip(s) && Strip(RStrip(s)) == Strip(s)
    ensures LStrip(s) == "" <==> Strip(s) == ""
    ensures RStrip(s) == "" <==> Strip(s) == ""
    ensures Strip(Strip(s)) == Strip(s)
  {
    hide LStrip, RStrip;
    var l, r := LStrip(s), RStrip(s);
    LStripFixed(l);
    RStripFixed(r);
    StripCommutes(s);
    StripCommutes(r);
    BlankSides(l);
    BlankSides(r);
    LStripFixed(Strip(s));
    RStripFixed(Strip(s));
  }

  lemma BlankSides(s: string)
    ensures (s == "" || !IsSpace(s[0])) && RStrip(s) == "" ==> s == ""
    ensures (s == "" || !IsSpace(s[|s| - 1])) && LStrip(s) == "" ==> s == ""
    ensures LStrip("") == "" && RStrip("") == ""
  {
    if RStrip(s) == "" { RStripBlank(s); }
    if LStrip(s) == "" { LStripBlank(s); }
  }

  lemma LStripFixed(s: string)
    requires s == "" || !IsSpace(s[0])
    ensures LStrip(s) == s
  {}

  lemma RStripFixed(s: string)
    requires s == "" || !IsSpace(s[|s| - 1])
    ensures RStrip(s) == s
  {}

  lemma {:induction false} RStripPrefix(s: string)
    ensures |RStrip(s)| <= |s| && s[..|RStrip(s)|] == RStrip(s)
    decreases |s|
  {
    if s == "" || !IsSpace(s[|s| - 1]) {
    } else {
      RStripPrefix(s[..|s| - 1]);
      assert s[..|s| - 1][..|RStrip(s)|] == s[..|RStrip(s)|];
    }
  }

  lemma {:induction false} RStripBlank(s: string)
    requires RStrip(s) == ""
    ensures forall c | c in s :: IsSpace(c)
    decreases |s|
  {
    if s == "" {
    } else {
      RStripBlank(s[..|s| - 1]);
      assert s == s[..|s| - 1] + [s[|s| - 1]];
    }
  }

  lemma {:induction false} LStripBlank(s: string)
    requires LStrip(s) == ""
    ensures forall c | c in s :: IsSpace(c)
    decreases |s|
  {
    if s == "" {
    } else {
      LStripBlank(s[1..]);
      assert s == [s[0]] + s[1..];
    }
  }

  lemma {:induction false} StripCommutes(s: string)
    ensures RStrip(LStrip(s)) == LStrip(RStrip(s))
    decreases |s|
  {
    if s != "" && IsSpace(s[0]) {
      StripCommutes(s[1..]);
      assert s == [s[0]] + s[1..];
      RStripAppend([s[0]], s[1..]);
      assert RStrip([s[0]]) == "" by { assert [s[0]][..0] == ""; }
      if RStrip(s[1..]) != "" { assert ([s[0]] + RStrip(s[1..]))[1..] == RStrip(s[1..]); }
    } else if s != "" {
      RStripPrefix(s);
      if RStrip(s) == "" { RStripBlank(s); }
      LStripFixed(RStrip(s));
    }
  }

  lemma ContainsFront(c: char, s: string, t: DollarTag)
    requires c != '$'
    ensures Contains([c] + s, t) == Contains(s, t)
  {
    var w := [c] + s;
    if Contains(w, t) {
      var i := Find(w, t).value;
      assert w[i] == w[i..i + |t|][0] == '$';
      assert s[i - 1..i - 1 + |t|] == w[i..i + |t|];
      ContainsAt(s, t, i - 1);
    }
    if Contains(s, t) {
      var i := Find(s, t).value;
      assert w[i + 1..i + 1 + |t|] == s[i..i + |t|];
      ContainsAt(w, t, i + 1);
    }
  }

  lemma ContainsBack(s: string, c: char, t: DollarTag)
    requires c != '$'
    ensures Contains(s + [c], t) == Contains(s, t)
  {
    var w := s + [c];
    if Contains(w, t) {
      var i := Find(w, t).value;
      assert w[i + |t| - 1] == w[i..i + |t|][|t| - 1] == '$';
      assert s[i..i + |t|] == w[i..i + |t|];
      ContainsAt(s, t, i);
    }
    if Contains(s, t) {
      var i := Find(s, t).value;
      assert w[i..i + |t|] == s[i..i + |t|];
      ContainsAt(w, t, i);
    }
  }

  lemma {:induction false} WordLengthBack(s: string, c: char)
    requires IsSpace(c)
    ensures WordLength(s + [c]) == WordLength(s)
    decreases |s|
  {
    if s == "" {
    } else {
      assert (s + [c])[1..] == s[1..] + [c];
      WordLengthBack(s[1..], c);
    }
  }

  lemma {:induction false} OpenTagBack(s: string, c: char)
    requires IsSpace(c)
    ensures OpenTag(s + [c]) == match OpenTag(s)
                                case None => None
                                case Some(o) => Some(Opening(o.tag, o.after + [c]))
    decreases |s|
  {
    if s == "" {
      assert ([] + [c])[1..] == "";
    } else {
      assert (s + [c])[1..] == s[1..] + [c];
      WordLengthBack(s[1..], c);
      var n := WordLength(s[1..]) + 1;
      if s[0] == '$' && n < |s| && s[n] == '$' {
        assert (s + [c])[..n + 1] == s[..n + 1] && (s + [c])[n + 1..] == s[n + 1..] + [c];
      } else {
        OpenTagBack(s[1..], c);
      }
    }
  }

  lemma QuoteAfterPad(quote: Quote, line: string, c: char)
    requires IsSpace(c)
    ensures QuoteAfter(quote, [c] + line) == QuoteAfter(quote, line)
    ensures QuoteAfter(quote, line + [c]) == QuoteAfter(quote, line)
  {
    hide Contains;
    assert ([c] + line)[1..] == line;
    OpenTagBack(line, c);
    match quote
    case Some(tag) => ContainsFront(c, line, tag); ContainsBack(line, c, tag);
    case None =>
      match OpenTag(line)
      case Some(o) => ContainsBack(o.after, c, o.tag);
      case None =>
  }

  lemma {:induction false} QuoteAfterLStrip(quote: Quote, line: string)
    ensures QuoteAfter(quote, LStrip(line)) == QuoteAfter(quote, line)
    decreases |line|
  {
    hide QuoteAfter;
    if line == "" || !IsSpace(line[0]) {
    } else {
      assert line == [line[0]] + line[1..];
      QuoteAfterPad(quote, line[1..], line[0]);
      QuoteAfterLStrip(quote, line[1..]);
    }
  }

  lemma {:induction false} QuoteAfterRStrip(quote: Quote, line: string)
    ensures QuoteAfter(quote, RStrip(line)) == QuoteAfter(quote, line)
    decreases |line|
  {
    hide QuoteAfter;
    if line == "" || !IsSpace(line[|line| - 1]) {
    } else {
      assert line == line[..|line| - 1] + [line[|line| - 1]];
      QuoteAfterPad(quote, line[..|line| - 1], line[|line| - 1]);
      QuoteAfterRStrip(quote, line[..|line| - 1]);
    }
  }

  lemma EffectOfStripped(quote: Quote, line: string)
    ensures LineEffect(quote, LStrip(line)) == LineEffect(quote, line)
    ensures LineEffect(quote, RStrip(line)) == LineEffect(quote, line)
  {
    hide QuoteAfter, Strip, LStrip, RStrip;
    QuoteAfterLStrip(quote, line);
    QuoteAfterRStrip(quote, line);
    StripTwice(line);
  }

  // ---------------------------------------------------------------- trimming a group, line by line

  function TrimHead(g: seq<string>): seq<string> {
    if g == [] then [] else [LStrip(g[0])] + g[1..]
  }

  /** Drop trailing blank lines, then trailing blanks of the last line. */
  function TrimTail(g: seq<string>): seq<string> {
    if g == [] then []
    else
      var n := |g| - 1;
      if n > 0 && RStrip(g[n]) == "" then TrimTail(g[..n]) else g[..n] + [RStrip(g[n])]
  }

  function Trim(g: seq<string>): seq<string> { TrimTail(TrimHead(g)) }

  lemma {:induction false} JoinSnoc(g: seq<string>, line: string)
    requires g != []
    ensures Join(g + [line]) == Join(g) + ("\n" + line)
    decreases |g|
  {
    if |g| == 1 {
      assert (g + [line])[1..] == [line] && g[0] + "\n" + line == g[0] + ("\n" + line);
    } else {
      assert (g + [line])[1..] == g[1..] + [line];
      JoinSnoc(g[1..], line);
      Assoc(g[0] + "\n", Join(g[1..]), "\n" + line);
    }
  }

  lemma JoinTrimHead(g: seq<string>)
    requires g != [] && LStrip(g[0]) != ""
    ensures LStrip(Join(g)) == Join(TrimHead(g))
  {
    if |g| > 1 {
      assert TrimHead(g)[1..] == g[1..];
      Assoc(g[0], "\n", Join(g[1..]));
      Assoc(LStrip(g[0]), "\n", Join(g[1..]));
      LStripAppend(g[0], "\n" + Join(g[1..]));
    }
  }

  lemma {:induction false} JoinTrimTail(g: seq<string>)
    requires g != []
    ensures RStrip(Join(g)) == Join(TrimTail(g))
    decreases |g|
  {
    var n := |g| - 1;
    if n > 0 {
      var init, last := g[..n], g[n];
      assert g == init + [last];
      JoinSnoc(init, last);
      RStripAppend(Join(init), "\n" + last);
      RStripAppend("\n", last);
      assert RStrip("\n") == "" by { assert "\n"[..0] == ""; }
      if RStrip(last) == "" {
        JoinTrimTail(init);
      } else {
        JoinSnoc(init, RStrip(last));
      }
    }
  }

  lemma {:induction false} LinesOfJoin(g: seq<string>)
    requires g != [] && forall l | l in g :: '\n' !in l
    ensures Lines(Join(g)) == g
    decreases |g|
  {
    LinesOfOne(g[0]);
    if |g| == 1 {
      assert g == [g[0]];
    } else {
      LinesOfJoin(g[1..]);
      LinesAppend(g[0], Join(g[1..]));
      assert g == [g[0]] + g[1..];
    }
  }

  lemma {:induction false} LinesOfOne(l: string)
    requires '\n' !in l
    ensures Lines(l) == [l]
    decreases |l|
  {
    if l == "" {
    } else {
      LinesOfOne(l[1..]);
      assert l == [l[0]] + l[1..];
    }
  }

  lemma {:induction false} LinesAppend(a: string, b: string)
    ensures Lines(a + "\n" + b) == Lines(a) + Lines(b)
    decreases |a|
  {
    var s := a + "\n" + b;
    if a == "" {
      assert s[0] == '\n' && s[1..] == b;
    } else {
      Uncons(a, "\n");
      Uncons(a + "\n", b);
      LinesAppend(a[1..], b);
      Uncons(Lines(a[1..]), Lines(b));
    }
  }

  lemma {:induction false} TrimTailNoNewline(g: seq<string>)
    requires forall l | l in g :: '\n' !in l
    ensures forall l | l in TrimTail(g) :: '\n' !in l
    ensures g != [] ==> TrimTail(g) != []
    decreases |g|
  {
    if g == [] {
    } else {
      var n := |g| - 1;
      TrimTailNoNewline(g[..n]);
      RStripPrefix(g[n]);
      assert g[n] in g;
    }
  }

  lemma {:induction false} LStripSuffix(s: string)
    ensures forall c | c in LStrip(s) :: c in s
    decreases |s|
  {
    if s == "" || !IsSpace(s[0]) {
    } else {
      LStripSuffix(s[1..]);
    }
  }

  /** Splitting the text of a statement gives the group trimmed line by line. */
  lemma LinesOfStatement(g: seq<string>)
    requires g != [] && LStrip(g[0]) != "" && forall l | l in g :: '\n' !in l
    ensures Lines(Statement(g)) == Trim(g) && Statement(g) == Join(Trim(g))
  {
    JoinTrimHead(g);
    JoinTrimTail(TrimHead(g));
    LStripSuffix(g[0]);
    assert g[0] in g;
    TrimTailNoNewline(TrimHead(g));
    LinesOfJoin(Trim(g));
  }

  lemma FirstLine(g: seq<string>)
    requires g != [] && (Terminated(None, g) || Unfinished(None, g))
    ensures LStrip(g[0]) != ""
  {
    StripTwice(g[0]);
  }

  lemma TerminatedNonempty(g: seq<string>)
    requires Terminated(None, g)
    ensures Statement(g) != ""
  {
    FirstLine(g);
    TextNonempty(g);
  }

  lemma UnfinishedNonempty(g: seq<string>)
    requires g != [] && Unfinished(None, g)
    ensures Statement(g) != ""
  {
    FirstLine(g);
    TextNonempty(g);
  }

  lemma TextNonempty(g: seq<string>)
    requires g != [] && LStrip(g[0]) != ""
    ensures Statement(g) != ""
  {
    JoinTrimHead(g);
    var j := Join(TrimHead(g));
    StripTwice(Join(g));
    assert TrimHead(g)[0] != "";
    assert |j| >= |TrimHead(g)[0]|;
  }

  /** Trimming the first line changes no effect, hence no shape. */
  lemma TrimHeadShape(g: seq<string>)
    ensures Terminated(None, TrimHead(g)) == Terminated(None, g)
    ensures Unfinished(None, TrimHead(g)) == Unfinished(None, g)
  {
    if g != [] {
      hide LineEffect;
      EffectOfStripped(None, g[0]);
      assert TrimHead(g)[1..] == g[1..];
    }
  }

  lemma {:induction false} ReplaceLast(quote: Quote, init: seq<string>, last: string)
    ensures Terminated(quote, init + [RStrip(last)]) == Terminated(quote, init + [last])
    ensures Unfinished(quote, init + [RStrip(last)]) == Unfinished(quote, init + [last])
    decreases |init|
  {
    hide LineEffect;
    if init == [] {
      EffectOfStripped(quote, last);
      assert ([] + [last])[1..] == [] && ([] + [RStrip(last)])[1..] == [];
    } else {
      assert (init + [last])[1..] == init[1..] + [last];
      assert (init + [RStrip(last)])[1..] == init[1..] + [RStrip(last)];
      var e := LineEffect(quote, init[0]);
      if e.Keep? { ReplaceLast(e.quote, init[1..], last); }
    }
  }

  lemma {:induction false} UnfinishedPrefix(quote: Quote, g: seq<string>, n: nat)
    requires Unfinished(quote, g) && n <= |g|
    ensures Unfinished(quote, g[..n])
    decreases n
  {
    if n == 0 {
    } else {
      assert g[..n][1..] == g[1..][..n - 1];
      UnfinishedPrefix(LineEffect(quote, g[0]).quote, g[1..], n - 1);
    }
  }

  lemma {:induction false} TrimTailShape(g: seq<string>)
    requires g != []
    ensures Terminated(None, g) ==> Terminated(None, TrimTail(g))
    ensures Unfinished(None, g) ==> Unfinished(None, TrimTail(g))
    decreases |g|
  {
    var n := |g| - 1;
    assert g == g[..n] + [g[n]];
    ReplaceLast(None, g[..n], g[n]);
    if n == 0 || RStrip(g[n]) != "" {
    } else {
      StripTwice(g[n]);
      if Terminated(None, g) { TerminatedMeans(None, g); assert false; }
      if Unfinished(None, g) { UnfinishedPrefix(None, g, n); }
      TrimTailShape(g[..n]);
    }
  }

  // ---------------------------------------------------------------- re-splitting is the identity

  function Trimmed(groups: seq<seq<string>>): (r: seq<seq<string>>)
    ensures |r| == |groups| && forall i | 0 <= i < |r| :: r[i] == Trim(groups[i])
  {
    seq(|groups|, i requires 0 <= i < |groups| => Trim(groups[i]))
  }

  lemma {:induction false} LinesOfStatements(groups: seq<seq<string>>)
    requires groups != []
    requires forall g | g in groups :: g != [] && LStrip(g[0]) != "" && forall l | l in g :: '\n' !in l
    ensures Lines(Join(Statements(groups))) == Flatten(Trimmed(groups))
    decreases |groups|
  {
    hide Lines, Join, Strip, LStrip, Trim;
    var g, rest := groups[0], groups[1..];
    var stmts := Statements(groups);
    assert g in groups && forall h | h in rest :: h in groups;
    LinesOfStatement(g);
    assert Trimmed(groups)[1..] == Trimmed(rest) && stmts[1..] == Statements(rest);
    assert Flatten([]) == [];
    if rest == [] {
      JoinOne(stmts);
      assert Trim(g) + [] == Trim(g);
    } else {
      JoinCons(stmts);
      LinesOfStatements(rest);
      LinesAppend(stmts[0], Join(stmts[1..]));
    }
  }

  lemma JoinOne(lines: seq<string>)
    requires |lines| == 1
    ensures Join(lines) == lines[0]
  {}

  lemma JoinCons(lines: seq<string>)
    requires |lines| > 1
    ensures Join(lines) == lines[0] + "\n" + Join(lines[1..])
  {}

  lemma {:induction false} FlattenMembers(groups: seq<seq<string>>, g: seq<string>, l: string)
    requires g in groups && l in g
    ensures l in Flatten(groups)
    decreases |groups|
  {
    if g == groups[0] {
    } else {
      FlattenMembers(groups[1..], g, l);
    }
  }

  lemma {:induction false} KeptMembers(quote: Quote, lines: seq<string>)
    ensures forall l | l in Kept(quote, lines) :: l in lines
    decreases |lines|
  {
    if lines == [] {
    } else {
      KeptMembers(quote, lines[1..]);
      KeptMembers(QuoteAfter(quote, lines[0]), lines[1..]);
    }
  }

  /** What a group of a script looks like, and what trimming leaves of it. */
  predicate Shaped(g: seq<string>) {
    && g != [] && LStrip(g[0]) != "" && (forall l | l in g :: '\n' !in l)
    && (Terminated(None, g) ==> Terminated(None, Trim(g)))
    && (Unfinished(None, g) ==> Trim(g) != [] && Unfinished(None, Trim(g)))
    && Statement(Trim(g)) == Statement(g)
  }

  lemma GroupFacts(lines: seq<string>, i: nat)
    requires i < |Groups(lines)| && forall l | l in lines :: '\n' !in l
    ensures Shaped(Groups(lines)[i])
  {
    hide Statement, LineEffect, Strip, Groups;
    var g := Groups(lines)[i];
    SplitPartitions(lines);
    KeptMembers(None, lines);
    forall l | l in g ensures '\n' !in l { FlattenMembers(Groups(lines), g, l); }
    FirstLine(g);
    TrimHeadShape(g);
    TrimTailShape(TrimHead(g));
    LStripSuffix(g[0]);
    assert g[0] in g;
    TrimTailNoNewline(TrimHead(g));
    StatementOfTrim(g);
  }

  lemma StatementOfTrim(g: seq<string>)
    requires g != [] && LStrip(g[0]) != "" && forall l | l in g :: '\n' !in l
    ensures Statement(Trim(g)) == Statement(g)
  {
    LinesOfStatement(g);
    StripTwice(Join(g));
  }

  /** Splitting the statements of a script, joined by newlines, gives the same statements. */
  lemma ResplitIsIdentity(sql: string)
    ensures Split(Join(Split(sql))) == Split(sql)
  {
    var groups := Groups(Lines(sql));
    if groups == [] {
      assert Skippable("") && [""][1..] == [];
    } else {
      TrimmedPartition(Lines(sql));
      hide Lines, Join, Flatten, Groups, Statement, Trimmed;
      assert forall i | 0 <= i < |groups| :: Shaped(groups[i]);
      LinesOfStatements(groups);
    }
  }

  lemma GroupsAre(lines: seq<string>)
    ensures Groups(lines) == AllGroups(Run(Scan([], [], None), lines))
  {}

  predicate AllShaped(gs: seq<seq<string>>) { forall i | 0 <= i < |gs| :: Shaped(gs[i]) }

  lemma TrimmedIsPartition(gs: seq<seq<string>>, lines: seq<string>)
    requires AllShaped(gs) && Partition(gs, lines)
    ensures Partition(Trimmed(gs), Flatten(Trimmed(gs))) && Statements(Trimmed(gs)) == Statements(gs)
  {
    hide Flatten, Statement, Terminated, Unfinished, LStrip, Trim;
    forall i | 0 <= i < |gs| ensures Shaped(gs[i]) {}
  }

  /** The trimmed groups of a script are groups again, with the same text. */
  lemma TrimmedPartition(lines: seq<string>)
    requires forall l | l in lines :: '\n' !in l
    ensures var gs := Groups(lines);
            AllShaped(gs) && Groups(Flatten(Trimmed(gs))) == Trimmed(gs) && Statements(Trimmed(gs)) == Statements(gs)
  {
    var gs := Groups(lines);
    hide Groups, Flatten, Statements, Partition, Trimmed, Run, Shaped;
    forall i | 0 <= i < |gs| ensures Shaped(gs[i]) { GroupFacts(lines, i); }
    SplitPartitions(lines);
    TrimmedIsPartition(gs, Kept(None, lines));
    PartitionIsGroups([], Trimmed(gs));
    assert [] + Trimmed(gs) == Trimmed(gs);
    GroupsAre(Flatten(Trimmed(gs)));
  }
}
