/**
  The incremental `<think>` splitter of `streaming.py`.

  `ScanText` is what one pass of the `while text` loop does to a stretch of text, as a list of events
  in which a consumed tag leaves a mark; `Read` is an independent character-level reading of a whole
  stream.  The theorems relate the two over every way of cutting the stream into deltas.
*/
module ThinkTags {
  import opened Text

  const OPEN := "<think>"
  const CLOSE := "</think>"
  const HOLD_LIMIT := 10

  datatype Kind = Content | Reasoning
  datatype Segment = Segment(kind: Kind, text: string)

  /** What the parser did, in order: emitted a segment, or consumed a tag and switched mode. */
  datatype Event = Piece(segment: Segment) | TagOpen | TagClose
  datatype Scan = Scan(events: seq<Event>, inThink: bool, buffer: string)

  function Tag(inThink: bool): string { if inThink then CLOSE else OPEN }
  function KindIn(inThink: bool): Kind { if inThink then Reasoning else Content }
  function Consumed(inThink: bool): Event { if inThink then TagClose else TagOpen }

  function PieceOf(inThink: bool, text: string): seq<Event> {
    if text == "" then [] else [Piece(Segment(KindIn(inThink), text))]
  }

  /** Where the held-back suffix of a tagless stretch starts; `|t|` when nothing is held back. */
  function HeldFrom(inThink: bool, t: string): (h: nat)
    ensures h <= |t| && |t| - h < HOLD_LIMIT
    ensures h < |t| ==> LastIndexOf(t, '<') == Some(h)
  {
    match LastIndexOf(t, '<')
    case None => |t|
    case Some(i) =>
      if (if inThink then Contains(t, "</") else !Contains(t, CLOSE)) && |t| - i < HOLD_LIMIT then i else |t|
  }

  function ScanText(inThink: bool, text: string): Scan
    decreases |text|
  {
    match Find(text, Tag(inThink))
    case Some(i) =>
      var rest := ScanText(!inThink, text[i + |Tag(inThink)|..]);
      Scan(PieceOf(inThink, text[..i]) + [Consumed(inThink)] + rest.events, rest.inThink, rest.buffer)
    case None =>
      var h := HeldFrom(inThink, text);
      Scan(PieceOf(inThink, text[..h]), inThink, text[h..])
  }

  /** One call of `process`: an empty delta returns at once, the buffer otherwise goes in front. */
  function Step(inThink: bool, buffer: string, delta: string): Scan {
    if delta == "" then Scan([], inThink, buffer) else ScanText(inThink, buffer + delta)
  }

  function Emitted(events: seq<Event>): seq<Segment> {
    if events == [] then []
    else (if events[0].Piece? then [events[0].segment] else []) + Emitted(events[1..])
  }

  lemma EmittedAppend(a: seq<Event>, b: seq<Event>)
    ensures Emitted(a + b) == Emitted(a) + Emitted(b)
  {
    if a != [] { assert (a + b)[1..] == a[1..] + b; } else { assert a + b == b; }
  }

  // ---------------------------------------------------------------- nothing lost, nothing invented

  function Raw(events: seq<Event>): string {
    if events == [] then ""
    else (match events[0] case Piece(s) => s.text case TagOpen => OPEN case TagClose => CLOSE) + Raw(events[1..])
  }

  /**
    The events are those of a parser that starts in one mode, ends in the other, and labels every piece by its mode.
  */
  predicate Moded(events: seq<Event>, from: bool, to: bool) {
    if events == [] then from == to
    else match events[0]
      case Piece(s) => s.text != "" && s.kind == KindIn(from) && Moded(events[1..], from, to)
      case TagOpen => !from && Moded(events[1..], true, to)
      case TagClose => from && Moded(events[1..], false, to)
  }

  lemma RawAppend(a: seq<Event>, b: seq<Event>)
    ensures Raw(a + b) == Raw(a) + Raw(b)
  {
    if a != [] { assert (a + b)[1..] == a[1..] + b; } else { assert a + b == b; }
  }

  lemma ModedAppend(a: seq<Event>, b: seq<Event>, from: bool, mid: bool, to: bool)
    requires Moded(a, from, mid) && Moded(b, mid, to)
    ensures Moded(a + b, from, to)
  {
    if a != [] {
      assert (a + b)[1..] == a[1..] + b;
      ModedAppend(a[1..], b, if a[0].TagOpen? then true else if a[0].TagClose? then false else from, mid, to);
    } else { assert a + b == b; }
  }

  lemma TaggedEvents(inThink: bool, text: string, rest: seq<Event>, to: bool)
    ensures var e := PieceOf(inThink, text) + [Consumed(inThink)] + rest;
            && Raw(e) == text + Tag(inThink) + Raw(rest)
            && (Moded(rest, !inThink, to) ==> Moded(e, inThink, to))
  {
    var e := PieceOf(inThink, text) + [Consumed(inThink)] + rest;
    var tagged := [Consumed(inThink)] + rest;
    assert tagged[1..] == rest;
    assert e == if text == "" then tagged else PieceOf(inThink, text) + tagged;
    if text != "" { assert e[1..] == tagged; }
  }

  lemma {:induction false} ScanLossless(inThink: bool, text: string)
    ensures var s := ScanText(inThink, text);
            Raw(s.events) + s.buffer == text && Moded(s.events, inThink, s.inThink)
    decreases |text|
  {
    match Find(text, Tag(inThink))
    case Some(i) =>
      ScanLossless(!inThink, text[i + |Tag(inThink)|..]);
      LosslessTag(inThink, text, i);
    case None =>
      LosslessTail(inThink, text);
  }

  lemma LosslessTail(inThink: bool, text: string)
    requires Find(text, Tag(inThink)).None?
    ensures var s := ScanText(inThink, text);
            Raw(s.events) + s.buffer == text && Moded(s.events, inThink, s.inThink)
  {
    var h := HeldFrom(inThink, text);
    assert text == text[..h] + text[h..];
  }

  lemma LosslessTag(inThink: bool, text: string, i: nat)
    requires Find(text, Tag(inThink)) == Some(i)
    requires var rest := ScanText(!inThink, text[i + |Tag(inThink)|..]);
             Raw(rest.events) + rest.buffer == text[i + |Tag(inThink)|..] && Moded(rest.events, !inThink, rest.inThink)
    ensures var s := ScanText(inThink, text);
            Raw(s.events) + s.buffer == text && Moded(s.events, inThink, s.inThink)
  {
    hide Raw, Moded, HeldFrom, FindFrom, Find;
    var rest := ScanText(!inThink, text[i + |Tag(inThink)|..]);
    var events := PieceOf(inThink, text[..i]) + [Consumed(inThink)] + rest.events;
    assert ScanText(inThink, text) == Scan(events, rest.inThink, rest.buffer);
    hide ScanText, PieceOf;
    TaggedEvents(inThink, text[..i], rest.events, rest.inThink);
    SplitAround(text, i, Tag(inThink));
    hide At;
    Assoc(text[..i] + Tag(inThink), Raw(rest.events), rest.buffer);
  }

  /** The hold-back buffer is short, and a `<` can only be its first character. */
  predicate BufferShape(inThink: bool, buffer: string) {
    |buffer| < HOLD_LIMIT && (buffer == "" || buffer[0] == '<') && (forall j | 0 < j < |buffer| :: buffer[j] != '<')
    && !Contains(buffer, Tag(inThink))
  }

  lemma SuffixHasNo(s: string, t: string, h: nat)
    requires !Contains(s, t) && h <= |s|
    ensures !Contains(s[h..], t)
  {
    match Find(s[h..], t)
    case None =>
    case Some(j) =>
      assert s[h..][j..j + |t|] == s[h + j..h + j + |t|];
      ContainsAt(s, t, h + j);
  }

  lemma {:induction false} ScanBuffer(inThink: bool, text: string)
    ensures var s := ScanText(inThink, text); BufferShape(s.inThink, s.buffer)
    decreases |text|
  {
    hide FindFrom, LastIndexOf;
    match Find(text, Tag(inThink))
    case Some(i) => ScanBuffer(!inThink, text[i + |Tag(inThink)|..]);
    case None =>
      var h := HeldFrom(inThink, text);
      SuffixHasNo(text, Tag(inThink), h);
  }

  /** A whole stream: `process` called on each delta in turn. */
  function Feed(inThink: bool, buffer: string, deltas: seq<string>): Scan
    decreases |deltas|
  {
    if deltas == [] then Scan([], inThink, buffer)
    else
      var s := Step(inThink, buffer, deltas[0]);
      var rest := Feed(s.inThink, s.buffer, deltas[1..]);
      Scan(s.events + rest.events, rest.inThink, rest.buffer)
  }

  lemma StepLossless(inThink: bool, buffer: string, delta: string)
    requires BufferShape(inThink, buffer)
    ensures var s := Step(inThink, buffer, delta);
            && Raw(s.events) + s.buffer == buffer + delta
            && Moded(s.events, inThink, s.inThink)
            && BufferShape(s.inThink, s.buffer)
  {
    if delta != "" {
      ScanLossless(inThink, buffer + delta);
      ScanBuffer(inThink, buffer + delta);
    }
  }

  /** Over any deltas: pieces with the consumed tags put back, then the buffer, are exactly the input. */
  lemma {:induction false} StreamLossless(inThink: bool, buffer: string, deltas: seq<string>)
    requires BufferShape(inThink, buffer)
    ensures var s := Feed(inThink, buffer, deltas);
            && Raw(s.events) + s.buffer == buffer + Concat(deltas)
            && Moded(s.events, inThink, s.inThink)
            && BufferShape(s.inThink, s.buffer)
    decreases |deltas|
  {
    if deltas == [] {
    } else {
      var s := Step(inThink, buffer, deltas[0]);
      StepLossless(inThink, buffer, deltas[0]);
      StreamLossless(s.inThink, s.buffer, deltas[1..]);
      var rest := Feed(s.inThink, s.buffer, deltas[1..]);
      RawAppend(s.events, rest.events);
      ModedAppend(s.events, rest.events, inThink, s.inThink, rest.inThink);
      Regroup(Raw(s.events), Raw(rest.events), rest.buffer, s.buffer, Concat(deltas[1..]), buffer, deltas[0]);
    }
  }

  lemma Regroup(a: string, b: string, c: string, held: string, later: string, buffer: string, delta: string)
    requires a + held == buffer + delta && b + c == held + later
    ensures (a + b) + c == buffer + (delta + later)
  {
    Assoc(a, b, c);
    Assoc(a, held, later);
    Assoc(buffer, delta, later);
  }

  // ---------------------------------------------------------------- chunking does not matter

  type Labels = seq<(Kind, char)>
  datatype Reading = Reading(labels: Labels, inThink: bool)

  /** Reference: read the whole stream one character at a time, switching mode at each expected tag. */
  function Read(inThink: bool, s: string): Reading
    decreases |s|
  {
    if s == "" then Reading([], inThink)
    else if StartsWith(s, Tag(inThink)) then Read(!inThink, s[|Tag(inThink)|..])
    else var r := Read(inThink, s[1..]); Reading([(KindIn(inThink), s[0])] + r.labels, r.inThink)
  }

  function Dye(kind: Kind, s: string): Labels {
    seq(|s|, i requires 0 <= i < |s| => (kind, s[i]))
  }

  function LabelsOf(events: seq<Event>): Labels {
    if events == [] then []
    else (if events[0].Piece? then Dye(events[0].segment.kind, events[0].segment.text) else []) + LabelsOf(events[1..])
  }

  /** What a parser has labelled so far, its pending buffer counted in its current mode. */
  function Labelled(s: Scan): Reading {
    Reading(LabelsOf(s.events) + Dye(KindIn(s.inThink), s.buffer), s.inThink)
  }

  lemma LabelsAppend(a: seq<Event>, b: seq<Event>)
    ensures LabelsOf(a + b) == LabelsOf(a) + LabelsOf(b)
  {
    if a != [] { assert (a + b)[1..] == a[1..] + b; } else { assert a + b == b; }
  }

  lemma DyeAppend(kind: Kind, a: string, b: string)
    ensures Dye(kind, a + b) == Dye(kind, a) + Dye(kind, b)
  {}

  lemma AtShift(s: string, j: nat, t: string)
    requires s != ""
    ensures At(s[1..], j, t) <==> At(s, j + 1, t)
  {
    if j + 1 + |t| <= |s| { assert s[1..][j..j + |t|] == s[j + 1..j + 1 + |t|]; }
  }

  lemma DyeStep(kind: Kind, s: string, k: nat)
    requires 0 < k <= |s|
    ensures Dye(kind, s[..k]) == [(kind, s[0])] + Dye(kind, s[1..][..k - 1])
    ensures s[1..][k - 1..] == s[k..]
  {}

  /** Text before which no expected tag starts is labelled in the current mode. */
  lemma {:induction false} ReadSkip(inThink: bool, s: string, k: nat)
    requires k <= |s| && forall j | 0 <= j < k :: !At(s, j, Tag(inThink))
    ensures Read(inThink, s) == Reading(Dye(KindIn(inThink), s[..k]) + Read(inThink, s[k..]).labels,
        Read(inThink, s[k..]).inThink)
    decreases k
  {
    if k == 0 {
      assert s[k..] == s;
    } else {
      assert !At(s, 0, Tag(inThink));
      forall j | 0 <= j < k - 1 ensures !At(s[1..], j, Tag(inThink)) { AtShift(s, j, Tag(inThink)); }
      ReadSkip(inThink, s[1..], k - 1);
      DyeStep(KindIn(inThink), s, k);
      Assoc([(KindIn(inThink), s[0])], Dye(KindIn(inThink), s[1..][..k - 1]), Read(inThink, s[k..]).labels);
    }
  }

  lemma ReadTag(inThink: bool, s: string, i: nat)
    requires Find(s, Tag(inThink)) == Some(i)
    ensures var r := Read(!inThink, s[i + |Tag(inThink)|..]);
            Read(inThink, s) == Reading(Dye(KindIn(inThink), s[..i]) + r.labels, r.inThink)
  {
    FindLeast(s, Tag(inThink));
    ReadSkip(inThink, s, i);
    assert At(s[i..], 0, Tag(inThink));
    assert s[i..][|Tag(inThink)|..] == s[i + |Tag(inThink)|..];
  }

  /** The tagless stretch a scan ends in. */
  function Stretch(inThink: bool, text: string): string
    decreases |text|
  {
    match Find(text, Tag(inThink))
    case Some(i) => Stretch(!inThink, text[i + |Tag(inThink)|..])
    case None => text
  }

  /**
    The two ways a cut can tear a tag whose head has already been emitted: a closing tag cut right
    after its `<` when the stretch holds no other `</`, and an opening tag cut anywhere when the
    content stretch holds a stray closing tag.
  */
  predicate Torn(inThink: bool, stretch: string, next: string) {
    if inThink then
      !Contains(stretch, "</") && EndsWith(stretch, CLOSE[..1]) && StartsWith(next, CLOSE[1..])
    else
      && Contains(stretch, CLOSE)
      && exists k | 1 <= k < |OPEN| :: EndsWith(stretch, OPEN[..k]) && StartsWith(next, OPEN[k..])
  }

  lemma TagInterior(inThink: bool)
    ensures Tag(inThink)[0] == '<' && forall i | 0 < i < |Tag(inThink)| :: Tag(inThink)[i] != '<'
  {}

  /** The two halves of an occurrence that crosses a cut. */
  lemma StraddleHalves(t: string, next: string, j: nat, tag: string)
    requires !Contains(t, tag) && j < |t| && At(t + next, j, tag)
    ensures var k := |t| - j;
            k < |tag| && t[j..] == tag[..k] && EndsWith(t, tag[..k]) && StartsWith(next, tag[k..])
  {
    var k := |t| - j;
    if k >= |tag| {
      assert (t + next)[j..j + |tag|] == t[j..j + |tag|];
      ContainsAt(t, tag, j);
      assert false;
    }
    Seam(t, next, j, |tag|);
    SplitEqual(t[j..], next[..|tag| - k], tag);
  }

  lemma SplitEqual<T>(a: seq<T>, b: seq<T>, c: seq<T>)
    requires a + b == c
    ensures a == c[..|a|] && b == c[|a|..]
  {}

  lemma LastIs(t: string, c: char, j: nat, tag: string)
    requires j < |t| && |t| - j <= |tag| && t[j..] == tag[..|t| - j]
    requires tag[0] == c && forall i | 0 < i < |tag| :: tag[i] != c
    ensures LastIndexOf(t, c) == Some(j)
  {
    forall i | j <= i < |t| ensures t[i] == tag[i - j] { assert t[i] == t[j..][i - j]; }
  }

  /** A tag across a cut starts at the last `<` before it. */
  lemma StraddlingTag(inThink: bool, t: string, next: string, j: nat)
    requires !Contains(t, Tag(inThink)) && j < |t| && At(t + next, j, Tag(inThink))
    ensures var tag, k := Tag(inThink), |t| - j;
            k < |tag| && t[j..] == tag[..k] && EndsWith(t, tag[..k]) && StartsWith(next, tag[k..])
    ensures LastIndexOf(t, '<') == Some(j)
  {
    StraddleHalves(t, next, j, Tag(inThink));
    TagInterior(inThink);
    LastIs(t, '<', j, Tag(inThink));
  }

  lemma HeadOfClose(t: string, j: nat, k: nat)
    requires j + k == |t| && 2 <= k <= |CLOSE| && t[j..] == CLOSE[..k]
    ensures t[j..j + 2] == "</"
  {
    assert t[j] == t[j..][0] && t[j + 1] == t[j..][1];
  }

  /** No tag starts in the emitted part of a stretch unless the cut tore it. */
  lemma EmittedHasNoTag(inThink: bool, t: string, next: string, j: nat)
    requires !Contains(t, Tag(inThink)) && !Torn(inThink, t, next)
    requires j < HeldFrom(inThink, t)
    ensures !At(t + next, j, Tag(inThink))
  {
    if At(t + next, j, Tag(inThink)) {
      StraddlingTag(inThink, t, next, j);
      var k := |t| - j;
      assert HeldFrom(inThink, t) == |t|;
      if inThink && k >= 2 {
        HeadOfClose(t, j, k);
        ContainsAt(t, "</", j);
      }
      assert false;
    }
  }

  lemma PieceLabels(inThink: bool, text: string)
    ensures LabelsOf(PieceOf(inThink, text)) == Dye(KindIn(inThink), text)
  {}

  lemma AtInHead(a: string, next: string, i: nat, t: string)
    requires i + |t| <= |a|
    ensures At(a + next, i, t) <==> At(a, i, t)
    ensures At(a, i, t) ==> Contains(a, t)
  {
    assert (a + next)[i..i + |t|] == a[i..i + |t|];
    if At(a, i, t) { ContainsAt(a, t, i); }
  }

  lemma FindUnderAppend(inThink: bool, a: string, next: string, i: nat)
    requires Find(a, Tag(inThink)) == Some(i)
    ensures Find(a + next, Tag(inThink)) == Some(i)
    ensures (a + next)[..i] == a[..i]
    ensures (a + next)[i + |Tag(inThink)|..] == a[i + |Tag(inThink)|..] + next
  {
    var tag := Tag(inThink);
    AtInHead(a, next, i, tag);
    FindLeast(a, tag);
    forall j | 0 <= j < i ensures !At(a + next, j, tag) { AtInHead(a, next, j, tag); }
    FindIs(a + next, tag, i);
  }

  /** Reading `a + next` in one go is scanning `a`, then reading the buffer followed by `next`. */
  ghost predicate CutAgrees(inThink: bool, a: string, next: string) {
    var s := ScanText(inThink, a);
    var r := Read(s.inThink, s.buffer + next);
    Read(inThink, a + next) == Reading(LabelsOf(s.events) + r.labels, r.inThink)
  }

  lemma {:induction false} CleanCut(inThink: bool, a: string, next: string)
    requires !Torn(ScanText(inThink, a).inThink, Stretch(inThink, a), next)
    ensures CutAgrees(inThink, a, next)
    decreases |a|
  {
    hide Torn, CutAgrees, Read, HeldFrom, FindFrom;
    match Find(a, Tag(inThink))
    case Some(i) =>
      CleanCut(!inThink, a[i + |Tag(inThink)|..], next);
      CutStep(inThink, a, next, i);
    case None =>
      CleanStretch(inThink, a, next);
  }

  lemma CleanStretch(inThink: bool, a: string, next: string)
    requires !Contains(a, Tag(inThink)) && !Torn(inThink, a, next)
    ensures CutAgrees(inThink, a, next)
  {
    var h := HeldFrom(inThink, a);
    forall j | 0 <= j < h ensures !At(a + next, j, Tag(inThink)) { EmittedHasNoTag(inThink, a, next, j); }
    ReadSkip(inThink, a + next, h);
    DropOfAppend(a, next, h);
    assert (a + next)[..h] == a[..h];
    PieceLabels(inThink, a[..h]);
  }

  lemma TaggedLabels(inThink: bool, text: string, rest: seq<Event>)
    ensures LabelsOf(PieceOf(inThink, text) + [Consumed(inThink)] + rest) == Dye(KindIn(inThink), text) + LabelsOf(rest)
  {
    var tagged := [Consumed(inThink)] + rest;
    Uncons([Consumed(inThink)], rest);
    Assoc(PieceOf(inThink, text), [Consumed(inThink)], rest);
    assert LabelsOf(tagged) == [] + LabelsOf(rest);
    LabelsAppend(PieceOf(inThink, text), tagged);
    PieceLabels(inThink, text);
  }

  /** Consuming a tag inside `a` does not change whether the cut after `a` agrees. */
  lemma CutStep(inThink: bool, a: string, next: string, i: nat)
    requires Find(a, Tag(inThink)) == Some(i)
    ensures CutAgrees(inThink, a, next) <==> CutAgrees(!inThink, a[i + |Tag(inThink)|..], next)
  {
    var tail := a[i + |Tag(inThink)|..];
    var rest := ScanText(!inThink, tail);
    FindUnderAppend(inThink, a, next, i);
    ReadTag(inThink, a + next, i);
    TaggedLabels(inThink, a[..i], rest.events);
    var head := Dye(KindIn(inThink), a[..i]);
    var r := Read(rest.inThink, rest.buffer + next);
    Assoc(head, LabelsOf(rest.events), r.labels);
    CancelHead(head, Read(!inThink, tail + next).labels, LabelsOf(rest.events) + r.labels);
  }

  lemma HeadChars(s: string, i: int, t: string)
    requires At(s, i, t)
    ensures |t| > 0 ==> s[i] == t[0]
    ensures |t| > 1 ==> s[i + 1] == t[1]
  {
    if |t| > 0 { assert s[i] == s[i..i + |t|][0]; }
    if |t| > 1 { assert s[i + 1] == s[i..i + |t|][1]; }
  }

  /** A reader in the wrong mode, with a whole tag taken for text, never agrees with the right one. */
  lemma WrongModeDiffers(inThink: bool, c: string)
    ensures Dye(KindIn(inThink), Tag(inThink)) + Read(inThink, c).labels != Read(!inThink, c).labels
  {
    var wrong := Dye(KindIn(inThink), Tag(inThink)) + Read(inThink, c).labels;
    assert wrong[0].0 == KindIn(inThink);
    var other := Tag(!inThink);
    if c != "" && StartsWith(c, other) {
      var tail := c[|other|..];
      TagInterior(!inThink);
      TagInterior(inThink);
      forall j | 0 <= j < |other| ensures !At(c, j, Tag(inThink)) {
        assert c[j] == c[..|other|][j] && c[1] == c[..|other|][1];
        if At(c, j, Tag(inThink)) { HeadChars(c, j, Tag(inThink)); }
      }
      ReadSkip(inThink, c, |other|);
      assert |wrong| > |Read(!inThink, c).labels|;
    }
  }

  /** Both halves of a torn tag are taken for text. */
  lemma TornHalvesAreText(inThink: bool, next: string, k: nat)
    requires 1 <= k < |Tag(inThink)| && StartsWith(next, Tag(inThink)[k..])
    ensures var tag := Tag(inThink); var c := next[|tag| - k..];
            Read(inThink, next).labels == Dye(KindIn(inThink), tag[k..]) + Read(inThink, c).labels
  {
    var tag := Tag(inThink);
    TagInterior(inThink);
    assert next[..|tag| - k] == tag[k..];
    forall i | 0 <= i < |tag| - k ensures !At(next, i, tag) {
      assert next[i] == next[..|tag| - k][i] == tag[k + i];
      if At(next, i, tag) { HeadChars(next, i, tag); }
    }
    ReadSkip(inThink, next, |tag| - k);
  }

  lemma TagStartsOnlyAt(inThink: bool, a: string, next: string, j: nat)
    requires !Contains(a, Tag(inThink)) && j < |a| && At(a + next, j, Tag(inThink))
    ensures Find(a + next, Tag(inThink)) == Some(j)
  {
    forall i | 0 <= i < j ensures !At(a + next, i, Tag(inThink)) {
      if At(a + next, i, Tag(inThink)) {
        StraddlingTag(inThink, a, next, i);
        StraddlingTag(inThink, a, next, j);
      }
    }
    FindIs(a + next, Tag(inThink), j);
  }

  /** Where and how a torn cut splits the tag; nothing is held back there. */
  lemma TornWhere(inThink: bool, a: string, next: string) returns (k: nat)
    requires Torn(inThink, a, next)
    ensures 1 <= k < |Tag(inThink)| && EndsWith(a, Tag(inThink)[..k]) && StartsWith(next, Tag(inThink)[k..])
    ensures HeldFrom(inThink, a) == |a|
  {
    if inThink { k := 1; }
    else { k :| 1 <= k < |OPEN| && EndsWith(a, OPEN[..k]) && StartsWith(next, OPEN[k..]); }
  }

  lemma HalvesMeet(a: string, next: string, tag: string, k: nat)
    requires 1 <= k < |tag| && EndsWith(a, tag[..k]) && StartsWith(next, tag[k..])
    ensures At(a + next, |a| - k, tag)
    ensures (a + next)[|a| - k + |tag|..] == next[|tag| - k..] && (a + next)[..|a| - k] == a[..|a| - k]
  {
    Seam(a, next, |a| - k, |tag|);
    assert tag == tag[..k] + tag[k..];
  }

  /** Reading across a torn cut finds the tag ... */
  lemma TornWhole(inThink: bool, a: string, next: string, k: nat)
    requires !Contains(a, Tag(inThink)) && 1 <= k < |Tag(inThink)|
    requires EndsWith(a, Tag(inThink)[..k]) && StartsWith(next, Tag(inThink)[k..])
    ensures Read(inThink, a + next).labels
         == Dye(KindIn(inThink), a[..|a| - k]) + Read(!inThink, next[|Tag(inThink)| - k..]).labels
  {
    HalvesMeet(a, next, Tag(inThink), k);
    TagStartsOnlyAt(inThink, a, next, |a| - k);
    ReadTag(inThink, a + next, |a| - k);
  }

  /** ... while the chunked parser takes both halves for text. */
  lemma TornReadings(inThink: bool, a: string, next: string, k: nat)
    requires !Contains(a, Tag(inThink)) && 1 <= k < |Tag(inThink)|
    requires EndsWith(a, Tag(inThink)[..k]) && StartsWith(next, Tag(inThink)[k..])
    ensures Read(inThink, a + next).labels != Dye(KindIn(inThink), a) + Read(inThink, next).labels
  {
    var c := next[|Tag(inThink)| - k..];
    TornWhole(inThink, a, next, k);
    TornHalvesAreText(inThink, next, k);
    WrongModeDiffers(inThink, c);
    TornDye(KindIn(inThink), a, Tag(inThink), k, Read(inThink, c).labels, Read(!inThink, c).labels);
  }

  lemma TornStretch(inThink: bool, a: string, next: string)
    requires !Contains(a, Tag(inThink)) && Torn(inThink, a, next)
    ensures !CutAgrees(inThink, a, next)
  {
    var k := TornWhere(inThink, a, next);
    TornReadings(inThink, a, next, k);
    PieceLabels(inThink, a);
    assert a[..|a|] == a && a[|a|..] + next == next;
  }

  lemma TornDye(kind: Kind, a: string, tag: string, k: nat, later: Labels, right: Labels)
    requires k <= |tag| && EndsWith(a, tag[..k]) && Dye(kind, tag) + later != right
    ensures Dye(kind, a) + (Dye(kind, tag[k..]) + later) != Dye(kind, a[..|a| - k]) + right
  {
    assert a == a[..|a| - k] + tag[..k] && tag == tag[..k] + tag[k..];
    DyeAppend(kind, a[..|a| - k], tag[..k]);
    DyeAppend(kind, tag[..k], tag[k..]);
    Assoc(Dye(kind, a[..|a| - k]), Dye(kind, tag[..k]), Dye(kind, tag[k..]) + later);
    Assoc(Dye(kind, tag[..k]), Dye(kind, tag[k..]), later);
    CancelHead(Dye(kind, a[..|a| - k]), Dye(kind, tag) + later, right);
  }

  /** A torn tag is always mislabelled. */
  lemma {:induction false} TornCut(inThink: bool, a: string, next: string)
    requires Torn(ScanText(inThink, a).inThink, Stretch(inThink, a), next)
    ensures !CutAgrees(inThink, a, next)
    decreases |a|
  {
    hide Torn, CutAgrees, Read, HeldFrom, FindFrom;
    match Find(a, Tag(inThink))
    case Some(i) =>
      TornCut(!inThink, a[i + |Tag(inThink)|..], next);
      CutStep(inThink, a, next, i);
    case None =>
      TornStretch(inThink, a, next);
  }

  /** Exactly when a cut changes nothing: for every text before it and every text after it. */
  lemma CutIsInvisibleIffNotTorn(inThink: bool, a: string, next: string)
    ensures CutAgrees(inThink, a, next) <==> !Torn(ScanText(inThink, a).inThink, Stretch(inThink, a), next)
  {
    if Torn(ScanText(inThink, a).inThink, Stretch(inThink, a), next) { TornCut(inThink, a, next); }
    else { CleanCut(inThink, a, next); }
  }

  /** No cut of the stream tears a tag. */
  ghost predicate CleanStream(inThink: bool, buffer: string, deltas: seq<string>)
    decreases |deltas|
  {
    deltas != [] ==>
      var s := Step(inThink, buffer, deltas[0]);
      && (deltas[0] != "" ==> !Torn(s.inThink, Stretch(inThink, buffer + deltas[0]), Concat(deltas[1..])))
      && CleanStream(s.inThink, s.buffer, deltas[1..])
  }

  lemma StepAgrees(inThink: bool, buffer: string, delta: string, later: string)
    requires BufferShape(inThink, buffer)
    requires delta != "" ==> !Torn(ScanText(inThink, buffer + delta).inThink, Stretch(inThink, buffer + delta), later)
    ensures var s := Step(inThink, buffer, delta); var r := Read(s.inThink, s.buffer + later);
            && BufferShape(s.inThink, s.buffer)
            && Read(inThink, (buffer + delta) + later) == Reading(LabelsOf(s.events) + r.labels, r.inThink)
  {
    if delta != "" {
      ScanBuffer(inThink, buffer + delta);
      CleanCut(inThink, buffer + delta, later);
    } else { assert buffer + delta == buffer; }
  }

  /** However a clean stream is cut, every character is labelled as in a reading of the whole. */
  lemma {:induction false} ChunkingDoesNotMatter(inThink: bool, buffer: string, deltas: seq<string>)
    requires BufferShape(inThink, buffer) && CleanStream(inThink, buffer, deltas)
    ensures Labelled(Feed(inThink, buffer, deltas)) == Read(inThink, buffer + Concat(deltas))
    decreases |deltas|
  {
    if deltas == [] {
      assert buffer + Concat(deltas) == buffer;
      FindLeast(buffer, Tag(inThink));
      ReadSkip(inThink, buffer, |buffer|);
      assert buffer[..|buffer|] == buffer;
    } else {
      var s := Step(inThink, buffer, deltas[0]);
      Assoc(buffer, deltas[0], Concat(deltas[1..]));
      StepAgrees(inThink, buffer, deltas[0], Concat(deltas[1..]));
      ChunkingDoesNotMatter(s.inThink, s.buffer, deltas[1..]);
      var rest := Feed(s.inThink, s.buffer, deltas[1..]);
      LabelsAppend(s.events, rest.events);
      Assoc(LabelsOf(s.events), LabelsOf(rest.events), Dye(KindIn(rest.inThink), rest.buffer));
    }
  }

  /** One `process` call on a fresh extractor labels any text as the reference does. */
  lemma OneShotIsReading(text: string)
    ensures Labelled(Step(false, "", text)) == Read(false, text)
  {
    ChunkingDoesNotMatter(false, "", [text]);
    assert Concat([text]) == text && "" + text == text;
    assert Feed(false, "", [text]) == Step(false, "", text) by {
      var s := Step(false, "", text);
      assert s.events + [] == s.events;
    }
  }

  // ------------------------------------------- a premise that speaks of the stream alone

  /** No content stretch of the stream holds a literal closing tag. */
  predicate StrayFree(inThink: bool, s: string)
    decreases |s|
  {
    if s == "" then true
    else if StartsWith(s, Tag(inThink)) then StrayFree(!inThink, s[|Tag(inThink)|..])
    else (inThink || !StartsWith(s, CLOSE)) && StrayFree(inThink, s[1..])
  }

  /** No cut falls between the `<` and the `/` of a closing tag. */
  predicate NoSplitClose(before: string, deltas: seq<string>)
    decreases |deltas|
  {
    deltas != [] ==>
      && !(EndsWith(before + deltas[0], "<") && StartsWith(Concat(deltas[1..]), "/think>"))
      && NoSplitClose(before + deltas[0], deltas[1..])
  }

  lemma {:induction false} StrayFreeSkip(inThink: bool, s: string, k: nat)
    requires k <= |s| && StrayFree(inThink, s) && forall j | 0 <= j < k :: !At(s, j, Tag(inThink))
    ensures StrayFree(inThink, s[k..])
    ensures !inThink ==> forall j | 0 <= j < k :: !At(s, j, CLOSE)
    decreases k
  {
    if k == 0 {
      assert s[k..] == s;
    } else {
      assert !At(s, 0, Tag(inThink));
      forall j | 0 <= j < k - 1 ensures !At(s[1..], j, Tag(inThink)) { AtShift(s, j, Tag(inThink)); }
      StrayFreeSkip(inThink, s[1..], k - 1);
      assert s[1..][k - 1..] == s[k..];
      forall j | 0 <= j < k && !inThink ensures !At(s, j, CLOSE) {
        if j > 0 { AtShift(s, j - 1, CLOSE); }
      }
    }
  }

  /** A stray-free stream leaves no closing tag in the content stretch before a cut, and stays stray-free after it. */
  lemma {:induction false} StrayFreeScan(inThink: bool, a: string, next: string)
    requires StrayFree(inThink, a + next)
    ensures var s := ScanText(inThink, a);
            && (!s.inThink ==> !Contains(Stretch(inThink, a), CLOSE))
            && (!Torn(s.inThink, Stretch(inThink, a), next) ==> StrayFree(s.inThink, s.buffer + next))
    decreases |a|
  {
    match Find(a, Tag(inThink))
    case Some(i) =>
      FindUnderAppend(inThink, a, next, i);
      StrayFreeTag(inThink, a + next, i);
      StrayFreeScan(!inThink, a[i + |Tag(inThink)|..], next);
    case None =>
      if !inThink && Contains(a, CLOSE) { StrayCloseFound(a, next, Find(a, CLOSE).value); }
      if !Torn(inThink, a, next) { StrayFreeHeld(inThink, a, next); }
  }

  lemma StrayFreeTag(inThink: bool, s: string, i: nat)
    requires StrayFree(inThink, s) && Find(s, Tag(inThink)) == Some(i)
    ensures StrayFree(!inThink, s[i + |Tag(inThink)|..])
  {
    FindLeast(s, Tag(inThink));
    StrayFreeSkip(inThink, s, i);
    assert At(s[i..], 0, Tag(inThink));
    assert s[i..][|Tag(inThink)|..] == s[i + |Tag(inThink)|..];
  }

  lemma StrayFreeHeld(inThink: bool, a: string, next: string)
    requires StrayFree(inThink, a + next) && !Contains(a, Tag(inThink)) && !Torn(inThink, a, next)
    ensures StrayFree(inThink, a[HeldFrom(inThink, a)..] + next)
  {
    var h := HeldFrom(inThink, a);
    forall j | 0 <= j < h ensures !At(a + next, j, Tag(inThink)) { EmittedHasNoTag(inThink, a, next, j); }
    StrayFreeSkip(inThink, a + next, h);
    DropOfAppend(a, next, h);
  }

  lemma DropOfAppend<T>(a: seq<T>, b: seq<T>, h: nat)
    requires h <= |a|
    ensures (a + b)[h..] == a[h..] + b
  {}

  lemma StrayCloseFound(a: string, next: string, j: nat)
    requires !Contains(a, OPEN) && At(a, j, CLOSE)
    ensures !StrayFree(false, a + next)
  {
    forall i | 0 <= i < j + 1 ensures !At(a + next, i, OPEN) { AtInHead(a, next, i, OPEN); }
    AtInHead(a, next, j, CLOSE);
    if StrayFree(false, a + next) { StrayFreeSkip(false, a + next, j + 1); assert false; }
  }

  lemma {:induction false} StretchIsSuffix(inThink: bool, text: string)
    ensures EndsWith(text, Stretch(inThink, text))
    decreases |text|
  {
    match Find(text, Tag(inThink))
    case Some(i) =>
      var tail := text[i + |Tag(inThink)|..];
      StretchIsSuffix(!inThink, tail);
      HasSuffix(text, text[..i + |Tag(inThink)|], tail);
      SuffixTransitive(text, tail, Stretch(!inThink, tail));
    case None =>
  }

  /** Without the two halves of a closing tag on either side, and without a stray one in content, nothing is torn. */
  lemma NothingTorn(inThink: bool, stretch: string, next: string)
    requires !inThink ==> !Contains(stretch, CLOSE)
    requires !(EndsWith(stretch, "<") && StartsWith(next, "/think>"))
    ensures !Torn(inThink, stretch, next)
  {
    assert CLOSE[..1] == "<" && CLOSE[1..] == "/think>";
    hide Contains, StartsWith, EndsWith;
  }

  lemma {:induction false} StreamPremiseGivesClean(before: string, inThink: bool, buffer: string, deltas: seq<string>)
    requires StrayFree(inThink, buffer + Concat(deltas)) && NoSplitClose(before, deltas)
    requires EndsWith(before, buffer)
    ensures CleanStream(inThink, buffer, deltas)
    decreases |deltas|
  {
    if deltas == [] {
    } else {
      var a, later := buffer + deltas[0], Concat(deltas[1..]);
      var s := Step(inThink, buffer, deltas[0]);
      Assoc(buffer, deltas[0], later);
      hide StrayFree, ScanText, Torn, Stretch, Contains, StartsWith, EndsWith;
      if deltas[0] != "" {
        EndsLikeStretch(before, inThink, buffer, deltas[0]);
        StrayFreeScan(inThink, a, later);
        NothingTorn(s.inThink, Stretch(inThink, a), later);
      } else {
        assert before + deltas[0] == before && a == buffer;
      }
      StreamPremiseGivesClean(before + deltas[0], s.inThink, s.buffer, deltas[1..]);
    }
  }

  /** What a scan holds back, and the stretch it ends in, are suffixes of everything fed so far. */
  lemma EndsLikeStretch(before: string, inThink: bool, buffer: string, delta: string)
    requires delta != "" && EndsWith(before, buffer)
    ensures var all, t, s := before + delta, Stretch(inThink, buffer + delta), Step(inThink, buffer, delta);
            && EndsWith(all, s.buffer)
            && (EndsWith(t, "<") ==> EndsWith(all, "<"))
  {
    var a, all, s := buffer + delta, before + delta, Step(inThink, buffer, delta);
    StretchIsSuffix(inThink, a);
    ScanLossless(inThink, a);
    AppendKeepsSuffix(before, buffer, delta);
    HasSuffix(a, Raw(s.events), s.buffer);
    SuffixTransitive(all, a, s.buffer);
    SuffixTransitive(all, a, Stretch(inThink, a));
    if EndsWith(Stretch(inThink, a), "<") { SuffixTransitive(all, Stretch(inThink, a), "<"); }
  }

  lemma AppendKeepsSuffix(s: string, t: string, more: string)
    requires EndsWith(s, t)
    ensures EndsWith(s + more, t + more)
  {
    Seam(s, more, |s| - |t|, |t| + |more|);
  }

  lemma HasSuffix(s: string, head: string, tail: string)
    requires s == head + tail
    ensures EndsWith(s, tail)
  {}

  lemma SuffixTransitive(s: string, t: string, u: string)
    requires EndsWith(s, t) && EndsWith(t, u)
    ensures EndsWith(s, u)
  {
    assert s[|s| - |u|..] == s[|s| - |t|..][|t| - |u|..];
  }

  /** The stream-level law: cut a stray-free stream anywhere but inside `</`, and no label changes. */
  lemma ChunkedEqualsOneShot(deltas: seq<string>)
    requires StrayFree(false, Concat(deltas)) && NoSplitClose("", deltas)
    ensures Labelled(Feed(false, "", deltas)) == Labelled(Step(false, "", Concat(deltas)))
  {
    assert "" + Concat(deltas) == Concat(deltas);
    StreamPremiseGivesClean("", false, "", deltas);
    ChunkingDoesNotMatter(false, "", deltas);
    OneShotIsReading(Concat(deltas));
  }

  /** A closing tag cut after its `<`: one call finds it, two calls take it for reasoning. */
  lemma TornCutExample()
    ensures !CutAgrees(true, "<", "/think>")
  {
    assert !At("<", 0, CLOSE) && !At("<", 1, CLOSE) && !At("<", 0, "</") && !At("<", 1, "</");
    assert !Contains("<", CLOSE) && !Contains("<", "</");
    assert Stretch(true, "<") == "<" && ScanText(true, "<").inThink;
    assert EndsWith("<", CLOSE[..1]) && StartsWith("/think>", CLOSE[1..]);
    CutIsInvisibleIffNotTorn(true, "<", "/think>");
  }
}
