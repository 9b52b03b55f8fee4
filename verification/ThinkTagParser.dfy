/**
  The incremental `<think>` splitter of `streaming.py` itself: `Process` is one pass over the held-back text and a
  delta.
*/
module ThinkTagParser {
  import opened Text
  import opened ThinkTags
  import opened ThinkTagLabels

  /** The whole scan, given what has been done and the text still to do. */
  predicate Remaining(whole: Scan, done: seq<Event>, inThink: bool, text: string) {
    var rest := ScanText(inThink, text);
    whole == Scan(done + rest.events, rest.inThink, rest.buffer)
  }

  lemma RemainingStart(inThink: bool, text: string)
    ensures Emitted([]) == [] && Remaining(ScanText(inThink, text), [], inThink, text)
  {
    assert [] + ScanText(inThink, text).events == ScanText(inThink, text).events;
  }

  lemma RemainingTag(whole: Scan, done: seq<Event>, inThink: bool, text: string, i: nat) returns (more: seq<Event>)
    requires Remaining(whole, done, inThink, text) && Find(text, Tag(inThink)) == Some(i)
    ensures Remaining(whole, more, !inThink, text[i + |Tag(inThink)|..])
    ensures Emitted(more) == if i == 0 then Emitted(done) else Emitted(done) + [Segment(KindIn(inThink), text[..i])]
  {
    var head := PieceOf(inThink, text[..i]) + [Consumed(inThink)];
    more := done + head;
    Assoc(done, head, ScanText(!inThink, text[i + |Tag(inThink)|..]).events);
    EmittedAppend(done, head);
    EmittedAppend(PieceOf(inThink, text[..i]), [Consumed(inThink)]);
  }

  lemma RemainingTail(whole: Scan, done: seq<Event>, inThink: bool, text: string)
    requires Remaining(whole, done, inThink, text) && Find(text, Tag(inThink)).None?
    ensures var idx := LastIndexOf(text, '<');
            var held := idx.Some? && (if inThink then Contains(text, "</") else !Contains(text, CLOSE))
                        && |text| - idx.value < HOLD_LIMIT;
            var h := if held then idx.value else |text|;
            Performed(whole, if h == 0 then Emitted(done) else Emitted(done) + [Segment(KindIn(inThink), text[..h])],
                      inThink, text[h..])
    ensures text[..|text|] == text && text[|text|..] == ""
  {
    HeldFromIs(inThink, text);
    hide HeldFrom, Contains, LastIndexOf, FindFrom;
    EmittedAppend(done, PieceOf(inThink, text[..HeldFrom(inThink, text)]));
  }

  lemma TagsAreText()
    ensures |OPEN| > 0 && |CLOSE| > 0 && Tag(false) == OPEN && Tag(true) == CLOSE
  {
  }

  lemma HeldFromIs(inThink: bool, text: string)
    ensures var idx := LastIndexOf(text, '<');
            var held := idx.Some? && (if inThink then Contains(text, "</") else !Contains(text, CLOSE))
                        && |text| - idx.value < HOLD_LIMIT;
            HeldFrom(inThink, text) == if held then idx.value else |text|
  {
    hide Contains, LastIndexOf;
  }

  /** What a caller of `process` sees of a scan. */
  predicate Performed(s: Scan, results: seq<Segment>, inThink: bool, buffer: string) {
    results == Emitted(s.events) && inThink == s.inThink && buffer == s.buffer
  }

  class ReasoningExtractor {
    var inThink: bool
    var buffer: string

    constructor ()
      ensures !inThink && buffer == ""
    {
      inThink, buffer := false, "";
    }

    method Process(delta: string) returns (results: seq<Segment>)
      modifies this
      ensures Performed(Step(old(inThink), old(buffer), delta), results, inThink, buffer)
      ensures delta == "" ==> results == [] && inThink == old(inThink) && buffer == old(buffer)
      ensures delta != "" ==> TellsTags(old(inThink), old(buffer) + delta, results, inThink, buffer)
      ensures delta != "" && !old(inThink) ==> TellsThought(old(buffer) + delta, results, inThink, buffer)
    {
      CallMeans(inThink, buffer + delta);
      TagsAreText();
      hide ScanText, Emitted, TellsTags, TellsThought, Remaining, HeldFrom, Contains, FindFrom, OPEN, CLOSE;
      RemainingStart(inThink, buffer + delta);
      if delta == "" { return []; }
      results := [];
      var text := buffer + delta;
      buffer := "";
      ghost var whole, done := ScanText(inThink, text), [];
      while text != ""
        invariant Remaining(whole, done, inThink, text)
        invariant results == Emitted(done) && buffer == ""
        decreases |text|
      {
        if !inThink {
          var found := Find(text, OPEN);
          if found.Some? {
            done := RemainingTag(whole, done, inThink, text, found.value);
            if found.value > 0 { results := results + [Segment(Content, text[..found.value])]; }
            inThink := true;
            text := text[found.value + |OPEN|..];
          } else {
            RemainingTail(whole, done, inThink, text);
            var idx := LastIndexOf(text, '<');
            if idx.Some? && !Contains(text, CLOSE) && |text| - idx.value < HOLD_LIMIT {
              buffer := text[idx.value..];
              if idx.value > 0 { results := results + [Segment(Content, text[..idx.value])]; }
            } else {
              results := results + [Segment(Content, text)];
            }
            break;
          }
        } else {
          var found := Find(text, CLOSE);
          if found.Some? {
            done := RemainingTag(whole, done, inThink, text, found.value);
            if found.value > 0 { results := results + [Segment(Reasoning, text[..found.value])]; }
            inThink := false;
            text := text[found.value + |CLOSE|..];
          } else {
            RemainingTail(whole, done, inThink, text);
            var idx := LastIndexOf(text, '<');
            if idx.Some? && Contains(text, "</") && |text| - idx.value < HOLD_LIMIT {
              buffer := text[idx.value..];
              if idx.value > 0 { results := results + [Segment(Reasoning, text[..idx.value])]; }
            } else {
              results := results + [Segment(Reasoning, text)];
            }
            break;
          }
        }
      }
      if text == "" { RemainingTail(whole, done, inThink, text); }
    }
  }

  /**
    Whatever tags the text consumes: the results, and then the buffer, label as `Reasoning` exactly the characters that
    stand after an opening tag and before the closing tag that follows it, and as `Content` the others.
  */
  ghost predicate TellsTags(from: bool, text: string, results: seq<Segment>, to: bool, buffer: string) {
    var w := Opened(from) + text;
    forall cuts | ConsumesAll(w, cuts) ::
      && Spelled(results) + Dye(if to then Reasoning else Content, buffer) == Told(w, cuts, 0)
      && to == (|cuts| % 2 == 1)
  }

  /** One thought in content: what stands before and after it is content, what it holds is reasoning. */
  ghost predicate TellsThought(text: string, results: seq<Segment>, to: bool, buffer: string) {
    forall before, inside, after | OneThought(text, before, inside, after) ::
      results == Said(Content, before) + (Said(Reasoning, inside) + Said(Content, after)) && !to && buffer == ""
  }

  /** Every call tells the tags of its text. */
  lemma CallMeans(inThink: bool, text: string)
    ensures var s := ScanText(inThink, text);
            && TellsTags(inThink, text, Emitted(s.events), s.inThink, s.buffer)
            && (!inThink ==> TellsThought(text, Emitted(s.events), s.inThink, s.buffer))
  {
    var s := ScanText(inThink, text);
    EmittedSpell(s.events);
    forall cuts | ConsumesAll(Opened(inThink) + text, cuts) ensures IsTold(s, Opened(inThink) + text, cuts) {
      CallIsTold(inThink, text, cuts);
    }
    hide ScanText, Emitted, Told, Spelled, LabelsOf;
    forall before, inside, after | !inThink && OneThought(text, before, inside, after)
      ensures Emitted(s.events) == Said(Content, before) + (Said(Reasoning, inside) + Said(Content, after))
      ensures !s.inThink && s.buffer == ""
    {
      ThoughtIsSaid(text, before, inside, after);
    }
  }
}
