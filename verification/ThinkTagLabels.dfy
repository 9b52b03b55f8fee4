/**
  What the labels mean, in terms of the positions of the two tags in the stream: a character is reasoning exactly when
  it stands after a consumed `<think>` with no consumed `</think>` in between.
*/
module ThinkTagLabels {
  import opened Text
  import opened ThinkTags
  import opened ThinkTagStreams

  // ---------------------------------------------------------------- the tags a stream consumes

  /** Where the text after the first `n` tags starts; tags alternate, and the first opens. */
  function AfterTags(cuts: seq<nat>, n: nat): nat
    requires n <= |cuts|
  {
    if n == 0 then 0 else cuts[n - 1] + if n % 2 == 1 then 7 else 8
  }

  /** The tag consumed after `n` others. */
  function Due(n: nat): string { if n % 2 == 0 then "<think>" else "</think>" }

  ghost predicate NoneBefore(w: string, n: nat, from: nat, to: int) {
    forall j | from <= j < to :: !At(w, j, Due(n))
  }

  ghost predicate Found(w: string, cuts: seq<nat>, n: nat)
    requires n < |cuts|
  {
    && AfterTags(cuts, n) <= cuts[n]
    && At(w, cuts[n], Due(n))
    && NoneBefore(w, n, AfterTags(cuts, n), cuts[n])
  }

  /** `cuts` are the starts of tags the stream consumes: each the first of its kind after the one before. */
  ghost predicate Consumes(w: string, cuts: seq<nat>) { forall n | 0 <= n < |cuts| :: Found(w, cuts, n) }

  /** And there are no more of them. */
  ghost predicate ConsumesAll(w: string, cuts: seq<nat>) {
    Consumes(w, cuts) && NoneBefore(w, |cuts|, AfterTags(cuts, |cuts|), |w|)
  }

  /** The character belongs to a consumed tag. */
  ghost predicate InTag(cuts: seq<nat>, i: nat) {
    exists n :: 0 <= n < |cuts| && cuts[n] <= i < AfterTags(cuts, n + 1)
  }

  /** The character stands after a consumed opening tag, and before the closing tag that follows it, if one does. */
  ghost predicate Thought(cuts: seq<nat>, i: nat) {
    exists n: nat :: n < |cuts| && n % 2 == 0 && Follows(cuts, n, i)
  }

  /** The character stands after the `n`-th tag, and before the one that follows it, if one does. */
  predicate Follows(cuts: seq<nat>, n: nat, i: nat)
    requires n < |cuts|
  {
    AfterTags(cuts, n + 1) <= i && (n + 1 < |cuts| ==> i < cuts[n + 1])
  }

  /** Every character from `i` on that is not part of a consumed tag, with its label. */
  ghost function Told(w: string, cuts: seq<nat>, i: nat): Labels
    requires i <= |w|
    decreases |w| - i
  {
    if i == |w| then []
    else
      var here := (if Thought(cuts, i) then Reasoning else Content, w[i]);
      (if InTag(cuts, i) then [] else [here]) + Told(w, cuts, i + 1)
  }

  // ---------------------------------------------------------------- each stream consumes one list of tags

  lemma {:induction false} TagsAscend(w: string, cuts: seq<nat>, m: nat, n: nat)
    requires Consumes(w, cuts) && m <= n <= |cuts|
    ensures AfterTags(cuts, m) <= AfterTags(cuts, n)
    ensures m < n ==> cuts[m] < AfterTags(cuts, n)
    decreases n - m
  {
    if m == n {
    } else {
      assert Found(w, cuts, m);
      TagsAscend(w, cuts, m + 1, n);
    }
  }

  lemma OneMoreTag(w: string, found: seq<nat>, k: nat)
    requires Consumes(w, found) && AfterTags(found, |found|) <= k
    requires At(w, k, Due(|found|)) && NoneBefore(w, |found|, AfterTags(found, |found|), k)
    ensures Consumes(w, found + [k]) && AfterTags(found + [k], |found| + 1) == k + |Due(|found|)|
  {
    var more := found + [k];
    forall m | 0 <= m < |more| ensures Found(w, more, m) {
      assert AfterTags(more, m) == AfterTags(found, m);
      if m < |found| { assert Found(w, found, m); }
    }
  }

  /** The first occurrence of the tag that is due, if there is one. */
  lemma NextTag(w: string, n: nat, from: nat) returns (k: Option<nat>)
    requires from <= |w|
    ensures match k
            case Some(i) => from <= i && At(w, i, Due(n)) && NoneBefore(w, n, from, i)
            case None => NoneBefore(w, n, from, |w|)
  {
    FindLeast(w[from..], Due(n));
    hide Find;
    forall j | from <= j ensures At(w, j, Due(n)) <==> At(w[from..], j - from, Due(n)) { AtDrop(w, from, j, Due(n)); }
    k := match Find(w[from..], Due(n)) case Some(i) => Some(from + i) case None => None;
    if k.Some? { AtDrop(w, from, k.value, Due(n)); }
  }

  lemma {:induction false} ExtendTags(w: string, found: seq<nat>) returns (cuts: seq<nat>)
    requires Consumes(w, found) && AfterTags(found, |found|) <= |w|
    ensures ConsumesAll(w, cuts)
    decreases |w| - AfterTags(found, |found|)
  {
    var k := NextTag(w, |found|, AfterTags(found, |found|));
    if k.None? {
      cuts := found;
    } else {
      OneMoreTag(w, found, k.value);
      hide Consumes, NoneBefore, AfterTags;
      cuts := ExtendTags(w, found + [k.value]);
    }
  }

  lemma AtDrop(w: string, from: nat, j: nat, t: string)
    requires from <= j && from <= |w|
    ensures At(w, j, t) <==> At(w[from..], j - from, t)
  {
    if j + |t| <= |w| { assert w[from..][j - from..j - from + |t|] == w[j..j + |t|]; }
  }

  /** Every stream consumes tags in one way. */
  lemma TagsExist(w: string) returns (cuts: seq<nat>)
    ensures ConsumesAll(w, cuts)
  {
    cuts := ExtendTags(w, []);
  }

  lemma {:induction false} TagsAgree(w: string, a: seq<nat>, b: seq<nat>, n: nat)
    requires ConsumesAll(w, a) && Consumes(w, b) && n <= |b|
    ensures n <= |a| && a[..n] == b[..n]
    decreases n
  {
    if n == 0 {
    } else {
      TagsAgree(w, a, b, n - 1);
      var from := AfterTags(b, n - 1);
      assert from == AfterTags(a, n - 1) by { if n > 1 { assert a[..n - 1][n - 2] == b[..n - 1][n - 2]; } }
      assert Found(w, b, n - 1);
      assert At(w, b[n - 1], Due(n - 1));
      assert Found(w, a, n - 1);
      assert At(w, a[n - 1], Due(n - 1));
      assert a[n - 1] == b[n - 1];
      assert a[..n] == a[..n - 1] + [a[n - 1]] && b[..n] == b[..n - 1] + [b[n - 1]];
    }
  }

  lemma TagsAreUnique(w: string, a: seq<nat>, b: seq<nat>)
    requires ConsumesAll(w, a) && ConsumesAll(w, b)
    ensures a == b
  {
    TagsAgree(w, a, b, |b|);
    TagsAgree(w, b, a, |a|);
  }

  // ---------------------------------------------------------------- the reading, told by positions

  /** Between the `n`-th tag and the next one, characters are in no tag, and are thoughts if the `n`-th tag opened. */
  lemma BetweenTags(w: string, cuts: seq<nat>, n: nat, i: nat)
    requires Consumes(w, cuts) && n <= |cuts| && AfterTags(cuts, n) <= i && (n < |cuts| ==> i < cuts[n])
    ensures !InTag(cuts, i)
    ensures Thought(cuts, i) <==> n % 2 == 1
  {
    forall m | 0 <= m < |cuts| ensures !(cuts[m] <= i < AfterTags(cuts, m + 1)) { Around(w, cuts, n, i, m); }
    forall m | 0 <= m < |cuts| && m % 2 == 0 && m != n - 1
      ensures !Follows(cuts, m, i)
    {
      Around(w, cuts, n, i, m);
      if m + 1 < n { TagsAscend(w, cuts, m + 1, n); }
    }
    if n % 2 == 1 { assert Follows(cuts, n - 1, i); }
  }

  /** A tag before the `n`-th ends before `i`; the others start after it. */
  lemma Around(w: string, cuts: seq<nat>, n: nat, i: nat, m: nat)
    requires Consumes(w, cuts) && n <= |cuts| && AfterTags(cuts, n) <= i && (n < |cuts| ==> i < cuts[n])
    requires m < |cuts|
    ensures if m < n then AfterTags(cuts, m + 1) <= i else i < cuts[m]
  {
    if m < n {
      TagsAscend(w, cuts, m + 1, n);
    } else {
      assert Found(w, cuts, m);
      if n < m { TagsAscend(w, cuts, n, m); }
    }
  }

  lemma {:induction false} SkipTag(w: string, cuts: seq<nat>, n: nat, i: nat)
    requires n < |cuts| && cuts[n] <= i <= AfterTags(cuts, n + 1) <= |w|
    ensures Told(w, cuts, i) == Told(w, cuts, AfterTags(cuts, n + 1))
    decreases AfterTags(cuts, n + 1) - i
  {
    hide Thought;
    if i == AfterTags(cuts, n + 1) {
    } else {
      assert InTag(cuts, i);
      SkipTag(w, cuts, n, i + 1);
    }
  }

  /** Position `i` lies between the `n`-th tag and the next one. */
  ghost predicate Between(w: string, cuts: seq<nat>, n: nat, i: nat) {
    n <= |cuts| && AfterTags(cuts, n) <= i <= |w| && (n < |cuts| ==> i <= cuts[n])
  }

  /** What stands there: the next tag, a character that does not start it, or the end. */
  lemma NextIs(w: string, cuts: seq<nat>, n: nat, i: nat)
    requires ConsumesAll(w, cuts) && Between(w, cuts, n, i)
    ensures i <= |w|
    ensures n < |cuts| && i == cuts[n] ==>
              && At(w, i, Due(n)) && i < AfterTags(cuts, n + 1) == i + |Due(n)| <= |w|
              && Between(w, cuts, n + 1, AfterTags(cuts, n + 1))
    ensures (n < |cuts| && i < cuts[n]) || (n == |cuts| && i < |w|) ==>
              i < |w| && !At(w, i, Due(n)) && Between(w, cuts, n, i + 1)
  {
    if n < |cuts| { assert Found(w, cuts, n); }
    if n + 1 < |cuts| { assert Found(w, cuts, n + 1); }
  }

  lemma NotThere(w: string, cuts: seq<nat>, n: nat, i: nat)
    requires ConsumesAll(w, cuts) && Between(w, cuts, n, i) && (n == |cuts| || i != cuts[n])
    ensures n < |cuts| ==> i < cuts[n]
    ensures n == |cuts| ==> i <= |w|
    ensures !InTag(cuts, i) && (Thought(cuts, i) <==> n % 2 == 1)
  {
    BetweenTags(w, cuts, n, i);
  }

  /** From any position outside the tags, the reader labels what is told. */
  lemma {:induction false} ReadIsTold(w: string, cuts: seq<nat>, n: nat, i: nat)
    requires ConsumesAll(w, cuts) && Between(w, cuts, n, i)
    ensures Read(n % 2 == 1, w[i..]) == Reading(Told(w, cuts, i), |cuts| % 2 == 1)
    decreases |w| - i
  {
    NextIs(w, cuts, n, i);
    if n == |cuts| || i != cuts[n] { NotThere(w, cuts, n, i); }
    hide InTag, Thought, Told, Read, ConsumesAll, NoneBefore, At, AfterTags, Between, Due;
    if n < |cuts| && i == cuts[n] {
      SkipTag(w, cuts, n, i);
      ReadOfTag(w, n, i);
      ReadIsTold(w, cuts, n + 1, AfterTags(cuts, n + 1));
    } else if n == |cuts| && i == |w| {
      EndIsTold(w, cuts);
    } else {
      ReadOfText(w, n, i);
      TellOne(w, cuts, i);
      ReadIsTold(w, cuts, n, i + 1);
    }
  }

  lemma EndIsTold(w: string, cuts: seq<nat>)
    ensures Read(|cuts| % 2 == 1, w[|w|..]) == Reading(Told(w, cuts, |w|), |cuts| % 2 == 1)
  {
  }

  lemma ReadOfTag(w: string, n: nat, i: nat)
    requires At(w, i, Due(n))
    ensures Read(n % 2 == 1, w[i..]) == Read((n + 1) % 2 == 1, w[i + |Due(n)|..])
  {
    AtDrop(w, i, i, Due(n));
    assert Tag(n % 2 == 1) == Due(n);
    assert w[i..][|Due(n)|..] == w[i + |Due(n)|..];
  }

  lemma ReadOfText(w: string, n: nat, i: nat)
    requires i < |w| && !At(w, i, Due(n))
    ensures var r, kind := Read(n % 2 == 1, w[i + 1..]), if n % 2 == 1 then Reasoning else Content;
            Read(n % 2 == 1, w[i..]) == Reading([(kind, w[i])] + r.labels, r.inThink)
  {
    AtDrop(w, i, i, Due(n));
    assert Tag(n % 2 == 1) == Due(n);
    assert w[i..][1..] == w[i + 1..] && w[i..][0] == w[i];
  }

  lemma TellOne(w: string, cuts: seq<nat>, i: nat)
    requires i < |w| && !InTag(cuts, i)
    ensures Told(w, cuts, i) == [(if Thought(cuts, i) then Reasoning else Content, w[i])] + Told(w, cuts, i + 1)
  {
  }

  /** For every stream: the reader labels each character by the tags before it. */
  lemma LabelsMeanTags(w: string, cuts: seq<nat>)
    requires ConsumesAll(w, cuts)
    ensures Read(false, w) == Reading(Told(w, cuts, 0), |cuts| % 2 == 1)
  {
    ReadIsTold(w, cuts, 0, 0);
    assert w[0..] == w;
  }

  // ---------------------------------------------------------------- calls and whole streams

  /** A parser in think mode has consumed an opening tag that is not in the text it is given. */
  function Opened(inThink: bool): string { if inThink then "<think>" else "" }

  /** What a scan has labelled, its buffer counted in its mode, is what the positions of the tags tell. */
  ghost predicate IsTold(s: Scan, w: string, cuts: seq<nat>) {
    && LabelsOf(s.events) + Dye(if s.inThink then Reasoning else Content, s.buffer) == Told(w, cuts, 0)
    && s.inThink == (|cuts| % 2 == 1)
  }

  lemma OpenedReads(inThink: bool, text: string)
    ensures Read(false, Opened(inThink) + text) == Read(inThink, text)
  {
    if inThink {
      var w := "<think>" + text;
      assert w[..7] == "<think>" && w[7..] == text;
      assert StartsWith(w, Tag(false));
    } else {
      assert "" + text == text;
    }
  }

  /** One call, in either mode: every character is labelled by the tags before it. */
  lemma CallIsTold(inThink: bool, text: string, cuts: seq<nat>)
    requires ConsumesAll(Opened(inThink) + text, cuts)
    ensures IsTold(ScanText(inThink, text), Opened(inThink) + text, cuts)
  {
    OneCallReads(inThink, text);
    OpenedReads(inThink, text);
    LabelsMeanTags(Opened(inThink) + text, cuts);
    hide ScanText, Read, Told;
  }

  lemma OneCallReads(inThink: bool, text: string)
    ensures Labelled(ScanText(inThink, text)) == Read(inThink, text)
  {
    if text == "" {
      EmptyScan(inThink);
    } else {
      ChunkingDoesNotMatter(inThink, "", [text]);
      hide ScanText, Read, LabelsOf;
      assert Concat([text]) == text && "" + text == text;
      var s := Step(inThink, "", text);
      assert s.events + [] == s.events;
      assert Feed(inThink, "", [text]) == s;
    }
  }

  lemma EmptyScan(inThink: bool)
    ensures ScanText(inThink, "") == Scan([], inThink, "")
  {
  }

  /**
    A stream, however it is cut: every character is labelled by the tags before it if and only if no cut tears a tag.
  */
  lemma StreamIsToldIff(deltas: seq<string>, cuts: seq<nat>)
    requires ConsumesAll(Concat(deltas), cuts)
    ensures IsTold(Feed(false, "", deltas), Concat(deltas), cuts) <==> CleanStream(false, "", deltas)
  {
    ChunkingDoesNotMatterIff(deltas);
    OneShotIsReading(Concat(deltas));
    LabelsMeanTags(Concat(deltas), cuts);
    hide Read, Feed, CleanStream, Told, LabelsOf, Step;
  }

  // ---------------------------------------------------------------- what a caller is given

  /** The labels of what a caller is given. */
  function Spelled(results: seq<Segment>): Labels {
    if results == [] then [] else Dye(results[0].kind, results[0].text) + Spelled(results[1..])
  }

  lemma {:induction false} EmittedSpell(events: seq<Event>)
    ensures Spelled(Emitted(events)) == LabelsOf(events)
  {
    if events == [] {
    } else {
      EmittedSpell(events[1..]);
      var rest := Emitted(events[1..]);
      if events[0].Piece? {
        Uncons([events[0].segment], rest);
        assert Emitted(events) == [events[0].segment] + rest;
      } else {
        assert Emitted(events) == [] + rest == rest && LabelsOf(events) == [] + LabelsOf(events[1..]);
      }
    }
  }

  function Said(kind: Kind, text: string): seq<Segment> { if text == "" then [] else [Segment(kind, text)] }

  /** A text with one thought, with no tag in the wrong place. */
  ghost predicate OneThought(text: string, before: string, inside: string, after: string) {
    && text == before + ("<think>" + (inside + ("</think>" + after)))
    && (forall j :: !At(before, j, "<think>")) && (forall j :: !At(inside, j, "</think>")) && '<' !in after
  }

  /** A tag shares no end with its own beginning, so one put behind a tagless text is found there. */
  lemma FoundBehind(inThink: bool, a: string, rest: string)
    requires forall j :: !At(a, j, Tag(inThink))
    ensures var tag := Tag(inThink); var s := a + (tag + rest);
            Find(s, tag) == Some(|a|) && s[..|a|] == a && s[|a| + |tag|..] == rest
  {
    var tag := Tag(inThink);
    var s := a + (tag + rest);
    TagInterior(inThink);
    assert At(s, |a|, tag);
    assert s[|a|] == '<';
    forall j | 0 <= j < |a| ensures !At(s, j, tag) {
      if j + |tag| <= |a| {
        assert s[j..j + |tag|] == a[j..j + |tag|];
        assert !At(a, j, tag);
      } else {
        assert j + |tag| <= |s| ==> s[j..j + |tag|][|a| - j] == s[|a|];
      }
    }
    FindIs(s, tag, |a|);
  }

  /** Text without any `<` is said at once. */
  lemma PlainText(inThink: bool, text: string)
    requires '<' !in text
    ensures var s := ScanText(inThink, text);
            && Emitted(s.events) == Said(if inThink then Reasoning else Content, text)
            && s.inThink == inThink && s.buffer == ""
  {
    FoundHasAngle(text, Tag(inThink));
    assert text[..|text|] == text && text[|text|..] == "";
  }

  lemma FoundHasAngle(text: string, tag: string)
    requires tag != "" && tag[0] == '<'
    ensures Find(text, tag).Some? ==> '<' in text
  {
    match Find(text, tag)
    case Some(i) => assert text[i] == text[i..i + |tag|][0];
    case None =>
  }

  lemma ThoughtIsSaid(text: string, before: string, inside: string, after: string)
    requires OneThought(text, before, inside, after)
    ensures var s := ScanText(false, text);
            && Emitted(s.events) == Said(Content, before) + (Said(Reasoning, inside) + Said(Content, after))
            && !s.inThink && s.buffer == ""
  {
    FoundBehind(false, before, inside + ("</think>" + after));
    FoundBehind(true, inside, after);
    PlainText(false, after);
    SaidFirst(false, text, |before|);
    SaidFirst(true, inside + ("</think>" + after), |inside|);
    hide ScanText, Emitted, Find;
    assert "<think>" == Tag(false) && "</think>" == Tag(true);
  }

  lemma SaidFirst(inThink: bool, text: string, i: nat)
    requires Find(text, Tag(inThink)) == Some(i)
    ensures var s, rest := ScanText(inThink, text), ScanText(!inThink, text[i + |Tag(inThink)|..]);
            && Emitted(s.events) == Said(if inThink then Reasoning else Content, text[..i]) + Emitted(rest.events)
            && s.inThink == rest.inThink && s.buffer == rest.buffer
  {
    var rest := ScanText(!inThink, text[i + |Tag(inThink)|..]);
    var head := PieceOf(inThink, text[..i]);
    assert Emitted(head) == Said(if inThink then Reasoning else Content, text[..i]);
    EmittedAppend(head + [Consumed(inThink)], rest.events);
    EmittedAppend(head, [Consumed(inThink)]);
    assert Emitted([Consumed(inThink)]) == [];
  }

  // ---------------------------------------------------------------- what is held back

  ghost predicate Occurs(text: string, part: string) { exists j :: At(text, j, part) }

  /** The last `<` is less than ten characters from the end, and the text around it leaves a tag possible. */
  ghost predicate MayStartTag(inThink: bool, text: string, i: nat) {
    && i < |text| && text[i] == '<' && (forall j | i < j < |text| :: text[j] != '<') && |text| - i < 10
    && if inThink then Occurs(text, "</") else !Occurs(text, "</think>")
  }

  /** Of a text without the expected tag, that possible start is held back, and nothing else is. */
  lemma HeldBackIff(inThink: bool, text: string)
    requires !Occurs(text, if inThink then "</think>" else "<think>")
    ensures var s := ScanText(inThink, text);
            && Emitted(s.events) == Said(if inThink then Reasoning else Content, text[..|text| - |s.buffer|])
            && s.inThink == inThink
            && (s.buffer != "" <==> exists i: nat :: MayStartTag(inThink, text, i))
            && (forall i: nat | MayStartTag(inThink, text, i) :: s.buffer == text[i..])
  {
    OccursIff(text, Tag(inThink));
    OccursIff(text, "</");
    OccursIff(text, "</think>");
    hide Find, Occurs;
    match LastIndexOf(text, '<')
    case None =>
    case Some(k) =>
      forall i: nat | MayStartTag(inThink, text, i) ensures i == k { assert text[i] == text[k]; }
      if HeldFrom(inThink, text) == k { assert MayStartTag(inThink, text, k); }
  }

  lemma OccursIff(text: string, part: string)
    ensures Occurs(text, part) <==> Contains(text, part)
  {
    FindLeast(text, part);
  }
}
