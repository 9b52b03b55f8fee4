/**
  Whole streams against `CleanStream`: chunking keeps every label exactly when no cut tears a tag.  What one torn cut
  does is never undone by a later one, because a parser left in the wrong mode only ever consumes less.
*/
module ThinkTagStreams {
  import opened Text
  import opened ThinkTags

  /** The tag that is not expected in a mode is text there. */
  lemma OtherTagIsText(inThink: bool, c: string)
    requires StartsWith(c, Tag(!inThink))
    ensures Read(inThink, c).labels == Dye(KindIn(inThink), Tag(!inThink)) + Read(inThink, c[|Tag(!inThink)|..]).labels
  {
    var other := Tag(!inThink);
    TagInterior(!inThink);
    TagInterior(inThink);
    forall j | 0 <= j < |other| ensures !At(c, j, Tag(inThink)) {
      assert c[j] == c[..|other|][j] && c[1] == c[..|other|][1];
      if At(c, j, Tag(inThink)) { HeadChars(c, j, Tag(inThink)); }
    }
    ReadSkip(inThink, c, |other|);
    assert c[..|other|] == other;
  }

  /** Starting in the wrong mode costs at most one tag: the one the right mode would not have expected. */
  lemma {:induction false} WrongModeCostsOneTag(inThink: bool, c: string)
    ensures |Read(!inThink, c).labels| <= |Tag(inThink)| + |Read(inThink, c).labels|
    decreases |c|
  {
    if c == "" {
    } else if StartsWith(c, Tag(inThink)) {
      assert Tag(!!inThink) == Tag(inThink);
      OtherTagIsText(!inThink, c);
    } else if StartsWith(c, Tag(!inThink)) {
      OtherTagIsText(inThink, c);
    } else {
      WrongModeCostsOneTag(inThink, c[1..]);
    }
  }

  /** How many characters are labelled when `a` is scanned and the rest is then read in one go. */
  function CutLength(inThink: bool, a: string, next: string): nat {
    var s := ScanText(inThink, a);
    |LabelsOf(s.events)| + |Read(s.inThink, s.buffer + next).labels|
  }

  lemma AgreeingLength(inThink: bool, a: string, next: string)
    requires CutAgrees(inThink, a, next)
    ensures CutLength(inThink, a, next) == |Read(inThink, a + next).labels|
  {
  }

  /** The labels a torn stretch gives at once, against a reading that finds the tag. */
  lemma TornLabels(inThink: bool, a: string, next: string) returns (k: nat, c: string)
    requires !Contains(a, Tag(inThink)) && Torn(inThink, a, next)
    ensures 1 <= k < |Tag(inThink)| && k <= |a|
    ensures LabelsOf(ScanText(inThink, a).events) == Dye(KindIn(inThink), a)
    ensures Read(inThink, a + next).labels == Dye(KindIn(inThink), a[..|a| - k]) + Read(!inThink, c).labels
    ensures CutLength(inThink, a, next) == |a| - k + |Tag(inThink)| + |Read(inThink, c).labels|
  {
    k := TornWhere(inThink, a, next);
    c := next[|Tag(inThink)| - k..];
    TornWhole(inThink, a, next, k);
    TornHalvesAreText(inThink, next, k);
    PieceLabels(inThink, a);
    assert a[..|a|] == a && a[|a|..] + next == next;
  }

  /** A cut never labels fewer characters than one reading does. */
  lemma {:induction false} CutIsNoShorter(inThink: bool, a: string, next: string)
    ensures CutLength(inThink, a, next) >= |Read(inThink, a + next).labels|
    decreases |a|
  {
    match Find(a, Tag(inThink))
    case Some(i) =>
      CutIsNoShorter(!inThink, a[i + |Tag(inThink)|..], next);
      CutLengthStep(inThink, a, next, i);
    case None =>
      if Torn(inThink, a, next) {
        var k, c := TornLabels(inThink, a, next);
        WrongModeCostsOneTag(inThink, c);
      } else {
        CleanStretch(inThink, a, next);
        AgreeingLength(inThink, a, next);
      }
  }

  /** A tag consumed inside `a` adds the same labels on both sides. */
  lemma CutLengthStep(inThink: bool, a: string, next: string, i: nat)
    requires Find(a, Tag(inThink)) == Some(i)
    ensures var tail, head := a[i + |Tag(inThink)|..], Dye(KindIn(inThink), a[..i]);
            && |head| == i && CutLength(inThink, a, next) == i + CutLength(!inThink, tail, next)
            && Read(inThink, a + next).labels == head + Read(!inThink, tail + next).labels
            && LabelsOf(ScanText(inThink, a).events) == head + LabelsOf(ScanText(!inThink, tail).events)
  {
    ScanTagLabels(inThink, a, i);
    FindUnderAppend(inThink, a, next, i);
    ReadTag(inThink, a + next, i);
    hide Read, ScanText, LabelsOf, Find, Dye;
  }

  /** What scanning past a tag emits, and the state it ends in. */
  lemma ScanTagLabels(inThink: bool, a: string, i: nat)
    requires Find(a, Tag(inThink)) == Some(i)
    ensures var s, after := ScanText(inThink, a), ScanText(!inThink, a[i + |Tag(inThink)|..]);
            && i + |Tag(inThink)| <= |a| && |Dye(KindIn(inThink), a[..i])| == i
            && s.inThink == after.inThink && s.buffer == after.buffer
            && LabelsOf(s.events) == Dye(KindIn(inThink), a[..i]) + LabelsOf(after.events)
  {
    FindLeast(a, Tag(inThink));
    hide LabelsOf, Find, PieceOf, HeldFrom;
    TaggedLabels(inThink, a[..i], ScanText(!inThink, a[i + |Tag(inThink)|..]).events);
  }

  /** The cut shows: a label already given is wrong, or more characters are labelled than there should be. */
  predicate CutShows(inThink: bool, a: string, next: string) {
    !(LabelsOf(ScanText(inThink, a).events) <= Read(inThink, a + next).labels)
    || CutLength(inThink, a, next) > |Read(inThink, a + next).labels|
  }

  lemma TornStretchShows(inThink: bool, a: string, next: string)
    requires !Contains(a, Tag(inThink)) && Torn(inThink, a, next)
    ensures CutShows(inThink, a, next)
  {
    var k, c := TornLabels(inThink, a, next);
    var right, n := Read(!inThink, c).labels, |a| - k;
    if c == "" {
    } else if StartsWith(c, Tag(!inThink)) {
      OtherTagIsText(inThink, c);
      assert Tag(!!inThink) == Tag(inThink);
    } else {
      assert right[0].0 == KindIn(!inThink);
      var whole := Dye(KindIn(inThink), a[..n]) + right;
      assert whole[n] == right[0] && Dye(KindIn(inThink), a)[n].0 == KindIn(inThink);
      NoPrefix(Dye(KindIn(inThink), a), whole, n);
    }
  }

  lemma NoPrefix<T>(a: seq<T>, b: seq<T>, n: nat)
    requires n < |a| && n < |b| && a[n] != b[n]
    ensures !(a <= b)
  {
  }

  lemma PrefixUnderHead<T>(head: seq<T>, a: seq<T>, b: seq<T>)
    ensures head + a <= head + b <==> a <= b
  {
    if head + a <= head + b { assert a == (head + a)[|head|..] && b[..|a|] == (head + b)[|head|..][..|a|]; }
  }

  lemma {:induction false} TornCutShows(inThink: bool, a: string, next: string)
    requires Torn(ScanText(inThink, a).inThink, Stretch(inThink, a), next)
    ensures CutShows(inThink, a, next)
    decreases |a|
  {
    hide Torn, Read, HeldFrom, FindFrom, CutLength, LabelsOf, Dye;
    match Find(a, Tag(inThink))
    case Some(i) =>
      var tail := a[i + |Tag(inThink)|..];
      TornCutShows(!inThink, tail, next);
      CutLengthStep(inThink, a, next, i);
      PrefixUnderHead(Dye(KindIn(inThink), a[..i]), LabelsOf(ScanText(!inThink, tail).events),
          Read(!inThink, tail + next).labels);
    case None =>
      TornStretchShows(inThink, a, next);
  }

  /** The labels of a stream are those of its first call, then those of the rest. */
  lemma FeedLabels(inThink: bool, buffer: string, deltas: seq<string>)
    requires deltas != []
    ensures var s := Step(inThink, buffer, deltas[0]);
            Labelled(Feed(inThink, buffer, deltas)).labels
            == LabelsOf(s.events) + Labelled(Feed(s.inThink, s.buffer, deltas[1..])).labels
  {
    var s := Step(inThink, buffer, deltas[0]);
    var rest := Feed(s.inThink, s.buffer, deltas[1..]);
    LabelsAppend(s.events, rest.events);
    Assoc(LabelsOf(s.events), LabelsOf(rest.events), Dye(KindIn(rest.inThink), rest.buffer));
  }

  /** What the first call labels, and the rest read in one go, is no shorter than one reading; a torn cut shows. */
  lemma FirstCut(inThink: bool, buffer: string, delta: string, later: string)
    requires BufferShape(inThink, buffer)
    ensures var s := Step(inThink, buffer, delta);
            var whole := Read(inThink, (buffer + delta) + later).labels;
            var cut := |LabelsOf(s.events)| + |Read(s.inThink, s.buffer + later).labels|;
            && BufferShape(s.inThink, s.buffer)
            && cut >= |whole|
            && (delta != "" && Torn(s.inThink, Stretch(inThink, buffer + delta), later) ==>
                  !(LabelsOf(s.events) <= whole) || cut > |whole|)
  {
    if delta == "" {
      assert buffer + delta == buffer;
    } else {
      ScanBuffer(inThink, buffer + delta);
      CutIsNoShorter(inThink, buffer + delta, later);
      if Torn(Step(inThink, buffer, delta).inThink, Stretch(inThink, buffer + delta), later) {
        TornCutShows(inThink, buffer + delta, later);
      }
    }
  }

  /** However a stream is cut, at least as many characters are labelled as in one reading. */
  lemma {:induction false} StreamIsNoShorter(inThink: bool, buffer: string, deltas: seq<string>)
    requires BufferShape(inThink, buffer)
    ensures |Labelled(Feed(inThink, buffer, deltas)).labels| >= |Read(inThink, buffer + Concat(deltas)).labels|
    decreases |deltas|
  {
    hide Read, ScanText, LabelsOf, Labelled, Torn;
    if deltas == [] {
      ChunkingDoesNotMatter(inThink, buffer, deltas);
    } else {
      var s, later := Step(inThink, buffer, deltas[0]), Concat(deltas[1..]);
      FirstCut(inThink, buffer, deltas[0], later);
      StreamIsNoShorter(s.inThink, s.buffer, deltas[1..]);
      FeedLabels(inThink, buffer, deltas);
      Assoc(buffer, deltas[0], later);
    }
  }

  /** A stream with a torn cut anywhere is mislabelled, whatever comes after. */
  lemma {:induction false} TornStreamDiffers(inThink: bool, buffer: string, deltas: seq<string>)
    requires BufferShape(inThink, buffer) && !CleanStream(inThink, buffer, deltas)
    ensures Labelled(Feed(inThink, buffer, deltas)).labels != Read(inThink, buffer + Concat(deltas)).labels
    decreases |deltas|
  {
    hide Read, ScanText, LabelsOf, Labelled, Torn;
    var s, later := Step(inThink, buffer, deltas[0]), Concat(deltas[1..]);
    FirstCut(inThink, buffer, deltas[0], later);
    FeedLabels(inThink, buffer, deltas);
    Assoc(buffer, deltas[0], later);
    var rest := Labelled(Feed(s.inThink, s.buffer, deltas[1..])).labels;
    if deltas[0] != "" && Torn(s.inThink, Stretch(inThink, buffer + deltas[0]), later) {
      StreamIsNoShorter(s.inThink, s.buffer, deltas[1..]);
    } else {
      StepAgrees(inThink, buffer, deltas[0], later);
      TornStreamDiffers(s.inThink, s.buffer, deltas[1..]);
      CancelHead(LabelsOf(s.events), rest, Read(s.inThink, s.buffer + later).labels);
    }
  }

  /** For every stream and every way of cutting it: all labels are right if and only if no cut tears a tag. */
  lemma ChunkingDoesNotMatterIff(deltas: seq<string>)
    ensures Labelled(Feed(false, "", deltas)) == Labelled(Step(false, "", Concat(deltas))) <==>
        CleanStream(false, "", deltas)
  {
    OneShotIsReading(Concat(deltas));
    assert "" + Concat(deltas) == Concat(deltas);
    hide Read, Feed, Labelled, CleanStream;
    if CleanStream(false, "", deltas) {
      ChunkingDoesNotMatter(false, "", deltas);
    } else {
      TornStreamDiffers(false, "", deltas);
    }
  }
}
