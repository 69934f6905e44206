/** What one grounding pass does to a leaf and what its counters count, told by the leaf's own fields. */
module RefinerTheorems {
  import opened Collections
  import opened Wrappers
  import opened Fields
  import opened ValueMatcher
  import opened BboxRefiner

  /** The leaf has a box that was measured, not one the model reported. */
  predicate Measured(s: Snap) {
    s.bbox.Some? && s.bbox.value.source.Some? && s.bbox.value.source.value != Llm
  }

  /** `text` is what the leaf is searched by; there is none for nothing, truth values and lists. */
  predicate SearchedBy(strip: string -> string, v: Value, text: string) {
    text != "" && ((v.Text? && text == strip(v.text)) || (v.Number? && text == v.text))
  }

  /** The words of the page were recognised from its image: so says the first entry for the page. */
  ghost predicate FromImage(pages: seq<PageSource>, page: int) {
    exists k :: 0 <= k < |pages| && pages[k].page == page && pages[k].source == Recognised &&
        forall i :: 0 <= i < k ==> pages[i].page != page
  }

  lemma {:induction false} SourceIs(pages: seq<PageSource>, page: int)
    ensures SourceOf(pages, page) == if FromImage(pages, page) then Recognised else TextLayer
  {
    if |pages| > 0 && pages[0].page != page {
      var rest := pages[1..];
      SourceIs(rest, page);
      if FromImage(rest, page) {
        var k :| 0 <= k < |rest| && rest[k].page == page && rest[k].source == Recognised &&
          forall i :: 0 <= i < k ==> rest[i].page != page;
        assert pages[k + 1] == rest[k] && forall i :: 0 < i < k + 1 ==> pages[i] == rest[i - 1];
      }
      if FromImage(pages, page) {
        var k :| 0 <= k < |pages| && pages[k].page == page && pages[k].source == Recognised &&
          forall i :: 0 <= i < k ==> pages[i].page != page;
        assert k > 0 && rest[k - 1] == pages[k] && forall i :: 0 <= i < k - 1 ==> rest[i] == pages[i + 1];
      }
    }
  }

  /** A measured leaf, and one with nothing to search for, is left alone. */
  lemma LeftAlone(strip: string -> string, matcher: Matcher, pages: seq<PageSource>, i: nat, s: Snap)
    requires Measured(s) || forall text :: !SearchedBy(strip, s.value, text)
    ensures After(strip, matcher, pages, i, s) == s && !Rejected(strip, matcher, i, s)
  {
    assert SearchString(strip, s.value) != "" ==> SearchedBy(strip, s.value, SearchString(strip, s.value));
  }

  /** Any other leaf is looked up by its text on the pages it names, or on all if it names none. What is
      not found keeps its box, marked as the model's own. What is found is given the box of the match and
      its score, marked with where the words of that page came from, and keeps the measures of the old
      box; a page it did not name is put first. */
  lemma LookedUp(strip: string -> string, matcher: Matcher, pages: seq<PageSource>, i: nat, s: Snap, text: string)
    requires !Measured(s) && SearchedBy(strip, s.value, text)
    ensures var now := After(strip, matcher, pages, i, s);
      now.value == s.value &&
      match matcher(i, text, if |s.pages| > 0 then Some(s.pages) else None)
      case None =>
        && !Rejected(strip, matcher, i, s) && now.pages == s.pages
        && (s.bbox.None? ==> now.bbox.None?)
        && (s.bbox.Some? ==> now.bbox.Some? && SameShape(now.bbox.value, s.bbox.value) &&
                             now.bbox.value.source == Some(Llm) && now.bbox.value.refinementConfidence == None)
      case Some(m) =>
        && (Rejected(strip, matcher, i, s) <==> !IsBox(m))
        && now.bbox.Some? && At(now.bbox.value, m) && now.bbox.value.refinementConfidence == Some(m.score)
        && now.bbox.value.source == Some(if FromImage(pages, m.page) then Ocr else PdfText)
        && (if s.bbox.Some? then SameMeasures(now.bbox.value, s.bbox.value)
            else now.bbox.value.quality == None && now.bbox.value.qualityScore == 0.0)
        && now.pages == if m.page in s.pages then s.pages else [m.page] + s.pages
  {
    assert SearchString(strip, s.value) == text;
    match matcher(i, text, if |s.pages| > 0 then Some(s.pages) else None) {
      case None =>
      case Some(m) => SourceIs(pages, m.page);
    }
  }

  /** A rectangle within the page, of some width and height, with a score out of one. */
  predicate IsBox(m: MatchResult) {
    && 0.0 <= m.xmin && m.xmax <= 1.0 && m.xmin < m.xmax && 0.0 <= m.ymin && m.ymax <= 1.0 && m.ymin < m.ymax
    && 0.0 <= m.score && m.score <= 1.0
  }

  predicate At(b: BoundingBox, m: MatchResult) {
    b.xmin == m.xmin && b.ymin == m.ymin && b.xmax == m.xmax && b.ymax == m.ymax
  }

  predicate SameMeasures(a: BoundingBox, b: BoundingBox) { a.quality == b.quality && a.qualityScore == b.qualityScore }

  predicate SameShape(a: BoundingBox, b: BoundingBox) {
    a.xmin == b.xmin && a.ymin == b.ymin && a.xmax == b.xmax && a.ymax == b.ymax && SameMeasures(a, b)
  }

  // ---- What is counted -----------------------------------------------------

  function Marked(snaps: seq<Snap>, source: BoxSource): set<nat> {
    set i: nat | i < |snaps| && snaps[i].bbox.Some? && snaps[i].bbox.value.source == Some(source)
  }

  /** The leaves that were searched for and are not measured afterwards. */
  ghost function Missed(strip: string -> string, snaps: seq<Snap>): set<nat> {
    set i: nat | i < |snaps| && !Measured(snaps[i]) && exists text :: SearchedBy(strip, snaps[i].value, text)
  }

  /** `these` are the leaves of one of two fates. */
  ghost predicate Of(fates: seq<Fate>, a: Fate, b: Fate, these: set<nat>) {
    forall i: nat :: i in these <==> i < |fates| && (fates[i] == a || fates[i] == b)
  }

  lemma CountOfTwo(fates: seq<Fate>, a: Fate, b: Fate, these: set<nat>)
    requires Of(fates, a, b, these) && a != b
    ensures |these| == Count(fates, a) + Count(fates, b)
  {
    for n := 0 to |fates|
      invariant |Below(these, n)| == Count(fates[..n], a) + Count(fates[..n], b)
    {
      CountNext(fates, n, a);
      CountNext(fates, n, b);
      BelowNext(these, n);
    }
    TakeAll(fates);
    BelowAll(these, |fates|);
  }

  /** The counters of a pass: all leaves, those it leaves with a box from a text layer, with a recognised
      one, and those it searched for in vain. */
  lemma CountersTold(strip: string -> string, matcher: Matcher, pages: seq<PageSource>, snaps: seq<Snap>)
    requires Report(strip, matcher, pages, snaps).Some?
    ensures var c, after := Report(strip, matcher, pages, snaps).value, AllAfter(strip, matcher, pages, snaps);
      && c.fieldsSeen == |snaps| && c.groundedPdf == |Marked(after, PdfText)|
      && c.groundedOcr == |Marked(after, Ocr)| && c.keptLlm == |Missed(strip, after)|
  {
    var fates, after := Fates(strip, matcher, pages, snaps), AllAfter(strip, matcher, pages, snaps);
    forall i: nat | i < |snaps|
      ensures i in Marked(after, PdfText) <==> fates[i] == WasPdf || fates[i] == NowPdf
      ensures i in Marked(after, Ocr) <==> fates[i] == WasOcr || fates[i] == NowOcr
      ensures i in Missed(strip, after) <==> fates[i] == KeptLlm
    {
      FateTold(strip, matcher, pages, i, snaps[i]);
    }
    CountOfTwo(fates, WasPdf, NowPdf, Marked(after, PdfText));
    CountOfTwo(fates, WasOcr, NowOcr, Marked(after, Ocr));
    CountOfOne(fates, KeptLlm, Missed(strip, after));
  }

  lemma FateTold(strip: string -> string, matcher: Matcher, pages: seq<PageSource>, i: nat, s: Snap)
    ensures var fate, now := FateOf(strip, matcher, pages, i, s), After(strip, matcher, pages, i, s);
      && (fate == WasPdf || fate == NowPdf <==> now.bbox.Some? && now.bbox.value.source == Some(PdfText))
      && (fate == WasOcr || fate == NowOcr <==> now.bbox.Some? && now.bbox.value.source == Some(Ocr))
      && (fate == KeptLlm <==> !Measured(now) && exists text :: SearchedBy(strip, now.value, text))
  {
    assert SearchString(strip, s.value) != "" ==> SearchedBy(strip, s.value, SearchString(strip, s.value));
  }

  lemma CountOfOne(fates: seq<Fate>, a: Fate, these: set<nat>)
    requires forall i: nat :: i in these <==> i < |fates| && fates[i] == a
    ensures |these| == Count(fates, a)
  {
    for n := 0 to |fates|
      invariant |Below(these, n)| == Count(fates[..n], a)
    {
      CountNext(fates, n, a);
      BelowNext(these, n);
    }
    TakeAll(fates);
    BelowAll(these, |fates|);
  }

  /** The leaves of a document: a leaf itself, those below an array parent, and those of one field
      before those of the next. */
  lemma LeavesInOrder(leaf: Leaf, name: string, front: seq<Tree>, back: seq<Tree>)
    ensures LeavesOf(Tip(leaf)) == [leaf]
    ensures LeavesOf(Parent(name, front)) == LeavesOfAll(front)
    ensures LeavesOfAll([]) == [] && forall tree :: LeavesOfAll([tree]) == LeavesOf(tree)
    ensures LeavesOfAll(front + back) == LeavesOfAll(front) + LeavesOfAll(back)
  {
    LeavesOfBoth(front, back, front + back);
  }

  lemma {:induction false} LeavesOfBoth(front: seq<Tree>, back: seq<Tree>, all: seq<Tree>)
    requires all == front + back
    ensures LeavesOfAll(all) == LeavesOfAll(front) + LeavesOfAll(back)
    decreases |front|
  {
    if |front| == 0 {
      NothingAdded(back);
    } else {
      TailOfBoth(front, back, all);
      LeavesOfBoth(front[1..], back, all[1..]);
      InThree(LeavesOf(front[0]), LeavesOfAll(front[1..]), LeavesOfAll(back));
    }
  }

  lemma TailOfBoth<T>(front: seq<T>, back: seq<T>, all: seq<T>)
    requires all == front + back && |front| > 0
    ensures all[0] == front[0] && all[1..] == front[1..] + back
  {
  }

  lemma InThree<T>(a: seq<T>, b: seq<T>, c: seq<T>)
    ensures a + (b + c) == (a + b) + c
  {
  }
}
