/** Grounding the leaves of an extraction tree, in place: what one pass does, and that a second does nothing. */
module BboxRefiner {
  import opened Collections
  import opened Wrappers
  import opened Fields
  import opened ValueMatcher

  /** A leaf field. What refinement never writes is constant. */
  class Leaf {
    const name: string
    const value: Value
    var pages: seq<int>
    var bbox: Option<BoundingBox>

    constructor (name: string, value: Value, pages: seq<int>, bbox: Option<BoundingBox>)
      ensures this.name == name && this.value == value && this.pages == pages && this.bbox == bbox
    {
      this.name, this.value, this.pages, this.bbox := name, value, pages, bbox;
    }

    function Now(): Snap
      reads this
    {
      Snap(value, pages, bbox)
    }
  }

  /** A field tree: array parents over leaves. */
  datatype Tree = Parent(name: string, children: seq<Tree>) | Tip(leaf: Leaf)

  /** The state of one leaf. */
  datatype Snap = Snap(value: Value, pages: seq<int>, bbox: Option<BoundingBox>)

  /** Where the words of a page came from; never the model. */
  datatype WordSource = TextLayer | Recognised

  datatype PageSource = PageSource(page: int, source: WordSource)

  /** A matcher that is deterministic per field: its answer depends on field id, value and candidate pages. */
  type Matcher = (nat, string, Option<seq<int>>) -> Option<MatchResult>

  datatype Counters = Counters(fieldsSeen: nat, groundedPdf: nat, groundedOcr: nat, keptLlm: nat)

  // ---- What happens to one leaf --------------------------------------------

  /** Python's text of a value to search for; nothing for absent and boolean values. */
  function SearchString(strip: string -> string, v: Value): string {
    match v
    case Text(s) => strip(s)
    case Number(s) => s
    case _ => ""
  }

  predicate Grounded(s: Snap) {
    s.bbox.Some? && (s.bbox.value.source == Some(PdfText) || s.bbox.value.source == Some(Ocr))
  }

  function SourceOf(pages: seq<PageSource>, page: int): WordSource {
    if |pages| == 0 then TextLayer else if pages[0].page == page then pages[0].source else SourceOf(pages[1..], page)
  }

  function Tag(source: WordSource): BoxSource { if source == TextLayer then PdfText else Ocr }

  function Replaced(s: Snap, m: MatchResult, source: WordSource): Snap {
    var quality := if s.bbox.Some? then s.bbox.value.quality else None;
    var qualityScore := if s.bbox.Some? then s.bbox.value.qualityScore else 0.0;
    Snap(s.value, if m.page in s.pages then s.pages else [m.page] + s.pages,
         Some(BoundingBox(m.xmin, m.ymin, m.xmax, m.ymax, quality, qualityScore, Some(Tag(source)), Some(m.score))))
  }

  function Unmatched(s: Snap): Snap {
    if s.bbox.None? then s else s.(bbox := Some(s.bbox.value.(source := Some(Llm), refinementConfidence := None)))
  }

  function Candidates(s: Snap): Option<seq<int>> { if |s.pages| == 0 then None else Some(s.pages) }

  datatype Fate = WasPdf | WasOcr | NowPdf | NowOcr | KeptLlm | Silent

  function FateOf(strip: string -> string, matcher: Matcher, pages: seq<PageSource>, i: nat, s: Snap): Fate {
    if Grounded(s) then (if s.bbox.value.source == Some(PdfText) then WasPdf else WasOcr)
    else if SearchString(strip, s.value) == "" then Silent
    else
      match matcher(i, SearchString(strip, s.value), Candidates(s))
      case None => KeptLlm
      case Some(m) => if SourceOf(pages, m.page) == TextLayer then NowPdf else NowOcr
  }

  function After(strip: string -> string, matcher: Matcher, pages: seq<PageSource>, i: nat, s: Snap): Snap {
    if Grounded(s) || SearchString(strip, s.value) == "" then s
    else
      match matcher(i, SearchString(strip, s.value), Candidates(s))
      case None => Unmatched(s)
      case Some(m) => Replaced(s, m, SourceOf(pages, m.page))
  }

  /** What the constructor of a box accepts. */
  predicate ValidBox(m: MatchResult) {
    && 0.0 <= m.xmin < m.xmax <= 1.0 && 0.0 <= m.ymin < m.ymax <= 1.0 && 0.0 <= m.score <= 1.0
  }

  /** The matcher's answer for this leaf is no box: the constructor raises, and the pass ends there. */
  predicate Rejected(strip: string -> string, matcher: Matcher, i: nat, s: Snap) {
    if Grounded(s) || SearchString(strip, s.value) == "" then false
    else
      match matcher(i, SearchString(strip, s.value), Candidates(s))
      case None => false
      case Some(m) => !ValidBox(m)
  }

  /** The first leaf from `n` on whose match is rejected, or the number of leaves. */
  function Stop(strip: string -> string, matcher: Matcher, snaps: seq<Snap>, n: nat): (stop: nat)
    requires n <= |snaps|
    ensures n <= stop <= |snaps|
    ensures forall i :: n <= i < stop ==> !Rejected(strip, matcher, i, snaps[i])
    ensures stop < |snaps| ==> Rejected(strip, matcher, stop, snaps[stop])
    decreases |snaps| - n
  {
    if n == |snaps| || Rejected(strip, matcher, n, snaps[n]) then n else Stop(strip, matcher, snaps, n + 1)
  }

  lemma {:induction false} StopIs(strip: string -> string, matcher: Matcher, snaps: seq<Snap>, n: nat, stop: nat)
    requires n <= stop <= |snaps| && forall i :: n <= i < stop ==> !Rejected(strip, matcher, i, snaps[i])
    requires stop < |snaps| ==> Rejected(strip, matcher, stop, snaps[stop])
    ensures Stop(strip, matcher, snaps, n) == stop
    decreases stop - n
  {
    if n != stop {
      StopIs(strip, matcher, snaps, n + 1, stop);
    }
  }

  // ---- Counting ------------------------------------------------------------

  function Fates(strip: string -> string, matcher: Matcher, pages: seq<PageSource>,
                 snaps: seq<Snap>): (fates: seq<Fate>)
    ensures |fates| == |snaps|
  {
    seq(|snaps|, i requires 0 <= i < |snaps| => FateOf(strip, matcher, pages, i, snaps[i]))
  }

  function Count(fates: seq<Fate>, fate: Fate): nat {
    if |fates| == 0 then 0 else Count(fates[..|fates| - 1], fate) + (if fates[|fates| - 1] == fate then 1 else 0)
  }

  lemma CountNext(fates: seq<Fate>, n: nat, fate: Fate)
    requires n < |fates|
    ensures Count(fates[..n + 1], fate) == Count(fates[..n], fate) + (if fates[n] == fate then 1 else 0)
  {
    assert fates[..n + 1][..n] == fates[..n];
  }

  function Tally(fates: seq<Fate>): Counters {
    Counters(|fates|, Count(fates, WasPdf) + Count(fates, NowPdf), Count(fates, WasOcr) + Count(fates, NowOcr),
        Count(fates, KeptLlm))
  }

  // ---- The pass ------------------------------------------------------------

  function LeavesOf(tree: Tree): seq<Leaf> {
    match tree
    case Tip(leaf) => [leaf]
    case Parent(_, children) => LeavesOfAll(children)
  }

  function LeavesOfAll(trees: seq<Tree>): seq<Leaf> {
    if |trees| == 0 then [] else LeavesOf(trees[0]) + LeavesOfAll(trees[1..])
  }

  /** Appends the leaves below a field to the sink, in order. */
  method CollectLeaves(tree: Tree, sink: seq<Leaf>) returns (out: seq<Leaf>)
    ensures out == sink + LeavesOf(tree)
    decreases tree
  {
    match tree
    case Tip(leaf) => out := sink + [leaf];
    case Parent(_, children) =>
      out := sink;
      for k := 0 to |children|
        invariant out + LeavesOfAll(children[k..]) == sink + LeavesOf(tree)
      {
        ghost var before := out;
        out := CollectLeaves(children[k], out);
        assert children[k..][1..] == children[k + 1..];
        assert before + (LeavesOf(children[k]) + LeavesOfAll(children[k + 1..])) ==
                 out + LeavesOfAll(children[k + 1..]);
      }
  }

  method CollectAll(groups: seq<Tree>) returns (leaves: seq<Leaf>)
    ensures leaves == LeavesOfAll(groups)
  {
    leaves := [];
    for g := 0 to |groups|
      invariant leaves + LeavesOfAll(groups[g..]) == LeavesOfAll(groups)
    {
      ghost var before := leaves;
      leaves := CollectLeaves(groups[g], leaves);
      assert groups[g..][1..] == groups[g + 1..];
      assert before + (LeavesOf(groups[g]) + LeavesOfAll(groups[g + 1..])) == leaves + LeavesOfAll(groups[g + 1..]);
    }
  }

  function Snaps(leaves: seq<Leaf>): (snaps: seq<Snap>)
    reads leaves
    ensures |snaps| == |leaves| && forall i :: 0 <= i < |leaves| ==> snaps[i] == leaves[i].Now()
  {
    seq(|leaves|, i requires 0 <= i < |leaves| reads leaves => leaves[i].Now())
  }

  /** The leaves before the first rejected match are settled, that one and the later ones untouched. */
  function AllAfter(strip: string -> string, matcher: Matcher, pages: seq<PageSource>,
                    snaps: seq<Snap>): (after: seq<Snap>)
    ensures |after| == |snaps|
    ensures forall i :: 0 <= i < |snaps| ==>
              after[i] == if i < Stop(strip, matcher, snaps, 0)
                  then After(strip, matcher, pages, i, snaps[i]) else snaps[i]
  {
    seq(|snaps|, i requires 0 <= i < |snaps| =>
      if i < Stop(strip, matcher, snaps, 0) then After(strip, matcher, pages, i, snaps[i]) else snaps[i])
  }

  /** The counters of a pass that ran to its end; one that raised reports none. */
  function Report(strip: string -> string, matcher: Matcher, pages: seq<PageSource>,
                  snaps: seq<Snap>): Option<Counters> {
    if Stop(strip, matcher, snaps, 0) == |snaps| then Some(Tally(Fates(strip, matcher, pages, snaps))) else None
  }

  /** One refinement pass over the groups of a document. */
  method Refine(strip: string -> string, matcher: Matcher, pages: seq<PageSource>, groups: seq<Tree>)
    returns (c: Option<Counters>)
    requires Distinct(LeavesOfAll(groups))
    modifies LeavesOfAll(groups)
    ensures Snaps(LeavesOfAll(groups)) == AllAfter(strip, matcher, pages, old(Snaps(LeavesOfAll(groups))))
    ensures c == Report(strip, matcher, pages, old(Snaps(LeavesOfAll(groups))))
  {
    ghost var was := Snaps(LeavesOfAll(groups));
    var leaves := CollectAll(groups);
    assert Snaps(leaves) == was;
    var pdf, ocr := CountGrounded(strip, matcher, pages, leaves);
    c := GroundRest(strip, matcher, pages, leaves, pdf, ocr);
  }

  /** What an earlier pass already grounded. */
  method CountGrounded(ghost strip: string -> string, ghost matcher: Matcher, ghost pages: seq<PageSource>,
                       leaves: seq<Leaf>)
    returns (pdf: nat, ocr: nat)
    ensures pdf == Count(Fates(strip, matcher, pages, Snaps(leaves)), WasPdf)
    ensures ocr == Count(Fates(strip, matcher, pages, Snaps(leaves)), WasOcr)
  {
    ghost var fates := Fates(strip, matcher, pages, Snaps(leaves));
    pdf, ocr := 0, 0;
    for n := 0 to |leaves|
      invariant pdf == Count(fates[..n], WasPdf) && ocr == Count(fates[..n], WasOcr)
    {
      CountNext(fates, n, WasPdf);
      CountNext(fates, n, WasOcr);
      var box := leaves[n].bbox;
      var source := if box.Some? then box.value.source else None;
      if source == Some(PdfText) {
        pdf := pdf + 1;
      } else if source == Some(Ocr) {
        ocr := ocr + 1;
      }
    }
    assert fates[..|leaves|] == fates;
  }

  /** The first `n` leaves are settled, the others as they were. */
  ghost predicate SettledTo(strip: string -> string, matcher: Matcher, pages: seq<PageSource>, was: seq<Snap>,
                            now: seq<Snap>, n: nat) {
    && |now| == |was| && n <= Stop(strip, matcher, was, 0)
    && forall j :: 0 <= j < |was| ==> now[j] == if j < n then After(strip, matcher, pages, j, was[j]) else was[j]
  }

  lemma SettledNext(strip: string -> string, matcher: Matcher, pages: seq<PageSource>, was: seq<Snap>,
                    now: seq<Snap>, next: seq<Snap>, n: nat)
    requires SettledTo(strip, matcher, pages, was, now, n) && n < |was|
    requires |next| == |was| && forall j :: 0 <= j < |was| && j != n ==> next[j] == now[j]
    ensures now[n] == was[n]
    ensures Rejected(strip, matcher, n, was[n]) && next[n] == now[n] ==>
              Report(strip, matcher, pages, was) == None && next == AllAfter(strip, matcher, pages, was)
    ensures !Rejected(strip, matcher, n, was[n]) && next[n] == After(strip, matcher, pages, n, was[n]) ==>
              SettledTo(strip, matcher, pages, was, next, n + 1)
  {
    if Rejected(strip, matcher, n, was[n]) {
      StopIs(strip, matcher, was, 0, n);
    }
  }

  lemma SettledAll(strip: string -> string, matcher: Matcher, pages: seq<PageSource>, was: seq<Snap>, now: seq<Snap>)
    requires SettledTo(strip, matcher, pages, was, now, |was|)
    ensures Report(strip, matcher, pages, was) == Some(Tally(Fates(strip, matcher, pages, was)))
    ensures now == AllAfter(strip, matcher, pages, was)
  {
  }

  function Counted(c: Counters, fate: Fate): Counters {
    match fate
    case NowPdf => c.(groundedPdf := c.groundedPdf + 1)
    case NowOcr => c.(groundedOcr := c.groundedOcr + 1)
    case KeptLlm => c.(keptLlm := c.keptLlm + 1)
    case _ => c
  }

  /** The counters once the matcher was asked about the first `n` leaves. */
  function Running(fates: seq<Fate>, pdf: nat, ocr: nat, n: nat): Counters
    requires n <= |fates|
  {
    Counters(|fates|, pdf + Count(fates[..n], NowPdf), ocr + Count(fates[..n], NowOcr), Count(fates[..n], KeptLlm))
  }

  lemma RunningNext(fates: seq<Fate>, pdf: nat, ocr: nat, n: nat)
    requires n < |fates|
    ensures Running(fates, pdf, ocr, n + 1) == Counted(Running(fates, pdf, ocr, n), fates[n])
  {
    CountNext(fates, n, NowPdf);
    CountNext(fates, n, NowOcr);
    CountNext(fates, n, KeptLlm);
  }

  lemma RunningEnds(fates: seq<Fate>, pdf: nat, ocr: nat)
    ensures Running(fates, pdf, ocr, 0) == Counters(|fates|, pdf, ocr, 0)
    ensures pdf == Count(fates, WasPdf) && ocr == Count(fates, WasOcr) ==>
              Running(fates, pdf, ocr, |fates|) == Tally(fates)
  {
    assert |fates[..0]| == 0 && fates[..|fates|] == fates;
  }

  /** The loop body at leaf `n`. */
  method GroundNth(strip: string -> string, matcher: Matcher, pages: seq<PageSource>, leaves: seq<Leaf>, n: nat,
                   c: Counters, ghost was: seq<Snap>, ghost pdf: nat, ghost ocr: nat)
    returns (c': Counters, raised: bool)
    requires Distinct(leaves) && n < |leaves| == |was|
    requires c == Running(Fates(strip, matcher, pages, was), pdf, ocr, n)
    requires SettledTo(strip, matcher, pages, was, Snaps(leaves), n)
    modifies leaves[n]
    ensures raised ==> Report(strip, matcher, pages, was) == None
    ensures raised ==> Snaps(leaves) == AllAfter(strip, matcher, pages, was)
    ensures !raised ==> SettledTo(strip, matcher, pages, was, Snaps(leaves), n + 1)
    ensures !raised ==> c' == Running(Fates(strip, matcher, pages, was), pdf, ocr, n + 1)
  {
    ghost var now := Snaps(leaves);
    RunningNext(Fates(strip, matcher, pages, was), pdf, ocr, n);
    c', raised := GroundLeaf(strip, matcher, pages, n, leaves[n], c);
    SettledNext(strip, matcher, pages, was, now, Snaps(leaves), n);
  }

  /** Asks the matcher about every other leaf that has something to search for. */
  method GroundRest(strip: string -> string, matcher: Matcher, pages: seq<PageSource>, leaves: seq<Leaf>, pdf: nat,
                    ocr: nat)
    returns (c: Option<Counters>)
    requires Distinct(leaves)
    requires pdf == Count(Fates(strip, matcher, pages, Snaps(leaves)), WasPdf)
    requires ocr == Count(Fates(strip, matcher, pages, Snaps(leaves)), WasOcr)
    modifies leaves
    ensures Snaps(leaves) == AllAfter(strip, matcher, pages, old(Snaps(leaves)))
    ensures c == Report(strip, matcher, pages, old(Snaps(leaves)))
  {
    ghost var was := Snaps(leaves);
    ghost var fates := Fates(strip, matcher, pages, was);
    var counters := Counters(|leaves|, pdf, ocr, 0);
    RunningEnds(fates, pdf, ocr);
    for n := 0 to |leaves|
      invariant SettledTo(strip, matcher, pages, was, Snaps(leaves), n)
      invariant counters == Running(fates, pdf, ocr, n)
    {
      var raised;
      counters, raised := GroundNth(strip, matcher, pages, leaves, n, counters, was, pdf, ocr);
      if raised {
        return None;
      }
    }
    SettledAll(strip, matcher, pages, was, Snaps(leaves));
    c := Some(counters);
  }

  /** The loop body: one leaf, unless it is grounded or has nothing to search for. */
  method GroundLeaf(strip: string -> string, matcher: Matcher, pages: seq<PageSource>, n: nat, leaf: Leaf, c: Counters)
    returns (c': Counters, raised: bool)
    modifies leaf
    ensures raised == Rejected(strip, matcher, n, old(leaf.Now()))
    ensures raised ==> leaf.Now() == old(leaf.Now())
    ensures !raised ==> leaf.Now() == After(strip, matcher, pages, n, old(leaf.Now()))
    ensures !raised ==> c' == Counted(c, FateOf(strip, matcher, pages, n, old(leaf.Now())))
  {
    c', raised := c, false;
    var text := SearchString(strip, leaf.value);
    if !Grounded(leaf.Now()) && text != "" {
      var found := matcher(n, text, Candidates(leaf.Now()));
      if found.None? {
        if leaf.bbox.Some? {
          leaf.bbox := Some(leaf.bbox.value.(source := Some(Llm), refinementConfidence := None));
        }
        c' := c.(keptLlm := c.keptLlm + 1);
      } else {
        var source := SourceOf(pages, found.value.page);
        raised := ReplaceBbox(leaf, found.value, source);
        if raised {
          return;
        }
        if source == TextLayer {
          c' := c.(groundedPdf := c.groundedPdf + 1);
        } else {
          c' := c.(groundedOcr := c.groundedOcr + 1);
        }
      }
    }
  }

  /** The new box is constructed, and so validated, before the leaf is touched. */
  method ReplaceBbox(leaf: Leaf, m: MatchResult, source: WordSource) returns (raised: bool)
    modifies leaf
    ensures raised <==> !ValidBox(m)
    ensures leaf.Now() == if raised then old(leaf.Now()) else Replaced(old(leaf.Now()), m, source)
  {
    raised := !ValidBox(m);
    if raised {
      return;
    }
    var quality := if leaf.bbox.Some? then leaf.bbox.value.quality else None;
    var qualityScore := if leaf.bbox.Some? then leaf.bbox.value.qualityScore else 0.0;
    leaf.bbox := Some(BoundingBox(m.xmin, m.ymin, m.xmax, m.ymax, quality, qualityScore, Some(Tag(source)),
        Some(m.score)));
    if m.page !in leaf.pages {
      leaf.pages := [m.page] + leaf.pages;
    }
  }

  // ---- What a pass is worth ------------------------------------------------

  /** A second look at a leaf changes nothing, and files it where the first left it. */
  lemma LeafIsSettled(strip: string -> string, matcher: Matcher, pages: seq<PageSource>, i: nat, s: Snap)
    ensures var once := After(strip, matcher, pages, i, s);
      && After(strip, matcher, pages, i, once) == once
      && FateOf(strip, matcher, pages, i, once) ==
           match FateOf(strip, matcher, pages, i, s) { case NowPdf => WasPdf case NowOcr => WasOcr case other => other }
      && once.value == s.value && (Grounded(s) ==> once == s)
  {
  }

  lemma {:induction false} SettledCounts(first: seq<Fate>, second: seq<Fate>)
    requires |first| == |second|
    requires forall i :: 0 <= i < |first| ==>
               second[i] == match first[i] { case NowPdf => WasPdf case NowOcr => WasOcr case other => other }
    ensures Tally(second) == Tally(first)
  {
    if |first| > 0 {
      SettledCounts(first[..|first| - 1], second[..|first| - 1]);
    }
  }

  /** A second pass stops where the first did: at its end, or at the same rejected match. */
  lemma SameStop(strip: string -> string, matcher: Matcher, pages: seq<PageSource>, snaps: seq<Snap>)
    ensures Stop(strip, matcher, AllAfter(strip, matcher, pages, snaps), 0) == Stop(strip, matcher, snaps, 0)
  {
    var once, stop := AllAfter(strip, matcher, pages, snaps), Stop(strip, matcher, snaps, 0);
    forall i | 0 <= i < stop ensures !Rejected(strip, matcher, i, once[i]) {
      assert !Rejected(strip, matcher, i, snaps[i]);
    }
    StopIs(strip, matcher, once, 0, stop);
  }

  /** A second pass changes no leaf and reports what the first did: the same counters, or that it raised. */
  lemma RefineIsIdempotent(strip: string -> string, matcher: Matcher, pages: seq<PageSource>, snaps: seq<Snap>)
    ensures var once := AllAfter(strip, matcher, pages, snaps);
      && AllAfter(strip, matcher, pages, once) == once
      && Report(strip, matcher, pages, once) == Report(strip, matcher, pages, snaps)
  {
    var once := AllAfter(strip, matcher, pages, snaps);
    SameStop(strip, matcher, pages, snaps);
    forall i | 0 <= i < |snaps| ensures AllAfter(strip, matcher, pages, once)[i] == once[i] {
      LeafIsSettled(strip, matcher, pages, i, snaps[i]);
    }
    if Stop(strip, matcher, snaps, 0) == |snaps| {
      SettledReport(strip, matcher, pages, snaps, once);
    }
  }

  lemma SettledReport(strip: string -> string, matcher: Matcher, pages: seq<PageSource>,
                      snaps: seq<Snap>, once: seq<Snap>)
    requires |once| == |snaps|
    requires forall i :: 0 <= i < |snaps| ==> once[i] == After(strip, matcher, pages, i, snaps[i])
    ensures Tally(Fates(strip, matcher, pages, once)) == Tally(Fates(strip, matcher, pages, snaps))
  {
    var first, second := Fates(strip, matcher, pages, snaps), Fates(strip, matcher, pages, once);
    forall i | 0 <= i < |snaps|
      ensures second[i] == match first[i] { case NowPdf => WasPdf case NowOcr => WasOcr case other => other }
    {
      LeafIsSettled(strip, matcher, pages, i, snaps[i]);
    }
    SettledCounts(first, second);
  }

  /** Every leaf is counted exactly once, but for those with neither a grounded box nor a search string. */
  lemma {:induction false} EveryFateCounts(fates: seq<Fate>)
    ensures Tally(fates).groundedPdf + Tally(fates).groundedOcr + Tally(fates).keptLlm + Count(fates, Silent) == |fates|
  {
    if |fates| > 0 {
      EveryFateCounts(fates[..|fates| - 1]);
    }
  }

  lemma CountersAddUp(strip: string -> string, matcher: Matcher, pages: seq<PageSource>, snaps: seq<Snap>)
    ensures var c := Tally(Fates(strip, matcher, pages, snaps));
      c.groundedPdf + c.groundedOcr + c.keptLlm == c.fieldsSeen - |Voiceless(strip, snaps)|
  {
    var fates := Fates(strip, matcher, pages, snaps);
    EveryFateCounts(fates);
    SilentAreVoiceless(strip, matcher, pages, snaps, |snaps|);
    assert fates[..|snaps|] == fates;
    var all := Voiceless(strip, snaps);
    assert Below(all, |snaps|) == all;
  }

  /** The leaves not grounded that have nothing to search for. */
  function Voiceless(strip: string -> string, snaps: seq<Snap>): set<nat> {
    set i: nat | i < |snaps| && !Grounded(snaps[i]) && SearchString(strip, snaps[i].value) == ""
  }

  lemma {:induction false} SilentAreVoiceless(strip: string -> string, matcher: Matcher, pages: seq<PageSource>,
                                              snaps: seq<Snap>, n: nat)
    requires n <= |snaps|
    ensures Count(Fates(strip, matcher, pages, snaps)[..n], Silent) == |Below(Voiceless(strip, snaps), n)|
  {
    if n > 0 {
      SilentAreVoiceless(strip, matcher, pages, snaps, n - 1);
      CountNext(Fates(strip, matcher, pages, snaps), n - 1, Silent);
      BelowNext(Voiceless(strip, snaps), n - 1);
    }
  }

  /** Refining twice in place: the second pass reports what the first did, on the tree it left. */
  method RefineTwice(strip: string -> string, matcher: Matcher, pages: seq<PageSource>, groups: seq<Tree>)
    returns (first: Option<Counters>, second: Option<Counters>)
    requires Distinct(LeavesOfAll(groups))
    modifies LeavesOfAll(groups)
    ensures first == second
    ensures Snaps(LeavesOfAll(groups)) == AllAfter(strip, matcher, pages, old(Snaps(LeavesOfAll(groups))))
  {
    ghost var was := Snaps(LeavesOfAll(groups));
    first := Refine(strip, matcher, pages, groups);
    second := Refine(strip, matcher, pages, groups);
    RefineIsIdempotent(strip, matcher, pages, was);
  }
}
