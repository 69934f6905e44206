/** Finding an extracted value among the words of a page: sliding windows, best score first. */
module ValueMatcher {
  import opened Collections
  import opened Wrappers

  datatype Word = Word(text: string, xmin: real, ymin: real, xmax: real, ymax: real, order: Option<int>)

  datatype PageWords = PageWords(page: int, words: seq<Word>)

  datatype MatchResult = MatchResult(page: int, xmin: real, ymin: real, xmax: real, ymax: real, score: real)

  /** The text functions of Python and rapidfuzz, uninterpreted: normalisation with and without
      case folding, the digits of a text, its form without punctuation, the number of blank-separated
      words, whether it is in an unspaced script, blank characters, the similarity ratio (out of one)
      and rounding to four places. */
  datatype Texts = Texts(norm: string -> string, plain: string -> string, digits: string -> string,
                         stripped: string -> string, wordCount: string -> nat, unspaced: string -> bool,
                         blank: char -> bool, ratio: (string, string) -> real, round: real -> real)

  // ---- The best window -----------------------------------------------------

  /** Score and lowest reading order of a window; no order counts as infinity. */
  datatype Rank = Rank(score: real, order: Option<int>)

  const Zero := Rank(0.0, None)

  predicate Earlier(a: Option<int>, b: Option<int>) { a.Some? && (b.None? || a.value < b.value) }

  predicate Beats(a: Rank, b: Rank) { a.score > b.score || (a.score == b.score && Earlier(a.order, b.order)) }

  lemma BeatsIsStrict(a: Rank, b: Rank, c: Rank)
    ensures Beats(a, b) ==> !Beats(b, a)
    ensures !Beats(a, b) && !Beats(b, a) ==> a == b
    ensures Beats(a, b) && !Beats(c, b) ==> Beats(a, c)
    ensures !Beats(b, a) && Beats(b, c) ==> Beats(a, c)
    ensures !Beats(b, a) && !Beats(c, b) ==> !Beats(c, a)
  {
  }

  datatype Window = Window(start: nat, end: nat)

  datatype Best = Best(rank: Rank, window: Option<Window>)

  /** Windows of `lo` to `hi` units over `n` units, as far as they are ranked at all. */
  datatype Scan = Scan(n: nat, lo: nat, hi: nat, rank: (nat, nat) -> Option<Rank>)

  function Consider(scan: Scan, best: Best, start: nat, end: nat): Best {
    match scan.rank(start, end)
    case None => best
    case Some(rank) => if Beats(rank, best.rank) then Best(rank, Some(Window(start, end))) else best
  }

  /** The best of all windows that start before `start`. */
  function BestBefore(scan: Scan, start: nat): Best
    decreases start, 1, 0
  {
    if start == 0 then Best(Zero, None) else BestFrom(scan, start - 1, scan.hi + 1)
  }

  /** The best of those, and of the windows at `start` of fewer than `size` units. */
  function BestFrom(scan: Scan, start: nat, size: nat): Best
    decreases start + 1, 0, size
  {
    if size <= scan.lo then BestBefore(scan, start)
    else
      var best := BestFrom(scan, start, size - 1);
      if start + size - 1 > scan.n then best else Consider(scan, best, start, start + size - 1)
  }

  predicate Listed(scan: Scan, w: Window) {
    w.start < scan.n && w.start + scan.lo <= w.end <= w.start + scan.hi && w.end <= scan.n &&
        scan.rank(w.start, w.end).Some?
  }

  function RankOf(scan: Scan, w: Window): Rank
    requires Listed(scan, w)
  {
    scan.rank(w.start, w.end).value
  }

  /** Windows in reading position: by start, then by length. */
  predicate Precedes(v: Window, w: Window) { v.start < w.start || (v.start == w.start && v.end < w.end) }

  /** Of the windows in `seen`: the lexicographic optimum, and the first window to reach it. */
  ghost predicate OptimalAmong(scan: Scan, best: Best, seen: Window -> bool) {
    && (best.window.None? ==> best.rank == Zero)
    && (best.window.Some? ==>
          var w := best.window.value;
          Listed(scan, w) && seen(w) && RankOf(scan, w) == best.rank && Beats(best.rank, Zero) &&
          forall v :: Listed(scan, v) && seen(v) && Precedes(v, w) ==> Beats(best.rank, RankOf(scan, v)))
    && forall v :: Listed(scan, v) && seen(v) ==> !Beats(RankOf(scan, v), best.rank)
  }

  lemma ConsiderIsOptimal(scan: Scan, best: Best, w: Window, seen: Window -> bool, more: Window -> bool)
    requires OptimalAmong(scan, best, seen)
    requires Listed(scan, w) && forall v :: more(v) <==> seen(v) || v == w
    requires forall v :: Listed(scan, v) && seen(v) ==> Precedes(v, w)
    ensures OptimalAmong(scan, Consider(scan, best, w.start, w.end), more)
  {
    var next := Consider(scan, best, w.start, w.end);
    forall v | Listed(scan, v) && seen(v)
      ensures !Beats(RankOf(scan, v), next.rank)
      ensures next.window == Some(w) ==> Beats(next.rank, RankOf(scan, v))
    {
      BeatsIsStrict(RankOf(scan, w), best.rank, RankOf(scan, v));
      BeatsIsStrict(next.rank, RankOf(scan, v), next.rank);
    }
    BeatsIsStrict(RankOf(scan, w), best.rank, Zero);
    BeatsIsStrict(RankOf(scan, w), RankOf(scan, w), Zero);
    BeatsIsStrict(best.rank, Zero, RankOf(scan, w));
  }

  ghost function SeenFrom(start: nat, size: nat): Window -> bool {
    (w: Window) => w.start < start || (w.start == start && w.end < start + size)
  }

  lemma {:induction false} BestFromIsOptimal(scan: Scan, start: nat, size: nat)
    requires 1 <= scan.lo && start < scan.n && size <= scan.hi + 1
    ensures OptimalAmong(scan, BestFrom(scan, start, size), SeenFrom(start, size))
    decreases start + 1, 0, size
  {
    if size <= scan.lo {
      BestBeforeIsOptimal(scan, start);
      SameSeen(scan, BestBefore(scan, start), SeenFrom(start, 0), SeenFrom(start, size));
    } else {
      BestFromIsOptimal(scan, start, size - 1);
      var w := Window(start, start + size - 1);
      var best := BestFrom(scan, start, size - 1);
      if Listed(scan, w) {
        ConsiderIsOptimal(scan, best, w, SeenFrom(start, size - 1), SeenFrom(start, size));
      } else {
        SameSeen(scan, best, SeenFrom(start, size - 1), SeenFrom(start, size));
      }
    }
  }

  lemma {:induction false} BestBeforeIsOptimal(scan: Scan, start: nat)
    requires 1 <= scan.lo && start <= scan.n
    ensures OptimalAmong(scan, BestBefore(scan, start), SeenFrom(start, 0))
    decreases start, 1, 0
  {
    if start > 0 {
      BestFromIsOptimal(scan, start - 1, scan.hi + 1);
      SameSeen(scan, BestBefore(scan, start), SeenFrom(start - 1, scan.hi + 1), SeenFrom(start, 0));
    }
  }

  lemma SameSeen(scan: Scan, best: Best, seen: Window -> bool, more: Window -> bool)
    requires OptimalAmong(scan, best, seen)
    requires forall v :: Listed(scan, v) ==> (seen(v) <==> more(v))
    ensures OptimalAmong(scan, best, more)
  {
  }

  predicate Always(w: Window) { true }

  ghost predicate Optimal(scan: Scan, best: Best) { OptimalAmong(scan, best, Always) }

  /** The scan ends with the lexicographic optimum over all windows, at its first position. */
  lemma ScanIsOptimal(scan: Scan)
    requires 1 <= scan.lo
    ensures Optimal(scan, BestBefore(scan, scan.n))
  {
    BestBeforeIsOptimal(scan, scan.n);
    SameSeen(scan, BestBefore(scan, scan.n), SeenFrom(scan.n, 0), Always);
  }

  /** There is only one such answer. */
  lemma OptimalIsUnique(scan: Scan, a: Best, b: Best)
    requires Optimal(scan, a) && Optimal(scan, b)
    ensures a == b
  {
    if a.window.Some? && b.window.Some? {
      var v, w := a.window.value, b.window.value;
      BeatsIsStrict(a.rank, b.rank, a.rank);
      BeatsIsStrict(a.rank, a.rank, a.rank);
      assert !Precedes(v, w) && !Precedes(w, v);
    }
  }

  /** The nested loops of both matchers: start by start, size by size, until the page ends. */
  method Slide(scan: Scan) returns (best: Best)
    requires 1 <= scan.lo
    ensures best == BestBefore(scan, scan.n)
  {
    best := Best(Zero, None);
    for start := 0 to scan.n
      invariant best == BestBefore(scan, start)
    {
      var size := scan.lo;
      while size <= scan.hi
        invariant scan.lo <= size
        invariant size <= scan.hi + 1 || size == scan.lo
        invariant best == BestFrom(scan, start, size)
        decreases scan.hi + 1 - size
      {
        var end := start + size;
        if end > scan.n {
          NothingFits(scan, start, size, scan.hi + 1);
          break;
        }
        best := Consider(scan, best, start, end);
        size := size + 1;
      }
      assert best == BestFrom(scan, start, scan.hi + 1);
    }
  }

  lemma {:induction false} NothingFits(scan: Scan, start: nat, size: nat, more: nat)
    requires scan.lo <= size <= more && start + size > scan.n
    ensures BestFrom(scan, start, more) == BestFrom(scan, start, size)
    decreases more
  {
    if size < more {
      NothingFits(scan, start, size, more - 1);
    }
  }

  // ---- The box around the winning words ------------------------------------

  function Least(xs: seq<real>): real
    requires |xs| > 0
  {
    if |xs| == 1 then xs[0]
    else
      var m, last := Least(xs[..|xs| - 1]), xs[|xs| - 1];
      if last < m then last else m
  }

  function Greatest(xs: seq<real>): real
    requires |xs| > 0
  {
    if |xs| == 1 then xs[0]
    else
      var m, last := Greatest(xs[..|xs| - 1]), xs[|xs| - 1];
      if last > m then last else m
  }

  lemma {:induction false} ExtremesOf(xs: seq<real>)
    requires |xs| > 0
    ensures exists i :: 0 <= i < |xs| && xs[i] == Least(xs)
    ensures exists i :: 0 <= i < |xs| && xs[i] == Greatest(xs)
    ensures forall i :: 0 <= i < |xs| ==> Least(xs) <= xs[i] <= Greatest(xs)
  {
    if |xs| == 1 {
      assert xs[0] == Least(xs) && xs[0] == Greatest(xs);
    } else {
      var front := xs[..|xs| - 1];
      ExtremesOf(front);
      var i :| 0 <= i < |front| && front[i] == Least(front);
      var j :| 0 <= j < |front| && front[j] == Greatest(front);
      assert xs[i] == front[i] && xs[j] == front[j] && xs[|xs| - 1] == xs[|xs| - 1];
      forall k | 0 <= k < |xs| ensures Least(xs) <= xs[k] <= Greatest(xs) {
        assert k < |front| ==> xs[k] == front[k];
      }
    }
  }

  function Clamp(x: real): real { if x < 0.0 then 0.0 else if x > 1.0 then 1.0 else x }

  function XMin(w: Word): real { w.xmin }

  function YMin(w: Word): real { w.ymin }

  function XMax(w: Word): real { w.xmax }

  function YMax(w: Word): real { w.ymax }

  function Sides(words: seq<Word>, side: Word -> real): seq<real> {
    seq(|words|, i requires 0 <= i < |words| => side(words[i]))
  }

  function UnionBox(round: real -> real, words: seq<Word>, score: real, page: int): MatchResult
    requires |words| > 0
  {
    MatchResult(page, Least(Sides(words, XMin)), Least(Sides(words, YMin)),
                Greatest(Sides(words, XMax)), Greatest(Sides(words, YMax)), round(Clamp(score)))
  }

  predicate Inside(w: Word, xmin: real, ymin: real, xmax: real, ymax: real) {
    xmin <= w.xmin && ymin <= w.ymin && w.xmax <= xmax && w.ymax <= ymax
  }

  predicate Encloses(words: seq<Word>, xmin: real, ymin: real, xmax: real, ymax: real) {
    forall w :: w in words ==> Inside(w, xmin, ymin, xmax, ymax)
  }

  /** The tightest rectangle: all words are inside, and every rectangle they are all inside of contains it. */
  ghost predicate Tightest(words: seq<Word>, box: MatchResult) {
    && Encloses(words, box.xmin, box.ymin, box.xmax, box.ymax)
    && forall x, y, x', y' :: Encloses(words, x, y, x', y') ==>
        x <= box.xmin && y <= box.ymin && box.xmax <= x' && box.ymax <= y'
  }

  lemma SideOf(words: seq<Word>, side: Word -> real)
    requires |words| > 0
    ensures forall w :: w in words ==> Least(Sides(words, side)) <= side(w) <= Greatest(Sides(words, side))
    ensures exists w :: w in words && side(w) == Least(Sides(words, side))
    ensures exists w :: w in words && side(w) == Greatest(Sides(words, side))
  {
    var xs := Sides(words, side);
    ExtremesOf(xs);
    forall w | w in words ensures Least(xs) <= side(w) <= Greatest(xs) {
      var i :| 0 <= i < |words| && words[i] == w;
      assert xs[i] == side(w);
    }
    var i :| 0 <= i < |xs| && xs[i] == Least(xs);
    assert words[i] in words && side(words[i]) == Least(xs);
    var j :| 0 <= j < |xs| && xs[j] == Greatest(xs);
    assert words[j] in words && side(words[j]) == Greatest(xs);
  }

  lemma UnionBoxIsTightest(round: real -> real, words: seq<Word>, score: real, page: int)
    requires |words| > 0
    ensures Tightest(words, UnionBox(round, words, score, page))
  {
    var box := UnionBox(round, words, score, page);
    SideOf(words, XMin);
    SideOf(words, YMin);
    SideOf(words, XMax);
    SideOf(words, YMax);
    var left :| left in words && XMin(left) == box.xmin;
    var top :| top in words && YMin(top) == box.ymin;
    var right :| right in words && XMax(right) == box.xmax;
    var bottom :| bottom in words && YMax(bottom) == box.ymax;
    forall x, y, x', y' | Encloses(words, x, y, x', y')
      ensures x <= box.xmin && y <= box.ymin && box.xmax <= x' && box.ymax <= y'
    {
      assert Inside(left, x, y, x', y') && Inside(top, x, y, x', y') && Inside(right, x, y, x', y') &&
               Inside(bottom, x, y, x', y');
    }
    forall w | w in words ensures Inside(w, box.xmin, box.ymin, box.xmax, box.ymax) {
      assert XMin(w) >= box.xmin && YMin(w) >= box.ymin && XMax(w) <= box.xmax && YMax(w) <= box.ymax;
    }
  }

  // ---- Spaced and unspaced pages -------------------------------------------

  function FirstOrder(words: seq<Word>): Option<int> {
    if |words| == 0 then None
    else
      var best, last := FirstOrder(words[..|words| - 1]), words[|words| - 1].order;
      if Earlier(last, best) then last else best
  }

  function Joined(tx: Texts, words: seq<Word>): string {
    if |words| == 0 then ""
    else
      var front, last := Joined(tx, words[..|words| - 1]), tx.norm(words[|words| - 1].text);
      if last == "" then front else if front == "" then last else front + " " + last
  }

  function SpacedScan(tx: Texts, target: string, words: seq<Word>): Scan {
    var count := if tx.wordCount(target) < 1 then 1 else tx.wordCount(target);
    var cap := if count * 3 > count + 2 then count * 3 else count + 2;
    Scan(|words|, 1, if cap < 12 then cap else 12, (start: nat, end: nat) =>
      if start <= end <= |words| && Joined(tx, words[start..end]) != ""
      then Some(Rank(tx.ratio(target, Joined(tx, words[start..end])), FirstOrder(words[start..end])))
      else None)
  }

  /** One character of the page and the position of its word. */
  datatype Glyph = Glyph(ch: char, at: nat)

  function GlyphsOf(tx: Texts, text: string, at: nat): (gs: seq<Glyph>)
    ensures forall g :: g in gs ==> g.at == at
  {
    if |text| == 0 then []
    else
      var front := GlyphsOf(tx, text[..|text| - 1], at);
      if tx.blank(text[|text| - 1]) then front else front + [Glyph(text[|text| - 1], at)]
  }

  function Glyphs(tx: Texts, words: seq<Word>): (gs: seq<Glyph>)
    ensures forall g :: g in gs ==> g.at < |words|
  {
    if |words| == 0 then []
    else Glyphs(tx, words[..|words| - 1]) + GlyphsOf(tx, tx.plain(words[|words| - 1].text), |words| - 1)
  }

  function Spelling(gs: seq<Glyph>): string { seq(|gs|, i requires 0 <= i < |gs| => gs[i].ch) }

  /** The words of a run of characters, each once, in order. */
  function WordsOf(words: seq<Word>, gs: seq<Glyph>): seq<Word>
    requires forall g :: g in gs ==> g.at < |words|
  {
    if |gs| == 0 then []
    else
      var front := WordsOf(words, gs[..|gs| - 1]);
      if exists g :: g in gs[..|gs| - 1] && g.at == gs[|gs| - 1].at then front else front + [words[gs[|gs| - 1].at]]
  }

  /** The word behind each character. */
  function Behind(words: seq<Word>, gs: seq<Glyph>): seq<Word>
    requires forall g :: g in gs ==> g.at < |words|
  {
    seq(|gs|, i requires 0 <= i < |gs| => assert gs[i] in gs; words[gs[i].at])
  }

  function UnspacedScan(tx: Texts, target: string, words: seq<Word>): Scan {
    var gs := Glyphs(tx, words);
    var cap := if |target| + 4 > 6 then |target| + 4 else 6;
    Scan(|gs|, if |target| > 3 then |target| - 2 else 1, if cap < 80 then cap else 80, (start: nat, end: nat) =>
      if start <= end <= |gs|
      then Some(Rank(tx.ratio(target, Spelling(gs[start..end])), FirstOrder(Behind(words, gs[start..end]))))
      else None)
  }

  lemma {:induction false} WordsOfSome(words: seq<Word>, gs: seq<Glyph>)
    requires |gs| > 0 && forall g :: g in gs ==> g.at < |words|
    ensures |WordsOf(words, gs)| > 0
    ensures forall w :: w in WordsOf(words, gs) <==> exists g :: g in gs && words[g.at] == w
  {
    var front, last := gs[..|gs| - 1], gs[|gs| - 1];
    assert gs == front + [last];
    if |front| > 0 {
      WordsOfSome(words, front);
    }
  }

  /** What a page has to offer for one form of the value. */
  ghost function PageHit(tx: Texts, threshold: real, target: string, page: PageWords): Option<MatchResult> {
    var words := page.words;
    if |words| == 0 then None
    else if tx.unspaced(target) then
      var gs := Glyphs(tx, words);
      var best := BestBefore(UnspacedScan(tx, target, words), |gs|);
      if best.window.None? || best.rank.score < threshold then None
      else
        UnspacedWindow(tx, target, words);
        Some(UnionBox(tx.round, WordsOf(words, gs[best.window.value.start..best.window.value.end]), best.rank.score,
            page.page))
    else
      var best := BestBefore(SpacedScan(tx, target, words), |words|);
      if best.window.None? || best.rank.score < threshold then None
      else
        SpacedWindow(tx, target, words);
        Some(UnionBox(tx.round, words[best.window.value.start..best.window.value.end], best.rank.score, page.page))
  }

  lemma SpacedWindow(tx: Texts, target: string, words: seq<Word>)
    ensures var best := BestBefore(SpacedScan(tx, target, words), |words|);
      best.window.Some? ==> best.window.value.start < best.window.value.end <= |words|
  {
    ScanIsOptimal(SpacedScan(tx, target, words));
  }

  lemma UnspacedWindow(tx: Texts, target: string, words: seq<Word>)
    ensures var gs := Glyphs(tx, words);
      var best := BestBefore(UnspacedScan(tx, target, words), |gs|);
      best.window.Some? ==>
        best.window.value.start < best.window.value.end <= |gs| &&
        |WordsOf(words, gs[best.window.value.start..best.window.value.end])| > 0
  {
    var scan := UnspacedScan(tx, target, words);
    ScanIsOptimal(scan);
    var best := BestBefore(scan, scan.n);
    if best.window.Some? {
      WordsOfSome(words, Glyphs(tx, words)[best.window.value.start..best.window.value.end]);
    }
  }

  method MatchSpaced(tx: Texts, threshold: real, target: string, page: PageWords) returns (hit: Option<MatchResult>)
    requires |page.words| > 0 && !tx.unspaced(target)
    ensures hit == PageHit(tx, threshold, target, page)
  {
    var best := Slide(SpacedScan(tx, target, page.words));
    if best.window.None? || best.rank.score < threshold {
      return None;
    }
    SpacedWindow(tx, target, page.words);
    hit := Some(UnionBox(tx.round, page.words[best.window.value.start..best.window.value.end], best.rank.score,
        page.page));
  }

  method MatchUnspaced(tx: Texts, threshold: real, target: string, page: PageWords) returns (hit: Option<MatchResult>)
    requires |page.words| > 0 && tx.unspaced(target)
    ensures hit == PageHit(tx, threshold, target, page)
  {
    var gs := Glyphs(tx, page.words);
    if |gs| == 0 {
      return None;
    }
    var best := Slide(UnspacedScan(tx, target, page.words));
    if best.window.None? || best.rank.score < threshold {
      return None;
    }
    UnspacedWindow(tx, target, page.words);
    hit := Some(UnionBox(tx.round, WordsOf(page.words, gs[best.window.value.start..best.window.value.end]),
        best.rank.score, page.page));
  }

  method BestMatchOnPage(tx: Texts, threshold: real, target: string, page: PageWords) returns (hit: Option<MatchResult>)
    ensures hit == PageHit(tx, threshold, target, page)
  {
    if |page.words| == 0 {
      return None;
    }
    if tx.unspaced(target) {
      hit := MatchUnspaced(tx, threshold, target, page);
    } else {
      hit := MatchSpaced(tx, threshold, target, page);
    }
  }

  function PageScan(tx: Texts, target: string, page: PageWords): Scan {
    if tx.unspaced(target) then UnspacedScan(tx, target, page.words) else SpacedScan(tx, target, page.words)
  }

  /** The words of a window: those it spans on a spaced page, those behind its characters on an unspaced one. */
  ghost predicate SpannedBy(tx: Texts, target: string, page: PageWords, w: Window, won: seq<Word>)
    requires Listed(PageScan(tx, target, page), w)
  {
    if tx.unspaced(target) then
      var gs := Glyphs(tx, page.words);
      forall x :: x in won <==> exists k :: w.start <= k < w.end && page.words[gs[k].at] == x
    else
      won == page.words[w.start..w.end]
  }

  /** The scan has one optimum: best score, then reading order, at its first position. With a positive
      threshold a page answers iff some window reaches it, and then with the score of the optimal
      window, in the tightest box around exactly the words of that window. */
  lemma PageAnswers(tx: Texts, threshold: real, target: string, page: PageWords) returns (best: Best, won: seq<Word>)
    requires threshold > 0.0 && |page.words| > 0
    ensures Optimal(PageScan(tx, target, page), best)
    ensures var scan := PageScan(tx, target, page);
      var hit := PageHit(tx, threshold, target, page);
      && (hit.Some? <==> exists w :: Listed(scan, w) && RankOf(scan, w).score >= threshold)
      && (hit.Some? ==>
            && best.window.Some? && SpannedBy(tx, target, page, best.window.value, won)
            && |won| > 0 && Tightest(won, hit.value)
            && hit.value.score == tx.round(Clamp(best.rank.score)) && hit.value.page == page.page)
  {
    var scan := PageScan(tx, target, page);
    ScanIsOptimal(scan);
    best := BestBefore(scan, scan.n);
    if w :| Listed(scan, w) && RankOf(scan, w).score >= threshold {
      assert !Beats(RankOf(scan, w), best.rank);
    }
    won := [];
    if best.window.Some? {
      won := Winning(tx, target, page, best);
      UnionBoxIsTightest(tx.round, won, best.rank.score, page.page);
    }
  }

  lemma Winning(tx: Texts, target: string, page: PageWords, best: Best) returns (won: seq<Word>)
    requires |page.words| > 0 && best == BestBefore(PageScan(tx, target, page), PageScan(tx, target, page).n)
    requires best.window.Some? && Listed(PageScan(tx, target, page), best.window.value)
    ensures |won| > 0 && SpannedBy(tx, target, page, best.window.value, won)
    ensures forall threshold: real :: PageHit(tx, threshold, target, page) ==
              if best.rank.score < threshold then None else Some(UnionBox(tx.round, won, best.rank.score, page.page))
  {
    var w := best.window.value;
    if tx.unspaced(target) {
      UnspacedWindow(tx, target, page.words);
      won := WordsOf(page.words, Glyphs(tx, page.words)[w.start..w.end]);
      WordsOfRun(page.words, Glyphs(tx, page.words), w.start, w.end);
    } else {
      SpacedWindow(tx, target, page.words);
      won := page.words[w.start..w.end];
    }
  }

  lemma WordsOfRun(words: seq<Word>, gs: seq<Glyph>, start: nat, end: nat)
    requires start < end <= |gs| && forall g :: g in gs ==> g.at < |words|
    ensures |WordsOf(words, gs[start..end])| > 0
    ensures forall x :: x in WordsOf(words, gs[start..end]) <==>
              exists k :: start <= k < end && words[gs[k].at] == x
  {
    var run := gs[start..end];
    WordsOfSome(words, run);
    forall x ensures x in WordsOf(words, run) <==> exists k :: start <= k < end && words[gs[k].at] == x {
      if g :| g in run && words[g.at] == x {
        var i :| 0 <= i < |run| && run[i] == g;
        assert gs[start + i] == g;
      }
      if k :| start <= k < end && words[gs[k].at] == x {
        assert run[k - start] == gs[k];
      }
    }
  }

  // ---- Over pages and forms ------------------------------------------------

  /** The forms of a value tried on each page: literal, digits (four or more), without punctuation. */
  function Variants(tx: Texts, value: string): (forms: seq<string>)
    ensures forall i, j :: 0 <= i < j < |forms| ==> forms[i] != forms[j]
  {
    var literal, digits, bare := tx.norm(value), tx.digits(value), tx.stripped(value);
    var first := if literal != "" then [literal] else [];
    var second := if |digits| >= 4 && digits !in first then first + [digits] else first;
    if bare != "" && bare !in second then second + [bare] else second
  }

  function OnPages(pages: seq<PageWords>, wanted: seq<int>): seq<PageWords> {
    if |pages| == 0 then []
    else
      var front, last := OnPages(pages[..|pages| - 1], wanted), pages[|pages| - 1];
      if last.page in wanted then front + [last] else front
  }

  predicate AnyWords(pages: seq<PageWords>) { exists i :: 0 <= i < |pages| && |pages[i].words| > 0 }

  /** The candidate pages when one of them has words, else all pages. */
  function Scope(pages: seq<PageWords>, candidates: Option<seq<int>>): seq<PageWords> {
    if candidates.None? || |candidates.value| == 0 then pages
    else
      var wanted := OnPages(pages, candidates.value);
      if AnyWords(wanted) then wanted else pages
  }

  lemma {:induction false} OnPagesAre(pages: seq<PageWords>, wanted: seq<int>)
    ensures forall p :: p in OnPages(pages, wanted) <==> p in pages && p.page in wanted
  {
    if |pages| > 0 {
      OnPagesAre(pages[..|pages| - 1], wanted);
      assert pages == pages[..|pages| - 1] + [pages[|pages| - 1]];
    }
  }

  /** The answers of one page, form by form; a page without words is passed over. */
  ghost function HitsOn(tx: Texts, threshold: real, forms: seq<string>, page: PageWords): seq<Option<MatchResult>> {
    if |page.words| == 0 then []
    else seq(|forms|, i requires 0 <= i < |forms| => PageHit(tx, threshold, forms[i], page))
  }

  ghost function AllHits(tx: Texts, threshold: real, forms: seq<string>,
                         pages: seq<PageWords>): seq<Option<MatchResult>> {
    if |pages| == 0 then []
    else AllHits(tx, threshold, forms, pages[..|pages| - 1]) + HitsOn(tx, threshold, forms, pages[|pages| - 1])
  }

  const Perfect := 0.999

  /** Position `k` holds the first perfect answer or, when none is perfect, the first of the best. */
  ghost predicate FirstAt(hits: seq<Option<MatchResult>>, k: int) {
    0 <= k < |hits| && hits[k].Some? && forall i :: 0 <= i < |hits| && hits[i].Some? ==> Yields(hits, i, k)
  }

  ghost predicate Yields(hits: seq<Option<MatchResult>>, i: int, k: int)
    requires 0 <= i < |hits| && 0 <= k < |hits| && hits[i].Some? && hits[k].Some?
  {
    && (i < k ==> hits[i].value.score < hits[k].value.score && hits[i].value.score < Perfect)
    && (hits[k].value.score < Perfect ==> hits[i].value.score <= hits[k].value.score)
  }

  ghost predicate Located(hits: seq<Option<MatchResult>>, best: Option<MatchResult>) {
    || (best.None? && forall i :: 0 <= i < |hits| ==> hits[i].None?)
    || exists k :: FirstAt(hits, k) && hits[k] == best
  }

  ghost predicate BestSoFar(hits: seq<Option<MatchResult>>, best: Option<MatchResult>) {
    Located(hits, best) && (best.Some? ==> best.value.score < Perfect)
  }

  /** One answer is determined by the hits. */
  lemma LocatedIsUnique(hits: seq<Option<MatchResult>>, a: Option<MatchResult>, b: Option<MatchResult>)
    requires Located(hits, a) && Located(hits, b)
    ensures a == b
  {
    if a.Some? && b.Some? {
      var i :| FirstAt(hits, i) && hits[i] == a;
      var j :| FirstAt(hits, j) && hits[j] == b;
      assert Yields(hits, i, j) && Yields(hits, j, i);
    }
  }

  lemma OneMoreHit(hits: seq<Option<MatchResult>>, best: Option<MatchResult>, hit: Option<MatchResult>,
                   more: seq<Option<MatchResult>>)
    requires BestSoFar(hits, best) && more == hits + [hit]
    ensures Located(more, if hit.Some? && (best.None? || hit.value.score > best.value.score) then hit else best)
  {
    assert forall i :: 0 <= i < |hits| ==> more[i] == hits[i];
    if hit.Some? && (best.None? || hit.value.score > best.value.score) {
      forall i | 0 <= i < |more| && more[i].Some? ensures Yields(more, i, |hits|) {
        if i < |hits| && best.Some? {
          var k :| FirstAt(hits, k) && hits[k] == best;
          assert Yields(hits, i, k);
        }
      }
      assert FirstAt(more, |hits|);
    } else if best.Some? {
      var k :| FirstAt(hits, k) && hits[k] == best;
      forall i | 0 <= i < |more| && more[i].Some? ensures Yields(more, i, k) {
        assert i < |hits| ==> Yields(hits, i, k);
      }
      assert FirstAt(more, k);
    }
  }

  /** Nothing after a perfect answer matters. */
  lemma LocatedStays(hits: seq<Option<MatchResult>>, rest: seq<Option<MatchResult>>, best: Option<MatchResult>)
    requires best.Some? && best.value.score >= Perfect && Located(hits, best)
    ensures Located(hits + rest, best)
  {
    var k :| FirstAt(hits, k) && hits[k] == best;
    var all := hits + rest;
    forall i | 0 <= i < |all| && all[i].Some? ensures Yields(all, i, k) {
      assert i < |hits| ==> Yields(hits, i, k);
    }
    assert FirstAt(all, k);
  }

  lemma NextPage(tx: Texts, threshold: real, forms: seq<string>, scope: seq<PageWords>, p: nat)
    requires p < |scope|
    ensures AllHits(tx, threshold, forms, scope[..p + 1]) ==
            AllHits(tx, threshold, forms, scope[..p]) + HitsOn(tx, threshold, forms, scope[p])
  {
    assert scope[..p + 1][..p] == scope[..p];
  }

  method Locate(tx: Texts, threshold: real, value: string, pages: seq<PageWords>, candidates: Option<seq<int>>)
    returns (best: Option<MatchResult>)
    ensures tx.norm(value) == "" ==> best.None?
    ensures tx.norm(value) != "" ==> Located(AllHits(tx, threshold, Variants(tx, value), Scope(pages, candidates)),
              best)
  {
    if tx.norm(value) == "" {
      return None;
    }
    var scope, forms := Scope(pages, candidates), Variants(tx, value);
    best := None;
    for p := 0 to |scope|
      invariant BestSoFar(AllHits(tx, threshold, forms, scope[..p]), best)
    {
      NextPage(tx, threshold, forms, scope, p);
      ghost var before := AllHits(tx, threshold, forms, scope[..p]);
      if |scope[p].words| == 0 {
        assert before + HitsOn(tx, threshold, forms, scope[p]) == before;
        continue;
      }
      var stop;
      best, stop := TryForms(tx, threshold, forms, scope[p], before, best);
      if stop {
        RestIsIgnored(tx, threshold, forms, scope, p + 1, best);
        return;
      }
    }
    assert scope[..|scope|] == scope;
  }

  /** All forms of the value on one page; `stop` when a perfect answer came up. */
  method TryForms(tx: Texts, threshold: real, forms: seq<string>, page: PageWords,
                  ghost before: seq<Option<MatchResult>>, running: Option<MatchResult>)
    returns (best: Option<MatchResult>, stop: bool)
    requires |page.words| > 0 && BestSoFar(before, running)
    ensures !stop ==> BestSoFar(before + HitsOn(tx, threshold, forms, page), best)
    ensures stop ==>
              best.Some? && best.value.score >= Perfect && Located(before + HitsOn(tx, threshold, forms, page), best)
  {
    best, stop := running, false;
    ghost var hits := HitsOn(tx, threshold, forms, page);
    assert before + hits[..0] == before;
    for v := 0 to |forms|
      invariant BestSoFar(before + hits[..v], best)
    {
      var hit := BestMatchOnPage(tx, threshold, forms[v], page);
      OneMore(before, hits, v);
      OneMoreHit(before + hits[..v], best, hit, before + hits[..v + 1]);
      if hit.Some? && (best.None? || hit.value.score > best.value.score) {
        best := hit;
        if hit.value.score >= Perfect {
          LocatedStays(before + hits[..v + 1], hits[v + 1..], best);
          SplitAt(before, hits, v + 1);
          return best, true;
        }
      }
    }
    assert hits[..|forms|] == hits;
  }

  lemma {:induction false} RestIsIgnored(tx: Texts, threshold: real, forms: seq<string>, scope: seq<PageWords>, p: nat,
                                          best: Option<MatchResult>)
    requires p <= |scope| && best.Some? && best.value.score >= Perfect
    requires Located(AllHits(tx, threshold, forms, scope[..p]), best)
    ensures Located(AllHits(tx, threshold, forms, scope), best)
    decreases |scope|
  {
    if p == |scope| {
      assert scope[..p] == scope;
    } else {
      var front := scope[..|scope| - 1];
      assert front[..p] == scope[..p];
      RestIsIgnored(tx, threshold, forms, front, p, best);
      LocatedStays(AllHits(tx, threshold, forms, front), HitsOn(tx, threshold, forms, scope[|scope| - 1]), best);
    }
  }

  ghost predicate Answer(tx: Texts, threshold: real, forms: seq<string>, pages: seq<PageWords>,
                         hit: Option<MatchResult>) {
    exists p, f :: p in pages && |p.words| > 0 && f in forms && hit == PageHit(tx, threshold, f, p)
  }

  lemma {:induction false} HitIsAnswer(tx: Texts, threshold: real, forms: seq<string>, pages: seq<PageWords>,
                                       hit: Option<MatchResult>)
    returns (p: PageWords, f: string)
    requires hit in AllHits(tx, threshold, forms, pages)
    ensures p in pages && |p.words| > 0 && f in forms && hit == PageHit(tx, threshold, f, p)
  {
    var front, last := pages[..|pages| - 1], pages[|pages| - 1];
    var hits := HitsOn(tx, threshold, forms, last);
    if hit in hits {
      var i :| 0 <= i < |hits| && hits[i] == hit;
      p, f := last, forms[i];
    } else {
      p, f := HitIsAnswer(tx, threshold, forms, front, hit);
    }
  }

  lemma {:induction false} AnswerIsHit(tx: Texts, threshold: real, forms: seq<string>, pages: seq<PageWords>,
                                       p: PageWords, f: string)
    requires p in pages && |p.words| > 0 && f in forms
    ensures PageHit(tx, threshold, f, p) in AllHits(tx, threshold, forms, pages)
  {
    var front, last := pages[..|pages| - 1], pages[|pages| - 1];
    if p == last {
      var i :| 0 <= i < |forms| && forms[i] == f;
      assert HitsOn(tx, threshold, forms, last)[i] == PageHit(tx, threshold, f, p);
    } else {
      assert p in front;
      AnswerIsHit(tx, threshold, forms, front, p, f);
    }
  }

  lemma HitsAreAnswers(tx: Texts, threshold: real, forms: seq<string>, pages: seq<PageWords>, hit: Option<MatchResult>)
    ensures hit in AllHits(tx, threshold, forms, pages) <==> Answer(tx, threshold, forms, pages, hit)
  {
    if hit in AllHits(tx, threshold, forms, pages) {
      var p, f := HitIsAnswer(tx, threshold, forms, pages, hit);
    }
    if p, f :| p in pages && |p.words| > 0 && f in forms && hit == PageHit(tx, threshold, f, p) {
      AnswerIsHit(tx, threshold, forms, pages, p, f);
    }
  }

  lemma NoBetterAnswer(tx: Texts, threshold: real, forms: seq<string>, scope: seq<PageWords>,
                       best: Option<MatchResult>, hit: Option<MatchResult>)
    requires Located(AllHits(tx, threshold, forms, scope), best)
    requires Answer(tx, threshold, forms, scope, hit) && hit.Some?
    ensures best.Some? && (hit.value.score <= best.value.score || best.value.score >= Perfect)
  {
    var hits := AllHits(tx, threshold, forms, scope);
    HitsAreAnswers(tx, threshold, forms, scope, hit);
    var i :| 0 <= i < |hits| && hits[i] == hit;
    if best.Some? {
      var k :| FirstAt(hits, k) && hits[k] == best;
      assert Yields(hits, i, k);
    }
  }

  lemma BestIsAnswer(tx: Texts, threshold: real, forms: seq<string>, scope: seq<PageWords>, best: Option<MatchResult>)
    requires Located(AllHits(tx, threshold, forms, scope), best) && best.Some?
    ensures Answer(tx, threshold, forms, scope, best)
  {
    var hits := AllHits(tx, threshold, forms, scope);
    var k :| FirstAt(hits, k) && hits[k] == best;
    HitsAreAnswers(tx, threshold, forms, scope, best);
  }

  /** Candidate pages with words are the whole scope. */
  lemma CandidatesBind(pages: seq<PageWords>, wanted: seq<int>)
    requires exists p :: p in pages && p.page in wanted && |p.words| > 0
    ensures forall q :: q in Scope(pages, Some(wanted)) ==> q.page in wanted
  {
    OnPagesAre(pages, wanted);
    var p :| p in pages && p.page in wanted && |p.words| > 0;
    var on := OnPages(pages, wanted);
    var i :| 0 <= i < |on| && on[i] == p;
  }

  /** What a located value is worth: it is the answer of some page in scope to some form; unless it is
      perfect no page in scope has a better one; and candidate pages with words are binding. */
  lemma LocatedIsBest(tx: Texts, threshold: real, value: string, pages: seq<PageWords>, candidates: Option<seq<int>>,
                      best: Option<MatchResult>)
    requires Located(AllHits(tx, threshold, Variants(tx, value), Scope(pages, candidates)), best)
    ensures forall hit :: Answer(tx, threshold, Variants(tx, value), Scope(pages, candidates), hit) && hit.Some? ==>
              best.Some? && (hit.value.score <= best.value.score || best.value.score >= Perfect)
    ensures best.Some? ==> Answer(tx, threshold, Variants(tx, value), Scope(pages, candidates), best)
    ensures best.Some? && candidates.Some? &&
              (exists p :: p in pages && p.page in candidates.value && |p.words| > 0) ==>
              best.value.page in candidates.value
  {
    var forms, scope := Variants(tx, value), Scope(pages, candidates);
    forall hit | Answer(tx, threshold, forms, scope, hit) && hit.Some?
      ensures best.Some? && (hit.value.score <= best.value.score || best.value.score >= Perfect)
    {
      NoBetterAnswer(tx, threshold, forms, scope, best, hit);
    }
    if best.Some? {
      BestIsAnswer(tx, threshold, forms, scope, best);
      if candidates.Some? && exists p :: p in pages && p.page in candidates.value && |p.words| > 0 {
        CandidatesBind(pages, candidates.value);
        var q, f :| q in scope && |q.words| > 0 && f in forms && best == PageHit(tx, threshold, f, q);
      }
    }
  }
}
