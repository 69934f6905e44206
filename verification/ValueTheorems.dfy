/** What a window of a page is compared by, and what that means for finding a value. */
module ValueTheorems {
  import opened Collections
  import opened Wrappers
  import opened ValueMatcher

  /** The least reading order among the words, none iff no word has one. */
  ghost predicate LeastOrder(run: seq<Word>, order: Option<int>) {
    && (order.None? <==> forall w :: w in run ==> w.order.None?)
    && (order.Some? ==>
          && (exists w :: w in run && w.order == order)
          && forall w :: w in run && w.order.Some? ==> order.value <= w.order.value)
  }

  lemma {:induction false} FirstOrderIsLeast(run: seq<Word>)
    ensures LeastOrder(run, FirstOrder(run))
  {
    if |run| > 0 {
      var front, last := run[..|run| - 1], run[|run| - 1];
      FirstOrderIsLeast(front);
      assert run == front + [last];
      var order := FirstOrder(run);
      assert order.Some? ==> exists w :: w in run && w.order == order by {
        if order == last.order {
          assert last in run;
        } else if order.Some? {
          var w :| w in front && w.order == order;
          assert w in run;
        }
      }
    }
  }

  // ---- Texts with blanks between -------------------------------------------

  /** `text` is these texts in order with one blank between any two: the `k`-th starts at `begins[k]`. */
  ghost predicate SpacedOut(texts: seq<string>, text: string, begins: seq<nat>) {
    && |begins| == |texts|
    && (forall k :: 0 <= k < |texts| ==> StandsAt(text, begins[k], texts[k]))
    && (|texts| > 0 ==> begins[0] == 0)
    && (forall k :: 0 < k < |texts| ==> BlankBefore(text, begins[k - 1] + |texts[k - 1]|, begins[k]))
    && |text| == if |texts| == 0 then 0 else begins[|texts| - 1] + |texts[|texts| - 1]|
  }

  predicate StandsAt(text: string, at: nat, part: string) {
    at + |part| <= |text| && text[at..at + |part|] == part
  }

  predicate BlankBefore(text: string, end: nat, begin: nat) {
    end < |text| && text[end] == ' ' && begin == end + 1
  }

  lemma StandsInMore(text: string, more: string, at: nat, part: string)
    requires StandsAt(text, at, part)
    ensures StandsAt(text + more, at, part)
  {
    assert (text + more)[at..at + |part|] == text[at..at + |part|];
  }

  lemma StandsInLess(text: string, at: nat, part: string, n: nat)
    requires StandsAt(text, at, part) && at + |part| <= n <= |text|
    ensures StandsAt(text[..n], at, part)
  {
    assert text[..n][at..at + |part|] == text[at..at + |part|];
  }

  lemma OneTextMore(texts: seq<string>, text: string, begins: seq<nat>, last: string, all: string)
    requires |texts| > 0 && SpacedOut(texts, text, begins) && all == text + (" " + last)
    ensures SpacedOut(texts + [last], all, begins + [|text| + 1])
  {
    var more, starts := texts + [last], begins + [|text| + 1];
    forall k | 0 <= k < |more| ensures StandsAt(all, starts[k], more[k]) {
      if k < |texts| {
        StandsInMore(text, " " + last, begins[k], texts[k]);
      }
    }
    forall k | 0 < k < |more| ensures BlankBefore(all, starts[k - 1] + |more[k - 1]|, starts[k]) {
      if k < |texts| {
        BlankInMore(text, begins[k - 1] + |texts[k - 1]|, begins[k], " " + last);
      }
    }
  }

  lemma BlankInMore(text: string, end: nat, begin: nat, more: string)
    requires BlankBefore(text, end, begin)
    ensures BlankBefore(text + more, end, begin)
  {
  }

  lemma LastStands(text: string, end: nat, begin: nat, last: string)
    requires BlankBefore(text, end, begin) && StandsAt(text, begin, last) && |text| == begin + |last|
    ensures text == text[..end] + (" " + last)
  {
    assert text == text[..end] + [text[end]] + text[begin..];
  }

  lemma OneTextLess(texts: seq<string>, text: string, begins: seq<nat>, n: nat, rest: string)
    requires |texts| == n + 1 && n > 0 && SpacedOut(texts, text, begins)
    requires begins[n - 1] + |texts[n - 1]| <= |text| && rest == text[..begins[n - 1] + |texts[n - 1]|]
    ensures SpacedOut(texts[..n], rest, begins[..n])
  {
    forall k | 0 <= k < n
      ensures StandsAt(rest, begins[k], texts[k])
      ensures k > 0 ==> BlankBefore(rest, begins[k - 1] + |texts[k - 1]|, begins[k])
    {
      EarlierStays(texts, text, begins, n - 1, k, rest);
    }
  }

  lemma EarlierStays(texts: seq<string>, text: string, begins: seq<nat>, n: nat, k: nat, rest: string)
    requires k <= n < |texts| && SpacedOut(texts, text, begins)
    requires begins[n] + |texts[n]| <= |text| && rest == text[..begins[n] + |texts[n]|]
    ensures StandsAt(rest, begins[k], texts[k])
    ensures k > 0 ==> BlankBefore(rest, begins[k - 1] + |texts[k - 1]|, begins[k])
  {
    assert StandsAt(text, begins[k], texts[k]);
    BeginsGrow(texts, text, begins, k, n);
    StandsInLess(text, begins[k], texts[k], |rest|);
    if k > 0 {
      BlankInLess(text, begins[k - 1] + |texts[k - 1]|, begins[k], |rest|);
    }
  }

  lemma BlankInLess(text: string, end: nat, begin: nat, n: nat)
    requires BlankBefore(text, end, begin) && begin <= n <= |text|
    ensures BlankBefore(text[..n], end, begin)
  {
  }

  lemma {:induction false} BeginsGrow(texts: seq<string>, text: string, begins: seq<nat>, j: nat, k: nat)
    requires SpacedOut(texts, text, begins) && j <= k < |texts|
    ensures begins[j] + |texts[j]| <= begins[k] + |texts[k]|
  {
    if j != k {
      assert BlankBefore(text, begins[k - 1] + |texts[k - 1]|, begins[k]);
      BeginsGrow(texts, text, begins, j, k - 1);
    }
  }

  // ---- Windows of words ----------------------------------------------------

  /** The normalised texts of the first `n` words that are not empty, in order; `parts` says which words. */
  ghost predicate TextsOf(tx: Texts, run: seq<Word>, n: nat, parts: seq<nat>, texts: seq<string>)
    requires n <= |run|
  {
    && |texts| == |parts|
    && (forall k :: 0 <= k < |parts| ==> parts[k] < n && texts[k] == tx.norm(run[parts[k]].text) && texts[k] != "")
    && (forall j, k :: 0 <= j < k < |parts| ==> parts[j] < parts[k])
    && forall i :: 0 <= i < n && tx.norm(run[i].text) != "" ==> i in parts
  }

  /** What a window of words reads. */
  ghost predicate Reads(tx: Texts, run: seq<Word>, text: string) {
    exists parts, texts, begins :: TextsOf(tx, run, |run|, parts, texts) && SpacedOut(texts, text, begins)
  }

  lemma OneWordMore(tx: Texts, run: seq<Word>, n: nat, parts: seq<nat>, texts: seq<string>, last: string)
    requires n < |run| && last == tx.norm(run[n].text) && TextsOf(tx, run, n, parts, texts)
    ensures last == "" ==> TextsOf(tx, run, n + 1, parts, texts)
    ensures last != "" ==> TextsOf(tx, run, n + 1, parts + [n], texts + [last])
  {
    if last == "" {
      forall i | 0 <= i < n + 1 && tx.norm(run[i].text) != "" ensures i in parts {
        assert i != n;
      }
    } else {
      forall i | 0 <= i < n + 1 && tx.norm(run[i].text) != "" ensures i in parts + [n] {
        assert i == n || i in parts;
      }
    }
  }

  lemma GreatestIsLast(parts: seq<nat>, n: nat)
    requires n in parts && forall k :: 0 <= k < |parts| ==> parts[k] <= n
    requires forall j, k :: 0 <= j < k < |parts| ==> parts[j] < parts[k]
    ensures |parts| > 0 && parts[|parts| - 1] == n
  {
  }

  lemma EmptyWordLess(tx: Texts, run: seq<Word>, n: nat, m: nat, parts: seq<nat>, texts: seq<string>)
    requires m == n + 1 <= |run| && tx.norm(run[n].text) == "" && TextsOf(tx, run, m, parts, texts)
    ensures TextsOf(tx, run, n, parts, texts)
  {
    forall k | 0 <= k < |parts| ensures parts[k] < n {
      assert parts[k] != n;
    }
  }

  lemma OneWordLess(tx: Texts, run: seq<Word>, n: nat, m: nat, parts: seq<nat>, texts: seq<string>, last: string)
    requires m == n + 1 <= |run| && last == tx.norm(run[n].text) != "" && TextsOf(tx, run, m, parts, texts)
    ensures |parts| > 0 && texts[|parts| - 1] == last
    ensures TextsOf(tx, run, n, parts[..|parts| - 1], texts[..|parts| - 1])
  {
    GreatestIsLast(parts, n);
    var k := |parts| - 1;
    forall i | 0 <= i < n && tx.norm(run[i].text) != "" ensures i in parts[..k] {
      assert i in parts;
      var j :| 0 <= j < |parts| && parts[j] == i;
      assert parts[..k][j] == i;
    }
  }

  lemma {:induction false} JoinedReads(tx: Texts, run: seq<Word>, n: nat)
    returns (parts: seq<nat>, texts: seq<string>, begins: seq<nat>)
    requires n <= |run|
    ensures TextsOf(tx, run, n, parts, texts) && SpacedOut(texts, Joined(tx, run[..n]), begins)
    ensures Joined(tx, run[..n]) == "" <==> |texts| == 0
  {
    if n == 0 {
      parts, texts, begins := [], [], [];
    } else {
      var front, last := Joined(tx, run[..n - 1]), tx.norm(run[n - 1].text);
      parts, texts, begins := JoinedReads(tx, run, n - 1);
      OneWordMore(tx, run, n - 1, parts, texts, last);
      TakeFront(run, n - 1);
      if last != "" {
        begins := NextBegins(texts, front, begins, last);
        parts, texts := parts + [n - 1], texts + [last];
      }
    }
  }

  lemma NextBegins(texts: seq<string>, front: string, begins: seq<nat>, last: string) returns (more: seq<nat>)
    requires SpacedOut(texts, front, begins) && (front == "" <==> |texts| == 0)
    ensures SpacedOut(texts + [last], if front == "" then last else front + " " + last, more)
  {
    if |texts| == 0 {
      more := [0];
      assert SpacedOut([last], last, more);
    } else {
      assert front + " " + last == front + (" " + last);
      OneTextMore(texts, front, begins, last, front + " " + last);
      more := begins + [|front| + 1];
    }
  }

  lemma JoinedNext(tx: Texts, run: seq<Word>, n: nat, m: nat)
    requires m == n + 1 <= |run|
    ensures var front, last := Joined(tx, run[..n]), tx.norm(run[n].text);
      Joined(tx, run[..m]) == if last == "" then front else if front == "" then last else front + " " + last
  {
    TakeFront(run, n);
  }

  lemma NothingYet(tx: Texts, run: seq<Word>, parts: seq<nat>, texts: seq<string>, text: string, begins: seq<nat>)
    requires TextsOf(tx, run, 0, parts, texts) && SpacedOut(texts, text, begins)
    ensures text == Joined(tx, run[..0])
  {
    assert |parts| == 0;
  }

  /** A window reads one text only. */
  lemma {:induction false} ReadsJoined(tx: Texts, run: seq<Word>, n: nat, parts: seq<nat>, texts: seq<string>,
                                       text: string, begins: seq<nat>)
    requires n <= |run| && TextsOf(tx, run, n, parts, texts) && SpacedOut(texts, text, begins)
    ensures text == Joined(tx, run[..n])
  {
    if n == 0 {
      NothingYet(tx, run, parts, texts, text, begins);
    } else {
      var m := n - 1;
      var parts', texts', text', begins' := WithoutLast(tx, run, m, n, parts, texts, text, begins);
      ReadsJoined(tx, run, m, parts', texts', text', begins');
      JoinedNext(tx, run, m, n);
    }
  }

  lemma WithoutLast(tx: Texts, run: seq<Word>, n: nat, m: nat, parts: seq<nat>, texts: seq<string>, text: string,
                    begins: seq<nat>)
    returns (parts': seq<nat>, texts': seq<string>, text': string, begins': seq<nat>)
    requires m == n + 1 <= |run| && TextsOf(tx, run, m, parts, texts) && SpacedOut(texts, text, begins)
    ensures TextsOf(tx, run, n, parts', texts') && SpacedOut(texts', text', begins')
    ensures var last := tx.norm(run[n].text);
      text == if last == "" then text' else if text' == "" then last else text' + " " + last
  {
    var last, k := tx.norm(run[n].text), |parts| - 1;
    if last == "" {
      EmptyWordLess(tx, run, n, m, parts, texts);
      parts', texts', text', begins' := parts, texts, text, begins;
    } else {
      OneWordLess(tx, run, n, m, parts, texts, last);
      parts', texts', begins' := parts[..k], texts[..k], begins[..k];
      text' := LastText(texts, text, begins);
    }
  }

  lemma LastText(texts: seq<string>, text: string, begins: seq<nat>) returns (rest: string)
    requires |texts| > 0 && SpacedOut(texts, text, begins) && texts[0] != ""
    ensures SpacedOut(texts[..|texts| - 1], rest, begins[..|texts| - 1])
    ensures var last := texts[|texts| - 1];
      text == if rest == "" then last else rest + " " + last
  {
    var m := |texts| - 1;
    if m == 0 {
      assert StandsAt(text, 0, texts[0]);
      rest := "";
    } else {
      var end := begins[m - 1] + |texts[m - 1]|;
      assert BlankBefore(text, end, begins[m]) && StandsAt(text, begins[m], texts[m]);
      LastStands(text, end, begins[m], texts[m]);
      rest := text[..end];
      OneTextLess(texts, text, begins, m, rest);
      assert StandsAt(rest, begins[0], texts[0]) by {
        assert texts[..m][0] == texts[0] && begins[..m][0] == begins[0];
      }
      assert rest + " " + texts[m] == rest + (" " + texts[m]);
    }
  }

  /** How a window is ranked: by what it reads, and by the least reading order of its words; a window
      that reads nothing, or is none, is not ranked. */
  lemma SpacedRank(tx: Texts, target: string, words: seq<Word>, start: nat, end: nat, text: string)
    requires start <= end <= |words| && Reads(tx, words[start..end], text)
    ensures var rank := SpacedScan(tx, target, words).rank(start, end);
      && (rank.None? <==> text == "")
      && (rank.Some? ==> rank.value.score == tx.ratio(target, text) &&
                         LeastOrder(words[start..end], rank.value.order))
  {
    var run := words[start..end];
    var parts, texts, begins :| TextsOf(tx, run, |run|, parts, texts) && SpacedOut(texts, text, begins);
    ReadsJoined(tx, run, |run|, parts, texts, text, begins);
    TakeAll(run);
    FirstOrderIsLeast(run);
  }

  /** Every window reads something: nothing iff none of its words has a text. */
  lemma EveryRunReads(tx: Texts, run: seq<Word>) returns (text: string)
    ensures Reads(tx, run, text)
    ensures text == "" <==> forall w :: w in run ==> tx.norm(w.text) == ""
  {
    var parts, texts, begins := JoinedReads(tx, run, |run|);
    TakeAll(run);
    text := Joined(tx, run);
    if text == "" {
      forall w | w in run ensures tx.norm(w.text) == "" {
        var i :| 0 <= i < |run| && run[i] == w;
        assert i !in parts;
      }
    } else {
      assert parts[0] < |run| && tx.norm(run[parts[0]].text) != "";
    }
  }

  lemma SpacedRanked(tx: Texts, target: string, words: seq<Word>, start: nat, end: nat)
    requires start <= end <= |words|
    ensures SpacedScan(tx, target, words).rank(start, end).Some? <==>
            exists i :: start <= i < end && tx.norm(words[i].text) != ""
  {
    var run := words[start..end];
    var text := EveryRunReads(tx, run);
    SpacedRank(tx, target, words, start, end, text);
    TextInRun(tx, words, start, end, run);
  }

  lemma TextInRun(tx: Texts, words: seq<Word>, start: nat, end: nat, run: seq<Word>)
    requires start <= end <= |words| && run == words[start..end]
    ensures (forall w :: w in run ==> tx.norm(w.text) == "") <==>
            !exists i :: start <= i < end && tx.norm(words[i].text) != ""
  {
    if i :| start <= i < end && tx.norm(words[i].text) != "" {
      assert run[i - start] == words[i];
    }
  }

  /** The windows that are ranked: at any word, of one word up to three times as many as the value has
      but never over twelve, if some word of them has a text. */
  lemma SpacedWindows(tx: Texts, target: string, words: seq<Word>, w: Window)
    ensures var count := tx.wordCount(target);
      Listed(SpacedScan(tx, target, words), w) <==>
        && w.start < w.end <= |words|
        && w.end - w.start <= 12 && w.end - w.start <= 3 * (if count == 0 then 1 else count)
        && exists i :: w.start <= i < w.end && tx.norm(words[i].text) != ""
  {
    if w.start <= w.end <= |words| {
      SpacedRanked(tx, target, words, w.start, w.end);
    }
  }

  // ---- Windows of characters -----------------------------------------------

  /** A character of a word's text that is not blank. */
  predicate IsSpot(tx: Texts, words: seq<Word>, i: nat, c: nat) {
    i < |words| && c < |tx.plain(words[i].text)| && !tx.blank(tx.plain(words[i].text)[c])
  }

  predicate Has(gs: seq<Glyph>, spots: seq<nat>, i: nat, c: nat) {
    exists k :: 0 <= k < |gs| && k < |spots| && gs[k].at == i && spots[k] == c
  }

  predicate SpotBefore(i: nat, c: nat, n: nat, m: nat) { i < n || (i == n && c < m) }

  /** `gs` is every character before the `m`-th of word `n` that is not blank, once, in order;
      `spots[k]` is where it stands in its word. */
  ghost predicate Written(tx: Texts, words: seq<Word>, gs: seq<Glyph>, spots: seq<nat>, n: nat, m: nat) {
    && |spots| == |gs|
    && (forall k :: 0 <= k < |gs| ==>
          IsSpot(tx, words, gs[k].at, spots[k]) && gs[k].ch == tx.plain(words[gs[k].at].text)[spots[k]])
    && (forall k :: 0 <= k < |gs| ==> SpotBefore(gs[k].at, spots[k], n, m))
    && (forall j, k :: 0 <= j < k < |gs| ==> SpotBefore(gs[j].at, spots[j], gs[k].at, spots[k]))
    && forall i, c :: IsSpot(tx, words, i, c) && SpotBefore(i, c, n, m) ==> Has(gs, spots, i, c)
  }

  lemma NextSpot(tx: Texts, words: seq<Word>, gs: seq<Glyph>, spots: seq<nat>, n: nat, m: nat, ch: char)
    requires Written(tx, words, gs, spots, n, m)
    requires n < |words| && m < |tx.plain(words[n].text)| && ch == tx.plain(words[n].text)[m]
    ensures tx.blank(ch) ==> Written(tx, words, gs, spots, n, m + 1)
    ensures !tx.blank(ch) ==> Written(tx, words, gs + [Glyph(ch, n)], spots + [m], n, m + 1)
  {
    if tx.blank(ch) {
      forall i, c | IsSpot(tx, words, i, c) && SpotBefore(i, c, n, m + 1) ensures Has(gs, spots, i, c) {
        assert SpotBefore(i, c, n, m);
      }
    } else {
      var gs', spots' := gs + [Glyph(ch, n)], spots + [m];
      forall i, c | IsSpot(tx, words, i, c) && SpotBefore(i, c, n, m + 1) ensures Has(gs', spots', i, c) {
        if SpotBefore(i, c, n, m) {
          var k :| 0 <= k < |gs| && gs[k].at == i && spots[k] == c;
          assert gs'[k].at == i && spots'[k] == c;
        } else {
          assert gs'[|gs|].at == i && spots'[|gs|] == c;
        }
      }
    }
  }

  lemma NextWord(tx: Texts, words: seq<Word>, gs: seq<Glyph>, spots: seq<nat>, n: nat)
    requires n < |words| && Written(tx, words, gs, spots, n, |tx.plain(words[n].text)|)
    ensures Written(tx, words, gs, spots, n + 1, 0)
  {
    forall i, c | IsSpot(tx, words, i, c) && SpotBefore(i, c, n + 1, 0) ensures Has(gs, spots, i, c) {
      assert SpotBefore(i, c, n, |tx.plain(words[n].text)|);
    }
  }

  lemma {:induction false} WordIsWritten(tx: Texts, words: seq<Word>, n: nat, m: nat, front: seq<Glyph>,
                                         before: seq<nat>)
    returns (spots: seq<nat>)
    requires n < |words| && m <= |tx.plain(words[n].text)| && Written(tx, words, front, before, n, 0)
    ensures Written(tx, words, front + GlyphsOf(tx, tx.plain(words[n].text)[..m], n), spots, n, m)
    decreases m
  {
    var text := tx.plain(words[n].text);
    if m == 0 {
      spots := before;
      NothingAdded(front);
    } else {
      spots := WordIsWritten(tx, words, n, m - 1, front, before);
      var gs := GlyphsOf(tx, text[..m - 1], n);
      NextSpot(tx, words, front + gs, spots, n, m - 1, text[m - 1]);
      TakeFront(text, m - 1);
      if !tx.blank(text[m - 1]) {
        spots := spots + [m - 1];
        assert front + gs + [Glyph(text[m - 1], n)] == front + (gs + [Glyph(text[m - 1], n)]);
      }
    }
  }

  /** The characters of a page are those of its words, blanks left out, in order. */
  lemma GlyphsAreWritten(tx: Texts, words: seq<Word>) returns (spots: seq<nat>)
    ensures Written(tx, words, Glyphs(tx, words), spots, |words|, 0)
  {
    spots := [];
    for n := 0 to |words|
      invariant Written(tx, words, Glyphs(tx, words[..n]), spots, n, 0)
    {
      var text := tx.plain(words[n].text);
      spots := WordIsWritten(tx, words, n, |text|, Glyphs(tx, words[..n]), spots);
      TakeAll(text);
      TakeFront(words, n);
      NextWord(tx, words, Glyphs(tx, words[..n + 1]), spots, n);
    }
    TakeAll(words);
  }

  /** How a window of characters is ranked: by those characters, and by the least reading order of the
      words behind them. */
  lemma UnspacedRank(tx: Texts, target: string, words: seq<Word>, w: Window, text: string, run: seq<Word>)
    requires var gs := Glyphs(tx, words);
      && w.start <= w.end <= |gs| && |text| == |run| == w.end - w.start
      && forall k :: w.start <= k < w.end ==> text[k - w.start] == gs[k].ch && run[k - w.start] == words[gs[k].at]
    ensures var rank := UnspacedScan(tx, target, words).rank(w.start, w.end);
      rank.Some? && rank.value.score == tx.ratio(target, text) && LeastOrder(run, rank.value.order)
  {
    var gs := Glyphs(tx, words)[w.start..w.end];
    assert text == Spelling(gs);
    assert run == Behind(words, gs);
    FirstOrderIsLeast(run);
  }

  /** The windows that are ranked: at any character, from two fewer than the value has (but one) up to
      four more (but six), and never over eighty. */
  lemma UnspacedWindows(tx: Texts, target: string, words: seq<Word>, w: Window)
    ensures Listed(UnspacedScan(tx, target, words), w) <==>
              && w.start < w.end <= |Glyphs(tx, words)|
              && |target| - 2 <= w.end - w.start <= 80
              && (w.end - w.start <= |target| + 4 || w.end - w.start <= 6)
  {
  }

  // ---- The winning window --------------------------------------------------

  /** The window that wins scores best; of equal scores it has the least reading order, one without an
      order coming last; of equal orders it starts first, and is the shortest that starts there. */
  lemma WinnerIs(scan: Scan, best: Best, v: Window)
    requires Optimal(scan, best) && Listed(scan, v)
    ensures best.window.None? ==>
              RankOf(scan, v).score < 0.0 || (RankOf(scan, v).score == 0.0 && RankOf(scan, v).order.None?)
    ensures best.window.Some? ==>
              var w, at, rank := best.window.value, RankOf(scan, v), RankOf(scan, best.window.value);
              && Listed(scan, w) && rank == best.rank && at.score <= rank.score
              && (at.score == rank.score && at.order.Some? ==> rank.order.Some? && rank.order.value <= at.order.value)
              && (at == rank ==> w.start < v.start || (w.start == v.start && w.end <= v.end))
  {
    assert !Beats(RankOf(scan, v), best.rank);
  }

  /** A page answers with the score of its best window, cut off at one and rounded. */
  lemma AnswerScore(tx: Texts, threshold: real, target: string, page: PageWords, best: Best)
    requires Optimal(PageScan(tx, target, page), best) && PageHit(tx, threshold, target, page).Some?
    ensures best.window.Some? && best.rank.score >= threshold
    ensures var hit := PageHit(tx, threshold, target, page).value;
      hit.page == page.page && hit.score == tx.round(if best.rank.score > 1.0 then 1.0 else best.rank.score)
  {
    var scan := PageScan(tx, target, page);
    ScanIsOptimal(scan);
    OptimalIsUnique(scan, best, BestBefore(scan, scan.n));
    var won := Winning(tx, target, page, best);
  }

  // ---- Finding a value -----------------------------------------------------

  /** The forms of a value that has a text: as it is, then its digits if there are four or more, then
      without punctuation; each only if it is something new. */
  lemma FormsAre(tx: Texts, value: string)
    requires tx.norm(value) != ""
    ensures var literal, digits, bare := tx.norm(value), tx.digits(value), tx.stripped(value);
      var second := |digits| >= 4 && digits != literal;
      var third := bare != "" && bare != literal && !(second && bare == digits);
      Variants(tx, value) == [literal] + (if second then [digits] else []) + (if third then [bare] else [])
  {
  }

  /** `scope` is those of the pages that stand at `kept`, in order. */
  predicate KeptAt(pages: seq<PageWords>, scope: seq<PageWords>, kept: seq<nat>) {
    && |kept| == |scope|
    && (forall k :: 0 <= k < |kept| ==> kept[k] < |pages| && scope[k] == pages[kept[k]])
    && forall j, k :: 0 <= j < k < |kept| ==> kept[j] < kept[k]
  }

  /** Some candidate page has words. */
  predicate Bound(pages: seq<PageWords>, wanted: seq<int>) {
    exists i :: 0 <= i < |pages| && pages[i].page in wanted && |pages[i].words| > 0
  }

  /** Which pages are searched: all, or only the candidates among them if some of those has words. */
  lemma ScopeIs(pages: seq<PageWords>, candidates: Option<seq<int>>) returns (kept: seq<nat>)
    ensures KeptAt(pages, Scope(pages, candidates), kept)
    ensures forall i :: 0 <= i < |pages| ==>
              (i in kept <==> candidates.Some? && Bound(pages, candidates.value) ==>
                pages[i].page in candidates.value)
  {
    if candidates.Some? {
      BoundIff(pages, candidates.value);
    }
    if candidates.Some? && Bound(pages, candidates.value) {
      kept := WantedPlaces(pages, candidates.value);
    } else {
      kept := AllPlaces(pages);
    }
  }

  lemma BoundIff(pages: seq<PageWords>, wanted: seq<int>)
    ensures Bound(pages, wanted) <==> AnyWords(OnPages(pages, wanted))
  {
    var on := OnPages(pages, wanted);
    OnPagesAre(pages, wanted);
    if i :| 0 <= i < |pages| && pages[i].page in wanted && |pages[i].words| > 0 {
      assert pages[i] in on;
      var k :| 0 <= k < |on| && on[k] == pages[i];
    }
    if k :| 0 <= k < |on| && |on[k].words| > 0 {
      assert on[k] in on;
      var i :| 0 <= i < |pages| && pages[i] == on[k];
    }
  }

  lemma AllPlaces(pages: seq<PageWords>) returns (kept: seq<nat>)
    ensures KeptAt(pages, pages, kept) && forall i :: 0 <= i < |pages| ==> i in kept
  {
    kept := seq(|pages|, i => i);
    forall i | 0 <= i < |pages| ensures i in kept {
      assert kept[i] == i;
    }
  }

  predicate KeptSoFar(pages: seq<PageWords>, wanted: seq<int>, scope: seq<PageWords>, kept: seq<nat>, n: nat) {
    && KeptAt(pages, scope, kept)
    && (forall k :: 0 <= k < |kept| ==> kept[k] < n)
    && forall i :: 0 <= i < n && i < |pages| ==> (i in kept <==> pages[i].page in wanted)
  }

  lemma KeepNext(pages: seq<PageWords>, wanted: seq<int>, scope: seq<PageWords>, kept: seq<nat>, n: nat)
    requires n < |pages| && KeptSoFar(pages, wanted, scope, kept, n)
    ensures pages[n].page in wanted ==> KeptSoFar(pages, wanted, scope + [pages[n]], kept + [n], n + 1)
    ensures pages[n].page !in wanted ==> KeptSoFar(pages, wanted, scope, kept, n + 1)
  {
    forall i | 0 <= i < n ensures i in kept + [n] <==> i in kept {
    }
  }

  lemma WantedPlaces(pages: seq<PageWords>, wanted: seq<int>) returns (kept: seq<nat>)
    ensures KeptSoFar(pages, wanted, OnPages(pages, wanted), kept, |pages|)
  {
    kept := [];
    for n := 0 to |pages|
      invariant KeptSoFar(pages, wanted, OnPages(pages[..n], wanted), kept, n)
    {
      TakeFront(pages, n);
      KeepNext(pages, wanted, OnPages(pages[..n], wanted), kept, n);
      if pages[n].page in wanted {
        kept := kept + [n];
      }
    }
    TakeAll(pages);
  }

  /** The window is one that is tried for `text`, and shows exactly it. */
  ghost predicate Shows(tx: Texts, page: PageWords, text: string, w: Window) {
    if tx.unspaced(text) then
      var gs := Glyphs(tx, page.words);
      && w.start < w.end <= |gs| && |text| == w.end - w.start <= 80
      && forall k :: w.start <= k < w.end ==> text[k - w.start] == gs[k].ch
    else
      && w.start < w.end <= |page.words| && text != "" && Reads(tx, page.words[w.start..w.end], text)
      && w.end - w.start <= 12 && w.end - w.start <= 3 * (if tx.wordCount(text) == 0 then 1 else tx.wordCount(text))
  }

  lemma ShownIsRanked(tx: Texts, page: PageWords, text: string, w: Window)
    requires Shows(tx, page, text, w)
    ensures Listed(PageScan(tx, text, page), w) && RankOf(PageScan(tx, text, page), w).score == tx.ratio(text, text)
  {
    if tx.unspaced(text) {
      UnspacedShown(tx, page.words, text, w);
    } else {
      SpacedRank(tx, text, page.words, w.start, w.end, text);
    }
  }

  lemma UnspacedShown(tx: Texts, words: seq<Word>, text: string, w: Window)
    requires var gs := Glyphs(tx, words);
      && w.start < w.end <= |gs| && |text| == w.end - w.start <= 80
      && forall k :: w.start <= k < w.end ==> text[k - w.start] == gs[k].ch
    ensures var scan := UnspacedScan(tx, text, words);
      Listed(scan, w) && RankOf(scan, w).score == tx.ratio(text, text)
  {
    UnspacedRank(tx, text, words, w, text, Behind(words, Glyphs(tx, words)[w.start..w.end]));
  }

  /** A page that shows the text answers with a perfect score. */
  lemma ShownIsPerfect(tx: Texts, threshold: real, page: PageWords, text: string, w: Window)
    requires Shows(tx, page, text, w) && threshold <= 1.0
    requires tx.ratio(text, text) == 1.0 && tx.round(1.0) == 1.0
    ensures |page.words| > 0
    ensures var hit := PageHit(tx, threshold, text, page);
      hit.Some? && hit.value.score == 1.0 && hit.value.page == page.page
  {
    var scan := PageScan(tx, text, page);
    ShownIsRanked(tx, page, text, w);
    ScanIsOptimal(scan);
    var best := BestBefore(scan, scan.n);
    assert !Beats(RankOf(scan, w), best.rank);
    SomeWords(tx, page, text, w);
    var won := Winning(tx, text, page, best);
  }

  lemma SomeWords(tx: Texts, page: PageWords, text: string, w: Window)
    requires Shows(tx, page, text, w)
    ensures |page.words| > 0
  {
  }

  lemma PerfectEnds(hits: seq<Option<MatchResult>>, best: Option<MatchResult>, k: nat)
    requires Located(hits, best) && k < |hits| && hits[k].Some? && hits[k].value.score >= 0.999
    ensures best.Some? && best.value.score >= 0.999
  {
    var j :| FirstAt(hits, j) && hits[j] == best;
    assert Yields(hits, k, j);
  }

  lemma FirstPerfectWins(hits: seq<Option<MatchResult>>, best: Option<MatchResult>, k: nat)
    requires Located(hits, best) && k < |hits| && hits[k].Some? && hits[k].value.score >= 0.999
    requires forall i :: 0 <= i < k && hits[i].Some? ==> hits[i].value.score < 0.999
    ensures best == hits[k]
  {
    var j :| FirstAt(hits, j) && hits[j] == best;
    assert Yields(hits, k, j);
  }

  lemma {:induction false} HitsSoFar(tx: Texts, threshold: real, forms: seq<string>, scope: seq<PageWords>, p: nat)
    requires p <= |scope|
    ensures AllHits(tx, threshold, forms, scope[..p]) <= AllHits(tx, threshold, forms, scope)
    decreases |scope|
  {
    if p == |scope| {
      TakeAll(scope);
    } else {
      var n := |scope| - 1;
      HitsSoFar(tx, threshold, forms, scope[..n], p);
      assert scope[..n][..p] == scope[..p];
    }
  }

  lemma FirstOnPage(tx: Texts, threshold: real, forms: seq<string>, scope: seq<PageWords>, p: nat) returns (k: nat)
    requires p < |scope| && |scope[p].words| > 0 && |forms| > 0
    ensures var hits, before := AllHits(tx, threshold, forms, scope), AllHits(tx, threshold, forms, scope[..p]);
      k == |before| < |hits| && before <= hits && hits[k] == PageHit(tx, threshold, forms[0], scope[p])
  {
    k := |AllHits(tx, threshold, forms, scope[..p])|;
    NextPage(tx, threshold, forms, scope, p);
    HitsSoFar(tx, threshold, forms, scope, p);
    HitsSoFar(tx, threshold, forms, scope, p + 1);
    assert HitsOn(tx, threshold, forms, scope[p])[0] == PageHit(tx, threshold, forms[0], scope[p]);
  }

  /** None of these pages has an answer of 0.999 or more to one of the forms. */
  ghost predicate NearlyNowhere(tx: Texts, threshold: real, forms: seq<string>, pages: seq<PageWords>) {
    forall page, form :: page in pages && |page.words| > 0 && form in forms ==>
      match PageHit(tx, threshold, form, page) case Some(hit) => hit.score < 0.999 case None => true
  }

  /** A value that stands word for word (or character for character) on a page that is searched is
      found. No page before it having an answer of 0.999 or more to some form of the value, it is found
      on that page with score one; else the search ends with such an answer. */
  lemma ExactTextIsFound(tx: Texts, threshold: real, value: string, pages: seq<PageWords>,
                         candidates: Option<seq<int>>, best: Option<MatchResult>, p: nat, w: Window)
    requires tx.norm(value) != "" && threshold <= 1.0
    requires Located(AllHits(tx, threshold, Variants(tx, value), Scope(pages, candidates)), best)
    requires p < |Scope(pages, candidates)| && Shows(tx, Scope(pages, candidates)[p], tx.norm(value), w)
    requires tx.ratio(tx.norm(value), tx.norm(value)) == 1.0 && tx.round(1.0) == 1.0
    ensures best.Some? && best.value.score >= 0.999
    ensures NearlyNowhere(tx, threshold, Variants(tx, value), Scope(pages, candidates)[..p]) ==>
              best.value.score == 1.0 && best.value.page == Scope(pages, candidates)[p].page
  {
    var forms, scope := Variants(tx, value), Scope(pages, candidates);
    ShownIsPerfect(tx, threshold, scope[p], tx.norm(value), w);
    var k := FirstOnPage(tx, threshold, forms, scope, p);
    var hits := AllHits(tx, threshold, forms, scope);
    PerfectEnds(hits, best, k);
    if NearlyNowhere(tx, threshold, forms, scope[..p]) {
      forall i | 0 <= i < k && hits[i].Some? ensures hits[i].value.score < 0.999 {
        HitsAreAnswers(tx, threshold, forms, scope[..p], hits[i]);
      }
      FirstPerfectWins(hits, best, k);
    }
  }
}
