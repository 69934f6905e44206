/** What the model-backed matchers ask, accept and report, told by fields, pages and replies alone. */
module MatcherTheorems {
  import opened Collections
  import opened Wrappers
  import opened ValueMatcher
  import opened LlmMatcher
  import opened MatcherRuns
  import HybridMatcher

  // ---- What is accepted ----------------------------------------------------

  /** A word the match points at: positions outside the page are passed over. */
  predicate PointsAt(words: seq<Word>, m: WordMatch, w: Word) {
    exists k :: 0 <= k < |m.indices| && 0 <= m.indices[k] < |words| && words[m.indices[k]] == w
  }

  /** Sure enough, and it points at some word of the page. */
  predicate Counts(threshold: real, words: seq<Word>, m: WordMatch) {
    m.confidence >= threshold && exists k :: 0 <= k < |m.indices| && 0 <= m.indices[k] < |words|
  }

  /** What an accepted match comes to: the tightest box around the words it points at, its confidence cut
      to between nought and one and rounded. */
  ghost predicate Comes(round: real -> real, page: PageWords, m: WordMatch, x: MatchResult) {
    && x.page == page.page
    && x.score == round(if m.confidence > 1.0 then 1.0 else if m.confidence < 0.0 then 0.0 else m.confidence)
    && exists won :: |won| > 0 && (forall w :: w in won <==> PointsAt(page.words, m, w)) && Tightest(won, x)
  }

  lemma {:induction false} WordsAtTold(words: seq<Word>, indices: seq<int>)
    ensures |WordsAt(words, indices)| > 0 <==> exists k :: 0 <= k < |indices| && 0 <= indices[k] < |words|
    ensures forall w :: w in WordsAt(words, indices) <==>
              exists k :: 0 <= k < |indices| && 0 <= indices[k] < |words| && words[indices[k]] == w
  {
    if |indices| > 0 {
      var front, last := indices[..|indices| - 1], indices[|indices| - 1];
      WordsAtTold(words, front);
      assert forall k :: 0 <= k < |front| ==> indices[k] == front[k];
      assert indices[|indices| - 1] == last;
    }
  }

  lemma AcceptedIff(st: Setting, page: PageWords, m: WordMatch)
    ensures Accepts(st, page, m) <==> Counts(st.threshold, page.words, m)
  {
    WordsAtTold(page.words, m.indices);
  }

  /** An accepted match names its field and comes to the box of its words. */
  lemma HitTold(st: Setting, page: PageWords, m: WordMatch)
    requires Accepts(st, page, m)
    ensures HitOf(st, page, m).field == m.field && Comes(st.round, page, m, HitOf(st, page, m).result)
  {
    var won := WordsAt(page.words, m.indices);
    WordsAtTold(page.words, m.indices);
    UnionBoxIsTightest(st.round, won, m.confidence, page.page);
    assert forall w :: w in won <==> PointsAt(page.words, m, w);
  }

  ghost predicate Yields(st: Setting, page: PageWords, m: WordMatch, h: Hit) {
    h.field == m.field && Comes(st.round, page, m, h.result)
  }

  /** The accepted matches of a reply, in its order. */
  lemma RepliesTold(st: Setting, page: PageWords, matches: seq<WordMatch>) returns (at: seq<nat>)
    ensures Picked(at, |matches|, (i: nat) => i < |matches| && Counts(st.threshold, page.words, matches[i]))
    ensures |HitList(st, page, matches)| == |at|
    ensures forall k :: 0 <= k < |at| ==> Yields(st, page, matches[at[k]], HitList(st, page, matches)[k])
  {
    var wanted := (i: nat) => i < |matches| && Counts(st.threshold, page.words, matches[i]);
    at := [];
    for n := 0 to |matches|
      invariant Picked(at, n, wanted) && |HitList(st, page, matches[..n])| == |at|
      invariant forall k :: 0 <= k < |at| ==> Yields(st, page, matches[at[k]], HitList(st, page, matches[..n])[k])
    {
      TakeFront(matches, n);
      PickNext(at, n, wanted);
      AcceptedIff(st, page, matches[n]);
      if wanted(n) {
        HitTold(st, page, matches[n]);
        at := at + [n];
      }
    }
    TakeAll(matches);
  }

  // ---- Which calls are made ------------------------------------------------

  function Mentions(ps: seq<int>, p: int): set<nat> { set k: nat | k < |ps| && ps[k] == p }

  lemma TimesTold(ps: seq<int>, p: int)
    ensures Times(ps, p) == |Mentions(ps, p)|
  {
    for n := 0 to |ps|
      invariant Times(ps[..n], p) == |Below(Mentions(ps, p), n)|
    {
      TakeFront(ps, n);
      BelowNext(Mentions(ps, p), n);
    }
    TakeAll(ps);
    BelowAll(Mentions(ps, p), |ps|);
  }

  /** The asks of a page: field after field, each as often as `share` says. */
  ghost predicate AskedBy(fields: seq<Query>, asks: seq<Ask>, ends: seq<nat>, share: Query -> nat) {
    && |ends| == |fields| + 1 && ends[0] == 0 && |asks| == ends[|fields|]
    && (forall i :: 0 <= i < |fields| ==> ends[i + 1] == ends[i] + share(fields[i]))
    && forall i, j :: 0 <= i < |fields| && ends[i] <= j < ends[i + 1] && j < |asks| ==>
         asks[j] == Ask(fields[i].id, fields[i].value)
  }

  lemma AskedNext(fields: seq<Query>, asks: seq<Ask>, ends: seq<nat>, share: Query -> nat, q: Query)
    requires AskedBy(fields, asks, ends, share)
    ensures AskedBy(fields + [q], asks + Copies(AskOf(q), share(q)), ends + [|asks| + share(q)], share)
  {
    var more, all, next := fields + [q], asks + Copies(AskOf(q), share(q)), ends + [|asks| + share(q)];
    EndsGrow(fields, asks, ends, share);
    forall i, j | 0 <= i < |more| && next[i] <= j < next[i + 1] && j < |all|
      ensures all[j] == Ask(more[i].id, more[i].value)
    {
      if i < |fields| {
        assert j < |asks|;
      }
    }
  }

  lemma EndsGrow(fields: seq<Query>, asks: seq<Ask>, ends: seq<nat>, share: Query -> nat)
    requires AskedBy(fields, asks, ends, share)
    ensures forall i :: 0 <= i < |ends| ==> ends[i] <= |asks|
  {
    var i := |fields|;
    while i > 0
      invariant 0 <= i <= |fields|
      invariant forall k :: i <= k < |ends| ==> ends[k] <= |asks|
    {
      i := i - 1;
      assert ends[i + 1] == ends[i] + share(fields[i]);
    }
  }

  /** In the first pass a page is asked about a field once per mention among its candidates, once if it
      has none. */
  ghost function FirstShare(p: int): Query -> nat {
    (q: Query) => if q.candidates.Some? && |q.candidates.value| > 0 then |Mentions(q.candidates.value, p)| else 1
  }

  lemma FirstAsksTold(fields: seq<Query>, numbers: seq<int>, p: int) returns (ends: seq<nat>)
    requires p in numbers
    ensures AskedBy(fields, FirstAsks(fields, numbers, p), ends, FirstShare(p))
  {
    ends := [0];
    for n := 0 to |fields|
      invariant AskedBy(fields[..n], FirstAsks(fields[..n], numbers, p), ends, FirstShare(p))
    {
      var q := fields[n];
      TakeFront(fields, n);
      TakeNext(fields, n);
      if HasCandidates(q) {
        TimesTold(q.candidates.value, p);
      }
      assert FirstTimes(q, numbers, p) == FirstShare(p)(q);
      AskedNext(fields[..n], FirstAsks(fields[..n], numbers, p), ends, FirstShare(p), q);
      ends := ends + [|FirstAsks(fields[..n], numbers, p)| + FirstShare(p)(q)];
    }
    TakeAll(fields);
  }

  /** In the second it is asked about a field that is still missing and did not name it, once per page of
      that number. */
  ghost function SecondShare(numbers: seq<int>, found: Results, p: int): Query -> nat {
    (q: Query) =>
      if (q.id in found && found[q.id].Some?) || (q.candidates.Some? && p in q.candidates.value) then 0
      else |Mentions(numbers, p)|
  }

  lemma SecondAsksTold(fields: seq<Query>, numbers: seq<int>, found: Results, p: int) returns (ends: seq<nat>)
    ensures AskedBy(fields, SecondAsks(fields, numbers, found, p), ends, SecondShare(numbers, found, p))
  {
    var share := SecondShare(numbers, found, p);
    ends := [0];
    TimesTold(numbers, p);
    for n := 0 to |fields|
      invariant AskedBy(fields[..n], SecondAsks(fields[..n], numbers, found, p), ends, share)
    {
      var q, front := fields[n], SecondAsks(fields[..n], numbers, found, p);
      TakeFront(fields, n);
      TakeNext(fields, n);
      NothingAdded(front);
      OneMoreCopy(AskOf(q), 0);
      assert share(q) == if At(found, q.id).None? then SecondTimes(q, numbers, p) else 0;
      AskedNext(fields[..n], front, ends, share, q);
      ends := ends + [|front| + share(q)];
    }
    TakeAll(fields);
  }

  lemma {:induction false} PlaceOf(ends: seq<nat>, n: nat, j: nat) returns (i: nat)
    requires n < |ends| && ends[0] == 0 && j < ends[n]
    ensures i < n && ends[i] <= j < ends[i + 1]
  {
    if j < ends[n - 1] {
      i := PlaceOf(ends, n - 1, j);
    } else {
      i := n - 1;
    }
  }

  /** There is only one such list. */
  lemma AskedOneWay(fields: seq<Query>, one: seq<Ask>, ends: seq<nat>, two: seq<Ask>, stops: seq<nat>,
                    share: Query -> nat)
    requires AskedBy(fields, one, ends, share) && AskedBy(fields, two, stops, share)
    ensures one == two
  {
    for n := 0 to |fields|
      invariant forall i :: 0 <= i <= n ==> ends[i] == stops[i]
    {
      assert ends[n + 1] == ends[n] + share(fields[n]) && stops[n + 1] == stops[n] + share(fields[n]);
    }
    forall j | 0 <= j < |one| ensures one[j] == two[j] {
      var i := PlaceOf(ends, |fields|, j);
      assert ends[i] <= j < ends[i + 1] && stops[i] <= j < stops[i + 1];
    }
  }

  // ---- Pages with words ----------------------------------------------------

  function WordPages(pages: seq<PageWords>, p: int): set<nat> {
    set k: nat | k < |pages| && |pages[k].words| > 0 && pages[k].page == p
  }

  lemma WordPagesTold(pages: seq<PageWords>, p: int)
    ensures |Mentions(Numbers(WithWords(pages)), p)| == |WordPages(pages, p)|
  {
    for n := 0 to |pages|
      invariant Times(Numbers(WithWords(pages[..n])), p) == |Below(WordPages(pages, p), n)|
    {
      NextNumber(pages, n, p);
      BelowNext(WordPages(pages, p), n);
    }
    TakeAll(pages);
    BelowAll(WordPages(pages, p), |pages|);
    TimesTold(Numbers(WithWords(pages)), p);
  }

  lemma NextNumber(pages: seq<PageWords>, n: nat, p: int)
    requires n < |pages|
    ensures Times(Numbers(WithWords(pages[..n + 1])), p) == Times(Numbers(WithWords(pages[..n])), p) +
              if |pages[n].words| > 0 && pages[n].page == p then 1 else 0
  {
    TakeFront(pages, n);
    var front := WithWords(pages[..n]);
    if |pages[n].words| > 0 {
      assert Numbers(front + [pages[n]]) == Numbers(front) + [pages[n].page];
      OneMoreTime(Numbers(front), pages[n].page, p);
    }
  }

  /** Of the first `n` pages, `last` is where the last one of that number with words stands, if any. */
  predicate LastOf(pages: seq<PageWords>, p: int, n: nat, last: Option<nat>) {
    match last
    case None => forall i :: 0 <= i < n && i < |pages| && |pages[i].words| > 0 ==> pages[i].page != p
    case Some(k) =>
      && k < n && k < |pages| && |pages[k].words| > 0 && pages[k].page == p
      && forall i :: k < i < n && i < |pages| && |pages[i].words| > 0 ==> pages[i].page != p
  }

  lemma NextPageByNumber(pages: seq<PageWords>, n: nat, p: int)
    requires n < |pages|
    ensures PageByNumber(WithWords(pages[..n + 1]), p) ==
            if |pages[n].words| > 0 && pages[n].page == p then Some(pages[n])
            else PageByNumber(WithWords(pages[..n]), p)
  {
    TakeFront(pages, n);
    var front := WithWords(pages[..n]);
    if |pages[n].words| > 0 {
      assert (front + [pages[n]])[..|front|] == front;
    }
  }

  /** The page that calls for number `p` are about is the last of that number among those with words. */
  lemma PageTold(pages: seq<PageWords>, p: int) returns (last: Option<nat>)
    ensures LastOf(pages, p, |pages|, last)
    ensures PageByNumber(WithWords(pages), p) == match last case None => None case Some(k) => Some(pages[k])
    ensures last.Some? <==> p in Numbers(WithWords(pages))
  {
    last := None;
    for n := 0 to |pages|
      invariant LastOf(pages, p, n, last)
      invariant PageByNumber(WithWords(pages[..n]), p) == match last case None => None case Some(k) => Some(pages[k])
    {
      NextPageByNumber(pages, n, p);
      last := if |pages[n].words| > 0 && pages[n].page == p then Some(n) else last;
    }
    TakeAll(pages);
    NumberedIff(WithWords(pages), p);
  }

  lemma {:induction false} NumberedIff(pages: seq<PageWords>, p: int)
    ensures PageByNumber(pages, p).Some? <==> p in Numbers(pages)
  {
    if p in Numbers(pages) {
      NumberedPage(pages, p);
    }
    if PageByNumber(pages, p).Some? {
      PageHasNumber(pages, p);
    }
  }

  lemma {:induction false} PageHasNumber(pages: seq<PageWords>, p: int)
    requires PageByNumber(pages, p).Some?
    ensures p in Numbers(pages)
  {
    var n := |pages| - 1;
    if pages[n].page == p {
      assert Numbers(pages)[n] == p;
    } else {
      PageHasNumber(pages[..n], p);
      var i :| 0 <= i < n && Numbers(pages[..n])[i] == p;
      assert Numbers(pages)[i] == p;
    }
  }

  // ---- The calls and what they report --------------------------------------

  /** A call of the first pass: about the last page of its number with words, with everything that is
      asked on it. */
  ghost predicate FirstCall(pages: seq<PageWords>, fields: seq<Query>, page: PageWords, asks: seq<Ask>) {
    && (exists k: nat :: LastOf(pages, page.page, |pages|, Some(k)) && pages[k] == page)
    && |asks| > 0 && exists ends :: AskedBy(fields, asks, ends, FirstShare(page.page))
  }

  /** A call of the second, after the first found what it found. */
  ghost predicate SecondCall(pages: seq<PageWords>, fields: seq<Query>, found: Results, page: PageWords,
                             asks: seq<Ask>) {
    && (exists k: nat :: LastOf(pages, page.page, |pages|, Some(k)) && pages[k] == page)
    && |asks| > 0 && exists ends :: AskedBy(fields, asks, ends, RestShare(pages, found, page.page))
  }

  /** A field is asked about again iff it is still missing and did not name the page; once per page of the
      number. */
  ghost function RestShare(pages: seq<PageWords>, found: Results, p: int): Query -> nat {
    (q: Query) =>
      if (q.id in found && found[q.id].Some?) || (q.candidates.Some? && p in q.candidates.value) then 0
      else |WordPages(pages, p)|
  }

  lemma {:induction false} AllOpen(asks: seq<Ask>, results: Results)
    requires forall a :: a in asks ==> At(results, a.id).None?
    ensures Open(asks, results) == asks
  {
    if |asks| > 0 {
      AllOpen(asks[..|asks| - 1], results);
      assert asks == asks[..|asks| - 1] + [asks[|asks| - 1]];
    }
  }

  lemma FirstCallTold(pages: seq<PageWords>, fields: seq<Query>, p: int) returns (asks: seq<Ask>)
    ensures var rd := FirstRound(pages, fields);
      p in Tasks(rd) ==> Open(rd.perPage[p], rd.before) == asks &&
                         FirstCall(pages, fields, PageByNumber(rd.pages, p).value, asks)
  {
    var rd := FirstRound(pages, fields);
    var last := PageTold(pages, p);
    asks := FirstAsks(fields, Numbers(rd.pages), p);
    if p in Tasks(rd) {
      var ends := FirstAsksTold(fields, Numbers(rd.pages), p);
      forall a | a in asks ensures At(rd.before, a.id).None? {
      }
      AllOpen(asks, rd.before);
    }
  }

  lemma SecondCallTold(pages: seq<PageWords>, fields: seq<Query>, found: Results, p: int) returns (asks: seq<Ask>)
    ensures var rd := SecondRound(pages, fields, found);
      p in Tasks(rd) ==> Open(rd.perPage[p], rd.before) == asks &&
                         SecondCall(pages, fields, found, PageByNumber(rd.pages, p).value, asks)
  {
    var rd := SecondRound(pages, fields, found);
    var last := PageTold(pages, p);
    asks := SecondAsks(fields, Numbers(rd.pages), found, p);
    if p in Tasks(rd) {
      var ends := SecondAsksTold(fields, Numbers(rd.pages), found, p);
      WordPagesTold(pages, p);
      SameShares(fields, asks, ends, SecondShare(Numbers(rd.pages), found, p), RestShare(pages, found, p));
      forall a | a in asks ensures At(found, a.id).None? {
        SecondAsksAre(fields, Numbers(rd.pages), found, p, a);
      }
      AllOpen(asks, found);
    }
  }

  lemma SameShares(fields: seq<Query>, asks: seq<Ask>, ends: seq<nat>, one: Query -> nat, two: Query -> nat)
    requires AskedBy(fields, asks, ends, one) && forall q :: one(q) == two(q)
    ensures AskedBy(fields, asks, ends, two)
  {
  }

  lemma SameTasksAsTold(pages: seq<PageWords>, page: PageWords)
    requires exists k: nat :: LastOf(pages, page.page, |pages|, Some(k)) && pages[k] == page
    ensures PageByNumber(WithWords(pages), page.page) == Some(page) && page.page in Numbers(WithWords(pages))
  {
    var last := PageTold(pages, page.page);
    var k: nat :| LastOf(pages, page.page, |pages|, Some(k)) && pages[k] == page;
    OneLast(pages, page.page, last, k);
  }

  lemma OneLast(pages: seq<PageWords>, p: int, last: Option<nat>, k: nat)
    requires LastOf(pages, p, |pages|, last) && LastOf(pages, p, |pages|, Some(k))
    ensures last == Some(k)
  {
    assert |pages[k].words| > 0 && pages[k].page == p;
  }

  /** Every call told above is made, with just these asks. */
  lemma FirstCallIsMade(pages: seq<PageWords>, fields: seq<Query>, page: PageWords, asks: seq<Ask>)
    requires FirstCall(pages, fields, page, asks)
    ensures var rd := FirstRound(pages, fields);
      page.page in Tasks(rd) && PageByNumber(rd.pages, page.page) == Some(page) &&
      Open(rd.perPage[page.page], rd.before) == asks
  {
    var rd, p := FirstRound(pages, fields), page.page;
    SameTasksAsTold(pages, page);
    var mine := FirstAsks(fields, Numbers(rd.pages), p);
    var ends := FirstAsksTold(fields, Numbers(rd.pages), p);
    var stops :| AskedBy(fields, asks, stops, FirstShare(p));
    AskedOneWay(fields, mine, ends, asks, stops, FirstShare(p));
    AllOpen(mine, rd.before);
  }

  lemma SecondCallIsMade(pages: seq<PageWords>, fields: seq<Query>, found: Results, page: PageWords, asks: seq<Ask>)
    requires SecondCall(pages, fields, found, page, asks)
    ensures var rd := SecondRound(pages, fields, found);
      page.page in Tasks(rd) && PageByNumber(rd.pages, page.page) == Some(page) &&
      Open(rd.perPage[page.page], rd.before) == asks
  {
    var rd, p := SecondRound(pages, fields, found), page.page;
    SameTasksAsTold(pages, page);
    var mine := SecondAsks(fields, Numbers(rd.pages), found, p);
    var ends := SecondAsksTold(fields, Numbers(rd.pages), found, p);
    WordPagesTold(pages, p);
    SameShares(fields, mine, ends, SecondShare(Numbers(rd.pages), found, p), RestShare(pages, found, p));
    var stops :| AskedBy(fields, asks, stops, RestShare(pages, found, p));
    AskedOneWay(fields, mine, ends, asks, stops, RestShare(pages, found, p));
    forall a | a in mine ensures At(found, a.id).None? {
      SecondAsksAre(fields, Numbers(rd.pages), found, p, a);
    }
    AllOpen(mine, found);
  }

  /** The reply to this call has a match for the field that counts and comes to `x`. */
  ghost predicate Replied(st: Setting, pass: nat, page: PageWords, asks: seq<Ask>, id: string, x: MatchResult) {
    st.oracle(pass, page, asks).Some? && HasMatch(st, page, st.oracle(pass, page, asks).value, id, x)
  }

  ghost predicate HasMatch(st: Setting, page: PageWords, matches: seq<WordMatch>, id: string, x: MatchResult) {
    exists i :: 0 <= i < |matches| && matches[i].field == id && Counts(st.threshold, page.words, matches[i]) &&
        Comes(st.round, page, matches[i], x)
  }

  lemma ComesOneWay(round: real -> real, page: PageWords, m: WordMatch, x: MatchResult, y: MatchResult)
    requires Comes(round, page, m, x) && Comes(round, page, m, y)
    ensures x == y
  {
    var one :| |one| > 0 && (forall w :: w in one <==> PointsAt(page.words, m, w)) && Tightest(one, x);
    var two :| |two| > 0 && (forall w :: w in two <==> PointsAt(page.words, m, w)) && Tightest(two, y);
    assert Encloses(one, y.xmin, y.ymin, y.xmax, y.ymax) && Encloses(two, x.xmin, x.ymin, x.xmax, x.ymax);
  }

  lemma ReplyHitsTold(st: Setting, page: PageWords, matches: seq<WordMatch>, h: Hit)
    ensures h in HitList(st, page, matches) <==> HasMatch(st, page, matches, h.field, h.result)
  {
    var hits := HitList(st, page, matches);
    var at := RepliesTold(st, page, matches);
    if h in hits {
      var k :| 0 <= k < |hits| && hits[k] == h;
      assert Yields(st, page, matches[at[k]], hits[k]) && at[k] in at;
    }
    if HasMatch(st, page, matches, h.field, h.result) {
      var i :| 0 <= i < |matches| && matches[i].field == h.field && Counts(st.threshold, page.words, matches[i]) &&
               Comes(st.round, page, matches[i], h.result);
      assert i in at;
      var k :| 0 <= k < |at| && at[k] == i;
      assert Yields(st, page, matches[i], hits[k]);
      ComesOneWay(st.round, page, matches[i], h.result, hits[k].result);
    }
  }

  ghost predicate FirstAnswer(st: Setting, pages: seq<PageWords>, fields: seq<Query>, id: string, x: MatchResult) {
    exists page, asks :: FirstCall(pages, fields, page, asks) && Replied(st, 1, page, asks, id, x)
  }

  ghost predicate SecondAnswer(st: Setting, pages: seq<PageWords>, fields: seq<Query>, found: Results, id: string,
                               x: MatchResult) {
    exists page, asks :: SecondCall(pages, fields, found, page, asks) && Replied(st, 2, page, asks, id, x)
  }

  lemma FirstHitsTold(st: Setting, pages: seq<PageWords>, fields: seq<Query>, h: Hit)
    ensures h in PassHits(st, FirstRound(pages, fields)) <==> FirstAnswer(st, pages, fields, h.field, h.result)
  {
    var rd := FirstRound(pages, fields);
    if h in PassHits(st, rd) {
      var p :| p in Tasks(rd) && h in PageHits(st, rd, p);
      var page := PageByNumber(rd.pages, p).value;
      var asks := FirstCallTold(pages, fields, p);
      ReplyHitsTold(st, page, st.oracle(1, page, asks).value, h);
      assert Replied(st, 1, page, asks, h.field, h.result);
    }
    if page, asks :| FirstCall(pages, fields, page, asks) && Replied(st, 1, page, asks, h.field, h.result) {
      FirstCallIsMade(pages, fields, page, asks);
      ReplyHitsTold(st, page, st.oracle(1, page, asks).value, h);
      assert h in PageHits(st, rd, page.page);
    }
  }

  lemma SecondHitsTold(st: Setting, pages: seq<PageWords>, fields: seq<Query>, found: Results, h: Hit)
    ensures h in PassHits(st, SecondRound(pages, fields, found)) <==>
            SecondAnswer(st, pages, fields, found, h.field, h.result)
  {
    var rd := SecondRound(pages, fields, found);
    if h in PassHits(st, rd) {
      var p :| p in Tasks(rd) && h in PageHits(st, rd, p);
      var page := PageByNumber(rd.pages, p).value;
      var asks := SecondCallTold(pages, fields, found, p);
      ReplyHitsTold(st, page, st.oracle(2, page, asks).value, h);
      assert Replied(st, 2, page, asks, h.field, h.result);
    }
    if page, asks :| SecondCall(pages, fields, found, page, asks) && Replied(st, 2, page, asks, h.field, h.result) {
      SecondCallIsMade(pages, fields, found, page, asks);
      ReplyHitsTold(st, page, st.oracle(2, page, asks).value, h);
      assert h in PageHits(st, rd, page.page);
    }
  }

  lemma SecondPassHits(st: Setting, pages: seq<PageWords>, fields: seq<Query>, mid: Results, r: Results)
    requires Ran(st, pages, fields, mid, r)
    ensures SecondHits(st, pages, fields) == PassHits(st, SecondRound(pages, fields, mid))
  {
    SecondIsRest(st, pages, fields, mid);
    SameTasks(st, SecondRound(pages, fields, mid), RestRound(st, pages, fields));
  }

  /** Whatever order the replies arrive in: a field without an answer in either pass is not found, and
      any other ends with an answer that none of either pass scores above. */
  lemma FinalTold(st: Setting, pages: seq<PageWords>, fields: seq<Query>, mid: Results, r: Results, id: string,
                  y: MatchResult)
    requires Ran(st, pages, fields, mid, r)
    ensures At(r, id).Some? ==>
              FirstAnswer(st, pages, fields, id, At(r, id).value) ||
              SecondAnswer(st, pages, fields, mid, id, At(r, id).value)
    ensures FirstAnswer(st, pages, fields, id, y) || SecondAnswer(st, pages, fields, mid, id, y) ==>
              At(r, id).Some? && y.score <= At(r, id).value.score
  {
    FinalIsMaximum(st, pages, fields, mid, r, id);
    SecondPassHits(st, pages, fields, mid, r);
    FirstHitsTold(st, pages, fields, Hit(id, y));
    SecondHitsTold(st, pages, fields, mid, Hit(id, y));
    if At(r, id).Some? {
      FirstHitsTold(st, pages, fields, Hit(id, At(r, id).value));
      SecondHitsTold(st, pages, fields, mid, Hit(id, At(r, id).value));
    }
  }

  // ---- The cascade ---------------------------------------------------------

  /** The model is asked about the fields the first matcher has no result for, in order. */
  lemma ResidualTold(fields: seq<Query>, fuzzy: Results) returns (at: seq<nat>)
    ensures Picked(at, |fields|,
              (i: nat) => i < |fields| && !(fields[i].id in fuzzy && fuzzy[fields[i].id].Some?))
    ensures |HybridMatcher.Residual(fields, fuzzy)| == |at|
    ensures forall k :: 0 <= k < |at| ==> HybridMatcher.Residual(fields, fuzzy)[k] == fields[at[k]]
  {
    var wanted := (i: nat) => i < |fields| && !(fields[i].id in fuzzy && fuzzy[fields[i].id].Some?);
    at := [];
    for n := 0 to |fields|
      invariant Picked(at, n, wanted) && |HybridMatcher.Residual(fields[..n], fuzzy)| == |at|
      invariant forall k :: 0 <= k < |at| ==> HybridMatcher.Residual(fields[..n], fuzzy)[k] == fields[at[k]]
    {
      TakeFront(fields, n);
      PickNext(at, n, wanted);
      if wanted(n) {
        at := at + [n];
      }
    }
    TakeAll(fields);
  }

  /** What the cascade reports: every entry the model made, and the first matcher's for the rest. */
  lemma CascadeTold(fuzzy: Results, llm: Results, id: string)
    ensures var merged := HybridMatcher.Overridden(fuzzy, llm);
      && (id in merged <==> id in fuzzy || id in llm)
      && (id in llm ==> merged[id] == llm[id])
      && (id in fuzzy && id !in llm ==> merged[id] == fuzzy[id])
  {
  }
}
