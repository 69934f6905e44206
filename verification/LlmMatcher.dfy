/** The model-backed matcher: one call per page, answers merged in whatever order they arrive. */
module LlmMatcher {
  import opened Collections
  import opened Wrappers
  import opened ValueMatcher

  datatype Query = Query(id: string, value: string, candidates: Option<seq<int>>)

  datatype Ask = Ask(id: string, value: string)

  /** One match of a reply: the field it names, the words it points at, its confidence. */
  datatype WordMatch = WordMatch(field: string, indices: seq<int>, confidence: real)

  type Results = map<string, Option<MatchResult>>

  /** The model: any reply to a pass, a page and the fields asked about, or none when the call fails. */
  type Oracle = (nat, PageWords, seq<Ask>) -> Option<seq<WordMatch>>

  datatype Setting = Setting(threshold: real, round: real -> real, oracle: Oracle)

  function At(results: Results, id: string): Option<MatchResult> { if id in results then results[id] else None }

  // ---- Accepted matches ----------------------------------------------------

  /** The words an answer points at; positions outside the page are dropped. */
  function WordsAt(words: seq<Word>, indices: seq<int>): seq<Word> {
    if |indices| == 0 then []
    else
      var front, last := WordsAt(words, indices[..|indices| - 1]), indices[|indices| - 1];
      if 0 <= last < |words| then front + [words[last]] else front
  }

  predicate Accepts(st: Setting, page: PageWords, m: WordMatch) {
    |m.indices| > 0 && m.confidence >= st.threshold && |WordsAt(page.words, m.indices)| > 0
  }

  datatype Hit = Hit(field: string, result: MatchResult)

  function HitOf(st: Setting, page: PageWords, m: WordMatch): Hit
    requires Accepts(st, page, m)
  {
    Hit(m.field, UnionBox(st.round, WordsAt(page.words, m.indices), m.confidence, page.page))
  }

  /** The accepted matches of a reply, in its order. */
  function HitList(st: Setting, page: PageWords, matches: seq<WordMatch>): seq<Hit> {
    if |matches| == 0 then []
    else
      var front, last := HitList(st, page, matches[..|matches| - 1]), matches[|matches| - 1];
      if Accepts(st, page, last) then front + [HitOf(st, page, last)] else front
  }

  function ReplyHits(st: Setting, page: PageWords, reply: Option<seq<WordMatch>>): seq<Hit> {
    if reply.None? then [] else HitList(st, page, reply.value)
  }

  /** A hit replaces the entry of its field only if it scores higher. */
  function Merge(results: Results, h: Hit): Results {
    var existing := At(results, h.field);
    if existing.None? || h.result.score > existing.value.score then results[h.field := Some(h.result)] else results
  }

  function MergeAll(results: Results, hits: seq<Hit>): Results {
    if |hits| == 0 then results else Merge(MergeAll(results, hits[..|hits| - 1]), hits[|hits| - 1])
  }

  lemma {:induction false} MergeMore(results: Results, hits: seq<Hit>, more: seq<Hit>)
    ensures MergeAll(results, hits + more) == MergeAll(MergeAll(results, hits), more)
  {
    if |more| == 0 {
      assert hits + more == hits;
    } else {
      MergeMore(results, hits, more[..|more| - 1]);
      assert (hits + more)[..|hits + more| - 1] == hits + more[..|more| - 1];
    }
  }

  // ---- Merging -------------------------------------------------------------

  /** The dictionary shared by the page tasks. */
  class Table {
    var results: Results

    constructor (results: Results)
      ensures this.results == results
    {
      this.results := results;
    }

    /** What one page task does once its reply is there; no other task runs in between. */
    method MergePage(st: Setting, page: PageWords, reply: Option<seq<WordMatch>>)
      modifies this
      ensures results == MergeAll(old(results), ReplyHits(st, page, reply))
    {
      if reply.None? {
        return;
      }
      var matches := reply.value;
      for i := 0 to |matches|
        invariant results == MergeAll(old(results), HitList(st, page, matches[..i]))
      {
        var m := matches[i];
        OneMoreMatch(st, page, matches, i, old(results));
        if Accepts(st, page, m) {
          var result := UnionBox(st.round, WordsAt(page.words, m.indices), m.confidence, page.page);
          var existing := At(results, m.field);
          if existing.None? || result.score > existing.value.score {
            results := results[m.field := Some(result)];
          }
        }
      }
      assert matches[..|matches|] == matches;
    }
  }

  lemma OneMoreMatch(st: Setting, page: PageWords, matches: seq<WordMatch>, i: nat, before: Results)
    requires i < |matches|
    ensures var now := MergeAll(before, HitList(st, page, matches[..i]));
      MergeAll(before, HitList(st, page, matches[..i + 1])) ==
      if Accepts(st, page, matches[i]) then Merge(now, HitOf(st, page, matches[i])) else now
  {
    assert matches[..i + 1][..i] == matches[..i];
    var hits := HitList(st, page, matches[..i]);
    if Accepts(st, page, matches[i]) {
      assert (hits + [HitOf(st, page, matches[i])])[..|hits|] == hits;
    }
  }

  // ---- One pass over the pages ---------------------------------------------

  type Grouping = map<int, seq<Ask>>

  function AskedOn(perPage: Grouping, p: int): seq<Ask> { if p in perPage then perPage[p] else [] }

  /** The fields of a page that are still unmatched. */
  function Open(asks: seq<Ask>, results: Results): seq<Ask> {
    if |asks| == 0 then []
    else
      var front, last := Open(asks[..|asks| - 1], results), asks[|asks| - 1];
      if At(results, last.id).None? then front + [last] else front
  }

  /** The page of that number; the last one, should there be several. */
  function PageByNumber(pages: seq<PageWords>, p: int): Option<PageWords> {
    if |pages| == 0 then None
    else if pages[|pages| - 1].page == p then Some(pages[|pages| - 1]) else PageByNumber(pages[..|pages| - 1], p)
  }

  /** One pass: the pages, the fields put on each, and the state its calls are made on. */
  datatype Round = Round(pass: nat, pages: seq<PageWords>, perPage: Grouping, before: Results)

  /** The page numbers a call is made for. */
  function Tasks(rd: Round): set<int> {
    set p | p in rd.perPage && PageByNumber(rd.pages, p).Some? && |Open(rd.perPage[p], rd.before)| > 0
  }

  function PageHits(st: Setting, rd: Round, p: int): seq<Hit>
    requires p in Tasks(rd)
  {
    var page := PageByNumber(rd.pages, p).value;
    ReplyHits(st, page, st.oracle(rd.pass, page, Open(rd.perPage[p], rd.before)))
  }

  /** All accepted matches, page after page in this order. */
  function Gathered(st: Setting, rd: Round, order: seq<int>): seq<Hit>
    requires forall p :: p in order ==> p in Tasks(rd)
  {
    if |order| == 0 then []
    else Gathered(st, rd, order[..|order| - 1]) + PageHits(st, rd, order[|order| - 1])
  }

  /** Every page a call is made for, once. */
  ghost predicate Arrivals(rd: Round, order: seq<int>) {
    Distinct(order) && forall p :: p in order <==> p in Tasks(rd)
  }

  /** A possible outcome of the pass: the replies were merged in some order of arrival. */
  ghost predicate Passed(st: Setting, rd: Round, start: Results, after: Results) {
    exists order :: Arrivals(rd, order) && after == MergeAll(start, Gathered(st, rd, order))
  }

  lemma OneMoreArrival(st: Setting, rd: Round, order: seq<int>, p: int)
    requires p in Tasks(rd) && forall q :: q in order ==> q in Tasks(rd)
    ensures forall q :: q in order + [p] ==> q in Tasks(rd)
    ensures Gathered(st, rd, order + [p]) == Gathered(st, rd, order) + PageHits(st, rd, p)
  {
    assert (order + [p])[..|order|] == order;
  }

  /** All calls are made on the state before the pass; their replies are merged in any order. */
  method RunPages(st: Setting, pass: nat, pages: seq<PageWords>, perPage: Grouping, table: Table)
    modifies table
    ensures Passed(st, Round(pass, pages, perPage, old(table.results)), old(table.results), table.results)
  {
    var rd := Round(pass, pages, perPage, table.results);
    var waiting := Tasks(rd);
    ghost var order: seq<int> := [];
    while waiting != {}
      invariant waiting <= Tasks(rd) && Distinct(order)
      invariant forall p :: p in order <==> p in Tasks(rd) - waiting
      invariant table.results == MergeAll(rd.before, Gathered(st, rd, order))
      decreases |waiting|
    {
      var p := AnyOf(waiting);
      var page := PageByNumber(pages, p).value;
      OneMoreArrival(st, rd, order, p);
      MergeMore(rd.before, Gathered(st, rd, order), PageHits(st, rd, p));
      table.MergePage(st, page, st.oracle(pass, page, Open(perPage[p], rd.before)));
      DistinctSnoc(order, p);
      waiting := waiting - {p};
      order := order + [p];
    }
    assert Arrivals(rd, order);
  }

  /** The next reply to arrive. */
  method AnyOf(waiting: set<int>) returns (p: int)
    requires waiting != {}
    ensures p in waiting
  {
    EmptyOrInhabited(waiting);
    p :| p in waiting;
  }

  // ---- Which page is asked about which field -------------------------------

  function Times(ps: seq<int>, p: int): nat {
    if |ps| == 0 then 0 else Times(ps[..|ps| - 1], p) + (if ps[|ps| - 1] == p then 1 else 0)
  }

  function Copies(ask: Ask, n: nat): seq<Ask> { seq(n, _ => ask) }

  function AskOf(q: Query): Ask { Ask(q.id, q.value) }

  predicate HasCandidates(q: Query) { q.candidates.Some? && |q.candidates.value| > 0 }

  /** How often the first pass puts a field on a page: once per mention among its candidates, or once
      when it has none. */
  function FirstTimes(q: Query, numbers: seq<int>, p: int): nat {
    if p !in numbers then 0 else if HasCandidates(q) then Times(q.candidates.value, p) else 1
  }

  function FirstAsks(fields: seq<Query>, numbers: seq<int>, p: int): seq<Ask> {
    if |fields| == 0 then []
    else
      var last := fields[|fields| - 1];
      FirstAsks(fields[..|fields| - 1], numbers, p) + Copies(AskOf(last), FirstTimes(last, numbers, p))
  }

  /** The second pass goes to every page that is no candidate of the field; a field without candidates
      goes to all pages again. */
  function SecondTimes(q: Query, numbers: seq<int>, p: int): nat {
    if HasCandidates(q) && p in q.candidates.value then 0 else Times(numbers, p)
  }

  function SecondAsks(fields: seq<Query>, numbers: seq<int>, results: Results, p: int): seq<Ask> {
    if |fields| == 0 then []
    else
      var front, last := SecondAsks(fields[..|fields| - 1], numbers, results, p), fields[|fields| - 1];
      if At(results, last.id).None? then front + Copies(AskOf(last), SecondTimes(last, numbers, p)) else front
  }

  function Added(perPage: Grouping, p: int, ask: Ask): Grouping { perPage[p := AskedOn(perPage, p) + [ask]] }

  lemma OneMoreCopy(ask: Ask, n: nat)
    ensures Copies(ask, n + 1) == Copies(ask, n) + [ask] && Copies(ask, 0) == []
  {
  }

  /** `more` has the field on each valid page once more per mention in `ps`. */
  ghost predicate AskedEach(perPage: Grouping, ask: Ask, ps: seq<int>, valid: set<int>, more: Grouping) {
    forall p :: AskedOn(more, p) == AskedOn(perPage, p) + Copies(ask, if p in valid then Times(ps, p) else 0)
  }

  lemma AskedOneMore(perPage: Grouping, ask: Ask, ps: seq<int>, valid: set<int>, more: Grouping, p: int)
    requires AskedEach(perPage, ask, ps, valid, more)
    ensures AskedEach(perPage, ask, ps + [p], valid, if p in valid then Added(more, p, ask) else more)
  {
    var next := if p in valid then Added(more, p, ask) else more;
    forall q
      ensures AskedOn(next, q) == AskedOn(perPage, q) + Copies(ask, if q in valid then Times(ps + [p], q) else 0)
    {
      assert AskedOn(more, q) == AskedOn(perPage, q) + Copies(ask, if q in valid then Times(ps, q) else 0);
      OneMoreTime(ps, p, q);
      if q == p && p in valid {
        OneMoreAsk(AskedOn(perPage, p), ask, Times(ps, p));
      }
    }
  }

  lemma OneMoreTime(ps: seq<int>, p: int, q: int)
    ensures Times(ps + [p], q) == Times(ps, q) + (if p == q then 1 else 0)
  {
    assert (ps + [p])[..|ps|] == ps;
  }

  lemma OneMoreAsk(had: seq<Ask>, ask: Ask, n: nat)
    ensures had + Copies(ask, n) + [ask] == had + Copies(ask, n + 1)
  {
  }

  lemma AskedNone(perPage: Grouping, ask: Ask, valid: set<int>)
    ensures AskedEach(perPage, ask, [], valid, perPage)
  {
    OneMoreCopy(ask, 0);
  }

  /** One turn of the loop below. */
  lemma AskedNext(perPage: Grouping, ask: Ask, ps: seq<int>, valid: set<int>, more: Grouping, k: nat)
    requires k < |ps| && AskedEach(perPage, ask, ps[..k], valid, more)
    ensures AskedEach(perPage, ask, ps[..k + 1], valid, if ps[k] in valid then Added(more, ps[k], ask) else more)
  {
    assert ps[..k + 1] == ps[..k] + [ps[k]];
    AskedOneMore(perPage, ask, ps[..k], valid, more, ps[k]);
  }

  /** Puts a field on the pages of a list, where valid. */
  method AskEach(perPage: Grouping, ask: Ask, ps: seq<int>, valid: set<int>) returns (more: Grouping)
    ensures AskedEach(perPage, ask, ps, valid, more)
  {
    more := perPage;
    AskedNone(perPage, ask, valid);
    TakeAll(ps);
    for k := 0 to |ps|
      invariant AskedEach(perPage, ask, ps[..k], valid, more)
    {
      AskedNext(perPage, ask, ps, valid, more, k);
      more := if ps[k] in valid then Added(more, ps[k], ask) else more;
    }
  }

  /** Puts a field on every page of a set, in whatever order the set yields. */
  method AskAll(perPage: Grouping, ask: Ask, valid: set<int>) returns (more: Grouping)
    ensures forall p :: AskedOn(more, p) == AskedOn(perPage, p) + Copies(ask, if p in valid then 1 else 0)
  {
    more := perPage;
    var todo := valid;
    OneMoreCopy(ask, 0);
    while todo != {}
      invariant todo <= valid
      invariant forall p :: AskedOn(more, p) == AskedOn(perPage, p) + Copies(ask, if p in valid - todo then 1 else 0)
      decreases |todo|
    {
      var p := AnyOf(todo);
      more := Added(more, p, ask);
      todo := todo - {p};
    }
  }

  function Numbers(pages: seq<PageWords>): (ns: seq<int>)
    ensures |ns| == |pages| && forall i :: 0 <= i < |pages| ==> ns[i] == pages[i].page
  {
    seq(|pages|, i requires 0 <= i < |pages| => pages[i].page)
  }

  method GroupByPage(fields: seq<Query>, pages: seq<PageWords>) returns (perPage: Grouping)
    ensures forall p :: AskedOn(perPage, p) == FirstAsks(fields, Numbers(pages), p)
  {
    var numbers := Numbers(pages);
    var valid := set p | p in numbers;
    perPage := map[];
    for n := 0 to |fields|
      invariant forall p :: AskedOn(perPage, p) == FirstAsks(fields[..n], numbers, p)
    {
      assert fields[..n + 1][..n] == fields[..n];
      if HasCandidates(fields[n]) {
        perPage := AskEach(perPage, AskOf(fields[n]), fields[n].candidates.value, valid);
      } else {
        perPage := AskAll(perPage, AskOf(fields[n]), valid);
      }
    }
    assert fields[..|fields|] == fields;
  }

  /** The still unmatched fields, each on every page it did not name. */
  method GroupRest(fields: seq<Query>, pages: seq<PageWords>, results: Results) returns (perPage: Grouping)
    ensures forall p :: AskedOn(perPage, p) == SecondAsks(fields, Numbers(pages), results, p)
  {
    var numbers := Numbers(pages);
    perPage := map[];
    for n := 0 to |fields|
      invariant forall p :: AskedOn(perPage, p) == SecondAsks(fields[..n], numbers, results, p)
    {
      assert fields[..n + 1][..n] == fields[..n];
      if At(results, fields[n].id).None? {
        var primary := if HasCandidates(fields[n]) then set p | p in fields[n].candidates.value else {};
        perPage := AskEach(perPage, AskOf(fields[n]), numbers, (set p | p in numbers) - primary);
        TimesOfOthers(numbers);
      }
    }
    assert fields[..|fields|] == fields;
  }

  lemma {:induction false} TimesOfOthers(ps: seq<int>)
    ensures forall p :: p !in ps ==> Times(ps, p) == 0
  {
    if |ps| > 0 {
      TimesOfOthers(ps[..|ps| - 1]);
    }
  }

  // ---- The two passes ------------------------------------------------------

  function WithWords(pages: seq<PageWords>): seq<PageWords> {
    if |pages| == 0 then []
    else
      var front, last := WithWords(pages[..|pages| - 1]), pages[|pages| - 1];
      if |last.words| > 0 then front + [last] else front
  }

  function NoResults(fields: seq<Query>): Results { map q | q in fields :: q.id := None }

  /** The same calls on every page. */
  ghost predicate SameCalls(one: Round, two: Round) {
    && one.pass == two.pass && one.pages == two.pages
    && forall p :: Open(AskedOn(one.perPage, p), one.before) == Open(AskedOn(two.perPage, p), two.before)
  }

  lemma SameTasks(st: Setting, one: Round, two: Round)
    requires SameCalls(one, two)
    ensures Tasks(one) == Tasks(two)
    ensures forall p :: p in Tasks(one) ==> PageHits(st, one, p) == PageHits(st, two, p)
  {
    forall p ensures p in Tasks(one) <==> p in Tasks(two) {
      assert Open(AskedOn(one.perPage, p), one.before) == Open(AskedOn(two.perPage, p), two.before);
    }
    forall p | p in Tasks(one) ensures PageHits(st, one, p) == PageHits(st, two, p) {
      assert Open(AskedOn(one.perPage, p), one.before) == Open(AskedOn(two.perPage, p), two.before);
    }
  }

  lemma {:induction false} SameGathered(st: Setting, one: Round, two: Round, order: seq<int>)
    requires SameCalls(one, two) && Tasks(one) == Tasks(two) && forall p :: p in order ==> p in Tasks(one)
    ensures Gathered(st, one, order) == Gathered(st, two, order)
  {
    SameTasks(st, one, two);
    if |order| != 0 {
      SameGathered(st, one, two, order[..|order| - 1]);
    }
  }

  lemma SamePass(st: Setting, one: Round, two: Round, start: Results, after: Results)
    requires SameCalls(one, two) && Passed(st, one, start, after)
    ensures Passed(st, two, start, after)
  {
    SameTasks(st, one, two);
    var order :| Arrivals(one, order) && after == MergeAll(start, Gathered(st, one, order));
    SameGathered(st, one, two, order);
    assert Arrivals(two, order);
  }

  ghost function FirstGrouping(fields: seq<Query>, pages: seq<PageWords>): Grouping {
    map p | p in Numbers(pages) :: FirstAsks(fields, Numbers(pages), p)
  }

  ghost function SecondGrouping(fields: seq<Query>, pages: seq<PageWords>, results: Results): Grouping {
    map p | p in Numbers(pages) :: SecondAsks(fields, Numbers(pages), results, p)
  }

  lemma {:induction false} OffTheList(fields: seq<Query>, numbers: seq<int>, results: Results, p: int)
    requires p !in numbers
    ensures |FirstAsks(fields, numbers, p)| == 0 && |SecondAsks(fields, numbers, results, p)| == 0
  {
    if |fields| > 0 {
      OffTheList(fields[..|fields| - 1], numbers, results, p);
      TimesOfOthers(numbers);
    }
  }

  ghost function FirstRound(pages: seq<PageWords>, fields: seq<Query>): Round {
    Round(1, WithWords(pages), FirstGrouping(fields, WithWords(pages)), NoResults(fields))
  }

  ghost function SecondRound(pages: seq<PageWords>, fields: seq<Query>, mid: Results): Round {
    Round(2, WithWords(pages), SecondGrouping(fields, WithWords(pages), mid), mid)
  }

  /** A possible run: `mid` is what the first pass left, `r` the outcome. */
  ghost predicate Ran(st: Setting, pages: seq<PageWords>, fields: seq<Query>, mid: Results, r: Results) {
    && Passed(st, FirstRound(pages, fields), NoResults(fields), mid)
    && Passed(st, SecondRound(pages, fields, mid), mid, r)
  }

  /** A pass that makes no call. */
  lemma Quiet(st: Setting, rd: Round, start: Results)
    requires forall p :: |AskedOn(rd.perPage, p)| == 0
    ensures Passed(st, rd, start, start)
  {
    assert forall p :: p in rd.perPage ==> |AskedOn(rd.perPage, p)| == 0;
    assert Tasks(rd) == {};
    var order: seq<int> := [];
    assert Arrivals(rd, order) && start == MergeAll(start, Gathered(st, rd, order));
  }

  lemma {:induction false} AllMatched(fields: seq<Query>, numbers: seq<int>, results: Results, p: int)
    requires forall q :: q in fields ==> At(results, q.id).Some?
    ensures |SecondAsks(fields, numbers, results, p)| == 0
  {
    if |fields| > 0 {
      assert fields[|fields| - 1] in fields;
      AllMatched(fields[..|fields| - 1], numbers, results, p);
    }
  }

  lemma {:induction false} NobodyToAsk(fields: seq<Query>, pages: seq<PageWords>, p: int)
    requires |fields| == 0 || |pages| == 0
    ensures |FirstAsks(fields, Numbers(pages), p)| == 0
  {
    if |fields| > 0 {
      NobodyToAsk(fields[..|fields| - 1], pages, p);
    }
  }

  lemma NothingHappens(st: Setting, pages: seq<PageWords>, fields: seq<Query>)
    requires |fields| == 0 || |WithWords(pages)| == 0
    ensures Ran(st, pages, fields, NoResults(fields), NoResults(fields))
  {
    var ps, none := WithWords(pages), NoResults(fields);
    forall p ensures |AskedOn(FirstGrouping(fields, ps), p)| == 0 {
      NobodyToAsk(fields, ps, p);
    }
    forall p ensures |AskedOn(SecondGrouping(fields, ps, none), p)| == 0 {
      OffOrEmpty(fields, ps, none, p);
    }
    Quiet(st, FirstRound(pages, fields), none);
    Quiet(st, SecondRound(pages, fields, none), none);
  }

  lemma OffOrEmpty(fields: seq<Query>, pages: seq<PageWords>, results: Results, p: int)
    requires |fields| == 0 || |pages| == 0
    ensures |AskedOn(SecondGrouping(fields, pages, results), p)| == 0
  {
    if |pages| == 0 {
      OffTheList(fields, Numbers(pages), results, p);
    }
  }

  method LocateAll(st: Setting, pages: seq<PageWords>, fields: seq<Query>) returns (r: Results, ghost mid: Results)
    ensures Ran(st, pages, fields, mid, r)
    ensures forall q :: q in fields ==> q.id in r
  {
    if |pages| == 0 || |fields| == 0 || |WithWords(pages)| == 0 {
      NothingHappens(st, pages, fields);
      return NoResults(fields), NoResults(fields);
    }
    var table := new Table(NoResults(fields));
    FirstPass(st, pages, fields, table);
    mid := table.results;
    SecondPass(st, pages, fields, table);
    r := table.results;
    RanKeepsFields(st, pages, fields, mid, r);
  }

  method FirstPass(st: Setting, pages: seq<PageWords>, fields: seq<Query>, table: Table)
    requires table.results == NoResults(fields)
    modifies table
    ensures Passed(st, FirstRound(pages, fields), NoResults(fields), table.results)
  {
    var ps := WithWords(pages);
    var primary := GroupByPage(fields, ps);
    RunPages(st, 1, ps, primary, table);
    FirstCalls(pages, fields, primary);
    SamePass(st, Round(1, ps, primary, NoResults(fields)), FirstRound(pages, fields), NoResults(fields), table.results);
  }

  /** Skipped when every field is matched. */
  method SecondPass(st: Setting, pages: seq<PageWords>, fields: seq<Query>, table: Table)
    modifies table
    ensures Passed(st, SecondRound(pages, fields, old(table.results)), old(table.results), table.results)
  {
    ghost var mid := table.results;
    if exists q :: q in fields && At(table.results, q.id).None? {
      var ps := WithWords(pages);
      var secondary := GroupRest(fields, ps, table.results);
      RunPages(st, 2, ps, secondary, table);
      SecondCalls(pages, fields, mid, secondary);
      SamePass(st, Round(2, ps, secondary, mid), SecondRound(pages, fields, mid), mid, table.results);
    } else {
      NoSecondCalls(st, pages, fields, table.results);
    }
  }

  lemma FirstCalls(pages: seq<PageWords>, fields: seq<Query>, perPage: Grouping)
    requires forall p :: AskedOn(perPage, p) == FirstAsks(fields, Numbers(WithWords(pages)), p)
    ensures SameCalls(Round(1, WithWords(pages), perPage, NoResults(fields)), FirstRound(pages, fields))
  {
    var ps := WithWords(pages);
    forall p ensures AskedOn(perPage, p) == AskedOn(FirstGrouping(fields, ps), p) {
      if p !in Numbers(ps) {
        OffTheList(fields, Numbers(ps), map[], p);
      }
    }
  }

  lemma SecondCalls(pages: seq<PageWords>, fields: seq<Query>, mid: Results, perPage: Grouping)
    requires forall p :: AskedOn(perPage, p) == SecondAsks(fields, Numbers(WithWords(pages)), mid, p)
    ensures SameCalls(Round(2, WithWords(pages), perPage, mid), SecondRound(pages, fields, mid))
  {
    var ps := WithWords(pages);
    forall p ensures AskedOn(perPage, p) == AskedOn(SecondGrouping(fields, ps, mid), p) {
      if p !in Numbers(ps) {
        OffTheList(fields, Numbers(ps), mid, p);
      }
    }
  }

  lemma NoSecondCalls(st: Setting, pages: seq<PageWords>, fields: seq<Query>, mid: Results)
    requires forall q :: q in fields ==> At(mid, q.id).Some?
    ensures Passed(st, SecondRound(pages, fields, mid), mid, mid)
  {
    var ps := WithWords(pages);
    forall p ensures |AskedOn(SecondGrouping(fields, ps, mid), p)| == 0 {
      AllMatched(fields, Numbers(ps), mid, p);
    }
    Quiet(st, SecondRound(pages, fields, mid), mid);
  }

  lemma {:induction false} MergeKeepsKeys(results: Results, hits: seq<Hit>)
    ensures results.Keys <= MergeAll(results, hits).Keys
  {
    if |hits| > 0 {
      MergeKeepsKeys(results, hits[..|hits| - 1]);
    }
  }

  lemma RanKeepsFields(st: Setting, pages: seq<PageWords>, fields: seq<Query>, mid: Results, r: Results)
    requires Ran(st, pages, fields, mid, r)
    ensures forall q :: q in fields ==> q.id in r
  {
    var one :| Arrivals(FirstRound(pages, fields), one) &&
               mid == MergeAll(NoResults(fields), Gathered(st, FirstRound(pages, fields), one));
    var two :| Arrivals(SecondRound(pages, fields, mid), two) &&
               r == MergeAll(mid, Gathered(st, SecondRound(pages, fields, mid), two));
    MergeKeepsKeys(NoResults(fields), Gathered(st, FirstRound(pages, fields), one));
    MergeKeepsKeys(mid, Gathered(st, SecondRound(pages, fields, mid), two));
    assert forall q :: q in fields ==> q.id in NoResults(fields);
  }

  lemma {:induction false} TimesIff(ps: seq<int>, p: int)
    ensures Times(ps, p) > 0 <==> p in ps
  {
    if |ps| > 0 {
      TimesIff(ps[..|ps| - 1], p);
    }
  }

  /** The call of this round for page `p` asks about the field. */
  predicate Asks(rd: Round, p: int, q: Query) {
    p in Tasks(rd) && AskOf(q) in Open(rd.perPage[p], rd.before)
  }

  lemma {:induction false} OpenAre(asks: seq<Ask>, results: Results, a: Ask)
    ensures a in Open(asks, results) <==> a in asks && At(results, a.id).None?
  {
    if |asks| > 0 {
      OpenAre(asks[..|asks| - 1], results, a);
      assert asks == asks[..|asks| - 1] + [asks[|asks| - 1]];
    }
  }

  lemma InCopies(had: seq<Ask>, ask: Ask, n: nat, a: Ask)
    ensures a in had + Copies(ask, n) <==> a in had || (a == ask && n > 0)
  {
    assert n > 0 ==> Copies(ask, n)[0] == ask;
  }

  lemma {:induction false} FirstAsksAre(fields: seq<Query>, numbers: seq<int>, p: int, a: Ask)
    ensures a in FirstAsks(fields, numbers, p) <==>
              exists i :: 0 <= i < |fields| && AskOf(fields[i]) == a && FirstTimes(fields[i], numbers, p) > 0
  {
    if |fields| > 0 {
      var front, last := fields[..|fields| - 1], fields[|fields| - 1];
      FirstAsksAre(front, numbers, p, a);
      InCopies(FirstAsks(front, numbers, p), AskOf(last), FirstTimes(last, numbers, p), a);
      assert forall i :: 0 <= i < |front| ==> front[i] == fields[i];
    }
  }

  lemma {:induction false} SecondAsksAre(fields: seq<Query>, numbers: seq<int>, results: Results, p: int, a: Ask)
    ensures a in SecondAsks(fields, numbers, results, p) <==>
              At(results, a.id).None? &&
              exists i :: 0 <= i < |fields| && AskOf(fields[i]) == a && SecondTimes(fields[i], numbers, p) > 0
  {
    if |fields| > 0 {
      var front, last := fields[..|fields| - 1], fields[|fields| - 1];
      SecondAsksAre(front, numbers, results, p, a);
      InCopies(SecondAsks(front, numbers, results, p), AskOf(last), SecondTimes(last, numbers, p), a);
      assert forall i :: 0 <= i < |front| ==> front[i] == fields[i];
    }
  }

  lemma {:induction false} NumberedPage(pages: seq<PageWords>, p: int)
    requires p in Numbers(pages)
    ensures PageByNumber(pages, p).Some?
  {
    var front := pages[..|pages| - 1];
    if pages[|pages| - 1].page != p {
      var i :| 0 <= i < |pages| && Numbers(pages)[i] == p;
      assert Numbers(front)[i] == p;
      NumberedPage(front, p);
    }
  }

  /** Which calls of the first pass ask about a field: those of its candidate pages, or all if it names none. */
  lemma AskedFirstIff(pages: seq<PageWords>, fields: seq<Query>, q: Query, p: int)
    requires p in Numbers(WithWords(pages))
    ensures Asks(FirstRound(pages, fields), p, q) <==>
              exists i :: 0 <= i < |fields| && AskOf(fields[i]) == AskOf(q) &&
                          FirstTimes(fields[i], Numbers(WithWords(pages)), p) > 0
  {
    var rd := FirstRound(pages, fields);
    NumberedPage(WithWords(pages), p);
    OpenAre(rd.perPage[p], rd.before, AskOf(q));
    FirstAsksAre(fields, Numbers(WithWords(pages)), p, AskOf(q));
  }

  /** And of the second: of an unmatched field, those of the pages it did not name. */
  lemma AskedSecondIff(pages: seq<PageWords>, fields: seq<Query>, mid: Results, q: Query, p: int)
    requires p in Numbers(WithWords(pages))
    ensures Asks(SecondRound(pages, fields, mid), p, q) <==>
              At(mid, q.id).None? &&
              exists i :: 0 <= i < |fields| && AskOf(fields[i]) == AskOf(q) &&
                          SecondTimes(fields[i], Numbers(WithWords(pages)), p) > 0
  {
    var rd := SecondRound(pages, fields, mid);
    NumberedPage(WithWords(pages), p);
    OpenAre(rd.perPage[p], mid, AskOf(q));
    SecondAsksAre(fields, Numbers(WithWords(pages)), mid, p, AskOf(q));
  }

  lemma TimesTwiceIff(q: Query, numbers: seq<int>, p: int)
    requires p in numbers
    ensures FirstTimes(q, numbers, p) > 0 && SecondTimes(q, numbers, p) > 0 <==> !HasCandidates(q)
    ensures FirstTimes(q, numbers, p) > 0 || SecondTimes(q, numbers, p) > 0
  {
    TimesIff(numbers, p);
    if HasCandidates(q) {
      TimesIff(q.candidates.value, p);
    }
  }

  /** The calls the two passes make: of a field the first pass left unmatched, every page with words
      is asked, and it is asked in both passes iff the field names no candidates. */
  lemma AskedTwiceIff(pages: seq<PageWords>, fields: seq<Query>, mid: Results, n: nat, p: int)
    requires n < |fields| && p in Numbers(WithWords(pages)) && At(mid, fields[n].id).None?
    requires forall i :: 0 <= i < |fields| && fields[i].id == fields[n].id ==> fields[i] == fields[n]
    ensures var q, one, two := fields[n], FirstRound(pages, fields), SecondRound(pages, fields, mid);
      && (Asks(one, p, q) || Asks(two, p, q))
      && (Asks(one, p, q) && Asks(two, p, q) <==> !HasCandidates(q))
  {
    AskedFirstIff(pages, fields, fields[n], p);
    AskedSecondIff(pages, fields, mid, fields[n], p);
    TimesTwiceIff(fields[n], Numbers(WithWords(pages)), p);
  }
}
