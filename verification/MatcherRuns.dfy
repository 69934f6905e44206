/** What a run of the model-backed matcher can end with, over every order in which the replies arrive. */
module MatcherRuns {
  import opened Collections
  import opened Wrappers
  import opened ValueMatcher
  import opened LlmMatcher

  // ---- One field -----------------------------------------------------------

  /** The entry of one field after these hits: the first of the best, `before` included. */
  function Best(before: Option<MatchResult>, hits: seq<Hit>, id: string): Option<MatchResult> {
    if |hits| == 0 then before
    else
      var best, last := Best(before, hits[..|hits| - 1], id), hits[|hits| - 1];
      if last.field == id && (best.None? || last.result.score > best.value.score) then Some(last.result) else best
  }

  lemma {:induction false} EntryAfter(results: Results, hits: seq<Hit>, id: string)
    ensures At(MergeAll(results, hits), id) == Best(At(results, id), hits, id)
  {
    if |hits| > 0 {
      EntryAfter(results, hits[..|hits| - 1], id);
    }
  }

  lemma {:induction false} BestOfBoth(before: Option<MatchResult>, hits: seq<Hit>, more: seq<Hit>, id: string)
    ensures Best(before, hits + more, id) == Best(Best(before, hits, id), more, id)
  {
    if |more| == 0 {
      assert hits + more == hits;
    } else {
      BestOfBoth(before, hits, more[..|more| - 1], id);
      assert (hits + more)[..|hits + more| - 1] == hits + more[..|more| - 1];
    }
  }

  ghost function Elements(hits: seq<Hit>): set<Hit> { set h | h in hits }

  /** `after` is the best of `before` and the hits for the field; `before` gives way only to a better one. */
  ghost predicate IsBest(before: Option<MatchResult>, hits: set<Hit>, id: string, after: Option<MatchResult>) {
    && (after.None? <==> before.None? && forall h :: h in hits ==> h.field != id)
    && (after.Some? ==>
          && (after == before || Hit(id, after.value) in hits)
          && (forall h :: h in hits && h.field == id ==> h.result.score <= after.value.score)
          && (before.Some? ==> before.value.score <= after.value.score)
          && (before.Some? && before.value.score == after.value.score ==> after == before))
  }

  lemma {:induction false} BestIs(before: Option<MatchResult>, hits: seq<Hit>, id: string)
    ensures IsBest(before, Elements(hits), id, Best(before, hits, id))
  {
    if |hits| > 0 {
      var front, last := hits[..|hits| - 1], hits[|hits| - 1];
      BestIs(before, front, id);
      assert hits == front + [last];
      assert Elements(hits) == Elements(front) + {last};
    }
  }

  lemma BestOfMore(before: Option<MatchResult>, hits: set<Hit>, more: set<Hit>, id: string,
                   mid: Option<MatchResult>, after: Option<MatchResult>)
    requires IsBest(before, hits, id, mid) && IsBest(mid, more, id, after)
    ensures IsBest(before, hits + more, id, after)
  {
  }

  /** The hits alone decide, unless none beats what was there. */
  lemma {:induction false} BeforeOrBest(before: Option<MatchResult>, hits: seq<Hit>, id: string)
    ensures Best(before, hits, id) == before || Best(before, hits, id) == Best(None, hits, id)
  {
    if |hits| > 0 {
      var front := hits[..|hits| - 1];
      BeforeOrBest(before, front, id);
      BestIs(before, front, id);
      BestIs(None, front, id);
    }
  }

  lemma Overtakes(before: Option<MatchResult>, hits: seq<Hit>, id: string, x: MatchResult)
    requires Best(None, hits, id) == Some(x) && (before.Some? ==> before.value.score < x.score)
    ensures Best(before, hits, id) == Some(x)
  {
    BeforeOrBest(before, hits, id);
    BestIs(before, hits, id);
    BestIs(None, hits, id);
    assert Hit(id, x) in hits;
  }

  lemma TopStays(x: MatchResult, hits: seq<Hit>, id: string)
    requires forall h :: h in hits && h.field == id ==> h.result.score <= x.score
    ensures Best(Some(x), hits, id) == Some(x)
  {
    BestIs(Some(x), hits, id);
  }

  // ---- One pass ------------------------------------------------------------

  /** All accepted matches of a pass, whatever page they come from. */
  ghost function PassHits(st: Setting, rd: Round): set<Hit> {
    set p, h | p in Tasks(rd) && h in PageHits(st, rd, p) :: h
  }

  lemma {:induction false} GatheredAre(st: Setting, rd: Round, order: seq<int>, h: Hit)
    requires forall p :: p in order ==> p in Tasks(rd)
    ensures h in Gathered(st, rd, order) <==> exists p :: p in order && h in PageHits(st, rd, p)
  {
    if |order| > 0 {
      var front, last := order[..|order| - 1], order[|order| - 1];
      GatheredAre(st, rd, front, h);
      assert order == front + [last];
    }
  }

  lemma AllGathered(st: Setting, rd: Round, order: seq<int>)
    requires Arrivals(rd, order)
    ensures Elements(Gathered(st, rd, order)) == PassHits(st, rd)
  {
    forall h ensures h in Gathered(st, rd, order) <==> h in PassHits(st, rd) {
      GatheredAre(st, rd, order, h);
    }
  }

  /** A field after a pass that ran in some order. */
  lemma PassEntry(st: Setting, rd: Round, start: Results, after: Results, id: string) returns (order: seq<int>)
    requires Passed(st, rd, start, after)
    ensures Arrivals(rd, order) && At(after, id) == Best(At(start, id), Gathered(st, rd, order), id)
    ensures IsBest(At(start, id), PassHits(st, rd), id, At(after, id))
  {
    order :| Arrivals(rd, order) && after == MergeAll(start, Gathered(st, rd, order));
    EntryAfter(start, Gathered(st, rd, order), id);
    BestIs(At(start, id), Gathered(st, rd, order), id);
    AllGathered(st, rd, order);
  }

  /** Page `p` has the best match of the pass for the field, and `x` is the first such it reports. */
  ghost predicate Leads(st: Setting, rd: Round, p: int, id: string, x: MatchResult) {
    && p in Tasks(rd) && Best(None, PageHits(st, rd, p), id) == Some(x)
    && forall h :: h in PassHits(st, rd) && h.field == id ==> h.result.score <= x.score
  }

  lemma {:induction false} FromSomePage(st: Setting, rd: Round, order: seq<int>, id: string) returns (p: int)
    requires (forall q :: q in order ==> q in Tasks(rd)) && Best(None, Gathered(st, rd, order), id).Some?
    ensures p in order && Best(None, PageHits(st, rd, p), id) == Best(None, Gathered(st, rd, order), id)
  {
    var front, last := order[..|order| - 1], order[|order| - 1];
    assert order == front + [last];
    BestOfBoth(None, Gathered(st, rd, front), PageHits(st, rd, last), id);
    BeforeOrBest(Best(None, Gathered(st, rd, front), id), PageHits(st, rd, last), id);
    if Best(None, Gathered(st, rd, order), id) == Best(None, PageHits(st, rd, last), id) {
      p := last;
    } else {
      p := FromSomePage(st, rd, front, id);
    }
  }

  lemma SomePageLeads(st: Setting, rd: Round, order: seq<int>, id: string, x: MatchResult) returns (p: int)
    requires Arrivals(rd, order) && Best(None, Gathered(st, rd, order), id) == Some(x)
    ensures Leads(st, rd, p, id, x)
  {
    p := FromSomePage(st, rd, order, id);
    BestIs(None, Gathered(st, rd, order), id);
    AllGathered(st, rd, order);
  }

  lemma {:induction false} Listed(s: set<int>) returns (order: seq<int>)
    ensures Distinct(order) && forall p :: p in order <==> p in s
    decreases |s|
  {
    EmptyOrInhabited(s);
    if s == {} {
      order := [];
    } else {
      var p :| p in s;
      var rest := Listed(s - {p});
      order := rest + [p];
    }
  }

  lemma {:induction false} GatheredCons(st: Setting, rd: Round, p: int, rest: seq<int>)
    requires p in Tasks(rd) && forall q :: q in rest ==> q in Tasks(rd)
    ensures forall q :: q in [p] + rest ==> q in Tasks(rd)
    ensures Gathered(st, rd, [p] + rest) == PageHits(st, rd, p) + Gathered(st, rd, rest)
  {
    var order := [p] + rest;
    if |rest| == 0 {
      assert |order[..0]| == 0 && order[0] == p;
      assert Gathered(st, rd, order) == [] + PageHits(st, rd, p);
    } else {
      var front, last := rest[..|rest| - 1], rest[|rest| - 1];
      assert rest == front + [last];
      assert order[..|order| - 1] == [p] + front && order[|order| - 1] == last;
      GatheredCons(st, rd, p, front);
    }
  }

  lemma PutFirst(rd: Round, p: int) returns (rest: seq<int>)
    requires p in Tasks(rd)
    ensures Arrivals(rd, [p] + rest) && forall q :: q in rest ==> q in Tasks(rd)
  {
    rest := Listed(Tasks(rd) - {p});
    var order := [p] + rest;
    assert forall i :: 0 < i < |order| ==> order[i] == rest[i - 1] && order[i] in rest;
    assert order[0] == p;
    assert forall q :: q in rest ==> q in order;
  }

  /** Arriving first, a leading page decides over anything worse. */
  lemma LeaderFirst(st: Setting, rd: Round, p: int, id: string, x: MatchResult, before: Option<MatchResult>)
    returns (order: seq<int>)
    requires Leads(st, rd, p, id, x) && (before.Some? ==> before.value.score < x.score)
    ensures Arrivals(rd, order) && Best(before, Gathered(st, rd, order), id) == Some(x)
  {
    var rest := PutFirst(rd, p);
    order := [p] + rest;
    GatheredCons(st, rd, p, rest);
    BestOfBoth(before, PageHits(st, rd, p), Gathered(st, rd, rest), id);
    Overtakes(before, PageHits(st, rd, p), id, x);
    forall h | h in Gathered(st, rd, rest) && h.field == id ensures h.result.score <= x.score {
      GatheredAre(st, rd, rest, h);
    }
    TopStays(x, Gathered(st, rd, rest), id);
  }

  // ---- Both passes ---------------------------------------------------------

  ghost function FirstHits(st: Setting, pages: seq<PageWords>, fields: seq<Query>): set<Hit> {
    PassHits(st, FirstRound(pages, fields))
  }

  function FieldsNamed(hits: set<Hit>): set<string> { set h | h in hits :: h.field }

  const SOMEWHERE := MatchResult(0, 0.0, 0.0, 0.0, 0.0, 0.0)

  /** The second pass only sees which fields the first one matched: those its accepted matches name. */
  ghost function RestRound(st: Setting, pages: seq<PageWords>, fields: seq<Query>): Round {
    SecondRound(pages, fields, map id | id in FieldsNamed(FirstHits(st, pages, fields)) :: Some(SOMEWHERE))
  }

  ghost function SecondHits(st: Setting, pages: seq<PageWords>, fields: seq<Query>): set<Hit> {
    PassHits(st, RestRound(st, pages, fields))
  }

  ghost function BothHits(st: Setting, pages: seq<PageWords>, fields: seq<Query>): set<Hit> {
    FirstHits(st, pages, fields) + SecondHits(st, pages, fields)
  }

  ghost predicate SameGaps(one: Results, two: Results) { forall id :: At(one, id).None? <==> At(two, id).None? }

  lemma {:induction false} SameOpen(asks: seq<Ask>, one: Results, two: Results)
    requires SameGaps(one, two)
    ensures Open(asks, one) == Open(asks, two)
  {
    if |asks| > 0 {
      SameOpen(asks[..|asks| - 1], one, two);
      assert At(one, asks[|asks| - 1].id).None? <==> At(two, asks[|asks| - 1].id).None?;
    }
  }

  lemma {:induction false} SameSecondAsks(fields: seq<Query>, numbers: seq<int>, one: Results, two: Results, p: int)
    requires SameGaps(one, two)
    ensures SecondAsks(fields, numbers, one, p) == SecondAsks(fields, numbers, two, p)
  {
    if |fields| > 0 {
      SameSecondAsks(fields[..|fields| - 1], numbers, one, two, p);
      assert At(one, fields[|fields| - 1].id).None? <==> At(two, fields[|fields| - 1].id).None?;
    }
  }

  lemma SameSecondRound(pages: seq<PageWords>, fields: seq<Query>, one: Results, two: Results)
    requires SameGaps(one, two)
    ensures SameCalls(SecondRound(pages, fields, one), SecondRound(pages, fields, two))
  {
    var ps := WithWords(pages);
    var g, h := SecondGrouping(fields, ps, one), SecondGrouping(fields, ps, two);
    forall p ensures Open(AskedOn(g, p), one) == Open(AskedOn(h, p), two) {
      SameSecondAsks(fields, Numbers(ps), one, two, p);
      SameOpen(AskedOn(g, p), one, two);
    }
  }

  /** After the first pass, however it ran, the second makes the same calls. */
  lemma SecondIsRest(st: Setting, pages: seq<PageWords>, fields: seq<Query>, mid: Results)
    requires Passed(st, FirstRound(pages, fields), NoResults(fields), mid)
    ensures SameCalls(SecondRound(pages, fields, mid), RestRound(st, pages, fields))
    ensures SameCalls(RestRound(st, pages, fields), SecondRound(pages, fields, mid))
  {
    var found := FieldsNamed(FirstHits(st, pages, fields));
    var marked: Results := map id | id in found :: Some(SOMEWHERE);
    forall id ensures At(mid, id).None? <==> At(marked, id).None? {
      var order := PassEntry(st, FirstRound(pages, fields), NoResults(fields), mid, id);
    }
    SameSecondRound(pages, fields, mid, marked);
    SameSecondRound(pages, fields, marked, mid);
  }

  /** A run, pass by pass, as one field sees it. */
  lemma RunEntries(st: Setting, pages: seq<PageWords>, fields: seq<Query>, mid: Results, r: Results, id: string)
    returns (one: seq<int>, two: seq<int>)
    requires Ran(st, pages, fields, mid, r)
    ensures Arrivals(FirstRound(pages, fields), one) && Arrivals(RestRound(st, pages, fields), two)
    ensures At(mid, id) == Best(None, Gathered(st, FirstRound(pages, fields), one), id)
    ensures At(r, id) == Best(At(mid, id), Gathered(st, RestRound(st, pages, fields), two), id)
    ensures IsBest(None, FirstHits(st, pages, fields), id, At(mid, id))
    ensures IsBest(At(mid, id), SecondHits(st, pages, fields), id, At(r, id))
  {
    one := PassEntry(st, FirstRound(pages, fields), NoResults(fields), mid, id);
    SecondIsRest(st, pages, fields, mid);
    SamePass(st, SecondRound(pages, fields, mid), RestRound(st, pages, fields), mid, r);
    two := PassEntry(st, RestRound(st, pages, fields), mid, r, id);
  }

  /** And the run those two orders make. */
  lemma RunInOrder(st: Setting, pages: seq<PageWords>, fields: seq<Query>, id: string, one: seq<int>, two: seq<int>)
    returns (mid: Results, r: Results)
    requires Arrivals(FirstRound(pages, fields), one) && Arrivals(RestRound(st, pages, fields), two)
    ensures Ran(st, pages, fields, mid, r)
    ensures At(r, id) == Best(Best(None, Gathered(st, FirstRound(pages, fields), one), id),
                              Gathered(st, RestRound(st, pages, fields), two), id)
  {
    mid := MergeAll(NoResults(fields), Gathered(st, FirstRound(pages, fields), one));
    EntryAfter(NoResults(fields), Gathered(st, FirstRound(pages, fields), one), id);
    r := MergeAll(mid, Gathered(st, RestRound(st, pages, fields), two));
    EntryAfter(mid, Gathered(st, RestRound(st, pages, fields), two), id);
    SecondIsRest(st, pages, fields, mid);
    assert Passed(st, RestRound(st, pages, fields), mid, r);
    SamePass(st, RestRound(st, pages, fields), SecondRound(pages, fields, mid), mid, r);
  }

  /** Over both passes a field ends with the best match reported for it anywhere. */
  lemma FinalIsMaximum(st: Setting, pages: seq<PageWords>, fields: seq<Query>, mid: Results, r: Results, id: string)
    requires Ran(st, pages, fields, mid, r)
    ensures IsBest(None, BothHits(st, pages, fields), id, At(r, id))
  {
    var one, two := RunEntries(st, pages, fields, mid, r, id);
    BestOfMore(None, FirstHits(st, pages, fields), SecondHits(st, pages, fields), id, At(mid, id), At(r, id));
  }

  predicate Has(hits: set<Hit>, h: Hit, id: string, score: real) {
    h in hits && h.field == id && h.result.score == score
  }

  /** At most one hit for the field has that score. */
  ghost predicate OnlyOne(hits: set<Hit>, id: string, score: real) {
    forall g, h :: Has(hits, g, id, score) && Has(hits, h, id, score) ==> g == h
  }

  lemma BestIsOrderless(hits: set<Hit>, id: string, one: Option<MatchResult>, two: Option<MatchResult>)
    requires IsBest(None, hits, id, one) && IsBest(None, hits, id, two)
    ensures one.Some? <==> two.Some?
    ensures one.Some? ==> one.value.score == two.value.score
    ensures one.Some? && OnlyOne(hits, id, one.value.score) ==> one == two
  {
    if one.Some? && OnlyOne(hits, id, one.value.score) {
      assert Has(hits, Hit(id, one.value), id, one.value.score) && Has(hits, Hit(id, two.value), id, one.value.score);
    }
  }

  /** Any two runs with the same replies match the same fields with the same scores; and where one
      hit alone has the best score, with the same box. */
  lemma RunsAgree(st: Setting, pages: seq<PageWords>, fields: seq<Query>, mid: Results, r: Results,
                  mid': Results, r': Results, id: string)
    requires Ran(st, pages, fields, mid, r) && Ran(st, pages, fields, mid', r')
    ensures At(r, id).Some? <==> At(r', id).Some?
    ensures At(r, id).Some? ==> At(r, id).value.score == At(r', id).value.score
    ensures At(r, id).Some? && OnlyOne(BothHits(st, pages, fields), id, At(r, id).value.score) ==>
              At(r, id) == At(r', id)
  {
    FinalIsMaximum(st, pages, fields, mid, r, id);
    FinalIsMaximum(st, pages, fields, mid', r', id);
    BestIsOrderless(BothHits(st, pages, fields), id, At(r, id), At(r', id));
  }

  // ---- Exactly which outcomes ----------------------------------------------

  /** `x` leads the first pass and no match of the second is better, or it leads the second and every
      match of the first is worse. */
  ghost predicate Wins(st: Setting, pages: seq<PageWords>, fields: seq<Query>, id: string, x: MatchResult) {
    || ((exists p :: Leads(st, FirstRound(pages, fields), p, id, x)) &&
        forall h :: h in SecondHits(st, pages, fields) && h.field == id ==> h.result.score <= x.score)
    || ((exists p :: Leads(st, RestRound(st, pages, fields), p, id, x)) &&
        forall h :: h in FirstHits(st, pages, fields) && h.field == id ==> h.result.score < x.score)
  }

  lemma OutcomeWins(st: Setting, pages: seq<PageWords>, fields: seq<Query>, mid: Results, r: Results, id: string,
                    x: MatchResult)
    requires Ran(st, pages, fields, mid, r) && At(r, id) == Some(x)
    ensures Wins(st, pages, fields, id, x)
  {
    var one, two := RunEntries(st, pages, fields, mid, r, id);
    var rest := Gathered(st, RestRound(st, pages, fields), two);
    BeforeOrBest(At(mid, id), rest, id);
    if At(r, id) == At(mid, id) {
      var p := SomePageLeads(st, FirstRound(pages, fields), one, id, x);
    } else {
      var p := SomePageLeads(st, RestRound(st, pages, fields), two, id, x);
    }
  }

  lemma AnyArrivals(rd: Round) returns (order: seq<int>)
    ensures Arrivals(rd, order)
  {
    order := Listed(Tasks(rd));
  }

  lemma FirstWinnerHappens(st: Setting, pages: seq<PageWords>, fields: seq<Query>, id: string, x: MatchResult, p: int)
    returns (mid: Results, r: Results)
    requires Leads(st, FirstRound(pages, fields), p, id, x)
    requires forall h :: h in SecondHits(st, pages, fields) && h.field == id ==> h.result.score <= x.score
    ensures Ran(st, pages, fields, mid, r) && At(r, id) == Some(x)
  {
    var one := LeaderFirst(st, FirstRound(pages, fields), p, id, x, None);
    var two := AnyArrivals(RestRound(st, pages, fields));
    AllGathered(st, RestRound(st, pages, fields), two);
    TopStays(x, Gathered(st, RestRound(st, pages, fields), two), id) by {
      assert forall h :: h in Gathered(st, RestRound(st, pages, fields), two) ==> h in SecondHits(st, pages, fields);
    }
    mid, r := RunInOrder(st, pages, fields, id, one, two);
  }

  lemma SecondWinnerHappens(st: Setting, pages: seq<PageWords>, fields: seq<Query>, id: string, x: MatchResult, p: int)
    returns (mid: Results, r: Results)
    requires Leads(st, RestRound(st, pages, fields), p, id, x)
    requires forall h :: h in FirstHits(st, pages, fields) && h.field == id ==> h.result.score < x.score
    ensures Ran(st, pages, fields, mid, r) && At(r, id) == Some(x)
  {
    var one := AnyArrivals(FirstRound(pages, fields));
    var gathered := Gathered(st, FirstRound(pages, fields), one);
    AllGathered(st, FirstRound(pages, fields), one);
    BestIs(None, gathered, id);
    var two := LeaderFirst(st, RestRound(st, pages, fields), p, id, x, Best(None, gathered, id));
    mid, r := RunInOrder(st, pages, fields, id, one, two);
  }

  /** A field can end with `x` in some order of arrival iff `x` wins. */
  lemma OutcomesAreWinners(st: Setting, pages: seq<PageWords>, fields: seq<Query>, id: string, x: MatchResult)
    ensures (exists mid, r :: Ran(st, pages, fields, mid, r) && At(r, id) == Some(x)) <==>
              Wins(st, pages, fields, id, x)
  {
    if mid, r :| Ran(st, pages, fields, mid, r) && At(r, id) == Some(x) {
      OutcomeWins(st, pages, fields, mid, r, id, x);
    }
    if Wins(st, pages, fields, id, x) {
      if p :| Leads(st, FirstRound(pages, fields), p, id, x) &&
              forall h :: h in SecondHits(st, pages, fields) && h.field == id ==> h.result.score <= x.score {
        var mid, r := FirstWinnerHappens(st, pages, fields, id, x, p);
      } else {
        var p :| Leads(st, RestRound(st, pages, fields), p, id, x);
        var mid, r := SecondWinnerHappens(st, pages, fields, id, x, p);
      }
    }
  }
}
