/** The cascade: a deterministic matcher first, the model for its misses. */
module HybridMatcher {
  import opened Wrappers
  import opened ValueMatcher
  import opened LlmMatcher
  import opened MatcherRuns

  /** The fields the first matcher found nothing for. */
  function Residual(fields: seq<Query>, fuzzy: Results): seq<Query> {
    if |fields| == 0 then []
    else
      var front, last := Residual(fields[..|fields| - 1], fuzzy), fields[|fields| - 1];
      if At(fuzzy, last.id).None? then front + [last] else front
  }

  function Overridden(fuzzy: Results, llm: Results): Results { fuzzy + llm }

  method Misses(fields: seq<Query>, fuzzy: Results) returns (residual: seq<Query>)
    ensures residual == Residual(fields, fuzzy)
  {
    residual := [];
    for n := 0 to |fields|
      invariant residual == Residual(fields[..n], fuzzy)
    {
      assert fields[..n + 1][..n] == fields[..n];
      if At(fuzzy, fields[n].id).None? {
        residual := residual + [fields[n]];
      }
    }
    assert fields[..|fields|] == fields;
  }

  /** The entries taken over once only those of `todo` are left. */
  function Taken(found: Results, todo: set<string>): Results { map id | id in found && id !in todo :: found[id] }

  lemma TakeOne(fuzzy: Results, found: Results, todo: set<string>, id: string)
    requires id in todo && id in found
    ensures Overridden(fuzzy, Taken(found, todo - {id})) == Overridden(fuzzy, Taken(found, todo))[id := found[id]]
  {
  }

  lemma NoneOrAllTaken(fuzzy: Results, found: Results)
    ensures Overridden(fuzzy, Taken(found, found.Keys)) == fuzzy && Taken(found, {}) == found
  {
  }

  /** Every entry of the model's results replaces the first matcher's. */
  method Override(fuzzy: Results, found: Results) returns (merged: Results)
    ensures merged == Overridden(fuzzy, found)
  {
    merged := fuzzy;
    var todo := found.Keys;
    NoneOrAllTaken(fuzzy, found);
    while todo != {}
      invariant todo <= found.Keys && merged == Overridden(fuzzy, Taken(found, todo))
      decreases |todo|
    {
      var id :| id in todo;
      TakeOne(fuzzy, found, todo, id);
      merged := merged[id := found[id]];
      todo := todo - {id};
    }
  }

  method LocateAllHybrid(st: Setting, pages: seq<PageWords>, fields: seq<Query>, fuzzy: Results)
    returns (merged: Results, ghost llm: Results, ghost mid: Results)
    ensures |fields| == 0 ==> merged == map[]
    ensures |fields| > 0 ==> merged == Overridden(fuzzy, llm)
    ensures |fields| > 0 && |Residual(fields, fuzzy)| > 0 ==> Ran(st, pages, Residual(fields, fuzzy), mid, llm)
    ensures |fields| > 0 && |Residual(fields, fuzzy)| == 0 ==> llm == map[]
  {
    llm, mid := map[], map[];
    if |fields| == 0 {
      return map[], map[], map[];
    }
    var residual := Misses(fields, fuzzy);
    if |residual| == 0 {
      return fuzzy, map[], map[];
    }
    var found;
    found, mid := LocateAll(st, pages, residual);
    llm := found;
    merged := Override(fuzzy, found);
  }

  ghost predicate NamedBy(hits: set<Hit>, id: string) { exists h :: h in hits && h.field == id }

  lemma {:induction false} ResidualIds(fields: seq<Query>, fuzzy: Results)
    ensures forall q :: q in Residual(fields, fuzzy) <==> q in fields && At(fuzzy, q.id).None?
  {
    if |fields| > 0 {
      ResidualIds(fields[..|fields| - 1], fuzzy);
      assert fields == fields[..|fields| - 1] + [fields[|fields| - 1]];
    }
  }

  lemma {:induction false} NoGapMerged(results: Results, hits: seq<Hit>, id: string)
    requires id in results ==> results[id].Some?
    ensures id in MergeAll(results, hits) ==> MergeAll(results, hits)[id].Some?
  {
    if |hits| > 0 {
      NoGapMerged(results, hits[..|hits| - 1], id);
    }
  }

  /** The model leaves no empty entry for a field it was not asked about. */
  lemma NoGapAdded(st: Setting, pages: seq<PageWords>, fields: seq<Query>, mid: Results, r: Results, id: string)
    requires Ran(st, pages, fields, mid, r) && forall q :: q in fields ==> q.id != id
    ensures id in r ==> r[id].Some?
  {
    var order :| Arrivals(FirstRound(pages, fields), order) &&
                 mid == MergeAll(NoResults(fields), Gathered(st, FirstRound(pages, fields), order));
    var next :| Arrivals(SecondRound(pages, fields, mid), next) &&
                r == MergeAll(mid, Gathered(st, SecondRound(pages, fields, mid), next));
    NoGapMerged(NoResults(fields), Gathered(st, FirstRound(pages, fields), order), id);
    NoGapMerged(mid, Gathered(st, SecondRound(pages, fields, mid), next), id);
  }

  /** In one run: a first-matcher hit is kept iff the run found nothing for its field, or found that hit. */
  lemma KeptInRun(st: Setting, pages: seq<PageWords>, fields: seq<Query>, fuzzy: Results, mid: Results, llm: Results,
                  id: string)
    requires Ran(st, pages, Residual(fields, fuzzy), mid, llm) && At(fuzzy, id).Some?
    ensures At(Overridden(fuzzy, llm), id) == if At(llm, id).Some? then At(llm, id) else At(fuzzy, id)
  {
    ResidualIds(fields, fuzzy);
    NoGapAdded(st, pages, Residual(fields, fuzzy), mid, llm, id);
  }

  /** A hit of the first matcher is kept whatever order the replies arrive in iff no other match can
      win its field: none names it, or every page that leads reports that very hit first. */
  lemma FuzzyHitSurvivesIff(st: Setting, pages: seq<PageWords>, fields: seq<Query>, fuzzy: Results, id: string)
    requires At(fuzzy, id).Some?
    ensures var residual := Residual(fields, fuzzy);
      (forall mid, llm :: Ran(st, pages, residual, mid, llm) ==> At(Overridden(fuzzy, llm), id) == At(fuzzy, id)) <==>
      (forall x :: Wins(st, pages, residual, id, x) ==> x == At(fuzzy, id).value)
  {
    var residual := Residual(fields, fuzzy);
    if forall x :: Wins(st, pages, residual, id, x) ==> x == At(fuzzy, id).value {
      forall mid, llm | Ran(st, pages, residual, mid, llm) ensures At(Overridden(fuzzy, llm), id) == At(fuzzy, id) {
        KeptInRun(st, pages, fields, fuzzy, mid, llm, id);
        if At(llm, id).Some? {
          OutcomeWins(st, pages, residual, mid, llm, id, At(llm, id).value);
        }
      }
    }
    if x :| Wins(st, pages, residual, id, x) && x != At(fuzzy, id).value {
      OutcomesAreWinners(st, pages, residual, id, x);
      var mid, llm :| Ran(st, pages, residual, mid, llm) && At(llm, id) == Some(x);
      KeptInRun(st, pages, fields, fuzzy, mid, llm, id);
    }
  }

  /** So it is kept when no reply names its field, or when it is alone at the top of those that do. */
  lemma LoneTopIsKept(st: Setting, pages: seq<PageWords>, fields: seq<Query>, fuzzy: Results, mid: Results,
                      llm: Results, id: string)
    requires Ran(st, pages, Residual(fields, fuzzy), mid, llm) && At(fuzzy, id).Some?
    requires var hits, hit := BothHits(st, pages, Residual(fields, fuzzy)), At(fuzzy, id).value;
      !NamedBy(hits, id) ||
      (Hit(id, hit) in hits && OnlyOne(hits, id, hit.score) &&
       forall h :: h in hits && h.field == id ==> h.result.score <= hit.score)
    ensures At(Overridden(fuzzy, llm), id) == At(fuzzy, id)
  {
    var hits, hit := BothHits(st, pages, Residual(fields, fuzzy)), At(fuzzy, id).value;
    KeptInRun(st, pages, fields, fuzzy, mid, llm, id);
    FinalIsMaximum(st, pages, Residual(fields, fuzzy), mid, llm, id);
    if At(llm, id).Some? {
      assert Hit(id, At(llm, id).value) in hits;
      assert Has(hits, Hit(id, hit), id, hit.score) && Has(hits, Hit(id, At(llm, id).value), id, hit.score);
    }
  }

  /** When every reply names only fields it was asked about, no hit of the first matcher is lost and
      only its misses are filled. */
  lemma PoliteRepliesFillMisses(st: Setting, pages: seq<PageWords>, fields: seq<Query>, fuzzy: Results,
                                mid: Results, llm: Results, id: string)
    requires Ran(st, pages, Residual(fields, fuzzy), mid, llm)
    requires forall h :: h in BothHits(st, pages, Residual(fields, fuzzy)) ==>
               exists q :: q in Residual(fields, fuzzy) && q.id == h.field
    ensures At(fuzzy, id).Some? ==> At(Overridden(fuzzy, llm), id) == At(fuzzy, id)
    ensures At(fuzzy, id).None? ==> At(Overridden(fuzzy, llm), id) == At(llm, id)
  {
    ResidualIds(fields, fuzzy);
    if At(fuzzy, id).Some? {
      assert !NamedBy(BothHits(st, pages, Residual(fields, fuzzy)), id);
      LoneTopIsKept(st, pages, fields, fuzzy, mid, llm, id);
    }
  }

  // ---- A hit lost ----------------------------------------------------------

  /** One page of words, and a model that answers every call with the same acceptable match. */
  ghost predicate Parrot(st: Setting, pages: seq<PageWords>, w: WordMatch) {
    && |pages| == 1 && |pages[0].words| > 0 && Accepts(st, pages[0], w)
    && forall n, asks :: st.oracle(n, pages[0], asks) == Some([w])
  }

  /** One reply suffices to lose a hit: a model that answers with a match naming a field it was not
      asked about replaces that field's hit whenever its own box differs. */
  lemma RudeReplyLosesHit(st: Setting, pages: seq<PageWords>, fields: seq<Query>, fuzzy: Results, mid: Results,
                          llm: Results, w: WordMatch)
    requires Parrot(st, pages, w) && |fields| == 2 && !HasCandidates(fields[1])
    requires At(fuzzy, fields[0].id).Some? && At(fuzzy, fields[1].id).None?
    requires w.field == fields[0].id && HitOf(st, pages[0], w).result != At(fuzzy, fields[0].id).value
    requires Ran(st, pages, Residual(fields, fuzzy), mid, llm)
    ensures At(Overridden(fuzzy, llm), fields[0].id) == Some(HitOf(st, pages[0], w).result)
  {
    OnlyTheMiss(fields, fuzzy);
    OneHitOnly(st, pages, Residual(fields, fuzzy), mid, llm, w);
  }

  lemma OnlyTheMiss(fields: seq<Query>, fuzzy: Results)
    requires |fields| == 2 && At(fuzzy, fields[0].id).Some? && At(fuzzy, fields[1].id).None?
    ensures Residual(fields, fuzzy) == [fields[1]]
  {
    var front := fields[..1];
    assert |front[..0]| == 0;
    assert |Residual(front, fuzzy)| == 0;
  }

  lemma OneHitOnly(st: Setting, pages: seq<PageWords>, fields: seq<Query>, mid: Results, llm: Results, w: WordMatch)
    requires Parrot(st, pages, w) && |fields| == 1 && !HasCandidates(fields[0])
    requires Ran(st, pages, fields, mid, llm)
    ensures At(llm, w.field) == Some(HitOf(st, pages[0], w).result)
  {
    OneCallIsMade(st, pages, fields, w);
    SecondIsNoOther(st, pages, fields, w);
    FinalIsMaximum(st, pages, fields, mid, llm, w.field);
    OnlyCandidateWins(FirstHits(st, pages, fields), SecondHits(st, pages, fields), HitOf(st, pages[0], w),
        At(llm, w.field));
  }

  lemma OnlyCandidateWins(one: set<Hit>, two: set<Hit>, h: Hit, after: Option<MatchResult>)
    requires one == {h} && two <= {h} && IsBest(None, one + two, h.field, after)
    ensures after == Some(h.result)
  {
  }

  lemma RudeHits(st: Setting, page: PageWords, w: WordMatch)
    requires Accepts(st, page, w)
    ensures ReplyHits(st, page, Some([w])) == [HitOf(st, page, w)]
  {
    assert |[w][..0]| == 0;
    assert HitList(st, page, [w]) == [] + [HitOf(st, page, w)];
  }

  lemma OnePage(pages: seq<PageWords>, p: int)
    requires |pages| == 1
    ensures PageByNumber(pages, p) == if p == pages[0].page then Some(pages[0]) else None
    ensures |pages[0].words| > 0 ==> WithWords(pages) == pages
  {
    assert |pages[..0]| == 0;
  }

  lemma OnlyThatHit(st: Setting, rd: Round, w: WordMatch)
    requires Parrot(st, rd.pages, w)
    ensures forall p :: p in Tasks(rd) ==> PageHits(st, rd, p) == [HitOf(st, rd.pages[0], w)]
    ensures forall h :: h in PassHits(st, rd) ==> h == HitOf(st, rd.pages[0], w)
  {
    RudeHits(st, rd.pages[0], w);
    forall p | p in Tasks(rd) ensures PageHits(st, rd, p) == [HitOf(st, rd.pages[0], w)] {
      OnePage(rd.pages, p);
    }
  }

  lemma SecondIsNoOther(st: Setting, pages: seq<PageWords>, fields: seq<Query>, w: WordMatch)
    requires Parrot(st, pages, w)
    ensures SecondHits(st, pages, fields) <= {HitOf(st, pages[0], w)}
  {
    OnePage(pages, pages[0].page);
    OnlyThatHit(st, RestRound(st, pages, fields), w);
  }

  lemma TaskHits(st: Setting, rd: Round, p: int, h: Hit)
    requires p in Tasks(rd) && PageHits(st, rd, p) == [h] && forall g :: g in PassHits(st, rd) ==> g == h
    ensures PassHits(st, rd) == {h}
  {
    assert PageHits(st, rd, p)[0] == h && h in PageHits(st, rd, p);
  }

  lemma OneCallIsMade(st: Setting, pages: seq<PageWords>, fields: seq<Query>, w: WordMatch)
    requires Parrot(st, pages, w) && |fields| == 1 && !HasCandidates(fields[0])
    ensures FirstHits(st, pages, fields) == {HitOf(st, pages[0], w)}
  {
    var n, rd := pages[0].page, FirstRound(pages, fields);
    OnePage(pages, n);
    OnlyThatHit(st, rd, w);
    AskedFirst(fields, Numbers(pages), n);
    TaskHits(st, rd, n, HitOf(st, pages[0], w));
  }

  lemma AskedFirst(fields: seq<Query>, numbers: seq<int>, n: int)
    requires |fields| == 1 && !HasCandidates(fields[0]) && |numbers| == 1 && numbers[0] == n
    ensures n in numbers && |Open(FirstAsks(fields, numbers, n), NoResults(fields))| == 1
  {
    var asks := FirstAsks(fields, numbers, n);
    assert |FirstAsks(fields[..0], numbers, n)| == 0;
    assert |asks| == 1 && asks[0] == AskOf(fields[0]);
    assert |asks[..0]| == 0;
    assert At(NoResults(fields), fields[0].id).None?;
  }
}
