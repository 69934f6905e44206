/** An entity consolidation end to end: rows rebuilt from a model's reply, then held to the whole. */
module Consolidation {
  import opened Wrappers
  import opened Fields
  import opened RowIdentity
  import opened Grounding
  import PartsOfWhole

  ghost predicate HasIdentity(tk: Tokenizer, lr: LlmRow) { ReplyTokens(tk, lr.cells) != {} }

  /** Some input row shares a distinctive identity token with the reply row. */
  ghost predicate Matched(tk: Tokenizer, lr: LlmRow, rows: seq<Field>) {
    exists i :: 0 <= i < |rows| && Shares(ReplyTokens(tk, lr.cells), InputTokens(tk, rows), i)
  }

  lemma MatchedIffSharers(tk: Tokenizer, lr: LlmRow, rows: seq<Field>)
    ensures Matched(tk, lr, rows) <==> SharersUpTo(ReplyTokens(tk, lr.cells), rows, InputTokens(tk, rows), |rows|) != []
  {
    SomeSharer(ReplyTokens(tk, lr.cells), rows, InputTokens(tk, rows), |rows|);
  }

  /** With flagging on, a row is marked invented iff it has an identity that no input row shares,
      whatever it cites; with flagging off, no row is. */
  lemma FlaggedIffUnmatched(tk: Tokenizer, mean: Mean, reply: seq<LlmRow>, rows: seq<Field>, flag: bool,
                            out: seq<Field>, i: nat)
    requires rows != [] && |out| == |reply| && Materialised(tk, mean, reply, rows, flag, out) && i < |out|
    ensures out[i].notes == Some(Unmatched) <==> flag && HasIdentity(tk, reply[i]) && !Matched(tk, reply[i], rows)
    ensures out[i].notes == Some(Unmatched) ==> out[i].confidence == 0.0
  {
    assert out[i] == RowFor(tk, mean, reply, rows, flag, i);
    MatchedIffSharers(tk, reply[i], rows);
  }

  /** While any invented row is kept, the parts-of-whole repair drops no row that is matched to the
      source or has no identity to match. */
  lemma InventedGoBeforeGenuine(tk: Tokenizer, ar: PartsOfWhole.Arithmetic, mean: Mean, inv: PartsOfWhole.Invariant,
                                reply: seq<LlmRow>, rows: seq<Field>, out: seq<Field>)
    returns (gone: set<nat>)
    requires rows != [] && |out| == |reply| && Materialised(tk, mean, reply, rows, true, out)
    ensures PartsOfWhole.Repair(tk, ar, inv, out) == PartsOfWhole.Without(out, gone)
    ensures forall i :: i in gone ==> i < |reply|
    ensures forall i, j :: i in gone && 0 <= j < |reply| && MadeUp(tk, reply[j], rows) ==>
              MadeUp(tk, reply[i], rows) || j in gone
  {
    gone := PartsOfWhole.RepairDropsLeast(tk, ar, inv, out);
    forall i, j | i in gone && 0 <= j < |reply| && MadeUp(tk, reply[j], rows)
      ensures MadeUp(tk, reply[i], rows) || j in gone
    {
      FlaggedIffUnmatched(tk, mean, reply, rows, true, out, i);
      FlaggedIffUnmatched(tk, mean, reply, rows, true, out, j);
      if out[i].notes != Some(Unmatched) {
        PartsOfWhole.InventedRowsGoFirst(tk, out, gone, i, j);
      }
    }
  }

  /** Made up: it has an identity, and no input row shares it. */
  ghost predicate MadeUp(tk: Tokenizer, lr: LlmRow, rows: seq<Field>) {
    HasIdentity(tk, lr) && !Matched(tk, lr, rows)
  }

  /** Only an unmatched or identity-less row wears the first input row's provenance as a last resort. */
  lemma LastResort(tk: Tokenizer, reply: seq<LlmRow>, rows: seq<Field>, i: nat)
    requires i < |reply| && Contributors(tk, reply, rows, i) == []
    ensures !Matched(tk, reply[i], rows)
    ensures AnyCites(reply) || |reply| != |rows|
  {
    MatchedIffSharers(tk, reply[i], rows);
  }

  /** A cell that borrows its provenance takes it, whole, from a sub-field of the same name in a row
      behind it: from one with a box if there is any, and then from none less confident than another. */
  ghost predicate Borrowed(behind: seq<Field>, cell: Field) {
    exists r, s :: r in behind && s in Subs(r) && s.name == cell.name
      && cell.pages == s.pages && cell.bbox == s.bbox && cell.confidence == s.confidence
      && cell.judge == s.judge && cell.notes == s.notes
      && forall r', s' :: r' in behind && s' in Subs(r') && s'.name == cell.name ==>
          (s'.bbox.Some? ==> s.bbox.Some?) && (s'.bbox.Some? == s.bbox.Some? ==> s'.confidence <= s.confidence)
  }

  ghost predicate RowLevel(out: Field, behind: seq<Field>, cell: Field) {
    && cell.pages == out.pages && cell.bbox == out.bbox && cell.judge == DefaultJudge && cell.notes == None
    && forall r, s :: r in behind && s in Subs(r) ==> s.name != cell.name
  }

  lemma {:induction false} CellsAre(prov: map<string, Field>, cells: seq<Cell>, pages: seq<int>, confidence: real,
                                     bbox: Option<BoundingBox>)
    ensures forall f :: f in CellFields(prov, cells, pages, confidence, bbox) ==>
              exists c :: c in cells && f == CellField(prov, c, pages, confidence, bbox)
  {
    if cells != [] {
      var front, last := cells[..|cells| - 1], cells[|cells| - 1];
      CellsAre(prov, front, pages, confidence, bbox);
      assert cells == front + [last];
      forall f | f in CellFields(prov, cells, pages, confidence, bbox)
        ensures exists c :: c in cells && f == CellField(prov, c, pages, confidence, bbox)
      {
        if f in CellFields(prov, front, pages, confidence, bbox) {
          var c :| c in front && f == CellField(prov, c, pages, confidence, bbox);
          assert c in cells;
        } else {
          assert last in cells;
        }
      }
    }
  }

  lemma BorrowedFrom(behind: seq<Field>, prov: map<string, Field>, cell: Field, c: Cell,
                     pages: seq<int>, confidence: real, bbox: Option<BoundingBox>)
    requires Best(Canonical.AllSubs(behind), prov) && cell == CellField(prov, c, pages, confidence, bbox)
    ensures c.name in prov ==> Borrowed(behind, cell)
    ensures c.name !in prov ==> forall r, s :: r in behind && s in Subs(r) ==> s.name != cell.name
  {
    var subs := Canonical.AllSubs(behind);
    Canonical.AllSubsAre(behind);
    Canonical.NamedAre(subs, c.name);
    if c.name in prov {
      FirmestIs(Canonical.Named(subs, c.name));
      TakenFrom(behind, subs, Canonical.Named(subs, c.name), prov[c.name], cell);
    }
  }

  lemma TakenFrom(behind: seq<Field>, subs: seq<Field>, cells: seq<Field>, s: Field, cell: Field)
    requires forall f :: f in subs <==> exists r :: r in behind && f in Subs(r)
    requires forall f :: f in cells <==> f in subs && f.name == cell.name
    requires s in cells && forall f :: f in cells ==> !Firmer(f, s)
    requires cell.pages == s.pages && cell.bbox == s.bbox && cell.confidence == s.confidence
    requires cell.judge == s.judge && cell.notes == s.notes
    ensures Borrowed(behind, cell)
  {
    assert s in subs;
    var r :| r in behind && s in Subs(r);
    NoneFirmer(behind, subs, cells, s, cell.name);
  }

  lemma NoneFirmer(behind: seq<Field>, subs: seq<Field>, cells: seq<Field>, s: Field, name: string)
    requires forall f :: f in subs <==> exists r :: r in behind && f in Subs(r)
    requires forall f :: f in cells <==> f in subs && f.name == name
    requires forall f :: f in cells ==> !Firmer(f, s)
    ensures forall r', s' :: r' in behind && s' in Subs(r') && s'.name == name ==>
              (s'.bbox.Some? ==> s.bbox.Some?) && (s'.bbox.Some? == s.bbox.Some? ==> s'.confidence <= s.confidence)
  {
    forall r', s' | r' in behind && s' in Subs(r') && s'.name == name ensures !Firmer(s', s) {
      assert s' in cells;
    }
  }

  /** A consolidated row shows the pages of the rows behind it, and each of its cells the provenance
      of its own firmest source cell; only a cell no source row has shows the row's. */
  lemma ProvenanceIsHonest(tk: Tokenizer, mean: Mean, reply: seq<LlmRow>, rows: seq<Field>, flag: bool,
                           out: seq<Field>, i: nat)
    requires rows != [] && |out| == |reply| && Materialised(tk, mean, reply, rows, flag, out)
    requires i < |out| && Contributors(tk, reply, rows, i) != []
    ensures var behind := Contributors(tk, reply, rows, i);
      && (forall p :: p in out[i].pages <==> exists r :: r in behind && p in r.pages)
      && out[i].bbox == behind[0].bbox
      && forall cell :: cell in Subs(out[i]) ==> Borrowed(behind, cell) || RowLevel(out[i], behind, cell)
  {
    var behind := Contributors(tk, reply, rows, i);
    assert out[i] == RowFor(tk, mean, reply, rows, flag, i);
    PagesAre(behind);
    var confidence := mean(Confidences(behind));
    var prov := FirmestByName(Canonical.AllSubs(behind));
    BestIsFirmest(Canonical.AllSubs(behind), prov);
    CellsAre(prov, reply[i].cells, out[i].pages, confidence, behind[0].bbox);
    forall cell | cell in Subs(out[i]) ensures Borrowed(behind, cell) || RowLevel(out[i], behind, cell) {
      var c :| c in reply[i].cells && cell == CellField(prov, c, out[i].pages, confidence, behind[0].bbox);
      BorrowedFrom(behind, prov, cell, c, out[i].pages, confidence, behind[0].bbox);
    }
  }

  lemma PagesAre(rows: seq<Field>)
    ensures forall p :: p in Sorted(PagesOf(rows)) <==> exists r :: r in rows && p in r.pages
  {
    SortedIs(PagesOf(rows));
    forall p ensures p in PagesOf(rows) <==> exists r :: r in rows && p in r.pages {
      if r :| r in rows && p in r.pages {
        var k :| 0 <= k < |rows| && rows[k] == r;
        assert p in rows[k].pages;
      }
    }
  }

  /** The transformer's tail: rebuild, and enforce the invariant when one is declared. */
  method Consolidate(tk: Tokenizer, ar: PartsOfWhole.Arithmetic, mean: Mean, reply: seq<LlmRow>, rows: seq<Field>,
                     inv: Option<PartsOfWhole.Invariant>)
    returns (rebuilt: seq<Field>, produced: seq<Field>)
    requires rows != []
    ensures |rebuilt| == |reply| && Materialised(tk, mean, reply, rows, inv.Some?, rebuilt)
    ensures produced == match inv case None => rebuilt case Some(whole) => PartsOfWhole.Enforced(tk, ar, whole, rebuilt)
  {
    rebuilt := RebuildRows(tk, mean, reply, rows, inv.Some?);
    produced := rebuilt;
    if inv.Some? {
      var dropped;
      produced, dropped := PartsOfWhole.EnforceInvariant(tk, ar, inv.value, rebuilt);
    }
  }
}
