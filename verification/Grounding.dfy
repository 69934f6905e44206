/** Materialising the rows a model returned: which input rows stand behind each, and which were invented. */
module Grounding {
  import opened Collections
  import opened Wrappers
  import opened Fields
  import opened RowIdentity
  import Canonical

  datatype Cell = Cell(name: string, value: Value)

  /** One row object of the reply: the row ids it cites and its cells in order. An absent row is
      an empty one. */
  datatype LlmRow = LlmRow(cites: seq<string>, cells: seq<Cell>)

  const ReservedKeys := {"_row_id", "_provenance", "_source_rows"}

  function InputTokens(tk: Tokenizer, rows: seq<Field>): (sets: seq<set<string>>)
    ensures |sets| == |rows| && forall i :: 0 <= i < |rows| ==> sets[i] == RowTokens(tk, rows[i])
  {
    seq(|rows|, i requires 0 <= i < |rows| => RowTokens(tk, rows[i]))
  }

  // ---- Distinctive tokens --------------------------------------------------

  /** How many of the sets carry the token. */
  ghost function Frequency(sets: seq<set<string>>, token: string): nat {
    if |sets| == 0 then 0
    else Frequency(sets[..|sets| - 1], token) + (if token in sets[|sets| - 1] then 1 else 0)
  }

  function DistinctiveMax(n: nat): nat { if n / 2 > 1 then n / 2 else 1 }

  /** Carried by some input row, but by no more than half of them. */
  ghost predicate Distinctive(sets: seq<set<string>>, token: string) {
    0 < Frequency(sets, token) <= DistinctiveMax(|sets|)
  }

  lemma {:induction false} FrequencyIsPositive(sets: seq<set<string>>, token: string)
    ensures Frequency(sets, token) > 0 <==> exists i :: 0 <= i < |sets| && token in sets[i]
  {
    if sets != [] {
      var front := sets[..|sets| - 1];
      FrequencyIsPositive(front, token);
      if i :| 0 <= i < |sets| && token in sets[i] {
        assert i < |front| ==> token in front[i];
      }
    }
  }

  function Count(df: map<string, nat>, token: string): nat { if token in df then df[token] else 0 }

  method DocumentFrequency(sets: seq<set<string>>) returns (df: map<string, nat>)
    ensures forall t :: Count(df, t) == Frequency(sets, t)
  {
    df := map[];
    for i := 0 to |sets|
      invariant forall t :: Count(df, t) == Frequency(sets[..i], t)
    {
      ghost var before := df;
      var todo := sets[i];
      while todo != {}
        invariant todo <= sets[i]
        invariant forall t :: Count(df, t) == Count(before, t) + (if t in sets[i] && t !in todo then 1 else 0)
        decreases |todo|
      {
        var t :| t in todo;
        df := df[t := Count(df, t) + 1];
        todo := todo - {t};
      }
      assert sets[..i + 1][..i] == sets[..i];
    }
    assert sets[..|sets|] == sets;
  }

  // ---- Is a row grounded? --------------------------------------------------

  method IsGrounded(tk: Tokenizer, row: Field, sets: seq<set<string>>) returns (grounded: bool)
    ensures grounded <==>
              sets == [] || RowTokens(tk, row) == {} || exists t :: t in RowTokens(tk, row) && Distinctive(sets, t)
  {
    if sets == [] {
      return true;
    }
    var rowTokens := RowTokens(tk, row);
    if rowTokens == {} {
      return true;
    }
    var df := DocumentFrequency(sets);
    grounded := exists t :: t in rowTokens && 0 < Count(df, t) <= DistinctiveMax(|sets|);
    assert grounded <==> exists t :: t in rowTokens && Distinctive(sets, t);
  }

  /** Whether the input row with these tokens shares a distinctive one. */
  ghost predicate Shares(rowTokens: set<string>, sets: seq<set<string>>, i: nat)
    requires i < |sets|
  {
    exists t :: t in rowTokens * sets[i] && Distinctive(sets, t)
  }

  ghost function SharersUpTo(rowTokens: set<string>, rows: seq<Field>, sets: seq<set<string>>, n: nat): seq<Field>
    requires n <= |rows| == |sets|
  {
    if n == 0 then []
    else SharersUpTo(rowTokens, rows, sets, n - 1) + (if Shares(rowTokens, sets, n - 1) then [rows[n - 1]] else [])
  }

  lemma {:induction false} SomeSharer(rowTokens: set<string>, rows: seq<Field>, sets: seq<set<string>>, n: nat)
    requires n <= |rows| == |sets|
    ensures SharersUpTo(rowTokens, rows, sets, n) != [] <==> exists i :: 0 <= i < n && Shares(rowTokens, sets, i)
  {
    if n > 0 {
      SomeSharer(rowTokens, rows, sets, n - 1);
    }
  }

  method IdentityContributors(rowTokens: set<string>, rows: seq<Field>, sets: seq<set<string>>)
    returns (matches: seq<Field>)
    requires |rows| == |sets|
    ensures matches == SharersUpTo(rowTokens, rows, sets, |rows|)
  {
    matches := [];
    if rowTokens == {} || sets == [] {
      NoSharers(rowTokens, rows, sets, |rows|);
      return;
    }
    var df := DocumentFrequency(sets);
    for i := 0 to |rows|
      invariant matches == SharersUpTo(rowTokens, rows, sets, i)
    {
      var shares := exists t :: t in rowTokens * sets[i] && 0 < Count(df, t) <= DistinctiveMax(|sets|);
      assert shares <==> Shares(rowTokens, sets, i);
      if shares {
        matches := matches + [rows[i]];
      }
    }
  }

  lemma {:induction false} NoSharers(rowTokens: set<string>, rows: seq<Field>, sets: seq<set<string>>, n: nat)
    requires n <= |rows| == |sets| && (rowTokens == {} || sets == [])
    ensures SharersUpTo(rowTokens, rows, sets, n) == []
  {
    if n > 0 {
      NoSharers(rowTokens, rows, sets, n - 1);
    }
  }

  /** The two searches decide one relation: a distinctive token exists iff some input row is found by it. */
  lemma GroundedIffContributors(rowTokens: set<string>, rows: seq<Field>, sets: seq<set<string>>)
    requires |rows| == |sets|
    ensures (exists t :: t in rowTokens && Distinctive(sets, t)) <==> SharersUpTo(rowTokens, rows, sets, |rows|) != []
  {
    SomeSharer(rowTokens, rows, sets, |rows|);
    if t :| t in rowTokens && Distinctive(sets, t) {
      FrequencyIsPositive(sets, t);
      var i :| 0 <= i < |sets| && t in sets[i];
      assert t in rowTokens * sets[i];
      assert Shares(rowTokens, sets, i);
    }
    if i :| 0 <= i < |rows| && Shares(rowTokens, sets, i) {
      var t :| t in rowTokens * sets[i] && Distinctive(sets, t);
      assert t in rowTokens;
    }
  }

  // ---- Citations -----------------------------------------------------------

  function Decimal(n: nat): string {
    if n < 10 then ["0123456789"[n]] else Decimal(n / 10) + ["0123456789"[n % 10]]
  }

  function RowId(i: nat): string { "r" + Decimal(i + 1) }

  function ById(rows: seq<Field>): map<string, Field> {
    if |rows| == 0 then map[] else ById(rows[..|rows| - 1])[RowId(|rows| - 1) := rows[|rows| - 1]]
  }

  function Cited(ids: map<string, Field>, cites: seq<string>): seq<Field> {
    if |cites| == 0 then []
    else
      var front, last := Cited(ids, cites[..|cites| - 1]), cites[|cites| - 1];
      if last in ids then front + [ids[last]] else front
  }

  // ---- Provenance ----------------------------------------------------------

  /** Python's tuple order on (has a box, confidence). */
  predicate Firmer(a: Field, b: Field) {
    if a.bbox.Some? != b.bbox.Some? then a.bbox.Some? else a.confidence > b.confidence
  }

  /** The first of the firmest. */
  function Firmest(cells: seq<Field>): Field
    requires |cells| > 0
  {
    var last := cells[|cells| - 1];
    if |cells| == 1 then last
    else
      var best := Firmest(cells[..|cells| - 1]);
      if Firmer(last, best) then last else best
  }

  lemma {:induction false} FirmestIs(cells: seq<Field>)
    requires |cells| > 0
    ensures Firmest(cells) in cells && forall f :: f in cells ==> !Firmer(f, Firmest(cells))
  {
    if |cells| > 1 {
      var front, last := cells[..|cells| - 1], cells[|cells| - 1];
      FirmestIs(front);
      assert cells == front + [last];
    }
  }

  ghost predicate Best(subs: seq<Field>, best: map<string, Field>) {
    && (forall name :: name in best <==> |Canonical.Named(subs, name)| > 0)
    && forall name :: name in best ==> best[name] == Firmest(Canonical.Named(subs, name))
  }

  method ProvenanceSubs(contributors: seq<Field>, fallback: Field) returns (best: map<string, Field>)
    ensures Best(Canonical.AllSubs(Sources(contributors, fallback)), best)
  {
    var sources := Sources(contributors, fallback);
    best := map[];
    for i := 0 to |sources|
      invariant Best(Canonical.AllSubs(sources[..i]), best)
    {
      best := FirmestOf(Canonical.AllSubs(sources[..i]), best, Subs(sources[i]));
      assert sources[..i + 1][..i] == sources[..i];
    }
    assert sources[..|sources|] == sources;
  }

  function Sources(contributors: seq<Field>, fallback: Field): seq<Field> {
    if |contributors| > 0 then contributors else [fallback]
  }

  method FirmestOf(ghost done: seq<Field>, best: map<string, Field>, subs: seq<Field>)
    returns (better: map<string, Field>)
    requires Best(done, best)
    ensures Best(done + subs, better)
  {
    better := best;
    assert done + subs[..0] == done;
    for k := 0 to |subs|
      invariant Best(done + subs[..k], better)
    {
      var sub := subs[k];
      OneMoreCell(done + subs[..k], better, sub);
      if sub.name !in better || Firmer(sub, better[sub.name]) {
        better := better[sub.name := sub];
      }
      OneMore(done, subs, k);
    }
    assert subs[..|subs|] == subs;
  }

  lemma OneMoreCell(done: seq<Field>, best: map<string, Field>, sub: Field)
    requires Best(done, best)
    ensures Best(done + [sub], if sub.name !in best || Firmer(sub, best[sub.name]) then best[sub.name := sub] else best)
  {
    var all := done + [sub];
    assert all[..|done|] == done;
    var mine := Canonical.Named(done, sub.name);
    assert Canonical.Named(all, sub.name) == mine + [sub];
    assert (mine + [sub])[..|mine|] == mine;
  }

  // ---- Rebuilding ----------------------------------------------------------

  /** Identity tokens of a reply row: those of its data cells. */
  function ReplyTokens(tk: Tokenizer, cells: seq<Cell>): set<string> {
    if |cells| == 0 then {}
    else
      var front, last := ReplyTokens(tk, cells[..|cells| - 1]), cells[|cells| - 1];
      if last.name in ReservedKeys then front else front + CellTokens(tk, last.value)
  }

  function CellField(prov: map<string, Field>, cell: Cell, pages: seq<int>, confidence: real,
                     bbox: Option<BoundingBox>): Field {
    if cell.name in prov then
      var src := prov[cell.name];
      NewField(cell.name, cell.value, src.pages, src.confidence, src.bbox).(judge := src.judge, notes := src.notes)
    else NewField(cell.name, cell.value, pages, confidence, bbox)
  }

  function CellFields(prov: map<string, Field>, cells: seq<Cell>, pages: seq<int>, confidence: real,
                      bbox: Option<BoundingBox>): seq<Field>
  {
    if |cells| == 0 then []
    else
      var front, last := CellFields(prov, cells[..|cells| - 1], pages, confidence, bbox), cells[|cells| - 1];
      if last.name in ReservedKeys then front else front + [CellField(prov, last, pages, confidence, bbox)]
  }

  lemma {:induction false} SameTokens(tk: Tokenizer, prov: map<string, Field>, cells: seq<Cell>, pages: seq<int>,
                                       confidence: real, bbox: Option<BoundingBox>)
    ensures TokensOf(tk, CellFields(prov, cells, pages, confidence, bbox)) == ReplyTokens(tk, cells)
  {
    if |cells| > 0 {
      SameTokens(tk, prov, cells[..|cells| - 1], pages, confidence, bbox);
      var front, last := CellFields(prov, cells[..|cells| - 1], pages, confidence, bbox), cells[|cells| - 1];
      assert (front + [CellField(prov, last, pages, confidence, bbox)])[..|front|] == front;
    }
  }

  predicate AnyCites(reply: seq<LlmRow>) { exists i :: 0 <= i < |reply| && |reply[i].cites| > 0 }

  /** The input rows behind reply row `i`: those it cites, else its namesake by position when
      nothing is cited and the counts agree, else those it shares a distinctive token with. */
  ghost function Contributors(tk: Tokenizer, reply: seq<LlmRow>, rows: seq<Field>, i: nat): seq<Field>
    requires i < |reply|
  {
    var cited := Cited(ById(rows), reply[i].cites);
    if |cited| > 0 then cited
    else if !AnyCites(reply) && |reply| == |rows| then [rows[i]]
    else SharersUpTo(ReplyTokens(tk, reply[i].cells), rows, InputTokens(tk, rows), |rows|)
  }

  /** What Python computes over the confidences of the contributors (a rounded mean). */
  type Mean = seq<real> -> real

  function Confidences(rows: seq<Field>): seq<real> {
    seq(|rows|, i requires 0 <= i < |rows| => rows[i].confidence)
  }

  /** The firmest cell of each name. */
  ghost function FirmestByName(subs: seq<Field>): map<string, Field> {
    map name | name in Canonical.Names(subs) && |Canonical.Named(subs, name)| > 0 ::
      Firmest(Canonical.Named(subs, name))
  }

  lemma BestIsFirmest(subs: seq<Field>, best: map<string, Field>)
    ensures Best(subs, best) <==> best == FirmestByName(subs)
  {
    forall name ensures name in Canonical.Names(subs) <==> |Canonical.Named(subs, name)| > 0 {
      Canonical.NamedAre(subs, name);
    }
    if Best(subs, best) {
      assert best == FirmestByName(subs);
    }
  }

  /** Invented: the row has string identity, and no input row shares a distinctive token of it. */
  ghost predicate Invented(tk: Tokenizer, lr: LlmRow, rows: seq<Field>) {
    ReplyTokens(tk, lr.cells) != {} &&
        |SharersUpTo(ReplyTokens(tk, lr.cells), rows, InputTokens(tk, rows), |rows|)| == 0
  }

  /** The row before any flagging. */
  function PlainRow(mean: Mean, behind: seq<Field>, template: Field, prov: map<string, Field>, cells: seq<Cell>,
                    i: nat): Field {
    var pages := if |behind| > 0 then Sorted(PagesOf(behind)) else template.pages;
    var confidence := if |behind| > 0 then mean(Confidences(behind)) else template.confidence;
    var bbox := Sources(behind, template)[0].bbox;
    NewField("row_" + Decimal(i + 1), Rows(CellFields(prov, cells, pages, confidence, bbox)), pages, confidence, bbox)
  }

  function Flag(row: Field): Field { row.(confidence := 0.0, notes := Some(Unmatched)) }

  /** The row that should be materialised from reply row `i`. */
  ghost function RowFor(tk: Tokenizer, mean: Mean, reply: seq<LlmRow>, rows: seq<Field>, flag: bool, i: nat): Field
    requires |rows| > 0 && i < |reply|
  {
    var behind := Contributors(tk, reply, rows, i);
    var prov := FirmestByName(Canonical.AllSubs(Sources(behind, rows[0])));
    var row := PlainRow(mean, behind, rows[0], prov, reply[i].cells, i);
    if flag && Invented(tk, reply[i], rows) then Flag(row) else row
  }

  /** Every row materialised so far is the one it should be. */
  ghost predicate Materialised(tk: Tokenizer, mean: Mean, reply: seq<LlmRow>, rows: seq<Field>, flag: bool,
                               out: seq<Field>)
    requires |rows| > 0
  {
    |out| <= |reply| && forall i :: 0 <= i < |out| ==> out[i] == RowFor(tk, mean, reply, rows, flag, i)
  }

  lemma OneMoreMaterialised(tk: Tokenizer, mean: Mean, reply: seq<LlmRow>, rows: seq<Field>, flag: bool,
                            out: seq<Field>, row: Field)
    requires |rows| > 0 && Materialised(tk, mean, reply, rows, flag, out) && |out| < |reply|
    requires row == RowFor(tk, mean, reply, rows, flag, |out|)
    ensures Materialised(tk, mean, reply, rows, flag, out + [row])
  {
    forall i | 0 <= i < |out + [row]| ensures (out + [row])[i] == RowFor(tk, mean, reply, rows, flag, i) {
      if i != |out| {
        assert (out + [row])[i] == out[i];
      }
    }
  }

  method RebuildRows(tk: Tokenizer, mean: Mean, reply: seq<LlmRow>, rows: seq<Field>, flag: bool)
    returns (out: seq<Field>)
    requires |rows| > 0
    ensures |out| == |reply| && Materialised(tk, mean, reply, rows, flag, out)
  {
    var ids, sets := ById(rows), InputTokens(tk, rows);
    var positional := !AnyCites(reply) && |reply| == |rows|;
    out := [];
    while |out| < |reply|
      invariant Materialised(tk, mean, reply, rows, flag, out)
    {
      var row := RebuildRow(tk, mean, reply, rows, flag, |out|, ids, sets, positional);
      OneMoreMaterialised(tk, mean, reply, rows, flag, out, row);
      out := out + [row];
    }
  }

  method RebuildRow(tk: Tokenizer, mean: Mean, reply: seq<LlmRow>, rows: seq<Field>, flag: bool, i: nat,
                    ids: map<string, Field>, sets: seq<set<string>>, positional: bool)
    returns (out: Field)
    requires |rows| > 0 && i < |reply| && ids == ById(rows) && sets == InputTokens(tk, rows)
    requires positional == (!AnyCites(reply) && |reply| == |rows|)
    ensures out == RowFor(tk, mean, reply, rows, flag, i)
  {
    var lr := reply[i];
    var behind := Cited(ids, lr.cites);
    if |behind| == 0 {
      if positional {
        behind := [rows[i]];
      } else {
        behind := IdentityContributors(ReplyTokens(tk, lr.cells), rows, sets);
      }
    }
    assert behind == Contributors(tk, reply, rows, i);
    var prov;
    out, prov := BuildRow(mean, behind, rows[0], lr.cells, i);
    if flag {
      var grounded := Matches(tk, out, mean, behind, rows, prov, lr, i, sets);
      if !grounded {
        out := Flag(out);
      }
    }
  }

  method BuildRow(mean: Mean, behind: seq<Field>, template: Field, cells: seq<Cell>, i: nat)
    returns (out: Field, prov: map<string, Field>)
    ensures prov == FirmestByName(Canonical.AllSubs(Sources(behind, template)))
    ensures out == PlainRow(mean, behind, template, prov, cells, i)
  {
    var pages, confidence, bbox := template.pages, template.confidence, template.bbox;
    if |behind| > 0 {
      pages, confidence, bbox := Sorted(PagesOf(behind)), mean(Confidences(behind)), behind[0].bbox;
    }
    prov := ProvenanceSubs(behind, template);
    BestIsFirmest(Canonical.AllSubs(Sources(behind, template)), prov);
    var subs := BuildCells(prov, cells, pages, confidence, bbox);
    out := NewField("row_" + Decimal(i + 1), Rows(subs), pages, confidence, bbox);
  }

  /** The document-frequency test on the row just built, told in terms of the contributor search. */
  method Matches(tk: Tokenizer, row: Field, ghost mean: Mean, ghost behind: seq<Field>, ghost rows: seq<Field>,
                 ghost prov: map<string, Field>, ghost lr: LlmRow, ghost i: nat, sets: seq<set<string>>)
    returns (grounded: bool)
    requires |rows| > 0 && sets == InputTokens(tk, rows)
    requires row == PlainRow(mean, behind, rows[0], prov, lr.cells, i)
    ensures grounded <==> !Invented(tk, lr, rows)
  {
    SameTokens(tk, prov, lr.cells, row.pages, row.confidence, row.bbox);
    GroundedIffContributors(ReplyTokens(tk, lr.cells), rows, sets);
    grounded := IsGrounded(tk, row, sets);
  }

  method BuildCells(prov: map<string, Field>, cells: seq<Cell>, pages: seq<int>, confidence: real,
                    bbox: Option<BoundingBox>)
    returns (subs: seq<Field>)
    ensures subs == CellFields(prov, cells, pages, confidence, bbox)
  {
    subs := [];
    for k := 0 to |cells|
      invariant subs == CellFields(prov, cells[..k], pages, confidence, bbox)
    {
      assert cells[..k + 1][..k] == cells[..k];
      if cells[k].name !in ReservedKeys {
        subs := subs + [CellField(prov, cells[k], pages, confidence, bbox)];
      }
    }
    assert cells[..|cells|] == cells;
  }
}
