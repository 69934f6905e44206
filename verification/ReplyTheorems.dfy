/** What becomes of a model's reply, told by its cells, its citations and the input rows alone. */
module ReplyTheorems {
  import opened Collections
  import opened Wrappers
  import opened Fields
  import opened RowIdentity
  import opened Grounding

  // ---- Row ids -------------------------------------------------------------

  predicate AllDigits(s: string) { |s| > 0 && forall k :: 0 <= k < |s| ==> '0' <= s[k] <= '9' }

  /** The number a row of digits stands for. */
  function NumberOf(s: string): nat
    requires forall k :: 0 <= k < |s| ==> '0' <= s[k] <= '9'
  {
    if |s| == 0 then 0 else 10 * NumberOf(s[..|s| - 1]) + (s[|s| - 1] - '0') as nat
  }

  lemma {:induction false} DecimalReads(n: nat)
    ensures AllDigits(Decimal(n)) && NumberOf(Decimal(n)) == n
    ensures Decimal(n)[0] == '0' <==> n == 0
  {
    if n < 10 {
      assert Decimal(n)[..0] == "";
    } else {
      var q, d := n / 10, n % 10;
      DecimalReads(q);
      OneDigitMore(Decimal(q), "0123456789"[d], d);
    }
  }

  lemma OneDigitMore(front: string, digit: char, d: nat)
    requires AllDigits(front) && d < 10 && digit == "0123456789"[d]
    ensures AllDigits(front + [digit]) && NumberOf(front + [digit]) == 10 * NumberOf(front) + d
  {
    assert (front + [digit])[..|front|] == front;
  }

  /** Row `i` goes by the letter r and its number, counted from one; so no two rows share an id. */
  lemma RowIdIs(i: nat, id: string)
    requires |id| > 0 && id[0] == 'r' && AllDigits(id[1..])
    requires id == RowId(i)
    ensures NumberOf(id[1..]) == i + 1 && id[1] != '0'
  {
    DecimalReads(i + 1);
    assert id[1..] == Decimal(i + 1);
  }

  lemma RowIdForm(i: nat)
    ensures |RowId(i)| > 0 && RowId(i)[0] == 'r' && AllDigits(RowId(i)[1..])
  {
    DecimalReads(i + 1);
    assert RowId(i)[1..] == Decimal(i + 1);
  }

  lemma RowIdsDiffer(i: nat, j: nat)
    requires RowId(i) == RowId(j)
    ensures i == j
  {
    RowIdForm(i);
    RowIdIs(i, RowId(i));
    RowIdIs(j, RowId(i));
  }

  ghost predicate IdsUpTo(ids: map<string, Field>, rows: seq<Field>, n: nat)
    requires n <= |rows|
  {
    && (forall id :: id in ids ==> exists i :: 0 <= i < n && id == RowId(i))
    && forall i :: 0 <= i < n ==> RowId(i) in ids && ids[RowId(i)] == rows[i]
  }

  lemma NextId(ids: map<string, Field>, rows: seq<Field>, n: nat)
    requires n < |rows| && IdsUpTo(ids, rows, n)
    ensures IdsUpTo(ids[RowId(n) := rows[n]], rows, n + 1)
  {
    forall i | 0 <= i < n ensures RowId(i) != RowId(n) {
      if RowId(i) == RowId(n) {
        RowIdsDiffer(i, n);
      }
    }
  }

  lemma IdsAre(rows: seq<Field>)
    ensures IdsUpTo(ById(rows), rows, |rows|)
  {
    for n := 0 to |rows|
      invariant IdsUpTo(ById(rows[..n]), rows, n)
    {
      TakeFront(rows, n);
      NextId(ById(rows[..n]), rows, n);
    }
    TakeAll(rows);
  }

  // ---- Distinctive tokens --------------------------------------------------

  function Carriers(sets: seq<set<string>>, token: string): set<nat> {
    set i: nat | i < |sets| && token in sets[i]
  }

  lemma {:induction false} FrequencyIsSize(sets: seq<set<string>>, token: string)
    ensures Frequency(sets, token) == |Carriers(sets, token)|
  {
    if |sets| > 0 {
      var n := |sets| - 1;
      FrequencyIsSize(sets[..n], token);
      var front := Carriers(sets[..n], token);
      assert forall i :: i in front ==> i < n && sets[i] == sets[..n][i];
      assert Carriers(sets, token) == front + if token in sets[n] then {n} else {};
    }
  }

  /** A token tells rows apart iff one row has it, or several but not more than half of them. */
  lemma DistinctiveIff(sets: seq<set<string>>, token: string)
    ensures Distinctive(sets, token) <==>
              |Carriers(sets, token)| == 1 ||
              (|Carriers(sets, token)| > 1 && 2 * |Carriers(sets, token)| <= |sets|)
  {
    FrequencyIsSize(sets, token);
    SubsetSize(Carriers(sets, token), Carriers(sets, token));
  }

  // ---- The rows behind a reply row -----------------------------------------

  /** A cell of the reply that is data. */
  predicate IsData(cell: Cell) { cell.name != "_row_id" && cell.name != "_provenance" && cell.name != "_source_rows" }

  predicate ReplyHas(tk: Tokenizer, cells: seq<Cell>, token: string) {
    exists k :: 0 <= k < |cells| && IsData(cells[k]) && CellHas(tk, cells[k].value, token)
  }

  lemma {:induction false} ReplyTokensAre(tk: Tokenizer, cells: seq<Cell>, token: string)
    ensures token in ReplyTokens(tk, cells) <==> ReplyHas(tk, cells, token)
  {
    if |cells| > 0 {
      var n := |cells| - 1;
      ReplyTokensAre(tk, cells[..n], token);
      assert forall k :: 0 <= k < n ==> cells[..n][k] == cells[k];
    }
  }

  /** A token of the reply row that some but not most input rows have, and row `j` is one of them. */
  ghost predicate Linked(tk: Tokenizer, cells: seq<Cell>, rows: seq<Field>, j: nat)
    requires j < |rows|
  {
    exists t :: ReplyHas(tk, cells, t) && RowHas(tk, rows[j], t) && TellsApart(tk, rows, t)
  }

  predicate RowHas(tk: Tokenizer, row: Field, t: string) {
    row.value.Rows? && exists k :: 0 <= k < |row.value.subs| && CellHas(tk, row.value.subs[k].value, t)
  }

  /** One input row has the token, or several but not more than half. */
  predicate TellsApart(tk: Tokenizer, rows: seq<Field>, t: string) {
    var having := set j: nat | j < |rows| && RowHas(tk, rows[j], t);
    |having| == 1 || (|having| > 1 && 2 * |having| <= |rows|)
  }

  lemma DistinctiveTellsApart(tk: Tokenizer, rows: seq<Field>, t: string)
    ensures Distinctive(InputTokens(tk, rows), t) <==> TellsApart(tk, rows, t)
  {
    var sets := InputTokens(tk, rows);
    DistinctiveIff(sets, t);
    forall j: nat | j < |rows| ensures t in sets[j] <==> RowHas(tk, rows[j], t) {
      RowTokensAre(tk, rows[j], t);
    }
    assert Carriers(sets, t) == set j: nat | j < |rows| && RowHas(tk, rows[j], t);
  }

  lemma SharesIffLinked(tk: Tokenizer, cells: seq<Cell>, rows: seq<Field>, j: nat)
    requires j < |rows|
    ensures Shares(ReplyTokens(tk, cells), InputTokens(tk, rows), j) <==> Linked(tk, cells, rows, j)
  {
    var sets := InputTokens(tk, rows);
    forall t ensures (t in ReplyTokens(tk, cells) * sets[j] && Distinctive(sets, t)) <==>
                     (ReplyHas(tk, cells, t) && RowHas(tk, rows[j], t) && TellsApart(tk, rows, t))
    {
      ReplyTokensAre(tk, cells, t);
      RowTokensAre(tk, rows[j], t);
      DistinctiveTellsApart(tk, rows, t);
    }
  }

  /** These rows, in this order. */
  predicate Are(found: seq<Field>, rows: seq<Field>, at: seq<nat>) {
    |found| == |at| && forall k :: 0 <= k < |at| ==> at[k] < |rows| && found[k] == rows[at[k]]
  }

  lemma AreNext(found: seq<Field>, rows: seq<Field>, at: seq<nat>, j: nat)
    requires Are(found, rows, at) && j < |rows|
    ensures Are(found + [rows[j]], rows, at + [j])
  {
  }

  lemma NextSharer(tk: Tokenizer, cells: seq<Cell>, rows: seq<Field>, tokens: set<string>, sets: seq<set<string>>,
                   n: nat, m: nat)
    requires m == n + 1 <= |rows| && tokens == ReplyTokens(tk, cells) && sets == InputTokens(tk, rows)
    ensures SharersUpTo(tokens, rows, sets, m) ==
            if Linked(tk, cells, rows, n) then SharersUpTo(tokens, rows, sets, n) + [rows[n]]
            else SharersUpTo(tokens, rows, sets, n)
  {
    SharesIffLinked(tk, cells, rows, n);
    NothingAdded(SharersUpTo(tokens, rows, sets, n));
  }

  lemma StepSharers(tk: Tokenizer, cells: seq<Cell>, rows: seq<Field>, tokens: set<string>, sets: seq<set<string>>,
                    linked: nat -> bool, n: nat, m: nat, at: seq<nat>)
    returns (more: seq<nat>)
    requires m == n + 1 <= |rows| && tokens == ReplyTokens(tk, cells) && sets == InputTokens(tk, rows)
    requires linked(n) <==> Linked(tk, cells, rows, n)
    requires Are(SharersUpTo(tokens, rows, sets, n), rows, at) && Picked(at, n, linked)
    ensures Are(SharersUpTo(tokens, rows, sets, m), rows, more) && Picked(more, m, linked)
  {
    NextSharer(tk, cells, rows, tokens, sets, n, m);
    PickNext(at, n, linked);
    more := at;
    if linked(n) {
      AreNext(SharersUpTo(tokens, rows, sets, n), rows, at, n);
      more := at + [n];
    }
  }

  lemma SharersAre(tk: Tokenizer, cells: seq<Cell>, rows: seq<Field>, tokens: set<string>, sets: seq<set<string>>,
                   linked: nat -> bool)
    returns (at: seq<nat>)
    requires tokens == ReplyTokens(tk, cells) && sets == InputTokens(tk, rows)
    requires forall j: nat :: linked(j) <==> j < |rows| && Linked(tk, cells, rows, j)
    ensures Are(SharersUpTo(tokens, rows, sets, |rows|), rows, at)
    ensures Picked(at, |rows|, linked)
  {
    at := [];
    for n := 0 to |rows|
      invariant Are(SharersUpTo(tokens, rows, sets, n), rows, at)
      invariant Picked(at, n, linked)
    {
      at := StepSharers(tk, cells, rows, tokens, sets, linked, n, n + 1, at);
    }
  }

  /** `cites[from[k]]` is the id of row `at[k]`, and every citation that is the id of a row is there, in order. */
  ghost predicate Cites(cites: seq<string>, rows: seq<Field>, from: seq<nat>, at: seq<nat>) {
    && |from| == |at| && Ascend(from)
    && (forall k :: 0 <= k < |at| ==> from[k] < |cites| && at[k] < |rows| && cites[from[k]] == RowId(at[k]))
    && forall c, j :: 0 <= c < |cites| && 0 <= j < |rows| && cites[c] == RowId(j) ==> c in from
  }

  ghost predicate CitesUpTo(cites: seq<string>, rows: seq<Field>, from: seq<nat>, at: seq<nat>, n: nat)
    requires n <= |cites|
  {
    && |from| == |at| && Ascend(from)
    && (forall k :: 0 <= k < |at| ==> from[k] < n && at[k] < |rows| && cites[from[k]] == RowId(at[k]))
    && forall c :: 0 <= c < n && IsId(cites[c], rows) ==> c in from
  }

  ghost predicate IsId(id: string, rows: seq<Field>) { exists j :: 0 <= j < |rows| && id == RowId(j) }

  lemma CiteNext(cites: seq<string>, rows: seq<Field>, from: seq<nat>, at: seq<nat>, n: nat, j: nat)
    requires n < |cites| && CitesUpTo(cites, rows, from, at, n) && j <= |rows|
    requires if j < |rows| then cites[n] == RowId(j) else !IsId(cites[n], rows)
    ensures j < |rows| ==> CitesUpTo(cites, rows, from + [n], at + [j], n + 1)
    ensures j == |rows| ==> CitesUpTo(cites, rows, from, at, n + 1)
  {
    forall c | 0 <= c < n && IsId(cites[c], rows) ensures c in from && c in from + [n] {
    }
  }

  lemma KnownIffId(rows: seq<Field>, id: string) returns (j: nat)
    ensures j <= |rows|
    ensures j < |rows| ==> id in ById(rows) && id == RowId(j) && ById(rows)[id] == rows[j]
    ensures j == |rows| ==> id !in ById(rows) && !IsId(id, rows)
  {
    IdsAre(rows);
    j := |rows|;
    if id in ById(rows) {
      j :| 0 <= j < |rows| && id == RowId(j);
    }
  }

  lemma CitedAre(rows: seq<Field>, cites: seq<string>) returns (from: seq<nat>, at: seq<nat>)
    ensures Are(Cited(ById(rows), cites), rows, at) && Cites(cites, rows, from, at)
  {
    from, at := [], [];
    for n := 0 to |cites|
      invariant Are(Cited(ById(rows), cites[..n]), rows, at) && CitesUpTo(cites, rows, from, at, n)
    {
      TakeFront(cites, n);
      var j := KnownIffId(rows, cites[n]);
      CiteNext(cites, rows, from, at, n, j);
      if j < |rows| {
        AreNext(Cited(ById(rows), cites[..n]), rows, at, j);
        from, at := from + [n], at + [j];
      }
    }
    TakeAll(cites);
  }

  /** Whether the reply row cites some input row at all. */
  ghost predicate CitesSome(cites: seq<string>, rows: seq<Field>) {
    exists c, j :: 0 <= c < |cites| && 0 <= j < |rows| && cites[c] == RowId(j)
  }

  /** The input rows behind a reply row: the ones it cites; if it cites none, nothing in the reply has
      citations and there are as many rows as before, the one in its place; else the ones linked to it. */
  lemma BehindIs(tk: Tokenizer, reply: seq<LlmRow>, rows: seq<Field>, i: nat) returns (from: seq<nat>, at: seq<nat>)
    requires i < |reply|
    ensures Are(Contributors(tk, reply, rows, i), rows, at)
    ensures CitesSome(reply[i].cites, rows) ==> Cites(reply[i].cites, rows, from, at)
    ensures !CitesSome(reply[i].cites, rows) ==>
              if |reply| == |rows| && forall k :: 0 <= k < |reply| ==> |reply[k].cites| == 0 then at == [i]
              else Picked(at, |rows|, (j: nat) => j < |rows| && Linked(tk, reply[i].cells, rows, j))
  {
    from, at := CitedAre(rows, reply[i].cites);
    CitedIffCites(rows, reply[i].cites, from, at);
    if !CitesSome(reply[i].cites, rows) {
      at := [i];
      if AnyCites(reply) || |reply| != |rows| {
        at := SharersAre(tk, reply[i].cells, rows, ReplyTokens(tk, reply[i].cells), InputTokens(tk, rows),
          (j: nat) => j < |rows| && Linked(tk, reply[i].cells, rows, j));
      }
    }
  }

  lemma CitedIffCites(rows: seq<Field>, cites: seq<string>, from: seq<nat>, at: seq<nat>)
    requires Cites(cites, rows, from, at)
    ensures CitesSome(cites, rows) <==> |at| > 0
  {
    if |at| > 0 {
      assert cites[from[0]] == RowId(at[0]);
    }
  }

  // ---- The row that is made ------------------------------------------------

  /** The sub-fields are the data cells of the reply row, in order, each with its name and value. */
  ghost predicate Keeps(subs: seq<Field>, cells: seq<Cell>, from: seq<nat>, n: nat) {
    && |from| == |subs| && n <= |cells| && Picked(from, n, (c: nat) => c < |cells| && IsData(cells[c]))
    && forall k :: 0 <= k < |from| ==> SameCell(subs[k], cells[from[k]])
  }

  predicate SameCell(sub: Field, cell: Cell) { sub.name == cell.name && sub.value == cell.value }

  lemma KeepNext(subs: seq<Field>, cells: seq<Cell>, from: seq<nat>, n: nat, sub: Field)
    requires n < |cells| && Keeps(subs, cells, from, n)
    ensures IsData(cells[n]) && SameCell(sub, cells[n]) ==> Keeps(subs + [sub], cells, from + [n], n + 1)
    ensures !IsData(cells[n]) ==> Keeps(subs, cells, from, n + 1)
  {
    PickNext(from, n, (c: nat) => c < |cells| && IsData(cells[c]));
  }

  lemma CellsAreKept(prov: map<string, Field>, cells: seq<Cell>, pages: seq<int>, confidence: real,
                     bbox: Option<BoundingBox>)
    returns (from: seq<nat>)
    ensures Keeps(CellFields(prov, cells, pages, confidence, bbox), cells, from, |cells|)
  {
    from := [];
    for n := 0 to |cells|
      invariant Keeps(CellFields(prov, cells[..n], pages, confidence, bbox), cells, from, n)
    {
      TakeFront(cells, n);
      KeepNext(CellFields(prov, cells[..n], pages, confidence, bbox), cells, from, n,
        CellField(prov, cells[n], pages, confidence, bbox));
      if IsData(cells[n]) {
        from := from + [n];
      }
    }
    TakeAll(cells);
  }

  /** A made row: numbered by its place; with rows behind it their pages (sorted, each once), the mean of
      their confidences and the box of the first; without, all three from the first input row; its cells
      those of the reply. Flagging changes confidence and notes only. */
  lemma MadeRowIs(tk: Tokenizer, mean: Mean, reply: seq<LlmRow>, rows: seq<Field>, flag: bool, out: seq<Field>,
                  i: nat)
    returns (number: string, from: seq<nat>)
    requires |rows| > 0 && |out| == |reply| && Materialised(tk, mean, reply, rows, flag, out) && i < |out|
    ensures AllDigits(number) && NumberOf(number) == i + 1 && number[0] != '0' && out[i].name == "row_" + number
    ensures out[i].value.Rows? && Keeps(out[i].value.subs, reply[i].cells, from, |reply[i].cells|)
    ensures var behind := Contributors(tk, reply, rows, i);
      if |behind| == 0 then out[i].pages == rows[0].pages && out[i].bbox == rows[0].bbox
      else out[i].pages == Sorted(PagesOf(behind)) && out[i].bbox == behind[0].bbox
    ensures out[i].notes.None? ==>
              var behind := Contributors(tk, reply, rows, i);
              out[i].confidence ==
                if |behind| == 0 then rows[0].confidence
                else mean(seq(|behind|, k requires 0 <= k < |behind| => behind[k].confidence))
    ensures out[i].notes.Some? ==> out[i].notes.value == "unmatched to source" && out[i].confidence == 0.0
    ensures out[i].valid && out[i].judge == Judge(Uncertain, false) && out[i].source.None?
  {
    var row := RowFor(tk, mean, reply, rows, flag, i);
    var behind := Contributors(tk, reply, rows, i);
    DecimalReads(i + 1);
    number := Decimal(i + 1);
    var prov := FirmestByName(Canonical.AllSubs(Sources(behind, rows[0])));
    from := CellsAreKept(prov, reply[i].cells, row.pages,
      if |behind| > 0 then mean(Confidences(behind)) else rows[0].confidence, row.bbox);
    MeanOf(behind);
  }

  lemma MeanOf(behind: seq<Field>)
    ensures Confidences(behind) == seq(|behind|, k requires 0 <= k < |behind| => behind[k].confidence)
  {
  }

  /** Of the cells of one name the first of those with a box, or of all if none has one, that no such
      cell has a higher confidence than. */
  lemma {:induction false} FirmestTold(cells: seq<Field>) returns (k: nat)
    requires |cells| > 0
    ensures k < |cells| && cells[k] == Firmest(cells)
    ensures forall j :: 0 <= j < |cells| && cells[k].bbox.None? ==> cells[j].bbox.None?
    ensures forall j :: 0 <= j < |cells| && cells[j].bbox.Some? == cells[k].bbox.Some? ==>
              if j < k then cells[j].confidence < cells[k].confidence else cells[j].confidence <= cells[k].confidence
  {
    var n := |cells| - 1;
    k := n;
    if n > 0 {
      k := FirmestTold(cells[..n]);
      assert forall j :: 0 <= j < n ==> cells[..n][j] == cells[j];
      if Firmer(cells[n], cells[k]) {
        k := n;
      }
    }
  }
}
