/** What identifies a row: the tokens of its string cells. */
module RowIdentity {
  import opened Fields

  /** Python's text functions, uninterpreted: whether a string strips to nothing, its normalised
      identity tokens, and the sorted tokens of a set joined by blanks. */
  datatype Tokenizer = Tokenizer(blank: string -> bool, tokens: string -> set<string>, joined: set<string> -> string)

  function CellTokens(tk: Tokenizer, cell: Value): set<string> {
    if cell.Text? && !tk.blank(cell.text) then tk.tokens(cell.text) else {}
  }

  function TokensOf(tk: Tokenizer, subs: seq<Field>): set<string> {
    if |subs| == 0 then {}
    else TokensOf(tk, subs[..|subs| - 1]) + CellTokens(tk, subs[|subs| - 1].value)
  }

  function RowTokens(tk: Tokenizer, row: Field): set<string> { TokensOf(tk, Subs(row)) }

  const Unmatched := "unmatched to source"

  /** A token identifies a row iff some string cell of the row that is not blank has it. */
  lemma RowTokensAre(tk: Tokenizer, row: Field, t: string)
    ensures t in RowTokens(tk, row) <==>
              row.value.Rows? && exists k :: 0 <= k < |row.value.subs| && CellHas(tk, row.value.subs[k].value, t)
  {
    TokensAre(tk, Subs(row), t);
  }

  predicate CellHas(tk: Tokenizer, cell: Value, t: string) {
    cell.Text? && !tk.blank(cell.text) && t in tk.tokens(cell.text)
  }

  lemma {:induction false} TokensAre(tk: Tokenizer, subs: seq<Field>, t: string)
    ensures t in TokensOf(tk, subs) <==> exists k :: 0 <= k < |subs| && CellHas(tk, subs[k].value, t)
  {
    if |subs| > 0 {
      var front := subs[..|subs| - 1];
      TokensAre(tk, front, t);
      forall k | 0 <= k < |front| ensures CellHas(tk, subs[k].value, t) == CellHas(tk, front[k].value, t) {
      }
    }
  }
}
