/** Splitting the box of a phrase among its words, over exact reals. */
module TokenTiling {
  import opened Wrappers
  import opened ValueMatcher

  datatype Phrase = Phrase(tokens: seq<string>, xmin: real, ymin: real, xmax: real, ymax: real, order: Option<int>)

  /** Python's `split` never yields an empty token. */
  predicate Split(tokens: seq<string>) { forall i :: 0 <= i < |tokens| ==> |tokens[i]| > 0 }

  /** The characters of the first `n` tokens. */
  function Prefix(tokens: seq<string>, n: nat): nat
    requires n <= |tokens|
  {
    if n == 0 then 0 else Prefix(tokens, n - 1) + |tokens[n - 1]|
  }

  lemma {:induction false} PrefixGrows(tokens: seq<string>, i: nat, j: nat)
    requires Split(tokens) && i <= j <= |tokens|
    ensures Prefix(tokens, i) + (j - i) <= Prefix(tokens, j)
  {
    if i < j {
      PrefixGrows(tokens, i, j - 1);
    }
  }

  function Chars(tokens: seq<string>): nat { Prefix(tokens, |tokens|) }

  /** Where token `n` begins, and token `n - 1` ends: the prefix sum to scale. */
  function Edge(ph: Phrase, n: nat): real
    requires n <= |ph.tokens| && Chars(ph.tokens) > 0
  {
    ph.xmin + Portion(ph, Prefix(ph.tokens, n))
  }

  /** The share of a width that goes with so many of all characters. */
  function Share(width: real, chars: nat, total: nat): real
    requires total > 0
  {
    width * (chars as real) / (total as real)
  }

  function Portion(ph: Phrase, chars: nat): real
    requires Chars(ph.tokens) > 0
  {
    Share(ph.xmax - ph.xmin, chars, Chars(ph.tokens))
  }

  lemma ShareTimes(width: real, chars: nat, total: nat)
    requires total > 0
    ensures Share(width, chars, total) * (total as real) == width * (chars as real)
  {
  }

  lemma SameQuotient(x: real, y: real, t: real)
    requires t > 0.0 && x * t == y * t
    ensures x == y
  {
  }

  lemma ShareAdds(width: real, a: nat, b: nat, total: nat)
    requires total > 0
    ensures Share(width, a + b, total) == Share(width, a, total) + Share(width, b, total)
  {
    var t := total as real;
    ShareTimes(width, a, total);
    ShareTimes(width, b, total);
    ShareTimes(width, a + b, total);
    assert width * ((a + b) as real) == width * (a as real) + width * (b as real);
    SameQuotient(Share(width, a + b, total), Share(width, a, total) + Share(width, b, total), t);
  }

  lemma ShareOf(width: real, chars: nat, total: nat)
    requires total > 0
    ensures chars == total ==> Share(width, chars, total) == width
    ensures chars == 0 ==> Share(width, chars, total) == 0.0
    ensures width > 0.0 && chars > 0 ==> Share(width, chars, total) > 0.0
  {
    ShareTimes(width, chars, total);
    if chars == total {
      SameQuotient(Share(width, chars, total), width, total as real);
    }
    if width > 0.0 && chars > 0 {
      Positive(width, chars as real, total as real);
    }
  }

  lemma Positive(w: real, c: real, t: real)
    requires w > 0.0 && c > 0.0 && t > 0.0
    ensures w * c / t > 0.0
  {
    assert w * c > 0.0;
  }

  lemma EdgesAre(ph: Phrase, n: nat)
    requires n < |ph.tokens| && Chars(ph.tokens) > 0 && Split(ph.tokens)
    ensures Edge(ph, n + 1) == Edge(ph, n) + Portion(ph, |ph.tokens[n]|)
    ensures Edge(ph, 0) == ph.xmin && Edge(ph, |ph.tokens|) == ph.xmax
    ensures ph.xmin < ph.xmax ==> Edge(ph, n) < Edge(ph, n + 1) <= ph.xmax
  {
    var w, t, upto := ph.xmax - ph.xmin, Chars(ph.tokens), Prefix(ph.tokens, n + 1);
    PrefixGrows(ph.tokens, n + 1, |ph.tokens|);
    ShareAdds(w, Prefix(ph.tokens, n), |ph.tokens[n]|, t);
    ShareAdds(w, upto, t - upto, t);
    ShareOf(w, |ph.tokens[n]|, t);
    ShareOf(w, t - upto, t);
    ShareOf(w, t, t);
    ShareOf(w, 0, t);
  }

  function WordFor(ph: Phrase, n: nat): Word
    requires n < |ph.tokens| && Chars(ph.tokens) > 0
  {
    Word(ph.tokens[n], Edge(ph, n), ph.ymin, Edge(ph, n + 1), ph.ymax, ph.order)
  }

  /** One word per token, from edge to edge. */
  ghost predicate Tiled(ph: Phrase, words: seq<Word>) {
    Chars(ph.tokens) > 0 && |words| <= |ph.tokens| && forall i :: 0 <= i < |words| ==> words[i] == WordFor(ph, i)
  }

  /** The cursor loop. */
  method TokenizePhrase(ph: Phrase) returns (out: seq<Word>)
    requires Split(ph.tokens)
    ensures ph.xmin < ph.xmax && |ph.tokens| > 0 ==> |out| == |ph.tokens| && Tiled(ph, out)
    ensures |ph.tokens| == 0 ==> out == []
    ensures ph.xmin >= ph.xmax && |ph.tokens| > 0 ==> |out| < |ph.tokens|
  {
    var tokens := ph.tokens;
    if |tokens| == 0 {
      return [];
    }
    PrefixGrows(tokens, 0, |tokens|);
    var total := CountChars(tokens);
    var width, cursor := ph.xmax - ph.xmin, ph.xmin;
    out := [];
    EdgesAre(ph, 0);
    for idx := 0 to |tokens|
      invariant ph.xmin < ph.xmax ==> cursor == Edge(ph, idx) && |out| == idx && Tiled(ph, out)
      invariant ph.xmin >= ph.xmax ==> (idx == 0 ==> cursor == ph.xmin) && |out| <= (if idx == 0 then 0 else idx - 1)
    {
      EdgesAre(ph, idx);
      var share := Share(width, |tokens[idx]|, total);
      var right := if idx == |tokens| - 1 || ph.xmax < cursor + share then ph.xmax else cursor + share;
      var left := cursor;
      cursor := right;
      if left >= right {
        continue;
      }
      out := out + [Word(tokens[idx], left, ph.ymin, right, ph.ymax, ph.order)];
    }
  }

  method CountChars(tokens: seq<string>) returns (total: nat)
    ensures total == Chars(tokens)
  {
    total := 0;
    for i := 0 to |tokens|
      invariant total == Prefix(tokens, i)
    {
      total := total + |tokens[i]|;
    }
  }

  lemma WordsMeet(ph: Phrase, words: seq<Word>, i: nat)
    requires Split(ph.tokens) && ph.xmin < ph.xmax && Tiled(ph, words) && |words| == |ph.tokens| && i < |words|
    ensures words[0].xmin == ph.xmin && words[|words| - 1].xmax == ph.xmax
    ensures i + 1 < |words| ==> words[i].xmax == words[i + 1].xmin
    ensures words[i].xmin < words[i].xmax
  {
    EdgesAre(ph, i);
    EdgesAre(ph, |words| - 1);
  }

  lemma WidthOf(ph: Phrase, n: nat, w: Word)
    requires Split(ph.tokens) && n < |ph.tokens| && Chars(ph.tokens) > 0 && w == WordFor(ph, n)
    ensures (w.xmax - w.xmin) * (Chars(ph.tokens) as real) == (ph.xmax - ph.xmin) * (|w.text| as real)
  {
    EdgesAre(ph, n);
    ShareTimes(ph.xmax - ph.xmin, |ph.tokens[n]|, Chars(ph.tokens));
  }

  /** Neighbours share an edge, the ends are the phrase's, and width goes by length. */
  lemma WordsTile(ph: Phrase, words: seq<Word>, i: nat)
    requires Split(ph.tokens) && ph.xmin < ph.xmax && Tiled(ph, words) && |words| == |ph.tokens| && i < |words|
    ensures words[0].xmin == ph.xmin && words[|words| - 1].xmax == ph.xmax
    ensures i + 1 < |words| ==> words[i].xmax == words[i + 1].xmin
    ensures words[i].xmin < words[i].xmax
    ensures (words[i].xmax - words[i].xmin) * (Chars(ph.tokens) as real) ==
              (ph.xmax - ph.xmin) * (|words[i].text| as real)
  {
    WordsMeet(ph, words, i);
    WidthOf(ph, i, words[i]);
  }

  lemma {:induction false} EdgesRise(ph: Phrase, i: nat, j: nat)
    requires Split(ph.tokens) && Chars(ph.tokens) > 0 && ph.xmin < ph.xmax && i <= j <= |ph.tokens|
    ensures Edge(ph, i) <= Edge(ph, j)
  {
    if i < j {
      EdgesRise(ph, i, j - 1);
      EdgesAre(ph, j - 1);
    }
  }

  lemma RunFits(ph: Phrase, words: seq<Word>, i: nat, j: nat, run: seq<Word>)
    requires Split(ph.tokens) && ph.xmin < ph.xmax && Tiled(ph, words) && |words| == |ph.tokens| && i < j <= |words|
    requires run == words[i..j]
    ensures Encloses(run, Edge(ph, i), ph.ymin, Edge(ph, j), ph.ymax)
  {
    forall w | w in run ensures Inside(w, Edge(ph, i), ph.ymin, Edge(ph, j), ph.ymax) {
      var k :| 0 <= k < |run| && run[k] == w;
      assert w == WordFor(ph, i + k);
      EdgesRise(ph, i, i + k);
      EdgesRise(ph, i + k + 1, j);
    }
  }

  /** The union box of any run of words is exactly the slice of the phrase between two prefix sums. */
  lemma WindowIsSlice(ph: Phrase, words: seq<Word>, i: nat, j: nat, round: real -> real, score: real, page: int)
    requires Split(ph.tokens) && ph.xmin < ph.xmax && Tiled(ph, words) && |words| == |ph.tokens| && i < j <= |words|
    ensures var box := UnionBox(round, words[i..j], score, page);
      box.xmin == Edge(ph, i) && box.xmax == Edge(ph, j) && box.ymin == ph.ymin && box.ymax == ph.ymax
  {
    var run := words[i..j];
    var box := UnionBox(round, run, score, page);
    UnionBoxIsTightest(round, run, score, page);
    RunFits(ph, words, i, j, run);
    assert run[0] in run && run[0] == WordFor(ph, i);
    assert run[|run| - 1] in run && run[|run| - 1] == WordFor(ph, j - 1);
    assert Inside(run[0], box.xmin, box.ymin, box.xmax, box.ymax);
    assert Inside(run[|run| - 1], box.xmin, box.ymin, box.xmax, box.ymax);
  }

  /** So all words together give the phrase box back. */
  lemma AllWordsGiveThePhrase(ph: Phrase, words: seq<Word>, round: real -> real, score: real, page: int)
    requires Split(ph.tokens) && ph.xmin < ph.xmax && Tiled(ph, words) && |words| == |ph.tokens| && |words| > 0
    ensures var box := UnionBox(round, words, score, page);
      box.xmin == ph.xmin && box.xmax == ph.xmax && box.ymin == ph.ymin && box.ymax == ph.ymax
  {
    WindowIsSlice(ph, words, 0, |words|, round, score, page);
    assert words[0..|words|] == words;
    EdgesAre(ph, 0);
  }
}
