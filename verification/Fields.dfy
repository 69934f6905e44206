/** Extracted fields as the transformers and matchers pass them around. */
module Fields {
  import opened Collections
  import opened Wrappers

  datatype BoxSource = Llm | PdfText | Ocr

  datatype BoundingBox = BoundingBox(xmin: real, ymin: real, xmax: real, ymax: real,
                     quality: Option<string>, qualityScore: real,
                     source: Option<BoxSource>, refinementConfidence: Option<real>)

  datatype JudgeStatus = Pass | Fail | Uncertain

  datatype Judge = Judge(status: JudgeStatus, flagged: bool)

  /** A number is kept as the text Python prints for it. */
  datatype Value = Null | Text(text: string) | Number(text: string) | Boolean(b: bool) | Rows(subs: seq<Field>)

  datatype Field = Field(name: string, value: Value, pages: seq<int>, confidence: real, bbox: Option<BoundingBox>,
                         valid: bool, judge: Judge, notes: Option<string>, source: Option<string>)

  const DefaultJudge := Judge(Uncertain, false)

  /** A field as a transformer constructs it: the attributes it does not set keep their defaults. */
  function NewField(name: string, value: Value, pages: seq<int>, confidence: real, bbox: Option<BoundingBox>): Field {
    Field(name, value, pages, confidence, bbox, true, DefaultJudge, None, None)
  }

  function Subs(f: Field): seq<Field> {
    if f.value.Rows? then f.value.subs else []
  }

  predicate Scalar(v: Value) { v.Text? || v.Number? || v.Boolean? }

  /** Python's `str` of a scalar. */
  function Printed(v: Value): string
    requires Scalar(v)
  {
    match v
    case Text(s) => s
    case Number(s) => s
    case Boolean(b) => if b then "True" else "False"
  }

  // ---- Page sets -----------------------------------------------------------

  predicate IsLeast(s: set<int>, m: int) {
    m in s && forall x :: x in s ==> m <= x
  }

  lemma {:induction false} HasLeast(s: set<int>)
    requires s != {}
    ensures exists m :: IsLeast(s, m)
    decreases |s|
  {
    EmptyOrInhabited(s);
    var x :| x in s;
    if s == {x} {
      assert IsLeast(s, x);
    } else {
      HasLeast(s - {x});
      var m :| IsLeast(s - {x}, m);
      assert forall y :: y in s ==> y == x || y in s - {x};
      assert IsLeast(s, if x <= m then x else m);
    }
  }

  function Least(s: set<int>): (m: int)
    requires s != {}
    ensures IsLeast(s, m)
  {
    HasLeast(s);
    var m :| IsLeast(s, m);
    m
  }

  /** Python's `sorted` of a set of pages. */
  function Sorted(s: set<int>): seq<int>
    decreases |s|
  {
    if s == {} then [] else [Least(s)] + Sorted(s - {Least(s)})
  }

  lemma {:induction false} SortedIs(s: set<int>)
    ensures forall p :: p in Sorted(s) <==> p in s
    ensures forall i, j :: 0 <= i < j < |Sorted(s)| ==> Sorted(s)[i] < Sorted(s)[j]
    decreases |s|
  {
    if s != {} {
      var m := Least(s);
      SortedIs(s - {m});
      var rest := Sorted(s - {m});
      assert Sorted(s) == [m] + rest;
      forall j | 0 <= j < |rest| ensures m < rest[j] {
        assert rest[j] in rest;
      }
    }
  }

  function PagesOf(rows: seq<Field>): set<int> {
    set i, p | 0 <= i < |rows| && p in rows[i].pages :: p
  }
}
