/** The table `explain` builds (identification.py:283-293): the
    generator's parameter description is shortened, split into lines, and
    line i is paired with the model's and the identified value of parameter
    i until the identified parameters run out. */
module Explanation {
  import opened Results
  import opened LinAlg
  import opened Text

  /** One line of the table: model value, identified value, their
      difference, and the description. */
  datatype Row = Row(model: real, approx: real, error: real, description: string)

  const LineBreak: char := '\n'

  /** "Parameter " becomes "#", then "first moment" becomes "center". */
  function Rewrite(description: string): string {
    Replace(Replace(description, "Parameter ", "#"), "first moment", "center")
  }

  function Lines(description: string): (ls: seq<string>)
    ensures |ls| >= 1
  {
    Split(Rewrite(description), LineBreak)
  }

  function Min(a: nat, b: nat): nat {
    if a <= b then a else b
  }

  /** The row for parameter i. */
  function RowAt(xStd: Vector, xStdModel: Vector, lines: seq<string>, i: nat): Row
    requires i < |xStd| && i < |xStdModel| && i < |lines|
  {
    Row(xStdModel[i], xStd[i], xStdModel[i] - xStd[i], lines[i])
  }

  /** The loop from line i on: an IndexError when a parameter vector has no
      entry i, a stop after the last identified parameter. */
  function Pairs(xStd: Vector, xStdModel: Vector, lines: seq<string>, i: nat): (r: Result<seq<Row>>)
    requires i <= |lines| && (i < |lines| ==> i <= |xStd|)
    ensures i == |lines| ==> r == Success([])
    ensures i < |lines| ==>
      (r.Success? <==> i < |xStd| && Min(|lines|, |xStd|) <= |xStdModel|)
    ensures i < |lines| && r.Success? ==> |r.value| + i == Min(|lines|, |xStd|)
    ensures i < |lines| && r.Success? ==> forall t | 0 <= t < |r.value| ::
      i + t < |xStd| && i + t < |xStdModel| && r.value[t] == RowAt(xStd, xStdModel, lines, i + t)
    decreases |lines| - i
  {
    if i == |lines| then Success([])
    else if i >= |xStd| || i >= |xStdModel| then Failure(ShortVector)
    else
      var row := RowAt(xStd, xStdModel, lines, i);
      if i + 1 == |xStd| then Success([row])
      else
        var rest :- Pairs(xStd, xStdModel, lines, i + 1);
        Success([row] + rest)
  }

  /** The table: one row per description line up to the number of
      identified parameters; an IndexError when there are none, or when the
      model has fewer parameters than that. */
  function Explain(description: string, xStd: Vector, xStdModel: Vector): (r: Result<seq<Row>>)
    ensures r.Success? <==> 0 < |xStd| && Min(|Lines(description)|, |xStd|) <= |xStdModel|
    ensures r.Failure? ==> r.error == ShortVector
    ensures r.Success? ==> |r.value| == Min(|Lines(description)|, |xStd|)
    ensures r.Success? ==> forall i | 0 <= i < |r.value| ::
      r.value[i] == Row(xStdModel[i], xStd[i], xStdModel[i] - xStd[i], Lines(description)[i])
  {
    PairsFail(xStd, xStdModel, Lines(description), 0);
    Pairs(xStd, xStdModel, Lines(description), 0)
  }

  // ---------------------------------------------------------------------
  // Lemmas

  lemma {:induction false} PairsFail(xStd: Vector, xStdModel: Vector, lines: seq<string>, i: nat)
    requires i <= |lines| && (i < |lines| ==> i <= |xStd|)
    ensures Pairs(xStd, xStdModel, lines, i).Failure? ==> Pairs(xStd, xStdModel, lines, i).error == ShortVector
    decreases |lines| - i
  {
    if i < |lines| && i < |xStd| && i < |xStdModel| && i + 1 != |xStd| {
      PairsFail(xStd, xStdModel, lines, i + 1);
    }
  }

  /** The description lines, joined again, are the rewritten description;
      none contains a line break, "Parameter " or "first moment". */
  lemma RewrittenLines(description: string)
    ensures Join(Lines(description), LineBreak) == Rewrite(description)
    ensures forall k | 0 <= k < |Lines(description)| ::
      LineBreak !in Lines(description)[k]
      && Absent(Lines(description)[k], "Parameter ")
      && Absent(Lines(description)[k], "first moment")
  {
    var once := Replace(description, "Parameter ", "#");
    var twice := Rewrite(description);
    assert "Parameter "[0] == 'P' && "#"[0] == '#';
    assert "first moment"[0] == 'f' && "center"[0] == 'c';
    ReplaceAbsent(description, "Parameter ", "#", "Parameter ");
    ReplaceAbsent(once, "first moment", "center", "Parameter ");
    ReplaceAbsent(once, "first moment", "center", "first moment");
    JoinSplit(twice, LineBreak);
    SplitKeepsAbsent(twice, LineBreak, "Parameter ");
    SplitKeepsAbsent(twice, LineBreak, "first moment");
  }

  /** Every description in the table has been rewritten. */
  lemma ExplainDescriptions(description: string, xStd: Vector, xStdModel: Vector)
    requires Explain(description, xStd, xStdModel).Success?
    ensures forall i | 0 <= i < |Explain(description, xStd, xStdModel).value| ::
      var d := Explain(description, xStd, xStdModel).value[i].description;
      LineBreak !in d && Absent(d, "Parameter ") && Absent(d, "first moment")
  {
    RewrittenLines(description);
  }
}
