/**
 * What the batch page does with a finished run: the CSV file it offers for download, one line
 * per scored row under a fixed header, and the Benign and Malignant counts of its summary.
 */
module BatchReport {
  import opened Wrappers
  import opened Numbers
  import opened Text
  import opened Types
  import opened BatchPrediction

  /**
   * The number renderings the export relies on: `x.toFixed(4)` for probability and confidence,
   * and the default rendering of a number for the age.
   */
  datatype Formatter = Formatter(toFixed4: Number -> string, numberText: Number -> string)

  /**
   * The header line of the export, `id,name,age,prediction,probability,confidence`, written as
   * two literals so that the verifier can look at its characters.
   */
  const ExportHeader: string := "id,name,age," + "prediction,probability,confidence"

  function LabelText(verdict: Label): string {
    match verdict
    case Benign => "Benign"
    case Malignant => "Malignant"
  }

  /** `data.age || ''`: undefined, NaN and zero are falsy and render as nothing. */
  function AgeText(fmt: Formatter, age: Option<Number>): string {
    match age
    case None => ""
    case Some(NaN) => ""
    case Some(Finite(x)) => if x == 0.0 then "" else fmt.numberText(Finite(x))
  }

  /** The six cells of the export line of one scored row. */
  function ExportFields(fmt: Formatter, b: BatchResult): seq<string> {
    [ b.data.id,
      "\"" + (match b.data.name case Some(n) => n case None => "") + "\"",
      AgeText(fmt, b.data.age),
      LabelText(b.result.prediction),
      fmt.toFixed4(b.result.probability),
      fmt.toFixed4(b.result.confidence) ]
  }

  function ExportRow(fmt: Formatter, b: BatchResult): string {
    Join(ExportFields(fmt, b), ",")
  }

  /** The export lines: the header, then one line per scored row, in order. */
  function ExportLines(fmt: Formatter, results: seq<BatchResult>): (ls: seq<string>)
    ensures |ls| == |results| + 1 && ls[0] == ExportHeader
    ensures forall k :: 0 <= k < |results| ==> ls[k + 1] == ExportRow(fmt, results[k])
  {
    [ExportHeader] + seq(|results|, k requires 0 <= k < |results| => ExportRow(fmt, results[k]))
  }

  /** The downloaded file: the export lines joined by "\n". */
  function ExportCsv(fmt: Formatter, results: seq<BatchResult>): string {
    Join(ExportLines(fmt, results), "\n")
  }

  /** No cell of a row's export line contains `c`. */
  predicate CellsAvoid(fmt: Formatter, b: BatchResult, c: char) {
    forall v :: v in ExportFields(fmt, b) ==> c !in v
  }

  /** A character no cell holds, other than the comma, is not in the export line. */
  lemma RowAvoids(fmt: Formatter, b: BatchResult, c: char)
    requires CellsAvoid(fmt, b, c) && c != ','
    ensures c !in ExportRow(fmt, b)
  {
    JoinAvoids(ExportFields(fmt, b), ",", c);
  }

  /**
   * When no id, name or rendered number contains a line break, the file splits back into its
   * header and exactly one line per scored row, in order.
   */
  lemma {:induction false} ExportSplitsIntoLines(fmt: Formatter, results: seq<BatchResult>)
    requires forall k :: 0 <= k < |results| ==> CellsAvoid(fmt, results[k], '\n')
    ensures Split(ExportCsv(fmt, results), '\n') == ExportLines(fmt, results)
  {
    var ls := ExportLines(fmt, results);
    ExportHeaderShape();
    forall l | l in ls ensures '\n' !in l {
      var k :| 0 <= k < |ls| && ls[k] == l;
      if k > 0 {
        RowAvoids(fmt, results[k - 1], '\n');
      }
    }
    SplitJoin(ls, '\n');
  }

  /**
   * When no cell of a row contains a comma, its export line splits back into its six cells, so
   * the label is the fourth field.
   */
  lemma ExportRowSplits(fmt: Formatter, b: BatchResult)
    requires CellsAvoid(fmt, b, ',')
    ensures Split(ExportRow(fmt, b), ',') == ExportFields(fmt, b)
    ensures Split(ExportRow(fmt, b), ',')[3] == LabelText(b.result.prediction)
  {
    SplitJoin(ExportFields(fmt, b), ',');
  }

  /** The header line is one non-blank line and holds no capital letter. */
  lemma ExportHeaderShape()
    ensures ExportHeader != [] && !IsWhitespace(ExportHeader[0]) && '\n' !in ExportHeader
    ensures forall i :: 0 <= i < |ExportHeader| ==> !('A' <= ExportHeader[i] <= 'Z')
  {
  }

  /** No field of the export's header is a required column, since each of those holds a capital. */
  lemma ExportHeaderLacksRequired(h: string)
    requires h == ExportHeader
    ensures forall c :: c in RequiredHeaders ==> c !in Fields(h)
  {
    ExportHeaderShape();
    forall k | 0 <= k < |RequiredHeaders| ensures RequiredHeaders[k] !in Fields(h) {
      var c := RequiredHeaders[k];
      var i := if 'A' <= c[4] <= 'Z' then 4 else 5;
      assert 'A' <= c[i] <= 'Z';
      if c in Fields(h) {
        FieldChars(h, c, c[i]);
      }
    }
  }

  /**
   * Feeding the downloaded file back to the batch runner always fails: the export carries no
   * measurement columns. An empty run's export has no data row; any other export is reported
   * as missing all ten required columns.
   */
  lemma ReingestFails(env: Environment, fmt: Formatter, results: seq<BatchResult>)
    ensures results == [] ==> Process(env, ExportCsv(fmt, results)) == Failure(TooFewLines)
    ensures results != [] ==>
      Process(env, ExportCsv(fmt, results)) == Failure(MissingPrefix + Join(RequiredHeaders, ", "))
  {
    var ls := ExportLines(fmt, results);
    var header := ls[0];
    ExportHeaderShape();
    TrimEmptyIffBlank(header);
    if results == [] {
      assert ls == [header];
      assert ExportCsv(fmt, results) == header;
      SplitNoSeparator(header, '\n');
      assert NonBlank([header]) == [header] + NonBlank([]);
    } else {
      var rest := Join(ls[1..], "\n");
      assert ExportCsv(fmt, results) == header + "\n" + rest;
      SplitConcat(header, rest, '\n');
      assert ',' in rest by {
        var fields := ExportFields(fmt, results[0]);
        assert ls[1] == fields[0] + "," + Join(fields[1..], ",");
        assert ls[1][|fields[0]|] == ',';
        if |ls[1..]| > 1 {
          assert rest == ls[1] + "\n" + Join(ls[2..], "\n");
        }
        assert rest[|fields[0]|] == ',';
      }
      CommaLineKept(rest);
      NonBlankAppend([header], Split(rest, '\n'));
      assert NonBlank([header]) == [header] + NonBlank([]);
      ExportHeaderLacksRequired(header);
      MissingAll(Fields(header), RequiredHeaders);
    }
  }

  /** Text holding a comma has a line that is not blank. */
  lemma CommaLineKept(s: string)
    requires ',' in s
    ensures NonBlank(Split(s, '\n')) != []
  {
    var parts := Split(s, '\n');
    JoinSplit(s, '\n');
    if forall p :: p in parts ==> ',' !in p {
      JoinAvoids(parts, "\n", ',');
      assert false;
    }
    var p :| p in parts && ',' in p;
    TrimEmptyIffBlank(p);
    NonBlankMembers(parts, p);
  }

  /** `results.filter(r => r.result.prediction === verdict).length` */
  function CountLabel(results: seq<BatchResult>, verdict: Label): (n: nat)
    ensures n <= |results|
  {
    if results == [] then 0
    else CountLabel(results[..|results| - 1], verdict) + (if results[|results| - 1].result.prediction == verdict then 1 else 0)
  }

  /** The Benign and Malignant counts of the summary add up to the number of predictions. */
  lemma {:induction false} CountsAddUp(results: seq<BatchResult>)
    ensures CountLabel(results, Benign) + CountLabel(results, Malignant) == |results|
  {
    if results != [] {
      CountsAddUp(results[..|results| - 1]);
    }
  }

  /** Adding one more scored row raises exactly the count of its label. */
  lemma CountAppend(results: seq<BatchResult>, b: BatchResult, verdict: Label)
    ensures CountLabel(results + [b], verdict) == CountLabel(results, verdict) + (if b.result.prediction == verdict then 1 else 0)
  {
    assert (results + [b])[..|results|] == results;
  }
}
