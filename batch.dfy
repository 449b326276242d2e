/**
 * The batch runner: CSV text in, either the error it throws or the scored records and the
 * numbers of the rows it skipped. The file is split into non-blank lines; the first line is the
 * header, every other line is a data row. A row whose field count differs from the header's is
 * skipped (and reported with its 1-based line number among the non-blank lines); every other row
 * becomes a patient record, looked up column by column through the header, and is scored.
 */
module BatchPrediction {
  import opened Wrappers
  import opened Numbers
  import opened Text
  import opened Types
  import MlModel

  /**
   * What the runner takes from its JavaScript environment: the logistic function behind
   * `Math.exp`, the parsers `parseFloat` and `parseInt` (NaN for text they cannot read), and the
   * value `Date.now()` returns while row `i` is being built.
   */
  datatype Environment = Environment(
    sigmoid: real -> real,
    parseFloat: string -> Number,
    parseInt: string -> Number,
    clock: nat -> nat)

  /** One scored row: the record built from it and the prediction made for it. */
  datatype BatchResult = BatchResult(data: PatientData, result: PredictionResult)

  /** A completed run: the scored rows in input order and the numbers of the skipped rows. */
  datatype Outcome = Outcome(results: seq<BatchResult>, skipped: seq<nat>)

  const TooFewLines: string := "CSV file must contain at least a header row and one data row"
  const MissingPrefix: string := "Missing required columns: "

  /** The columns a header must name, in the order they are reported when missing. */
  const RequiredHeaders: seq<string> := [
    "meanRadius", "meanTexture", "meanPerimeter", "meanArea", "meanSmoothness",
    "worstRadius", "worstTexture", "worstPerimeter", "worstArea", "worstSmoothness"
  ]

  /** The required columns are exactly the measurement keys, in key order. */
  lemma RequiredHeadersAreKeys()
    ensures |RequiredHeaders| == |Features|
    ensures forall k :: 0 <= k < |Features| ==> RequiredHeaders[k] == Key(Features[k])
  {
  }

  // ---------------------------------------------------------------------------------------
  // Lines and fields

  /** `lines.filter(line => line.trim())`: the lines that are not whitespace only, in order. */
  function NonBlank(lines: seq<string>): seq<string> {
    if lines == [] then []
    else (if Trim(lines[0]) != "" then [lines[0]] else []) + NonBlank(lines[1..])
  }

  /** A line is kept exactly when it is one of the lines and is not whitespace only. */
  lemma {:induction false} NonBlankMembers(lines: seq<string>, l: string)
    ensures l in NonBlank(lines) <==> l in lines && Trim(l) != ""
  {
    if lines != [] {
      NonBlankMembers(lines[1..], l);
      assert lines == [lines[0]] + lines[1..];
    }
  }

  /** Filtering a concatenation filters each part in turn, so the kept lines keep their order. */
  lemma {:induction false} NonBlankAppend(a: seq<string>, b: seq<string>)
    ensures NonBlank(a + b) == NonBlank(a) + NonBlank(b)
  {
    if a == [] {
      assert a + b == b;
    } else {
      var h := if Trim(a[0]) != "" then [a[0]] else [];
      assert (a + b)[0] == a[0];
      assert (a + b)[1..] == a[1..] + b;
      calc {
        NonBlank(a + b);
        h + NonBlank(a[1..] + b);
        { NonBlankAppend(a[1..], b); }
        h + (NonBlank(a[1..]) + NonBlank(b));
        (h + NonBlank(a[1..])) + NonBlank(b);
      }
    }
  }

  /** The non-blank lines of the file. */
  function Lines(text: string): seq<string> {
    NonBlank(Split(text, '\n'))
  }

  /** `line.split(',').map(v => v.trim())` */
  function Fields(line: string): seq<string> {
    var parts := Split(line, ',');
    seq(|parts|, k requires 0 <= k < |parts| => Trim(parts[k]))
  }

  /** Every character of a field comes from its line. */
  lemma FieldChars(line: string, v: string, c: char)
    requires v in Fields(line) && c in v
    ensures c in line
  {
    var parts := Split(line, ',');
    var k :| 0 <= k < |parts| && Fields(line)[k] == v;
    TrimChars(parts[k], c);
    SplitPieceChars(line, ',', parts[k], c);
  }

  /** `required.filter(h => !headers.includes(h))` */
  function Missing(headers: seq<string>, required: seq<string>): seq<string> {
    if required == [] then []
    else (if required[0] in headers then [] else [required[0]]) + Missing(headers, required[1..])
  }

  /** A name is reported exactly when it is required and absent from the header. */
  lemma {:induction false} MissingMembers(headers: seq<string>, required: seq<string>, h: string)
    ensures h in Missing(headers, required) <==> h in required && h !in headers
  {
    if required != [] {
      MissingMembers(headers, required[1..], h);
      assert required == [required[0]] + required[1..];
    }
  }

  /** The missing names of a concatenation are those of each part in turn: `Missing` keeps order. */
  lemma {:induction false} MissingAppend(headers: seq<string>, a: seq<string>, b: seq<string>)
    ensures Missing(headers, a + b) == Missing(headers, a) + Missing(headers, b)
  {
    if a == [] {
      assert a + b == b;
    } else {
      var h := if a[0] in headers then [] else [a[0]];
      assert (a + b)[0] == a[0];
      assert (a + b)[1..] == a[1..] + b;
      calc {
        Missing(headers, a + b);
        h + Missing(headers, a[1..] + b);
        { MissingAppend(headers, a[1..], b); }
        h + (Missing(headers, a[1..]) + Missing(headers, b));
        (h + Missing(headers, a[1..])) + Missing(headers, b);
      }
    }
  }

  /** When every required name is absent, all of them are reported, in their own order. */
  lemma {:induction false} MissingAll(headers: seq<string>, required: seq<string>)
    requires forall h :: h in required ==> h !in headers
    ensures Missing(headers, required) == required
  {
    if required != [] {
      MissingAll(headers, required[1..]);
    }
  }

  /** When every required name is present, none is reported. */
  lemma {:induction false} MissingNone(headers: seq<string>, required: seq<string>)
    requires forall h :: h in required ==> h in headers
    ensures Missing(headers, required) == []
  {
    if required != [] {
      MissingNone(headers, required[1..]);
    }
  }

  /** When exactly one required name is absent, it alone is reported. */
  lemma {:induction false} MissingOnly(headers: seq<string>, required: seq<string>, k: nat)
    requires k < |required|
    requires required[k] !in headers
    requires forall j :: 0 <= j < |required| && j != k ==> required[j] in headers
    ensures Missing(headers, required) == [required[k]]
  {
    if k == 0 {
      forall h | h in required[1..] ensures h in headers {
        var j :| 0 <= j < |required[1..]| && required[1..][j] == h;
        assert required[j + 1] == h;
      }
      MissingNone(headers, required[1..]);
    } else {
      MissingOnly(headers, required[1..], k - 1);
    }
  }

  // ---------------------------------------------------------------------------------------
  // Building a record from a row

  /** `values[headers.indexOf(name)]`: the cell under the first column called `name`, or undefined. */
  function Cell(headers: seq<string>, values: seq<string>, name: string): (c: Option<string>)
    ensures c.Some? <==> name in headers && IndexOf(headers, name) < |values|
  {
    var k := IndexOf(headers, name);
    if 0 <= k < |values| then Some(values[k]) else None
  }

  /** `parseFloat` of a measurement's cell; `parseFloat(undefined)` is NaN. */
  function Measure(env: Environment, headers: seq<string>, values: seq<string>, f: Feature): Number {
    match Cell(headers, values, Key(f))
    case Some(v) => env.parseFloat(v)
    case None => NaN
  }

  /** The identifier `P<Date.now()>-<i>` given to row `i` when it has no id of its own. */
  function SynthesizedId(token: nat, i: nat): (id: string)
    ensures id != "" && id[0] == 'P'
  {
    "P" + NatToString(token) + "-" + NatToString(i)
  }

  /** The cell's text when the cell exists and is not empty: the truthy case of `cell || ...`. */
  function NonEmpty(c: Option<string>): Option<string> {
    if c.Some? && c.value != "" then c else None
  }

  /** The record built from the fields `values` of data row `i`. */
  function BuildRecord(env: Environment, headers: seq<string>, values: seq<string>, i: nat): (d: PatientData)
    ensures d.id != ""
  {
    var id := NonEmpty(Cell(headers, values, "id"));
    var age := NonEmpty(Cell(headers, values, "age"));
    PatientData(
      if id.Some? then id.value else SynthesizedId(env.clock(i), i),
      NonEmpty(Cell(headers, values, "name")),
      if age.Some? then Some(env.parseInt(age.value)) else None,
      Measure(env, headers, values, MeanRadius),
      Measure(env, headers, values, MeanTexture),
      Measure(env, headers, values, MeanPerimeter),
      Measure(env, headers, values, MeanArea),
      Measure(env, headers, values, MeanSmoothness),
      Measure(env, headers, values, WorstRadius),
      Measure(env, headers, values, WorstTexture),
      Measure(env, headers, values, WorstPerimeter),
      Measure(env, headers, values, WorstArea),
      Measure(env, headers, values, WorstSmoothness))
  }

  /** A measurement of the record is `parseFloat` of the cell under the measurement's column. */
  lemma RecordMeasurement(env: Environment, headers: seq<string>, values: seq<string>, i: nat, f: Feature)
    requires |values| == |headers| && Key(f) in headers
    ensures 0 <= IndexOf(headers, Key(f)) < |values|
    ensures BuildRecord(env, headers, values, i).Value(f) == env.parseFloat(values[IndexOf(headers, Key(f))])
  {
    var d := BuildRecord(env, headers, values, i);
    assert d.Value(f) == Measure(env, headers, values, f) by {
      match f
      case MeanRadius =>
      case MeanTexture =>
      case MeanPerimeter =>
      case MeanArea =>
      case MeanSmoothness =>
      case WorstRadius =>
      case WorstTexture =>
      case WorstPerimeter =>
      case WorstArea =>
      case WorstSmoothness =>
    }
  }

  /**
   * The id of the record is the row's own when its id cell is given and not empty, and the
   * synthesized one otherwise; an empty or absent name or age is undefined, and a given age is
   * `parseInt` of its cell.
   */
  lemma RecordIdentity(env: Environment, headers: seq<string>, values: seq<string>, i: nat)
    requires |values| == |headers|
    ensures var d := BuildRecord(env, headers, values, i);
      && ("id" in headers && values[IndexOf(headers, "id")] != "" ==> d.id == values[IndexOf(headers, "id")])
      && ("id" !in headers || values[IndexOf(headers, "id")] == "" ==> d.id == SynthesizedId(env.clock(i), i))
      && (d.name.None? <==> "name" !in headers || values[IndexOf(headers, "name")] == "")
      && (d.name.Some? ==> d.name.value == values[IndexOf(headers, "name")])
      && (d.age.None? <==> "age" !in headers || values[IndexOf(headers, "age")] == "")
      && (d.age.Some? ==> d.age.value == env.parseInt(values[IndexOf(headers, "age")]))
  {
  }

  /** Ids synthesized for two different rows differ, whatever `Date.now()` returned for each. */
  lemma SynthesizedIdsDistinct(t1: nat, i: nat, t2: nat, j: nat)
    requires i != j
    ensures SynthesizedId(t1, i) != SynthesizedId(t2, j)
  {
    NatToStringHasNoDash(i);
    NatToStringHasNoDash(j);
    AfterLastDashOf("P" + NatToString(t1), NatToString(i));
    AfterLastDashOf("P" + NatToString(t2), NatToString(j));
    if NatToString(i) == NatToString(j) {
      NatToStringInjective(i, j);
    }
  }

  lemma NatToStringHasNoDash(n: nat)
    ensures '-' !in NatToString(n)
  {
    var s := NatToString(n);
    forall k | 0 <= k < |s| ensures s[k] != '-' {
      assert IsDigit(s[k]);
    }
  }

  // ---------------------------------------------------------------------------------------
  // Moving columns around

  predicate Distinct(xs: seq<string>) {
    forall i, j :: 0 <= i < j < |xs| ==> xs[i] != xs[j]
  }

  /** `p` and `q` are inverse permutations of the positions `0 .. n - 1`. */
  predicate InversePermutations(p: seq<nat>, q: seq<nat>, n: nat) {
    && |p| == n && |q| == n
    && (forall k :: 0 <= k < n ==> p[k] < n && q[p[k]] == k)
    && (forall k :: 0 <= k < n ==> q[k] < n && p[q[k]] == k)
  }

  /** The columns of `xs` rearranged so that column `k` is the old column `p[k]`. */
  function Permute(xs: seq<string>, p: seq<nat>): (ys: seq<string>)
    requires forall k :: 0 <= k < |p| ==> p[k] < |xs|
    ensures |ys| == |p| && forall k :: 0 <= k < |p| ==> ys[k] == xs[p[k]]
  {
    seq(|p|, k requires 0 <= k < |p| => xs[p[k]])
  }

  /** Moving a column moves its first occurrence along with it. */
  lemma CellPermuted(headers: seq<string>, values: seq<string>, p: seq<nat>, q: seq<nat>, name: string)
    requires |values| == |headers| && Distinct(headers)
    requires InversePermutations(p, q, |headers|)
    ensures Cell(Permute(headers, p), Permute(values, p), name) == Cell(headers, values, name)
  {
    var h2 := Permute(headers, p);
    if name in headers {
      var k := IndexOf(headers, name);
      assert h2[q[k]] == name;
      forall j | 0 <= j < q[k] ensures h2[j] != name {
        assert h2[j] == headers[p[j]];
      }
    } else {
      forall j | 0 <= j < |h2| ensures h2[j] != name {
        assert headers[p[j]] in headers;
      }
    }
  }

  /**
   * Reordering the columns of the header and of a row in the same way builds the same record,
   * as long as no column name is repeated.
   */
  lemma BuildRecordPermuted(env: Environment, headers: seq<string>, values: seq<string>, p: seq<nat>, q: seq<nat>, i: nat)
    requires |values| == |headers| && Distinct(headers)
    requires InversePermutations(p, q, |headers|)
    ensures BuildRecord(env, Permute(headers, p), Permute(values, p), i) == BuildRecord(env, headers, values, i)
  {
    forall name {
      CellPermuted(headers, values, p, q, name);
    }
  }

  // ---------------------------------------------------------------------------------------
  // The run

  /** Data row `i` scored: the record built from it and the prediction made for it. */
  function Entry(env: Environment, headers: seq<string>, lines: seq<string>, i: nat): BatchResult
    requires i < |lines|
  {
    var d := BuildRecord(env, headers, Fields(lines[i]), i);
    BatchResult(d, MlModel.Prediction(env.sigmoid, d))
  }

  /** The state of the loop once it has walked data rows `1 .. n - 1`. */
  function RunRows(env: Environment, headers: seq<string>, lines: seq<string>, n: nat): Outcome
    requires 1 <= n <= |lines|
  {
    if n == 1 then Outcome([], [])
    else
      var o := RunRows(env, headers, lines, n - 1);
      if |Fields(lines[n - 1])| != |headers| then Outcome(o.results, o.skipped + [n])
      else Outcome(o.results + [Entry(env, headers, lines, n - 1)], o.skipped)
  }

  /** What a run returns: the error it throws, or the finished loop. */
  function Process(env: Environment, text: string): Result<Outcome, string> {
    var lines := Lines(text);
    if |lines| < 2 then Failure(TooFewLines)
    else
      var headers := Fields(lines[0]);
      var missing := Missing(headers, RequiredHeaders);
      if |missing| > 0 then Failure(MissingPrefix + Join(missing, ", "))
      else Success(RunRows(env, headers, lines, |lines|))
  }

  /** `processBatchPrediction`, from the text of the file to the results it stores or the error it shows. */
  method ProcessBatchPrediction(env: Environment, text: string) returns (r: Result<Outcome, string>)
    ensures r == Process(env, text)
  {
    var lines := Lines(text);
    if |lines| < 2 {
      return Failure(TooFewLines);
    }
    var headers := Fields(lines[0]);
    var missingHeaders := Missing(headers, RequiredHeaders);
    if |missingHeaders| > 0 {
      return Failure(MissingPrefix + Join(missingHeaders, ", "));
    }
    var o := ProcessRows(env, headers, lines);
    return Success(o);
  }

  /** The loop over the data rows of `processBatchPrediction`. */
  method ProcessRows(env: Environment, headers: seq<string>, lines: seq<string>) returns (o: Outcome)
    requires |lines| >= 1
    ensures o == RunRows(env, headers, lines, |lines|)
  {
    var batchResults: seq<BatchResult> := [];
    var skipped: seq<nat> := [];
    for i := 1 to |lines|
      invariant Outcome(batchResults, skipped) == RunRows(env, headers, lines, i)
    {
      var values := Fields(lines[i]);
      if |values| != |headers| {
        skipped := skipped + [i + 1];
        continue;
      }
      var patientData := BuildRecord(env, headers, values, i);
      var result := MlModel.PredictBreastCancer(env.sigmoid, patientData);
      batchResults := batchResults + [BatchResult(patientData, result)];
    }
    return Outcome(batchResults, skipped);
  }

  // ---------------------------------------------------------------------------------------
  // Which rows are scored and which are skipped

  /** The data rows among `1 .. n - 1` whose field count matches the header's, in order. */
  function AcceptedRows(headers: seq<string>, lines: seq<string>, n: nat): (rows: seq<nat>)
    requires 1 <= n <= |lines|
    ensures forall k :: 0 <= k < |rows| ==> 1 <= rows[k] < n
    ensures forall i :: i in rows <==> 1 <= i < n && |Fields(lines[i])| == |headers|
    ensures forall a, b :: 0 <= a < b < |rows| ==> rows[a] < rows[b]
  {
    if n == 1 then []
    else
      var rows := AcceptedRows(headers, lines, n - 1);
      if |Fields(lines[n - 1])| == |headers| then rows + [n - 1] else rows
  }

  /** The 1-based numbers of the data rows among `1 .. n - 1` whose field count is wrong, in order. */
  function SkippedRows(headers: seq<string>, lines: seq<string>, n: nat): (numbers: seq<nat>)
    requires 1 <= n <= |lines|
    ensures forall k :: 0 <= k < |numbers| ==> 2 <= numbers[k] <= n
    ensures forall r :: r in numbers <==> 2 <= r <= n && |Fields(lines[r - 1])| != |headers|
    ensures forall a, b :: 0 <= a < b < |numbers| ==> numbers[a] < numbers[b]
  {
    if n == 1 then []
    else
      var numbers := SkippedRows(headers, lines, n - 1);
      if |Fields(lines[n - 1])| != |headers| then numbers + [n] else numbers
  }

  /**
   * The loop scores exactly the accepted rows, in input order, each by its own record, and
   * reports exactly the skipped ones; every data row is one or the other.
   */
  lemma {:induction false} RunRowsSpec(env: Environment, headers: seq<string>, lines: seq<string>, n: nat)
    requires 1 <= n <= |lines|
    ensures var o, rows := RunRows(env, headers, lines, n), AcceptedRows(headers, lines, n);
      && |o.results| == |rows|
      && (forall k :: 0 <= k < |rows| ==> o.results[k] == Entry(env, headers, lines, rows[k]))
      && o.skipped == SkippedRows(headers, lines, n)
      && |o.results| + |o.skipped| == n - 1
  {
    if n > 1 {
      RunRowsSpec(env, headers, lines, n - 1);
    }
  }

  /**
   * A run fails on a file with fewer than two non-blank lines, with the message saying so; any
   * other failure is a missing-columns failure, whose message starts "Missing required columns: ".
   */
  lemma TooFewLinesFail(env: Environment, text: string)
    ensures |Lines(text)| < 2 ==> Process(env, text) == Failure(TooFewLines)
    ensures |Lines(text)| >= 2 && Process(env, text).Failure? ==> MissingPrefix <= Process(env, text).error
  {
  }

  /**
   * A file with a header and at least one data row fails exactly when its header lacks a
   * required column, and the message lists the missing names, in the order of
   * `RequiredHeaders`, after "Missing required columns: ".
   */
  lemma MissingColumnsFail(env: Environment, text: string)
    requires |Lines(text)| >= 2
    ensures var headers := Fields(Lines(text)[0]);
      && (Process(env, text).Failure? <==> exists h :: h in RequiredHeaders && h !in headers)
      && (Process(env, text).Failure? ==>
            Process(env, text).error == MissingPrefix + Join(Missing(headers, RequiredHeaders), ", "))
  {
    var headers := Fields(Lines(text)[0]);
    var missing := Missing(headers, RequiredHeaders);
    if exists h :: h in RequiredHeaders && h !in headers {
      var h :| h in RequiredHeaders && h !in headers;
      MissingMembers(headers, RequiredHeaders, h);
    } else if |missing| > 0 {
      MissingMembers(headers, RequiredHeaders, missing[0]);
    }
  }

  /** A header lacking exactly one required column fails with a message naming that column alone. */
  lemma OneMissingColumn(env: Environment, text: string, k: nat)
    requires |Lines(text)| >= 2 && k < |RequiredHeaders|
    requires RequiredHeaders[k] !in Fields(Lines(text)[0])
    requires forall j :: 0 <= j < |RequiredHeaders| && j != k ==> RequiredHeaders[j] in Fields(Lines(text)[0])
    ensures Process(env, text) == Failure(MissingPrefix + RequiredHeaders[k])
  {
    MissingOnly(Fields(Lines(text)[0]), RequiredHeaders, k);
  }

  /**
   * A successful run covers every data row: the scored rows are the accepted ones in input
   * order, each paired with the record it builds and that record's prediction, and the skipped
   * row numbers are the rest.
   */
  lemma SuccessfulRun(env: Environment, text: string)
    requires Process(env, text).Success?
    ensures var lines, o := Lines(text), Process(env, text).value;
      var headers, rows := Fields(lines[0]), AcceptedRows(Fields(lines[0]), lines, |lines|);
      && |lines| >= 2
      && (forall h :: h in RequiredHeaders ==> h in headers)
      && |o.results| == |rows|
      && (forall k :: 0 <= k < |rows| ==> o.results[k] == Entry(env, headers, lines, rows[k]))
      && o.skipped == SkippedRows(headers, lines, |lines|)
      && |o.results| + |o.skipped| == |lines| - 1
  {
    var lines := Lines(text);
    var headers := Fields(lines[0]);
    if exists h :: h in RequiredHeaders && h !in headers {
      var h :| h in RequiredHeaders && h !in headers;
      MissingMembers(headers, RequiredHeaders, h);
    }
    RunRowsSpec(env, headers, lines, |lines|);
  }

  /** Two scored rows that carried no id of their own get different ids. */
  lemma ResultIdsDistinct(env: Environment, headers: seq<string>, lines: seq<string>, a: nat, b: nat)
    requires 1 <= |lines|
    requires var rows := AcceptedRows(headers, lines, |lines|);
      && a < b < |rows|
      && NonEmpty(Cell(headers, Fields(lines[rows[a]]), "id")).None?
      && NonEmpty(Cell(headers, Fields(lines[rows[b]]), "id")).None?
    ensures var o := RunRows(env, headers, lines, |lines|);
      && |o.results| == |AcceptedRows(headers, lines, |lines|)|
      && o.results[a].data.id != o.results[b].data.id
  {
    var rows := AcceptedRows(headers, lines, |lines|);
    RunRowsSpec(env, headers, lines, |lines|);
    SynthesizedIdsDistinct(env.clock(rows[a]), rows[a], env.clock(rows[b]), rows[b]);
  }
}
