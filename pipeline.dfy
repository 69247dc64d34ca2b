/**
 * The row loop of `transcript` and the noise-line filter of `clean_file`:
 * every row starts from an empty register, each of its cells is
 * classified in header order, and a complete register is corrected and
 * written to the voucher file and the VAT-rate file; an exception aborts
 * the run with what was written so far left in the files.
 */
module Pipeline {
  import opened Wrappers
  import opened Text
  import opened Normalizers
  import opened Registers
  import opened Encoder

  /** The cells of one row, in the order of the header's columns. */
  type Row = seq<string>

  // ---------------------------------------------------------------------
  // One row

  /**
   * `for feat in header: parse(row[feat], feat, register)`, stopping at the
   * first exception; each cell is paired with its column's header.
   */
  function ClassifyCells(reg: Fields, cells: seq<string>, header: seq<string>): Result<Fields, Fatal>
    decreases |cells|
  {
    if |cells| == 0 || |header| == 0 then Ok(reg)
    else
      match Classify(reg, cells[0], header[0])
      case Err(e) => Err(e)
      case Ok(next) => ClassifyCells(next, cells[1..], header[1..])
  }

  /** The register of one row: classification from an empty register. */
  function ClassifyRow(header: seq<string>, row: Row): Result<Fields, Fatal> {
    ClassifyCells(map[], row, header)
  }

  /**
   * What one row contributes to the two files: nothing for an incomplete
   * register; otherwise the records of the corrected register.
   */
  function RowOutput(header: seq<string>, row: Row): Result<(string, string), Fatal> {
    match ClassifyRow(header, row)
    case Err(e) => Err(e)
    case Ok(f) =>
      if !IsValidRegister(f) then Ok(("", ""))
      else
        match Corrected(f)
        case Err(e) => Err(e)
        case Ok(g) =>
          CorrectionChangesOnlyType(f);
          Ok((CbteLine(g), AlicuotaLine(g)))
  }

  /** What one row gives: its two records (possibly empty), or the exception that aborts the run. */
  type RowResult = Result<(string, string), Fatal>

  /** The state a run leaves behind: the two files' text and the exception that stopped it, if any. */
  datatype Run = Run(cbte: string, alicuotas: string, failure: Option<Fatal>)

  /** A run followed by one more row: nothing after an exception, else the row's records or its exception. */
  function Extend(prev: Run, result: RowResult): Run {
    if prev.failure.Some? then prev
    else
      match result
      case Err(e) => Run(prev.cbte, prev.alicuotas, Some(e))
      case Ok((c, a)) => Run(prev.cbte + c, prev.alicuotas + a, None)
  }

  /** The run over the row results in order; after an exception no further row counts. */
  function RunOf(results: seq<RowResult>): Run
    decreases |results|
  {
    if |results| == 0 then Run("", "", None)
    else Extend(RunOf(results[..|results| - 1]), results[|results| - 1])
  }

  /** The run over a prefix one row longer. */
  lemma RunOfSnoc(results: seq<RowResult>, i: nat)
    requires i < |results|
    ensures RunOf(results[..i + 1]) == Extend(RunOf(results[..i]), results[i])
  {
    assert results[..i + 1][..i] == results[..i];
  }

  /** The results of the rows in order. */
  function MapRows(step: Row -> RowResult, rows: seq<Row>): (r: seq<RowResult>)
    ensures |r| == |rows|
  {
    seq(|rows|, k requires 0 <= k < |rows| => step(rows[k]))
  }

  /** One row's result, as a function of the row alone: nothing carries over from earlier rows. */
  function RowStep(header: seq<string>): Row -> RowResult {
    row => RowOutput(header, row)
  }

  /** The run of `transcript` over the rows. */
  function TranscriptRun(header: seq<string>, rows: seq<Row>): Run {
    RunOf(MapRows(RowStep(header), rows))
  }

  // ---------------------------------------------------------------------
  // Properties of a run

  /** Once a run has stopped, later rows change nothing. */
  lemma {:induction false} AbortIsFinal(results: seq<RowResult>, k: nat)
    requires k <= |results|
    requires RunOf(results[..k]).failure.Some?
    ensures RunOf(results) == RunOf(results[..k])
    decreases |results| - k
  {
    if k < |results| {
      assert results[..|results| - 1][..k] == results[..k];
      AbortIsFinal(results[..|results| - 1], k);
    } else {
      assert results[..k] == results;
    }
  }

  /**
   * No state crosses rows: a run over results1 followed by results2 is the
   * run over results1 with the run over results2 appended, when the first
   * part did not abort.
   */
  lemma {:induction false} RunAppend(results1: seq<RowResult>, results2: seq<RowResult>)
    requires RunOf(results1).failure.None?
    ensures var r1, r2 := RunOf(results1), RunOf(results2);
      RunOf(results1 + results2) == Run(r1.cbte + r2.cbte, r1.alicuotas + r2.alicuotas, r2.failure)
    decreases |results2|
  {
    var results := results1 + results2;
    if |results2| == 0 {
      assert results == results1;
    } else {
      var init, last := results2[..|results2| - 1], results2[|results2| - 1];
      RunAppend(results1, init);
      assert results[..|results| - 1] == results1 + init;
      assert results[|results| - 1] == last;
      var r1, ri := RunOf(results1), RunOf(init);
      var prev := RunOf(results1 + init);
      assert prev == Run(r1.cbte + ri.cbte, r1.alicuotas + ri.alicuotas, ri.failure);
      if ri.failure.None? {
        match last
        case Err(e) =>
        case Ok((c, a)) =>
          assert (r1.cbte + ri.cbte) + c == r1.cbte + (ri.cbte + c);
          assert (r1.alicuotas + ri.alicuotas) + a == r1.alicuotas + (ri.alicuotas + a);
      }
    }
  }

  /** The results of consecutive blocks of rows are the blocks of results. */
  lemma MapRowsAppend(step: Row -> RowResult, rows1: seq<Row>, rows2: seq<Row>)
    ensures MapRows(step, rows1 + rows2) == MapRows(step, rows1) + MapRows(step, rows2)
  {
    var m, m1, m2 := MapRows(step, rows1 + rows2), MapRows(step, rows1), MapRows(step, rows2);
    forall k | 0 <= k < |m|
      ensures m[k] == (m1 + m2)[k]
    {
      if k < |rows1| {
        assert (rows1 + rows2)[k] == rows1[k];
      } else {
        assert (rows1 + rows2)[k] == rows2[k - |rows1|];
      }
    }
  }

  /** A row whose result is two empty records and no exception can be dropped from any run. */
  lemma SkipRow(step: Row -> RowResult, before: seq<Row>, row: Row, after: seq<Row>)
    requires RunOf(MapRows(step, before)).failure.None?
    requires step(row) == Ok(("", ""))
    ensures RunOf(MapRows(step, before + [row] + after)) == RunOf(MapRows(step, before + after))
  {
    var rb, ra := MapRows(step, before), MapRows(step, after);
    var skipped: RowResult := Ok(("", ""));
    assert [row][..0] == [];
    assert MapRows(step, [row]) == [skipped];
    MapRowsAppend(step, before, [row]);
    MapRowsAppend(step, before + [row], after);
    MapRowsAppend(step, before, after);
    assert [skipped][..0] == [];
    assert RunOf([skipped]) == Run("", "", None);
    RunAppend(rb, [skipped]);
    var r := RunOf(rb);
    assert r.cbte + "" == r.cbte && r.alicuotas + "" == r.alicuotas;
    assert RunOf(rb + [skipped]) == r;
    RunAppend(rb + [skipped], ra);
    RunAppend(rb, ra);
  }

  /**
   * A row whose register is incomplete leaves no trace: the run over the
   * rows around it is the run without it, later rows included.
   */
  lemma IncompleteRowIsSkipped(header: seq<string>, before: seq<Row>, row: Row, after: seq<Row>)
    requires TranscriptRun(header, before).failure.None?
    requires ClassifyRow(header, row).Ok? && !IsValidRegister(ClassifyRow(header, row).value)
    ensures TranscriptRun(header, before + [row] + after) == TranscriptRun(header, before + after)
  {
    assert RowStep(header)(row) == Ok(("", ""));
    SkipRow(RowStep(header), before, row, after);
  }

  /**
   * The run over two blocks of rows, in terms of the runs over each: the
   * second block is processed as if it came first, unless the first
   * block aborted.
   */
  lemma TranscriptAppend(header: seq<string>, rows1: seq<Row>, rows2: seq<Row>)
    ensures var r1, r2 := TranscriptRun(header, rows1), TranscriptRun(header, rows2);
      TranscriptRun(header, rows1 + rows2) ==
        if r1.failure.Some? then r1 else Run(r1.cbte + r2.cbte, r1.alicuotas + r2.alicuotas, r2.failure)
  {
    var step := RowStep(header);
    MapRowsAppend(step, rows1, rows2);
    var m1, m2 := MapRows(step, rows1), MapRows(step, rows2);
    if RunOf(m1).failure.Some? {
      assert (m1 + m2)[..|m1|] == m1;
      AbortIsFinal(m1 + m2, |m1|);
    } else {
      RunAppend(m1, m2);
    }
  }

  /** Classifying the cells of a row keeps every field in its normalised shape. */
  lemma {:induction false} ClassifyCellsKeepsShapes(reg: Fields, cells: seq<string>, header: seq<string>)
    requires WellFormed(reg)
    requires ClassifyCells(reg, cells, header).Ok?
    ensures WellFormed(ClassifyCells(reg, cells, header).value)
    decreases |cells|
  {
    if |cells| > 0 && |header| > 0 {
      ClassifyKeepsShapes(reg, cells[0], header[0]);
      ClassifyCellsKeepsShapes(Classify(reg, cells[0], header[0]).value, cells[1..], header[1..]);
    }
  }

  /**
   * The records a row produces come from its complete register after the
   * correction: that register has every field in its normalised shape and
   * no "A" voucher in it has a positive taxed base with zero VAT.
   */
  lemma RowRecordsComeFromCorrectedRegister(header: seq<string>, row: Row)
    requires RowOutput(header, row).Ok? && RowOutput(header, row).value != ("", "")
    ensures exists f, g ::
      (ClassifyRow(header, row) == Ok(f) && IsValidRegister(f) && Corrected(f) == Ok(g) &&
       IsValidRegister(g) && WellFormed(g) &&
       RowOutput(header, row).value == (CbteLine(g), AlicuotaLine(g)) &&
       !(IsA(g) && ParseInt(g[ImpNetoGrav]).Some? && ParseInt(g[ImpNetoGrav]).value > 0 && ParseInt(g[Iva]) == Some(0)))
  {
    var f := ClassifyRow(header, row).value;
    ClassifyCellsKeepsShapes(map[], row, header);
    var g := Corrected(f).value;
    CorrectionChangesOnlyType(f);
    CorrectionKeepsShapes(f);
    CorrectedIsConsistent(f);
  }

  /**
   * The shape of what one row writes: either nothing in both files, or a
   * voucher record of at least 325 characters ending in CRLF and a VAT-rate
   * record that is empty or at least 84 characters plus CRLF.
   */
  predicate RecordsShaped(c: string, a: string) {
    (c == "" ==> a == "") &&
    (c != "" ==> |c| >= CbteWidth + |CRLF| && c[|c| - 2..] == CRLF) &&
    (a != "" ==> |a| >= AlicuotaWidth + |CRLF|)
  }

  /** The records of a complete, well-formed register have that shape. */
  lemma RegisterRecordsShaped(g: Fields)
    requires IsValidRegister(g) && WellFormed(g)
    ensures RecordsShaped(CbteLine(g), AlicuotaLine(g))
  {
    CbteLength(g);
    AlicuotaLength(g);
  }

  /** The row's register is complete and, after the correction, an "A" voucher. */
  predicate CorrectedIsA(header: seq<string>, row: Row) {
    ClassifyRow(header, row).Ok? && IsValidRegister(ClassifyRow(header, row).value) &&
    var f := ClassifyRow(header, row).value;
    Corrected(f).Ok? && TipoCompra in Corrected(f).value && IsA(Corrected(f).value)
  }

  /**
   * Every row writes records of that shape, and it writes a VAT-rate
   * record exactly when its corrected register is an "A" voucher.
   */
  lemma RowRecordsShape(header: seq<string>, row: Row)
    requires RowOutput(header, row).Ok?
    ensures RecordsShaped(RowOutput(header, row).value.0, RowOutput(header, row).value.1)
    ensures RowOutput(header, row).value.1 != "" <==> CorrectedIsA(header, row)
  {
    var f := ClassifyRow(header, row).value;
    if IsValidRegister(f) {
      ClassifyCellsKeepsShapes(map[], row, header);
      CorrectionChangesOnlyType(f);
      CorrectionKeepsShapes(f);
      var g := Corrected(f).value;
      RegisterRecordsShaped(g);
      AlicuotaLength(g);
      assert RowOutput(header, row).value == (CbteLine(g), AlicuotaLine(g));
    } else {
      assert RowOutput(header, row).value == ("", "");
    }
  }

  // ---------------------------------------------------------------------
  // The row loop

  /** The first half of one pass of the row loop: a fresh register, every cell classified in header order. */
  method ClassifyInto(header: seq<string>, row: Row) returns (register: Register, failure: Option<Fatal>)
    requires |row| == |header|
    ensures fresh(register)
    ensures ClassifyRow(header, row).Ok? ==> failure == None && register.fields == ClassifyRow(header, row).value
    ensures ClassifyRow(header, row).Err? ==> failure == Some(ClassifyRow(header, row).error)
  {
    register := new Register();
    failure := None;
    var j := 0;
    while j < |header|
      invariant 0 <= j <= |header|
      invariant ClassifyCells(register.fields, row[j..], header[j..]) == ClassifyRow(header, row)
      invariant failure == None
    {
      failure := register.Parse(row[j], header[j]);
      if failure.Some? {
        return;
      }
      assert row[j..][1..] == row[j + 1..] && header[j..][1..] == header[j + 1..];
      j := j + 1;
    }
    assert ClassifyRow(header, row) == Ok(register.fields);
  }

  /**
   * One pass of the row loop of `transcript`: the register of the row,
   * then, for a complete register, the correction and both records.
   */
  method TranscribeRow(header: seq<string>, row: Row, cbte: OutputFile, alicuotas: OutputFile) returns (failure: Option<Fatal>)
    requires |row| == |header| && cbte != alicuotas
    modifies cbte, alicuotas
    ensures Run(cbte.text, alicuotas.text, failure) == Extend(Run(old(cbte.text), old(alicuotas.text), None), RowOutput(header, row))
  {
    var register;
    register, failure := ClassifyInto(header, row);
    if failure.Some? {
      return;
    }
    if IsValidRegister(register.fields) {
      ghost var f := register.fields;
      failure := register.CorrectCompTipo();
      if failure.Some? {
        return;
      }
      CorrectionChangesOnlyType(f);
      PrintCbte(register, cbte);
      PrintAlicuotas(register, alicuotas);
    }
  }

  /**
   * The body of `transcript` over in-memory rows: opens both files, runs
   * every row, and returns the files and the exception that stopped the
   * run, if any.
   */
  method Transcript(header: seq<string>, rows: seq<Row>) returns (cbte: OutputFile, alicuotas: OutputFile, failure: Option<Fatal>)
    requires forall k :: 0 <= k < |rows| ==> |rows[k]| == |header|
    ensures fresh(cbte) && fresh(alicuotas) && cbte != alicuotas
    ensures Run(cbte.text, alicuotas.text, failure) == TranscriptRun(header, rows)
  {
    cbte := new OutputFile();
    alicuotas := new OutputFile();
    failure := None;
    ghost var results := MapRows(RowStep(header), rows);
    var i := 0;
    while i < |rows|
      invariant 0 <= i <= |rows|
      invariant fresh(cbte) && fresh(alicuotas) && cbte != alicuotas
      invariant RunOf(results[..i]) == Run(cbte.text, alicuotas.text, None)
      invariant failure == None
    {
      RunOfSnoc(results, i);
      failure := TranscribeRow(header, rows[i], cbte, alicuotas);
      if failure.Some? {
        AbortIsFinal(results, i + 1);
        return;
      }
      i := i + 1;
    }
    assert results[..i] == results;
  }

  // ---------------------------------------------------------------------
  // The noise-line filter of `clean_file`

  /** Line `index` is kept unless it repeats the column header (after the first line) or is a page-carry line. */
  predicate KeepLine(index: nat, line: string) {
    (index == 0 || !Contains(line, "Raz. social")) && !Contains(line, "Transporte:")
  }

  /** The lines `clean_file` keeps, in order. */
  function Cleaned(lines: seq<string>): seq<string>
    decreases |lines|
  {
    if |lines| == 0 then []
    else
      var n := |lines| - 1;
      Cleaned(lines[..n]) + (if KeepLine(n, lines[n]) then [lines[n]] else [])
  }

  /** The loop of `clean_file` over the lines it read. */
  method CleanLines(lines: seq<string>) returns (newlines: seq<string>)
    ensures newlines == Cleaned(lines)
  {
    newlines := [];
    var index := 0;
    while index < |lines|
      invariant 0 <= index <= |lines|
      invariant newlines == Cleaned(lines[..index])
    {
      var line := lines[index];
      assert lines[..index + 1][..index] == lines[..index];
      if KeepLine(index, line) {
        newlines := newlines + [line];
      }
      index := index + 1;
    }
    assert lines[..index] == lines;
  }

  /**
   * The filter drops the noise: the result is never longer, a file with no
   * noise lines comes out unchanged, no kept line carries a page total, and
   * only the first line may repeat the header.
   */
  lemma CleanedDropsNoise(lines: seq<string>)
    ensures |Cleaned(lines)| <= |lines|
    ensures (forall i :: 0 <= i < |lines| ==> KeepLine(i, lines[i])) ==> Cleaned(lines) == lines
    ensures forall k :: 0 <= k < |Cleaned(lines)| ==> !Contains(Cleaned(lines)[k], "Transporte:")
    ensures forall k :: 0 < k < |Cleaned(lines)| ==> !Contains(Cleaned(lines)[k], "Raz. social")
    ensures |Cleaned(lines)| > 0 && Contains(Cleaned(lines)[0], "Raz. social") ==> |lines| > 0 && Cleaned(lines)[0] == lines[0]
  {
    CleanedLength(lines);
    CleanedAllKept(lines);
    CleanedNoNoise(lines);
  }

  lemma {:induction false} CleanedLength(lines: seq<string>)
    ensures |Cleaned(lines)| <= |lines|
    decreases |lines|
  {
    if |lines| > 0 {
      CleanedLength(lines[..|lines| - 1]);
    }
  }

  lemma {:induction false} CleanedAllKept(lines: seq<string>)
    ensures (forall i :: 0 <= i < |lines| ==> KeepLine(i, lines[i])) ==> Cleaned(lines) == lines
    decreases |lines|
  {
    if |lines| > 0 {
      var n := |lines| - 1;
      CleanedAllKept(lines[..n]);
      if forall i :: 0 <= i < |lines| ==> KeepLine(i, lines[i]) {
        assert forall i :: 0 <= i < n ==> KeepLine(i, lines[..n][i]);
        assert lines[..n] + [lines[n]] == lines;
      }
    }
  }

  lemma {:induction false} CleanedNoNoise(lines: seq<string>)
    ensures forall k :: 0 <= k < |Cleaned(lines)| ==> !Contains(Cleaned(lines)[k], "Transporte:")
    ensures forall k :: 0 < k < |Cleaned(lines)| ==> !Contains(Cleaned(lines)[k], "Raz. social")
    ensures |Cleaned(lines)| > 0 && Contains(Cleaned(lines)[0], "Raz. social") ==> |lines| > 0 && Cleaned(lines)[0] == lines[0]
    decreases |lines|
  {
    if |lines| > 0 {
      var n := |lines| - 1;
      CleanedNoNoise(lines[..n]);
      var c := Cleaned(lines[..n]);
      if KeepLine(n, lines[n]) {
        assert Cleaned(lines) == c + [lines[n]];
        if |c| == 0 && Contains(lines[n], "Raz. social") {
          assert n == 0;
        }
      } else {
        assert Cleaned(lines) == c;
      }
    }
  }

  /** The positions of the lines the filter keeps, in increasing order. */
  function KeptIndices(lines: seq<string>): seq<nat>
    decreases |lines|
  {
    if |lines| == 0 then []
    else
      var n := |lines| - 1;
      KeptIndices(lines[..n]) + (if KeepLine(n, lines[n]) then [n] else [])
  }

  /**
   * The filter is a selection: the kept lines are the lines at increasing
   * positions, and a position is among them exactly when its line passes
   * the test of `clean_file`, so every good line stays and every noise line
   * goes.
   */
  lemma CleanedSelects(lines: seq<string>)
    ensures var ix := KeptIndices(lines);
      |ix| == |Cleaned(lines)| &&
      (forall k :: 0 <= k < |ix| ==> ix[k] < |lines| && Cleaned(lines)[k] == lines[ix[k]]) &&
      (forall k, l :: 0 <= k < l < |ix| ==> ix[k] < ix[l]) &&
      (forall i :: 0 <= i < |lines| ==> (i in ix <==> KeepLine(i, lines[i])))
  {
    KeptIndicesIncrease(lines);
    KeptIndicesPick(lines);
    KeptIndicesMembers(lines);
  }

  lemma {:induction false} KeptIndicesIncrease(lines: seq<string>)
    ensures forall k :: 0 <= k < |KeptIndices(lines)| ==> KeptIndices(lines)[k] < |lines|
    ensures forall k, l :: 0 <= k < l < |KeptIndices(lines)| ==> KeptIndices(lines)[k] < KeptIndices(lines)[l]
    decreases |lines|
  {
    if |lines| > 0 {
      var n := |lines| - 1;
      KeptIndicesIncrease(lines[..n]);
      var ix0, ix := KeptIndices(lines[..n]), KeptIndices(lines);
      assert forall k :: 0 <= k < |ix0| ==> ix0[k] < n;
      if KeepLine(n, lines[n]) {
        assert ix == ix0 + [n];
      } else {
        assert ix == ix0;
      }
    }
  }

  lemma {:induction false} KeptIndicesPick(lines: seq<string>)
    ensures var ix := KeptIndices(lines);
      |ix| == |Cleaned(lines)| && forall k :: 0 <= k < |ix| && ix[k] < |lines| ==> Cleaned(lines)[k] == lines[ix[k]]
    decreases |lines|
  {
    if |lines| > 0 {
      var n := |lines| - 1;
      var init := lines[..n];
      KeptIndicesPick(init);
      KeptIndicesIncrease(init);
      var ix0, c0 := KeptIndices(init), Cleaned(init);
      var ix, c := KeptIndices(lines), Cleaned(lines);
      forall k | 0 <= k < |ix| && ix[k] < |lines| ensures c[k] == lines[ix[k]] {
        if k < |ix0| {
          assert ix[k] == ix0[k] && c[k] == c0[k];
          assert init[ix0[k]] == lines[ix0[k]];
        } else {
          assert ix[k] == n && c[k] == lines[n];
        }
      }
    }
  }

  lemma {:induction false} KeptIndicesMembers(lines: seq<string>)
    ensures forall i :: 0 <= i < |lines| ==> (i in KeptIndices(lines) <==> KeepLine(i, lines[i]))
    decreases |lines|
  {
    if |lines| > 0 {
      var n := |lines| - 1;
      var init := lines[..n];
      KeptIndicesMembers(init);
      KeptIndicesIncrease(init);
      var ix0 := KeptIndices(init);
      assert forall k :: 0 <= k < |ix0| ==> ix0[k] < n;
      assert n !in ix0;
      forall i | 0 <= i < |lines| ensures i in KeptIndices(lines) <==> KeepLine(i, lines[i]) {
        if i < n {
          assert init[i] == lines[i];
        }
      }
    }
  }

  /** Cleaning a cleaned file changes nothing, so a second run over the same file reads the same rows. */
  lemma CleanedIdempotent(lines: seq<string>)
    ensures Cleaned(Cleaned(lines)) == Cleaned(lines)
  {
    var c := Cleaned(lines);
    CleanedDropsNoise(lines);
    assert forall i :: 0 <= i < |c| ==> KeepLine(i, c[i]);
    CleanedDropsNoise(c);
  }
}
