/**
 * The employee-records job object (`ETLPipeline` in pipeline.py): extract
 * reads a workbook, transform applies the rule set on a copy of the frame,
 * load hands the result to the database, and run_pipeline chains the three,
 * stopping at the first absent result. The workbook read and the database
 * write are outside the model: the read's outcome is a parameter, and each
 * step is recorded in the job's call log.
 */
module Pipeline {
  import opened Wrappers
  import opened Frames
  import opened Transform

  /** What reading the workbook gives. */
  datatype Source = Sheet(table: Table) | FileNotFound | EmptyData

  /** A step the job took, in the order taken. */
  datatype Call =
    | ExtractCall(filePath: string)
    | TransformCall
    | LoadCall(dbUrl: string, tableName: string, table: Table)

  /** Which of the three messages run_pipeline ends with. */
  datatype Report = ExtractionFailed | TransformationFailed | LoadAttempted

  /** A source whose sheet, if any, is a well-formed table. */
  predicate Readable(source: Source) {
    source.Sheet? ==> WellFormed(source.table)
  }

  /** The steps one run takes. */
  function RunCalls(dbUrl: string, filePath: string, tableName: string, source: Source, todayYear: int): (calls: seq<Call>)
    requires Readable(source)
    ensures 1 <= |calls| <= 3 && calls[0] == ExtractCall(filePath)
  {
    if !source.Sheet? then [ExtractCall(filePath)]
    else [ExtractCall(filePath), TransformCall] + LoadSteps(dbUrl, tableName, Transformed(source.table, todayYear))
  }

  /** The load that follows a transform: one when it returned a table, none otherwise. */
  function LoadSteps(dbUrl: string, tableName: string, cleaned: Option<Table>): (calls: seq<Call>)
    ensures |calls| <= 1
    ensures forall x :: LoadCall(dbUrl, tableName, x) in calls <==> cleaned == Some(x)
  {
    if cleaned.Some? then [LoadCall(dbUrl, tableName, cleaned.value)] else []
  }

  /** A run transforms exactly when the workbook was read. */
  lemma RunTransformsIffRead(dbUrl: string, filePath: string, tableName: string, source: Source, todayYear: int)
    requires Readable(source)
    ensures TransformCall in RunCalls(dbUrl, filePath, tableName, source, todayYear) <==> source.Sheet?
  {
    var calls := RunCalls(dbUrl, filePath, tableName, source, todayYear);
    if source.Sheet? {
      assert calls[1] == TransformCall;
    }
  }

  /** A run loads exactly the table the transform stage returns, and nothing when it returns none. */
  lemma RunLoadsTransformed(dbUrl: string, filePath: string, tableName: string, source: Source, todayYear: int)
    requires Readable(source)
    ensures forall x :: LoadCall(dbUrl, tableName, x) in RunCalls(dbUrl, filePath, tableName, source, todayYear) <==>
      source.Sheet? && Transformed(source.table, todayYear) == Some(x)
  {
    if source.Sheet? {
      AfterTransform(dbUrl, filePath, tableName, Transformed(source.table, todayYear));
    }
  }

  /** Loading, when it happens, is a run's last step. */
  lemma RunLoadIsLast(dbUrl: string, filePath: string, tableName: string, source: Source, todayYear: int)
    requires Readable(source)
    ensures var calls := RunCalls(dbUrl, filePath, tableName, source, todayYear);
      forall i :: 0 <= i < |calls| && calls[i].LoadCall? ==> i == |calls| - 1
  {
    if source.Sheet? {
      AfterTransform(dbUrl, filePath, tableName, Transformed(source.table, todayYear));
    }
  }

  /** The steps of a run that read the workbook, whatever the transform returned. */
  lemma AfterTransform(dbUrl: string, filePath: string, tableName: string, cleaned: Option<Table>)
    ensures var calls := [ExtractCall(filePath), TransformCall] + LoadSteps(dbUrl, tableName, cleaned);
      && (forall x :: LoadCall(dbUrl, tableName, x) in calls <==> cleaned == Some(x))
      && (forall i :: 0 <= i < |calls| && calls[i].LoadCall? ==> i == |calls| - 1)
  {
    var calls := [ExtractCall(filePath), TransformCall] + LoadSteps(dbUrl, tableName, cleaned);
    assert calls[0] == ExtractCall(filePath) && calls[1] == TransformCall;
    forall x ensures LoadCall(dbUrl, tableName, x) in calls <==> LoadCall(dbUrl, tableName, x) in LoadSteps(dbUrl, tableName, cleaned) {
    }
  }

  /** How one run ends. */
  function RunReport(source: Source, todayYear: int): (report: Report)
    requires Readable(source)
    ensures report == ExtractionFailed <==> !source.Sheet?
    ensures report == TransformationFailed <==> source.Sheet? && Transformed(source.table, todayYear).None?
    ensures report == LoadAttempted <==> source.Sheet? && Transformed(source.table, todayYear).Some?
  {
    match source
    case Sheet(t) => if Transformed(t, todayYear).Some? then LoadAttempted else TransformationFailed
    case _ => ExtractionFailed
  }

  /** A loaded table is one the rule set accepts: it carries every column and tag the stage promises. */
  lemma LoadedTableIsClean(dbUrl: string, filePath: string, tableName: string, source: Source, todayYear: int, x: Table)
    requires Readable(source)
    requires LoadCall(dbUrl, tableName, x) in RunCalls(dbUrl, filePath, tableName, source, todayYear)
    ensures source.Sheet? && Admissible(source.table) && WellFormed(x)
    ensures ColumnSet(x) == OutputNames(ColumnSet(source.table))
    ensures x.kinds == OutputKinds(source.table.kinds)
    ensures forall k :: 0 <= k < |x.rows| ==> forall c :: c in x.rows[k] ==> !Substitutable(x.rows[k][c], Replacements)
  {
    RunLoadsTransformed(dbUrl, filePath, tableName, source, todayYear);
    TransformedSome(source.table, todayYear);
    TransformedNames(source.table, todayYear);
    TransformedKinds(source.table, todayYear);
    TransformedClean(source.table, todayYear);
  }

  class ETLPipeline {
    const dbUrl: string
    /** The steps taken so far. */
    var calls: seq<Call>

    constructor (dbUrl: string)
      ensures this.dbUrl == dbUrl && calls == []
    {
      this.dbUrl := dbUrl;
      calls := [];
    }

    /** `extract`: the sheet as a frame, or nothing when the file is missing or empty. */
    method Extract(filePath: string, source: Source) returns (df: Option<DataFrame>)
      requires Readable(source)
      modifies this
      ensures calls == old(calls) + [ExtractCall(filePath)]
      ensures df.Some? <==> source.Sheet?
      ensures df.Some? ==> fresh(df.value) && df.value.Valid() && df.value.Value() == source.table
    {
      calls := calls + [ExtractCall(filePath)];
      match source {
        case Sheet(t) =>
          var frame := new DataFrame(t);
          df := Some(frame);
        case _ =>
          df := None;
      }
    }

    /**
     * `transform`: the rule set applied step by step to a copy of the frame;
     * nothing when a step finds no column to work on or a birth date is not
     * a date. The caller's frame is left as it was.
     */
    method Transform(df: DataFrame, todayYear: int) returns (out: Option<DataFrame>)
      requires df.Valid()
      modifies this
      ensures calls == old(calls) + [TransformCall]
      ensures out.Some? <==> Transformed(df.Value(), todayYear).Some?
      ensures out.Some? ==> fresh(out.value) && out.value.Valid() && out.value.Value() == Transformed(df.Value(), todayYear).value
    {
      calls := calls + [TransformCall];
      if |df.rows| == 0 {
        return None;
      }
      var frame := df.Copy();
      var ok := Prepare(frame);
      if !ok {
        return None;
      }
      ghost var p := frame.Value();
      ok := AddBirthFields(frame, todayYear);
      if !ok {
        return None;
      }
      ok := Canonicalize(frame);
      if !ok {
        return None;
      }
      out := TagColumns(frame);
    }

    /** Deduplicate by ID, drop the four columns, derive Work Hours. */
    method Prepare(frame: DataFrame) returns (ok: bool)
      requires frame.Valid()
      modifies frame
      ensures ok <==> Prepared(old(frame.Value())).Some?
      ensures ok ==> frame.Valid() && frame.Value() == Prepared(old(frame.Value())).value
    {
      ok := frame.DropDuplicates("ID");
      if !ok {
        return;
      }
      ok := frame.Drop(DroppedColumns);
      if !ok {
        return;
      }
      var contract := frame.Select("Contract Type");
      if contract.None? {
        return false;
      }
      frame.Assign("Work Hours", HoursColumn(contract.value));
    }

    /**
     * Derive Age and Month of Birth from the birth dates. Fails when there
     * is no such column or, where the source raises instead, when one of
     * its cells is not a date; see TransformAsWritten.
     */
    method AddBirthFields(frame: DataFrame, todayYear: int) returns (ok: bool)
      requires frame.Valid()
      modifies frame
      ensures ok <==> "Date of Birth" in old(frame.columns) && AllDates(Column(old(frame.Value()), "Date of Birth"))
      ensures ok ==> frame.Valid() && "Date of Birth" in old(frame.columns) && frame.Value() == Dated(old(frame.Value()), todayYear)
    {
      var dob := frame.Select("Date of Birth");
      if dob.None? || !AllDates(dob.value) {
        return false;
      }
      frame.Assign("Age", AgeColumn(dob.value, todayYear));
      dob := frame.Select("Date of Birth");
      frame.Assign("Month of Birth", MonthColumn(dob.value));
      ok := true;
    }

    /** Rename Address to City, then substitute the canonical values. */
    method Canonicalize(frame: DataFrame) returns (ok: bool)
      requires frame.Valid()
      modifies frame
      ensures ok <==> Canonical(old(frame.Value())).Some?
      ensures ok ==> frame.Valid() && frame.Value() == Canonical(old(frame.Value())).value
    {
      if "Address" in frame.columns && "City" in frame.columns {
        return false;
      }
      frame.Rename("Address", "City");
      frame.Replace(Replacements);
      ok := true;
    }

    /** The eight `astype` steps, each on its own column. */
    method TagColumns(frame: DataFrame) returns (out: Option<DataFrame>)
      requires frame.Valid()
      modifies frame
      ensures out.Some? <==> Tagged(old(frame.Value())).Some?
      ensures out.Some? ==> out.value == frame && frame.Valid() && frame.Value() == Tagged(old(frame.Value())).value
    {
      TaggedValue(frame.Value());
      var ok := frame.AsType("First Name", Textual);
      if ok { ok := frame.AsType("Last Name", Textual); }
      if ok { ok := frame.AsType("Department", Textual); }
      if ok { ok := frame.AsType("City", Categorical); }
      if ok { ok := frame.AsType("Country", Categorical); }
      if ok { ok := frame.AsType("Contract Type", Categorical); }
      if ok { ok := frame.AsType("Gender", Categorical); }
      if ok { ok := frame.AsType("Month of Birth", Textual); }
      out := if ok then Some(frame) else None;
    }

    /** `load`: the table handed to the database under the given name; a failed write is reported, never raised. */
    method Load(df: DataFrame, tableName: string)
      modifies this
      ensures calls == old(calls) + [LoadCall(dbUrl, tableName, df.Value())]
    {
      calls := calls + [LoadCall(dbUrl, tableName, df.Value())];
    }

    /** `run_pipeline`: extract, then transform, then load, stopping at the first absent result. */
    method RunPipeline(filePath: string, tableName: string, source: Source, todayYear: int) returns (report: Report)
      requires Readable(source)
      modifies this
      ensures calls == old(calls) + RunCalls(dbUrl, filePath, tableName, source, todayYear)
      ensures report == RunReport(source, todayYear)
    {
      var df := Extract(filePath, source);
      if df.Some? {
        report := TransformAndLoad(df.value, tableName, todayYear);
      } else {
        report := ExtractionFailed;
      }
    }

    /** The part of `run_pipeline` after a successful extract. */
    method TransformAndLoad(df: DataFrame, tableName: string, todayYear: int) returns (report: Report)
      requires df.Valid()
      modifies this
      ensures calls == old(calls) + [TransformCall] + LoadSteps(dbUrl, tableName, Transformed(df.Value(), todayYear))
      ensures report == if Transformed(df.Value(), todayYear).Some? then LoadAttempted else TransformationFailed
    {
      var cleaned := Transform(df, todayYear);
      if cleaned.Some? {
        Load(cleaned.value, tableName);
        report := LoadAttempted;
      } else {
        report := TransformationFailed;
      }
    }
  }
}
