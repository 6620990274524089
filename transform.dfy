/**
 * The transform stage of the employee-records job (`ETLPipeline.transform`
 * in pipeline.py) as a function of the extracted table: its fixed rule set,
 * when it succeeds, and what its output holds.
 */
module Transform {
  import opened Wrappers
  import opened Helper
  import opened Frames

  // ---------------------------------------------------------------------------
  // The rule set's configuration.
  // ---------------------------------------------------------------------------

  /** Sensitive or unneeded columns removed after deduplication. */
  const DroppedColumns: seq<string> := ["Place of Birth", "Emergency Contact ID", "Email", "Phone"]

  const DroppedSet: set<string> := set c | c in DroppedColumns

  /** Raw cell values and their canonical forms. */
  const Replacements: map<string, string> :=
    map["IT" := "Information Technology", "USA" := "United States of America"]

  /** The columns given a type tag at the end, with their tags. */
  const TextColumns: set<string> := {"First Name", "Last Name", "Department", "Month of Birth"}
  const CategoryColumns: set<string> := {"City", "Country", "Contract Type", "Gender"}

  // ---------------------------------------------------------------------------
  // Cell-level derivations.
  // ---------------------------------------------------------------------------

  /** `set_hours` applied to a cell; a cell that is not text compares unequal to both contract names. */
  function HoursCell(c: Cell): Cell {
    Number(if c.Text? then SetHours(c.s) else 0)
  }

  /** `calculate_age` applied to a cell; a missing date gives a missing age. */
  function AgeCell(c: Cell, todayYear: int): Cell {
    match c
    case When(d) => Number(CalculateAge(d, todayYear))
    case _ => Missing
  }

  /** `dt.month_name()` of a cell; a missing date gives a missing name. */
  function MonthCell(c: Cell): Cell {
    match c
    case When(d) => Text(MonthName(d.month))
    case _ => Missing
  }

  /** A cell a date column may hold. */
  predicate IsDateLike(c: Cell) {
    c.When? || c.Missing?
  }

  predicate AllDates(col: seq<Cell>) {
    forall i :: 0 <= i < |col| ==> IsDateLike(col[i])
  }

  function HoursColumn(col: seq<Cell>): (r: seq<Cell>)
    ensures |r| == |col| && forall i :: 0 <= i < |r| ==> r[i] == HoursCell(col[i])
  {
    seq(|col|, i requires 0 <= i < |col| => HoursCell(col[i]))
  }

  function AgeColumn(col: seq<Cell>, todayYear: int): (r: seq<Cell>)
    ensures |r| == |col| && forall i :: 0 <= i < |r| ==> r[i] == AgeCell(col[i], todayYear)
  {
    seq(|col|, i requires 0 <= i < |col| => AgeCell(col[i], todayYear))
  }

  function MonthColumn(col: seq<Cell>): (r: seq<Cell>)
    ensures |r| == |col| && forall i :: 0 <= i < |r| ==> r[i] == MonthCell(col[i])
  {
    seq(|col|, i requires 0 <= i < |col| => MonthCell(col[i]))
  }

  // ---------------------------------------------------------------------------
  // The transform stage as a function of the input table.
  // ---------------------------------------------------------------------------

  /** Deduplicate by ID, drop the four columns, derive Work Hours. */
  function Prepared(t: Table): (r: Option<Table>)
    requires WellFormed(t)
    ensures r.Some? ==> WellFormed(r.value)
  {
    var deduped :- Deduplicated(t, "ID");
    var trimmed :- Dropped(deduped, DroppedColumns);
    if "Contract Type" in trimmed.columns then
      Some(WithColumn(trimmed, "Work Hours", HoursColumn(Column(trimmed, "Contract Type"))))
    else None
  }

  /** Derive Age and Month of Birth from a date column. */
  function Dated(t: Table, todayYear: int): (r: Table)
    requires WellFormed(t) && "Date of Birth" in t.columns
    ensures WellFormed(r)
  {
    var aged := WithColumn(t, "Age", AgeColumn(Column(t, "Date of Birth"), todayYear));
    WithColumn(aged, "Month of Birth", MonthColumn(Column(aged, "Date of Birth")))
  }

  /**
   * Rename Address to City, then substitute the canonical values. Absent
   * when both Address and City are columns, a collision the model's
   * distinct column names cannot hold.
   */
  function Canonical(t: Table): (r: Option<Table>)
    requires WellFormed(t)
    ensures r.Some? ==> WellFormed(r.value)
  {
    if "Address" in t.columns && "City" in t.columns then None
    else Some(Replaced(Renamed(t, "Address", "City"), Replacements))
  }

  /** The eight type tags, in the order they are applied. */
  function Tagged(t: Table): (r: Option<Table>)
    requires WellFormed(t)
    ensures r.Some? ==> WellFormed(r.value)
  {
    var t1 :- Retyped(t, "First Name", Textual);
    var t2 :- Retyped(t1, "Last Name", Textual);
    var t3 :- Retyped(t2, "Department", Textual);
    var t4 :- Retyped(t3, "City", Categorical);
    var t5 :- Retyped(t4, "Country", Categorical);
    var t6 :- Retyped(t5, "Contract Type", Categorical);
    var t7 :- Retyped(t6, "Gender", Categorical);
    Retyped(t7, "Month of Birth", Textual)
  }

  /** Everything after the birth-date check. */
  function Finished(t: Table, todayYear: int): (r: Option<Table>)
    requires WellFormed(t) && "Date of Birth" in t.columns
    ensures r.Some? ==> WellFormed(r.value)
  {
    var renamed :- Canonical(Dated(t, todayYear));
    Tagged(renamed)
  }

  /**
   * The transform stage: absent on an empty table, on any missing column or
   * on a kept birth-date cell that is not a date, otherwise the cleaned table.
   */
  function Transformed(t: Table, todayYear: int): (r: Option<Table>)
    requires WellFormed(t)
    ensures r.Some? ==> WellFormed(r.value)
  {
    if |t.rows| == 0 then None else Staged(t, todayYear)
  }

  /** The steps of the stage, on a table with rows. */
  function Staged(t: Table, todayYear: int): (r: Option<Table>)
    requires WellFormed(t)
    ensures r.Some? ==> WellFormed(r.value)
  {
    var prepared :- Prepared(t);
    if "Date of Birth" !in prepared.columns || !AllDates(Column(prepared, "Date of Birth")) then None
    else Finished(prepared, todayYear)
  }

  // ---------------------------------------------------------------------------
  // What each stage does.
  // ---------------------------------------------------------------------------

  lemma PreparedSome(t: Table)
    requires WellFormed(t)
    ensures Prepared(t).Some? <==>
      "ID" in t.columns && (forall c :: c in DroppedColumns ==> c in t.columns) && "Contract Type" in t.columns
  {
    if "ID" in t.columns {
      var deduped := Deduplicated(t, "ID").value;
      if Dropped(deduped, DroppedColumns).Some? {
        var trimmed := Dropped(deduped, DroppedColumns).value;
        assert "Contract Type" in ColumnSet(trimmed) <==> "Contract Type" in ColumnSet(t);
      }
    }
  }

  /** The intermediate tables of Prepared, named. */
  lemma PreparedSteps(t: Table) returns (trimmed: Table)
    requires WellFormed(t) && Prepared(t).Some?
    ensures "ID" in t.columns && WellFormed(trimmed) && "Contract Type" in trimmed.columns
    ensures trimmed == Dropped(Deduplicated(t, "ID").value, DroppedColumns).value
    ensures Prepared(t) == Some(WithColumn(trimmed, "Work Hours", HoursColumn(Column(trimmed, "Contract Type"))))
    ensures ColumnSet(trimmed) == ColumnSet(t) - DroppedSet
    ensures |trimmed.rows| == |KeepFirst(t.rows, "ID")|
    ensures forall k :: 0 <= k < |trimmed.rows| ==> trimmed.rows[k] == KeepFirst(t.rows, "ID")[k] - DroppedSet
    ensures trimmed.kinds == t.kinds - DroppedSet
  {
    var deduped := Deduplicated(t, "ID").value;
    trimmed := Dropped(deduped, DroppedColumns).value;
  }

  lemma PreparedShape(t: Table)
    requires WellFormed(t) && Prepared(t).Some?
    ensures "ID" in t.columns && "Contract Type" in t.columns && HasKey(t.rows, "ID")
    ensures ColumnSet(Prepared(t).value) == ColumnSet(t) - DroppedSet + {"Work Hours"}
    ensures |Prepared(t).value.rows| == |KeepFirst(t.rows, "ID")|
  {
    var trimmed := PreparedSteps(t);
  }

  lemma PreparedRows(t: Table)
    requires WellFormed(t) && Prepared(t).Some?
    ensures "ID" in t.columns && HasKey(t.rows, "ID")
    ensures var p := Prepared(t).value;
      var kept := KeepFirst(t.rows, "ID");
      && |p.rows| == |kept|
      && forall k :: 0 <= k < |kept| ==>
           "Contract Type" in kept[k] && p.rows[k] == (kept[k] - DroppedSet)["Work Hours" := HoursCell(kept[k]["Contract Type"])]
  {
    var trimmed := PreparedSteps(t);
    var kept := KeepFirst(t.rows, "ID");
    var hours := HoursColumn(Column(trimmed, "Contract Type"));
    forall k | 0 <= k < |kept|
      ensures "Contract Type" in kept[k] && hours[k] == HoursCell(kept[k]["Contract Type"])
    {
      assert kept[k] in t.rows;
      assert Column(trimmed, "Contract Type")[k] == trimmed.rows[k]["Contract Type"];
    }
  }

  lemma PreparedKinds(t: Table)
    requires WellFormed(t) && Prepared(t).Some?
    ensures Prepared(t).value.kinds == (t.kinds - DroppedSet)["Work Hours" := Inferred]
  {
    var trimmed := PreparedSteps(t);
  }

  /** The birth-date check of the prepared table is a check of the kept input rows. */
  lemma PreparedDates(t: Table)
    requires WellFormed(t) && Prepared(t).Some? && "Date of Birth" in t.columns
    ensures "ID" in t.columns && HasKey(t.rows, "ID")
    ensures "Date of Birth" in Prepared(t).value.columns
    ensures var kept := KeepFirst(t.rows, "ID");
      AllDates(Column(Prepared(t).value, "Date of Birth")) <==>
        forall k :: 0 <= k < |kept| ==> "Date of Birth" in kept[k] && IsDateLike(kept[k]["Date of Birth"])
  {
    PreparedShape(t);
    PreparedRows(t);
    var p := Prepared(t).value;
    NamesKept(t, p);
    var kept := KeepFirst(t.rows, "ID");
    var col := Column(p, "Date of Birth");
    forall k | 0 <= k < |kept| ensures "Date of Birth" in kept[k] && col[k] == kept[k]["Date of Birth"] {
      assert kept[k] in t.rows;
      PreparedCell(kept[k], p.rows[k], "Date of Birth");
    }
  }

  /** A column Prepared neither drops nor derives keeps its cell. */
  lemma PreparedCell(r: Row, p: Row, name: string)
    requires "Contract Type" in r && p == (r - DroppedSet)["Work Hours" := HoursCell(r["Contract Type"])]
    requires name in r && name !in DroppedSet && name != "Work Hours"
    ensures name in p && p[name] == r[name]
  {
  }

  lemma DatedResult(t: Table, todayYear: int)
    requires WellFormed(t) && "Date of Birth" in t.columns
    ensures var d := Dated(t, todayYear);
      && ColumnSet(d) == ColumnSet(t) + {"Age", "Month of Birth"}
      && |d.rows| == |t.rows|
      && (forall k :: 0 <= k < |t.rows| ==>
            d.rows[k] == t.rows[k]["Age" := AgeCell(t.rows[k]["Date of Birth"], todayYear)]
                                  ["Month of Birth" := MonthCell(t.rows[k]["Date of Birth"])])
      && d.kinds == t.kinds["Age" := Inferred]["Month of Birth" := Inferred]
  {
  }

  lemma CanonicalResult(t: Table)
    requires WellFormed(t)
    ensures Canonical(t).Some? <==> !("Address" in t.columns && "City" in t.columns)
    ensures Canonical(t).Some? ==>
      var r := Canonical(t).value;
      && ColumnSet(r) == (if "Address" in t.columns then ColumnSet(t) - {"Address"} + {"City"} else ColumnSet(t))
      && |r.rows| == |t.rows|
      && (forall k :: 0 <= k < |t.rows| ==>
            r.rows[k] == ReplaceRow(if "Address" in t.rows[k] then RenameKey(t.rows[k], "Address", "City") else t.rows[k], Replacements))
      && r.kinds == if "Address" in t.columns then RenameKey(t.kinds, "Address", "City") else t.kinds
  {
    if !("Address" in t.columns && "City" in t.columns) {
      var renamed := Renamed(t, "Address", "City");
      forall k | 0 <= k < |t.rows|
        ensures renamed.rows[k] == if "Address" in t.rows[k] then RenameKey(t.rows[k], "Address", "City") else t.rows[k]
      {
        assert "Address" in t.rows[k] <==> "Address" in ColumnSet(t);
      }
    }
  }

  /** The tag map after the eight coercions. */
  function TagKinds(kinds: map<string, Kind>): map<string, Kind> {
    kinds["First Name" := Textual]["Last Name" := Textual]["Department" := Textual]
      ["City" := Categorical]["Country" := Categorical]["Contract Type" := Categorical]
      ["Gender" := Categorical]["Month of Birth" := Textual]
  }

  lemma TaggedValue(t: Table)
    requires WellFormed(t)
    ensures Tagged(t) == if TextColumns + CategoryColumns <= ColumnSet(t) then Some(t.(kinds := TagKinds(t.kinds))) else None
  {
    var cols := t.columns;
    assert TextColumns + CategoryColumns <= ColumnSet(t) <==>
      "First Name" in cols && "Last Name" in cols && "Department" in cols && "City" in cols
      && "Country" in cols && "Contract Type" in cols && "Gender" in cols && "Month of Birth" in cols;
  }

  lemma TaggedResult(t: Table)
    requires WellFormed(t)
    ensures Tagged(t).Some? <==> TextColumns + CategoryColumns <= ColumnSet(t)
    ensures Tagged(t).Some? ==> Tagged(t).value == t.(kinds := TagKinds(t.kinds))
  {
    TaggedValue(t);
  }

  lemma TagKindsResult(kinds: map<string, Kind>)
    ensures var r := TagKinds(kinds);
      && r.Keys == kinds.Keys + TextColumns + CategoryColumns
      && (forall c :: c in TextColumns ==> r[c] == Textual)
      && (forall c :: c in CategoryColumns ==> r[c] == Categorical)
      && (forall c :: c in r && c !in TextColumns + CategoryColumns ==> r[c] == kinds[c])
  {
    var r := TagKinds(kinds);
    assert r["First Name"] == Textual && r["Last Name"] == Textual;
    assert r["Department"] == Textual && r["Month of Birth"] == Textual;
    assert r["City"] == Categorical && r["Country"] == Categorical;
    assert r["Contract Type"] == Categorical && r["Gender"] == Categorical;
  }

  // ---------------------------------------------------------------------------
  // When the transform stage succeeds, and what it produces.
  // ---------------------------------------------------------------------------

  /** Columns every input needs, besides the ones Prepared checks. */
  const RequiredColumns: set<string> := {"First Name", "Last Name", "Department", "Country", "Gender"}

  /**
   * The inputs the transform stage accepts: the table has a row, the key,
   * the dropped columns, the derivation sources and every tagged column are
   * present, Address or City but not both, and every kept row's birth date
   * is a date or missing.
   */
  ghost predicate Admissible(t: Table)
    requires WellFormed(t)
  {
    && |t.rows| > 0
    && "ID" in t.columns
    && (forall c :: c in DroppedColumns ==> c in t.columns)
    && "Contract Type" in t.columns
    && "Date of Birth" in t.columns
    && RequiredColumns <= ColumnSet(t)
    && ("Address" in t.columns || "City" in t.columns)
    && !("Address" in t.columns && "City" in t.columns)
    && var kept := KeepFirst(t.rows, "ID");
       forall k :: 0 <= k < |kept| ==> "Date of Birth" in kept[k] && IsDateLike(kept[k]["Date of Birth"])
  }

  /** The column names of the output, given those of the input. */
  function OutputNames(names: set<string>): set<string> {
    (names - DroppedSet - {"Address"})
      + (if "Address" in names then {"City"} else {})
      + {"Work Hours", "Age", "Month of Birth"}
  }

  /** What one kept input row becomes, column by column. */
  function ExpectedRow(r: Row, todayYear: int): (o: Row)
    requires "Contract Type" in r && "Date of Birth" in r
    ensures o.Keys == OutputNames(r.Keys)
  {
    map c | c in OutputNames(r.Keys) ::
      if c == "Work Hours" then HoursCell(r["Contract Type"])
      else if c == "Age" then AgeCell(r["Date of Birth"], todayYear)
      else if c == "Month of Birth" then MonthCell(r["Date of Birth"])
      else if c == "City" && "Address" in r then ReplaceCell(r["Address"], Replacements)
      else ReplaceCell(r[c], Replacements)
  }

  /** No month name is a substitution key. */
  lemma MonthNamesNotReplaced(m: Month)
    ensures MonthName(m) !in Replacements
  {
  }

  /** What Dated, the rename and the substitution do to one row. */
  function FinishRow(p: Row, todayYear: int): Row
    requires "Date of Birth" in p
  {
    var d := p["Age" := AgeCell(p["Date of Birth"], todayYear)]["Month of Birth" := MonthCell(p["Date of Birth"])];
    ReplaceRow(if "Address" in d then RenameKey(d, "Address", "City") else d, Replacements)
  }

  /** The column names after Finished, given those it starts from. */
  function FinishedNames(names: set<string>): set<string> {
    names - {"Address"} + (if "Address" in names then {"City"} else {}) + {"Age", "Month of Birth"}
  }

  /** The tables Finished passes through, named. */
  lemma FinishedSteps(p: Table, todayYear: int) returns (d: Table)
    requires WellFormed(p) && "Date of Birth" in p.columns
    ensures d == Dated(p, todayYear) && WellFormed(d)
    ensures ColumnSet(d) == ColumnSet(p) + {"Age", "Month of Birth"}
    ensures ("Address" in d.columns <==> "Address" in p.columns) && ("City" in d.columns <==> "City" in p.columns)
    ensures Finished(p, todayYear) == if Canonical(d).None? then None else Tagged(Canonical(d).value)
  {
    d := Dated(p, todayYear);
    DatedResult(p, todayYear);
    assert "Address" in ColumnSet(d) <==> "Address" in ColumnSet(p);
    assert "City" in ColumnSet(d) <==> "City" in ColumnSet(p);
  }

  /** The column-name arithmetic of Dated followed by the rename. */
  lemma FinishedNamesFrom(names: set<string>, dated: set<string>, renamed: set<string>)
    requires dated == names + {"Age", "Month of Birth"}
    requires renamed == if "Address" in dated then dated - {"Address"} + {"City"} else dated
    ensures renamed == FinishedNames(names)
  {
  }

  /** The renamed table Finished tags, named. */
  lemma FinishedRenamed(p: Table, todayYear: int) returns (d: Table, c: Table)
    requires WellFormed(p) && "Date of Birth" in p.columns && !("Address" in p.columns && "City" in p.columns)
    ensures d == Dated(p, todayYear) && Canonical(d) == Some(c) && WellFormed(c)
    ensures ColumnSet(c) == FinishedNames(ColumnSet(p)) && |c.rows| == |p.rows|
    ensures Finished(p, todayYear) == Tagged(c)
    ensures c.kinds == MovedKinds(p.kinds["Age" := Inferred]["Month of Birth" := Inferred])
  {
    d := FinishedSteps(p, todayYear);
    CanonicalResult(d);
    DatedResult(p, todayYear);
    c := Canonical(d).value;
    assert "Address" in d.columns <==> "Address" in ColumnSet(d);
    FinishedNamesFrom(ColumnSet(p), ColumnSet(d), ColumnSet(c));
    assert "Address" in d.kinds <==> "Address" in d.columns;
  }

  lemma FinishedSome(p: Table, todayYear: int)
    requires WellFormed(p) && "Date of Birth" in p.columns
    ensures Finished(p, todayYear).Some? <==>
      !("Address" in p.columns && "City" in p.columns) && TextColumns + CategoryColumns <= FinishedNames(ColumnSet(p))
  {
    var d := FinishedSteps(p, todayYear);
    CanonicalResult(d);
    if !("Address" in p.columns && "City" in p.columns) {
      var d', c := FinishedRenamed(p, todayYear);
      TaggedResult(c);
    }
  }

  lemma FinishedShape(p: Table, todayYear: int)
    requires WellFormed(p) && "Date of Birth" in p.columns && Finished(p, todayYear).Some?
    ensures ColumnSet(Finished(p, todayYear).value) == FinishedNames(ColumnSet(p))
    ensures |Finished(p, todayYear).value.rows| == |p.rows|
  {
    FinishedSome(p, todayYear);
    var d, c := FinishedRenamed(p, todayYear);
    TaggedResult(c);
  }

  lemma FinishedRows(p: Table, todayYear: int)
    requires WellFormed(p) && "Date of Birth" in p.columns && Finished(p, todayYear).Some?
    ensures |Finished(p, todayYear).value.rows| == |p.rows|
    ensures forall k :: 0 <= k < |p.rows| ==>
      "Date of Birth" in p.rows[k] && Finished(p, todayYear).value.rows[k] == FinishRow(p.rows[k], todayYear)
  {
    var d := FinishedSteps(p, todayYear);
    DatedResult(p, todayYear);
    CanonicalResult(d);
    var c := Canonical(d).value;
    TaggedResult(c);
    forall k | 0 <= k < |p.rows| ensures "Date of Birth" in p.rows[k] && c.rows[k] == FinishRow(p.rows[k], todayYear) {
      assert "Address" in d.rows[k] <==> "Address" in ColumnSet(d);
    }
  }

  lemma FinishedKinds(p: Table, todayYear: int)
    requires WellFormed(p) && "Date of Birth" in p.columns && Finished(p, todayYear).Some?
    ensures Finished(p, todayYear).value.kinds == TagKinds(MovedKinds(p.kinds["Age" := Inferred]["Month of Birth" := Inferred]))
  {
    FinishedSome(p, todayYear);
    var d, c := FinishedRenamed(p, todayYear);
    TaggedResult(c);
  }

  /** The transform stage, as Prepared followed by Finished. */
  lemma TransformedSteps(t: Table, todayYear: int)
    requires WellFormed(t) && Transformed(t, todayYear).Some?
    ensures Prepared(t).Some? && "Date of Birth" in Prepared(t).value.columns
    ensures Transformed(t, todayYear) == Finished(Prepared(t).value, todayYear)
    ensures "Date of Birth" in t.columns
  {
    assert Transformed(t, todayYear) == Staged(t, todayYear);
    StagedSteps(t, todayYear);
  }

  /** The same, for the steps after the emptiness check. */
  lemma StagedSteps(t: Table, todayYear: int)
    requires WellFormed(t) && Staged(t, todayYear).Some?
    ensures Prepared(t).Some? && "Date of Birth" in Prepared(t).value.columns
    ensures Staged(t, todayYear) == Finished(Prepared(t).value, todayYear)
    ensures "Date of Birth" in t.columns
  {
    PreparedShape(t);
    assert "Date of Birth" in ColumnSet(Prepared(t).value);
  }

  /** The stage succeeds exactly on admissible inputs. */
  lemma TransformedSome(t: Table, todayYear: int)
    requires WellFormed(t)
    ensures Transformed(t, todayYear).Some? <==> Admissible(t)
  {
    PreparedSome(t);
    if Prepared(t).Some? {
      PreparedShape(t);
      var p := Prepared(t).value;
      NamesKept(t, p);
      if "Date of Birth" in t.columns {
        PreparedDates(t);
        FinishedSome(p, todayYear);
        ColumnsNeeded(ColumnSet(t), ColumnSet(p));
      }
    }
  }

  /** The columns Prepared neither drops nor adds are present before exactly when after. */
  lemma NamesKept(t: Table, p: Table)
    requires ColumnSet(p) == ColumnSet(t) - DroppedSet + {"Work Hours"}
    ensures "Date of Birth" in p.columns <==> "Date of Birth" in t.columns
    ensures "Address" in p.columns <==> "Address" in t.columns
    ensures "City" in p.columns <==> "City" in t.columns
  {
    assert "Date of Birth" in ColumnSet(p) <==> "Date of Birth" in ColumnSet(t);
    assert "Address" in ColumnSet(p) <==> "Address" in ColumnSet(t);
    assert "City" in ColumnSet(p) <==> "City" in ColumnSet(t);
  }

  /** The tagged columns exist after the renaming exactly when the input has the ones Admissible names. */
  lemma ColumnsNeeded(names: set<string>, prepared: set<string>)
    requires prepared == names - DroppedSet + {"Work Hours"}
    requires "Contract Type" in names
    ensures TextColumns + CategoryColumns <= FinishedNames(prepared)
      <==> RequiredColumns <= names && ("Address" in names || "City" in names)
  {
    RequiredKept(names, prepared, "First Name");
    RequiredKept(names, prepared, "Last Name");
    RequiredKept(names, prepared, "Department");
    RequiredKept(names, prepared, "Country");
    RequiredKept(names, prepared, "Gender");
    RequiredKept(names, prepared, "Contract Type");
  }

  /** A column no step drops, derives or renames is present at the end exactly when it is present at the start. */
  lemma RequiredKept(names: set<string>, prepared: set<string>, c: string)
    requires prepared == names - DroppedSet + {"Work Hours"}
    requires c in RequiredColumns + {"Contract Type"}
    ensures c in FinishedNames(prepared) <==> c in names
  {
    PlainName(c);
  }

  /** The required columns are none of the names the steps drop, derive or rename. */
  lemma PlainName(c: string)
    requires c in RequiredColumns + {"Contract Type"}
    ensures c != "Address" && c != "City" && c != "Age" && c != "Month of Birth" && c != "Work Hours" && c !in DroppedSet
  {
  }

  /** The output's column names. */
  lemma TransformedNames(t: Table, todayYear: int)
    requires WellFormed(t) && Transformed(t, todayYear).Some?
    ensures ColumnSet(Transformed(t, todayYear).value) == OutputNames(ColumnSet(t))
  {
    TransformedSteps(t, todayYear);
    PreparedShape(t);
    FinishedShape(Prepared(t).value, todayYear);
    OutputNamesFrom(ColumnSet(t), ColumnSet(Prepared(t).value));
  }

  /** The output's type tags, as a function of the input's. */
  lemma TransformedKinds(t: Table, todayYear: int)
    requires WellFormed(t) && Transformed(t, todayYear).Some?
    ensures Transformed(t, todayYear).value.kinds == OutputKinds(t.kinds)
  {
    TransformedSteps(t, todayYear);
    PreparedKinds(t);
    FinishedKinds(Prepared(t).value, todayYear);
  }

  /** The tag map after the rename of Address to City. */
  function MovedKinds(kinds: map<string, Kind>): map<string, Kind> {
    if "Address" in kinds then RenameKey(kinds, "Address", "City") else kinds
  }

  /** The tag map of the transform stage's output, given the input's. */
  function OutputKinds(kinds: map<string, Kind>): map<string, Kind> {
    TagKinds(MovedKinds((kinds - DroppedSet)["Work Hours" := Inferred]["Age" := Inferred]["Month of Birth" := Inferred]))
  }

  /**
   * The tagged columns carry their tags, the derived numeric columns the
   * inferred tag, and every other column keeps the tag it came with.
   */
  lemma OutputKindsResult(kinds: map<string, Kind>)
    ensures var r := OutputKinds(kinds);
      && TextColumns + CategoryColumns + {"Work Hours", "Age"} <= r.Keys
      && (forall c :: c in TextColumns ==> r[c] == Textual)
      && (forall c :: c in CategoryColumns ==> r[c] == Categorical)
      && r["Work Hours"] == Inferred && r["Age"] == Inferred
      && (forall c :: c in r && c !in TextColumns + CategoryColumns + {"Work Hours", "Age"} ==> c in kinds && r[c] == kinds[c])
  {
    var k := (kinds - DroppedSet)["Work Hours" := Inferred]["Age" := Inferred]["Month of Birth" := Inferred];
    var m := MovedKinds(k);
    TagKindsResult(m);
    assert m["Work Hours"] == Inferred && m["Age"] == Inferred;
  }

  lemma OutputNamesFrom(names: set<string>, prepared: set<string>)
    requires prepared == names - DroppedSet + {"Work Hours"}
    ensures FinishedNames(prepared) == OutputNames(names)
  {
  }

  /** Output row k is what the k-th kept input row becomes. */
  lemma TransformedRows(t: Table, todayYear: int)
    requires WellFormed(t) && Transformed(t, todayYear).Some?
    ensures "ID" in t.columns && "Contract Type" in t.columns && "Date of Birth" in t.columns
    ensures HasKey(t.rows, "ID")
    ensures var out := Transformed(t, todayYear).value;
      var kept := KeepFirst(t.rows, "ID");
      && |out.rows| == |kept|
      && forall k :: 0 <= k < |kept| ==>
           "Contract Type" in kept[k] && "Date of Birth" in kept[k] && out.rows[k] == ExpectedRow(kept[k], todayYear)
  {
    TransformedSteps(t, todayYear);
    PreparedShape(t);
    PreparedRows(t);
    var p := Prepared(t).value;
    FinishedSome(p, todayYear);
    FinishedRows(p, todayYear);
    var kept := KeepFirst(t.rows, "ID");
    forall k | 0 <= k < |kept|
      ensures "Contract Type" in kept[k] && "Date of Birth" in kept[k]
      ensures Finished(p, todayYear).value.rows[k] == ExpectedRow(kept[k], todayYear)
    {
      RowHasSources(t, kept[k], p, todayYear);
      RowBecomesExpected(kept[k], todayYear, p.rows[k]);
    }
  }

  lemma RowHasSources(t: Table, r: Row, p: Table, todayYear: int)
    requires WellFormed(t) && r in t.rows
    requires ColumnSet(p) == ColumnSet(t) - DroppedSet + {"Work Hours"}
    requires "Contract Type" in t.columns && "Date of Birth" in t.columns
    requires !("Address" in p.columns && "City" in p.columns)
    ensures "Contract Type" in r && "Date of Birth" in r && !("Address" in r && "City" in r)
  {
    assert "Address" in ColumnSet(p) <==> "Address" in ColumnSet(t);
    assert "City" in ColumnSet(p) <==> "City" in ColumnSet(t);
  }

  /** ExpectedRow, column by column. */
  lemma ExpectedRowValues(r: Row, todayYear: int)
    requires "Contract Type" in r && "Date of Birth" in r
    ensures var e := ExpectedRow(r, todayYear);
      && e["Work Hours"] == HoursCell(r["Contract Type"])
      && e["Age"] == AgeCell(r["Date of Birth"], todayYear)
      && e["Month of Birth"] == MonthCell(r["Date of Birth"])
      && ("Address" in r ==> e["City"] == ReplaceCell(r["Address"], Replacements))
      && forall x :: x in e && x != "Work Hours" && x != "Age" && x != "Month of Birth" && !(x == "City" && "Address" in r) ==>
           x in r && e[x] == ReplaceCell(r[x], Replacements)
  {
  }

  /** A row after the three derivations and the rename, before the substitution. */
  lemma DerivedRowValues(r: Row, todayYear: int, p: Row, d: Row, n: Row)
    requires "Contract Type" in r && "Date of Birth" in r && !("Address" in r && "City" in r)
    requires p == (r - DroppedSet)["Work Hours" := HoursCell(r["Contract Type"])]
    requires d == p["Age" := AgeCell(p["Date of Birth"], todayYear)]["Month of Birth" := MonthCell(p["Date of Birth"])]
    requires n == if "Address" in d then RenameKey(d, "Address", "City") else d
    ensures n.Keys == OutputNames(r.Keys)
    ensures "Work Hours" in n && n["Work Hours"] == HoursCell(r["Contract Type"])
    ensures "Age" in n && n["Age"] == AgeCell(r["Date of Birth"], todayYear)
    ensures "Month of Birth" in n && n["Month of Birth"] == MonthCell(r["Date of Birth"])
    ensures "Address" in r ==> "City" in n && n["City"] == r["Address"]
    ensures forall x :: x in n && x != "Work Hours" && x != "Age" && x != "Month of Birth" && !(x == "City" && "Address" in r) ==>
      x in r && n[x] == r[x]
  {
    DerivedRowKeys(r.Keys, p.Keys, d.Keys, n.Keys);
    DatedRowValues(r, todayYear, p, d);
  }

  /** One row after drop and the three derivations, cell by cell. */
  lemma DatedRowValues(r: Row, todayYear: int, p: Row, d: Row)
    requires "Contract Type" in r && "Date of Birth" in r
    requires p == (r - DroppedSet)["Work Hours" := HoursCell(r["Contract Type"])]
    requires d == p["Age" := AgeCell(p["Date of Birth"], todayYear)]["Month of Birth" := MonthCell(p["Date of Birth"])]
    ensures d["Work Hours"] == HoursCell(r["Contract Type"])
    ensures d["Age"] == AgeCell(r["Date of Birth"], todayYear) && d["Month of Birth"] == MonthCell(r["Date of Birth"])
    ensures ("Address" in d <==> "Address" in r) && ("City" in d <==> "City" in r)
    ensures forall x :: x in d && x != "Work Hours" && x != "Age" && x != "Month of Birth" ==> x in r && d[x] == r[x]
  {
    assert "Date of Birth" !in DroppedSet && "Address" !in DroppedSet && "City" !in DroppedSet;
  }

  /** The column names of one row through the three derivations and the rename. */
  lemma DerivedRowKeys(names: set<string>, prepared: set<string>, dated: set<string>, renamed: set<string>)
    requires prepared == names - DroppedSet + {"Work Hours"}
    requires dated == prepared + {"Age", "Month of Birth"}
    requires renamed == if "Address" in dated then dated - {"Address"} + {"City"} else dated
    ensures renamed == OutputNames(names)
  {
    FinishedNamesFrom(prepared, dated, renamed);
    OutputNamesFrom(names, prepared);
  }

  /** One row through Work Hours, Age, Month of Birth, the rename and the substitution. */
  lemma RowBecomesExpected(r: Row, todayYear: int, p: Row)
    requires "Contract Type" in r && "Date of Birth" in r && !("Address" in r && "City" in r)
    requires p == (r - DroppedSet)["Work Hours" := HoursCell(r["Contract Type"])]
    ensures "Date of Birth" in p && FinishRow(p, todayYear) == ExpectedRow(r, todayYear)
  {
    var d := p["Age" := AgeCell(p["Date of Birth"], todayYear)]["Month of Birth" := MonthCell(p["Date of Birth"])];
    var n := if "Address" in d then RenameKey(d, "Address", "City") else d;
    DerivedRowValues(r, todayYear, p, d, n);
    ExpectedRowValues(r, todayYear);
    var month := MonthCell(r["Date of Birth"]);
    if month.Text? {
      MonthNamesNotReplaced(r["Date of Birth"].date.month);
    }
    SubstitutionAgrees(r, n, ExpectedRow(r, todayYear), HoursCell(r["Contract Type"]), AgeCell(r["Date of Birth"], todayYear), month);
  }

  /** Substituting in the derived row gives the expected row, cell by cell. */
  lemma SubstitutionAgrees(r: Row, n: Row, e: Row, hours: Cell, age: Cell, month: Cell)
    requires n.Keys == e.Keys
    requires ReplaceCell(hours, Replacements) == hours && ReplaceCell(age, Replacements) == age
    requires ReplaceCell(month, Replacements) == month
    requires "Work Hours" in n && n["Work Hours"] == hours && e["Work Hours"] == hours
    requires "Age" in n && n["Age"] == age && e["Age"] == age
    requires "Month of Birth" in n && n["Month of Birth"] == month && e["Month of Birth"] == month
    requires "Address" in r ==> "City" in n && n["City"] == r["Address"] && e["City"] == ReplaceCell(r["Address"], Replacements)
    requires forall x :: x in n && x != "Work Hours" && x != "Age" && x != "Month of Birth" && !(x == "City" && "Address" in r) ==>
      x in r && n[x] == r[x] && e[x] == ReplaceCell(r[x], Replacements)
    ensures ReplaceRow(n, Replacements) == e
  {
    var c := ReplaceRow(n, Replacements);
    forall x | x in c ensures c[x] == e[x] {
      if x == "Work Hours" || x == "Age" || x == "Month of Birth" || (x == "City" && "Address" in r) {
      } else {
        assert x in r && n[x] == r[x];
      }
    }
  }

  // ---------------------------------------------------------------------------
  // What the cleaned table guarantees.
  // ---------------------------------------------------------------------------

  /** No cell of an expected row is left for the substitution to change. */
  lemma ExpectedRowClean(r: Row, todayYear: int)
    requires "Contract Type" in r && "Date of Birth" in r
    ensures var e := ExpectedRow(r, todayYear);
      forall c :: c in e ==> !Substitutable(e[c], Replacements)
  {
    var e := ExpectedRow(r, todayYear);
    forall c | c in e ensures !Substitutable(e[c], Replacements) {
      if c == "Month of Birth" && r["Date of Birth"].When? {
        MonthNamesNotReplaced(r["Date of Birth"].date.month);
      }
    }
  }

  /** The row's ID survives into the output, substituted like any other cell. */
  lemma ExpectedRowId(r: Row, todayYear: int)
    requires "Contract Type" in r && "Date of Birth" in r && "ID" in r
    ensures var e := ExpectedRow(r, todayYear);
      "ID" in e && e["ID"] == ReplaceCell(r["ID"], Replacements)
  {
    assert "ID" in OutputNames(r.Keys);
  }

  /** One output row per distinct input ID. */
  lemma TransformedCount(t: Table, todayYear: int)
    requires WellFormed(t) && Transformed(t, todayYear).Some?
    ensures HasKey(t.rows, "ID")
    ensures |Transformed(t, todayYear).value.rows| == |Keys(t.rows, "ID")|
  {
    TransformedRows(t, todayYear);
    KeepFirstCount(t.rows, "ID");
  }

  /** No output cell is left that the substitution would change, so substituting again changes nothing. */
  lemma TransformedClean(t: Table, todayYear: int)
    requires WellFormed(t) && Transformed(t, todayYear).Some?
    ensures var out := Transformed(t, todayYear).value;
      && (forall k :: 0 <= k < |out.rows| ==> forall c :: c in out.rows[k] ==> !Substitutable(out.rows[k][c], Replacements))
      && Replaced(out, Replacements) == out
  {
    TransformedRows(t, todayYear);
    var out := Transformed(t, todayYear).value;
    var kept := KeepFirst(t.rows, "ID");
    forall k | 0 <= k < |out.rows|
      ensures forall c :: c in out.rows[k] ==> !Substitutable(out.rows[k][c], Replacements)
    {
      ExpectedRowClean(kept[k], todayYear);
    }
    ReplacedUnchanged(out, Replacements);
  }

  /** No input ID is a text the substitution would change. */
  predicate PlainIds(t: Table) {
    forall i :: 0 <= i < |t.rows| && "ID" in t.rows[i] ==> !Substitutable(t.rows[i]["ID"], Replacements)
  }

  /**
   * Every output row carries the substituted ID of the kept input row it
   * comes from; when no input ID is a substitution key, the output IDs are
   * distinct.
   */
  lemma TransformedIds(t: Table, todayYear: int)
    requires WellFormed(t) && Transformed(t, todayYear).Some?
    ensures HasKey(t.rows, "ID")
    ensures var out := Transformed(t, todayYear).value;
      var kept := KeepFirst(t.rows, "ID");
      && |out.rows| == |kept|
      && (forall k :: 0 <= k < |out.rows| ==> "ID" in out.rows[k] && out.rows[k]["ID"] == ReplaceCell(kept[k]["ID"], Replacements))
      && (PlainIds(t) ==> forall a, b :: 0 <= a < b < |out.rows| ==> out.rows[a]["ID"] != out.rows[b]["ID"])
  {
    TransformedRows(t, todayYear);
    var out := Transformed(t, todayYear).value;
    var kept := KeepFirst(t.rows, "ID");
    forall k | 0 <= k < |kept|
      ensures "ID" in out.rows[k] && out.rows[k]["ID"] == ReplaceCell(kept[k]["ID"], Replacements)
    {
      ExpectedRowId(kept[k], todayYear);
    }
    if PlainIds(t) {
      KeepFirstUnique(t.rows, "ID");
      forall k | 0 <= k < |kept| ensures out.rows[k]["ID"] == kept[k]["ID"] {
        assert kept[k] in t.rows;
      }
    }
  }

  /** A row holding only the key, the dropped columns and a contract type. */
  function ContractRow(id: int, contractType: string): Row {
    map["ID" := Number(id), "Place of Birth" := Missing, "Emergency Contact ID" := Missing,
        "Email" := Missing, "Phone" := Missing, "Contract Type" := Text(contractType)]
  }

  /** Two rows sharing ID 1, the first full-time, and a freelance row with ID 2. */
  const DuplicateSheet: Table := Table(
    ["ID", "Place of Birth", "Emergency Contact ID", "Email", "Phone", "Contract Type"],
    [ContractRow(1, "Full-time"), ContractRow(1, "Part-time"), ContractRow(2, "Freelance")],
    map c | c in ContractRow(1, "Full-time") :: Inferred)

  /**
   * Of three rows where the first two share an ID, the first three steps
   * keep the first and the third, with the hours of their own contracts.
   */
  lemma PreparedOfDuplicates(t: Table, r1: Row, r2: Row, r3: Row)
    requires WellFormed(t) && Prepared(t).Some? && t.rows == [r1, r2, r3]
    requires "ID" in r1 && "ID" in r2 && "ID" in r3 && r1["ID"] == r2["ID"] && r3["ID"] != r1["ID"]
    ensures var p := Prepared(t).value;
      && |p.rows| == 2
      && "ID" in p.rows[0] && "Work Hours" in p.rows[0] && "ID" in p.rows[1] && "Work Hours" in p.rows[1]
      && "Contract Type" in r1 && "Contract Type" in r3
      && p.rows[0]["ID"] == r1["ID"] && p.rows[0]["Work Hours"] == HoursCell(r1["Contract Type"])
      && p.rows[1]["ID"] == r3["ID"] && p.rows[1]["Work Hours"] == HoursCell(r3["Contract Type"])
  {
    PreparedRows(t);
    KeepFirstOfThree(r1, r2, r3, "ID");
    assert "ID" !in DroppedSet;
  }

  /**
   * On that sheet the first three steps keep two rows: ID 1 with the first
   * row's 40 hours, and ID 2 with 0 hours.
   */
  lemma DuplicateSheetPrepared()
    ensures WellFormed(DuplicateSheet) && Prepared(DuplicateSheet).Some?
    ensures var p := Prepared(DuplicateSheet).value;
      && |p.rows| == 2
      && "ID" in p.rows[0] && "Work Hours" in p.rows[0] && "ID" in p.rows[1] && "Work Hours" in p.rows[1]
      && p.rows[0]["ID"] == Number(1) && p.rows[0]["Work Hours"] == Number(40)
      && p.rows[1]["ID"] == Number(2) && p.rows[1]["Work Hours"] == Number(0)
  {
    var t := DuplicateSheet;
    DuplicateSheetAccepted();
    var r1, r2, r3 := ContractRow(1, "Full-time"), ContractRow(1, "Part-time"), ContractRow(2, "Freelance");
    ContractRowCells(1, "Full-time");
    ContractRowCells(1, "Part-time");
    ContractRowCells(2, "Freelance");
    PreparedOfDuplicates(t, r1, r2, r3);
  }

  lemma ContractRowCells(id: int, contractType: string)
    ensures var r := ContractRow(id, contractType);
      "ID" in r && r["ID"] == Number(id) && "Contract Type" in r && r["Contract Type"] == Text(contractType)
  {
  }

  lemma DuplicateSheetAccepted()
    ensures WellFormed(DuplicateSheet) && Prepared(DuplicateSheet).Some?
  {
    DuplicateSheetWellFormed();
    PreparedSome(DuplicateSheet);
  }

  lemma DuplicateSheetWellFormed()
    ensures WellFormed(DuplicateSheet) && ColumnSet(DuplicateSheet) == ContractRow(1, "Full-time").Keys
  {
    assert ColumnSet(DuplicateSheet) == ContractRow(1, "Full-time").Keys;
  }

  /** Of three rows where only the first two share a key, the second is dropped. */
  lemma KeepFirstOfThree(r1: Row, r2: Row, r3: Row, key: string)
    requires key in r1 && key in r2 && key in r3
    requires r1[key] == r2[key] && r3[key] != r1[key]
    ensures KeepFirst([r1, r2, r3], key) == [r1, r3]
  {
    assert [r1, r2, r3][..2] == [r1, r2] && [r1, r2][..1] == [r1] && [r1][..0] == [];
    assert Keys([r1], key) == {r1[key]};
    assert Keys([r1, r2], key) == {r1[key]};
    assert KeepFirst([r1, r2], key) == [r1];
  }

  // ---------------------------------------------------------------------------
  // The stage as written: birth dates without a date type escape the handlers.
  // ---------------------------------------------------------------------------

  /** How a call of the transform stage ends. */
  datatype Outcome = Returned(result: Option<Table>) | Raised

  /**
   * Whether the workbook reader gives the birth-date column a date type:
   * every cell of it is a date or missing, and at least one is a date. A
   * text cell makes the column hold plain objects, and a column with no
   * date at all (no rows, or only blanks) is not a date column either.
   */
  predicate BirthDatesTyped(t: Table) {
    && (forall i :: 0 <= i < |t.rows| && "Date of Birth" in t.rows[i] ==> IsDateLike(t.rows[i]["Date of Birth"]))
    && (exists i :: 0 <= i < |t.rows| && "Date of Birth" in t.rows[i] && t.rows[i]["Date of Birth"].When?)
  }

  /**
   * The stage as the source behaves. Deduplication keeps the column's type,
   * so when the birth dates are not date-typed either `calculate_age` reads
   * the year of a cell that is not a date, or the month names are asked of
   * a column that is not a date column; both raise an error that none of
   * the three handlers catches.
   */
  function TransformAsWritten(t: Table, todayYear: int): Outcome
    requires WellFormed(t)
  {
    match Prepared(t)
    case None => Returned(None)
    case Some(p) =>
      if "Date of Birth" !in p.columns then Returned(None)
      else if !BirthDatesTyped(t) then Raised
      else Returned(Finished(p, todayYear))
  }

  /**
   * The source raises exactly when the columns the first steps need are
   * present and the birth dates are not date-typed; when it returns, it
   * returns what the corrected stage does.
   */
  lemma AsWrittenRaises(t: Table, todayYear: int)
    requires WellFormed(t)
    ensures TransformAsWritten(t, todayYear).Raised? <==>
      && "ID" in t.columns && (forall c :: c in DroppedColumns ==> c in t.columns) && "Contract Type" in t.columns
      && "Date of Birth" in t.columns && !BirthDatesTyped(t)
    ensures TransformAsWritten(t, todayYear).Returned? ==> TransformAsWritten(t, todayYear).result == Transformed(t, todayYear)
  {
    PreparedSome(t);
    if Prepared(t).Some? {
      PreparedShape(t);
      var p := Prepared(t).value;
      NamesKept(t, p);
      if "Date of Birth" in t.columns && BirthDatesTyped(t) {
        PreparedDates(t);
        KeptDatesTyped(t);
      }
    }
  }

  /** Date-typed birth dates make every kept birth date a date or missing. */
  lemma KeptDatesTyped(t: Table)
    requires WellFormed(t) && "ID" in t.columns && "Date of Birth" in t.columns && BirthDatesTyped(t)
    ensures HasKey(t.rows, "ID")
    ensures |t.rows| > 0
    ensures var kept := KeepFirst(t.rows, "ID");
      forall k :: 0 <= k < |kept| ==> "Date of Birth" in kept[k] && IsDateLike(kept[k]["Date of Birth"])
  {
    assert "Date of Birth" in ColumnSet(t) && "ID" in ColumnSet(t);
    var kept := KeepFirst(t.rows, "ID");
    forall k | 0 <= k < |kept| ensures "Date of Birth" in kept[k] && IsDateLike(kept[k]["Date of Birth"]) {
      var i :| 0 <= i < |t.rows| && t.rows[i] == kept[k];
    }
  }

  /**
   * Where the source raises but the corrected stage returns a table, the
   * offending birth date is in a row deduplication drops, or the column
   * holds no date at all.
   */
  lemma AsWrittenRaisesBeyondKept(t: Table, todayYear: int)
    requires WellFormed(t) && TransformAsWritten(t, todayYear).Raised? && Transformed(t, todayYear).Some?
    ensures "ID" in t.columns && "Date of Birth" in t.columns && HasKey(t.rows, "ID")
    ensures || (exists i :: 0 <= i < |t.rows| && "Date of Birth" in t.rows[i] && !IsDateLike(t.rows[i]["Date of Birth"]) &&
                              t.rows[i] !in KeepFirst(t.rows, "ID"))
            || (forall i :: 0 <= i < |t.rows| && "Date of Birth" in t.rows[i] ==> !t.rows[i]["Date of Birth"].When?)
  {
    AsWrittenRaises(t, todayYear);
    TransformedSome(t, todayYear);
    assert "Date of Birth" in ColumnSet(t) && "ID" in ColumnSet(t);
    var kept := KeepFirst(t.rows, "ID");
    if exists i :: 0 <= i < |t.rows| && "Date of Birth" in t.rows[i] && !IsDateLike(t.rows[i]["Date of Birth"]) {
      var i :| 0 <= i < |t.rows| && "Date of Birth" in t.rows[i] && !IsDateLike(t.rows[i]["Date of Birth"]);
      forall k | 0 <= k < |kept| ensures kept[k] != t.rows[i] {
        assert IsDateLike(kept[k]["Date of Birth"]);
      }
    }
  }

  // Small sheets on which the source raises.

  /** The columns the first steps of the stage need, and no others. */
  const SheetColumns: seq<string> :=
    ["ID", "Place of Birth", "Emergency Contact ID", "Email", "Phone", "Contract Type", "Date of Birth"]

  /** A full-time employee's row with the given ID and birth-date cell. */
  function BirthDateRow(id: int, dateOfBirth: Cell): Row {
    map["ID" := Number(id), "Place of Birth" := Missing, "Emergency Contact ID" := Missing,
        "Email" := Missing, "Phone" := Missing, "Contract Type" := Text("Full-time"),
        "Date of Birth" := dateOfBirth]
  }

  function Sheet(rows: seq<Row>): Table {
    Table(SheetColumns, rows, map c | c in SheetColumns :: Inferred)
  }

  lemma BirthDateRowCells(id: int, dateOfBirth: Cell)
    ensures var r := BirthDateRow(id, dateOfBirth);
      && r.Keys == (set c | c in SheetColumns)
      && "ID" in r && r["ID"] == Number(id) && "Date of Birth" in r && r["Date of Birth"] == dateOfBirth
  {
    assert BirthDateRow(id, dateOfBirth).Keys == (set c | c in SheetColumns);
  }

  /** A sheet of such rows is a table with every column the first steps need. */
  lemma SheetWellFormed(rows: seq<Row>)
    requires forall i :: 0 <= i < |rows| ==> rows[i].Keys == (set c | c in SheetColumns)
    ensures var t := Sheet(rows);
      && WellFormed(t)
      && "ID" in t.columns && (forall c :: c in DroppedColumns ==> c in t.columns) && "Contract Type" in t.columns
      && "Date of Birth" in t.columns
  {
  }

  /** A sheet of such rows makes the source raise exactly when its birth dates are not date-typed. */
  lemma SheetRaises(rows: seq<Row>, todayYear: int)
    requires forall i :: 0 <= i < |rows| ==> rows[i].Keys == (set c | c in SheetColumns)
    ensures WellFormed(Sheet(rows))
    ensures TransformAsWritten(Sheet(rows), todayYear).Raised? <==> !BirthDatesTyped(Sheet(rows))
  {
    SheetWellFormed(rows);
    AsWrittenRaises(Sheet(rows), todayYear);
  }

  /** When the first row's birth date is not a date, the corrected stage returns no table. */
  lemma SheetFirstRowRejected(rows: seq<Row>, todayYear: int)
    requires forall i :: 0 <= i < |rows| ==> rows[i].Keys == (set c | c in SheetColumns)
    requires |rows| > 0 && "Date of Birth" in rows[0] && !IsDateLike(rows[0]["Date of Birth"])
    ensures WellFormed(Sheet(rows)) && Transformed(Sheet(rows), todayYear).None?
  {
    SheetWellFormed(rows);
    TransformedSome(Sheet(rows), todayYear);
    KeepFirstPrefix(rows, "ID");
  }

  /** The first row is always kept. */
  lemma {:induction false} KeepFirstPrefix(rows: seq<Row>, key: string)
    requires HasKey(rows, key) && |rows| > 0
    ensures |KeepFirst(rows, key)| > 0 && KeepFirst(rows, key)[0] == rows[0]
    decreases |rows|
  {
    var init := rows[..|rows| - 1];
    if |rows| == 1 {
      assert init == [];
    } else {
      KeepFirstPrefix(init, key);
      assert init[0] == rows[0];
    }
  }

  /** A one-row sheet whose birth date was entered as text. */
  const TextBirthDateSheet: Table := Sheet([BirthDateRow(1, Text("unknown"))])

  /** On that sheet the source raises, where the corrected stage returns no table. */
  lemma TextBirthDateRaises(todayYear: int)
    ensures WellFormed(TextBirthDateSheet)
    ensures TransformAsWritten(TextBirthDateSheet, todayYear) == Raised
    ensures Transformed(TextBirthDateSheet, todayYear) == None
  {
    var r := BirthDateRow(1, Text("unknown"));
    BirthDateRowCells(1, Text("unknown"));
    SheetRaises([r], todayYear);
    SheetFirstRowRejected([r], todayYear);
  }

  /** A sheet with its header and no rows. */
  const EmptySheet: Table := Sheet([])

  /** On that sheet the source raises, where the corrected stage returns no table. */
  lemma EmptySheetRaises(todayYear: int)
    ensures WellFormed(EmptySheet)
    ensures TransformAsWritten(EmptySheet, todayYear) == Raised
    ensures Transformed(EmptySheet, todayYear) == None
  {
    SheetRaises([], todayYear);
  }

  /** A one-row sheet whose birth date was left blank. */
  const BlankBirthDateSheet: Table := Sheet([BirthDateRow(1, Missing)])

  /** On that sheet the source raises, as the column holds no date. */
  lemma BlankBirthDateRaises(todayYear: int)
    ensures WellFormed(BlankBirthDateSheet)
    ensures TransformAsWritten(BlankBirthDateSheet, todayYear) == Raised
  {
    var r := BirthDateRow(1, Missing);
    BirthDateRowCells(1, Missing);
    SheetRaises([r], todayYear);
  }

  /** Two rows with ID 1: the first born on 17 May 1990, the second's birth date entered as text. */
  const DroppedTextBirthDateSheet: Table :=
    Sheet([BirthDateRow(1, When(Date(1990, 5, 17))), BirthDateRow(1, Text("unknown"))])

  /**
   * On that sheet the source raises although the only row it keeps has a
   * date: the text in the dropped row already made the column untyped.
   */
  lemma DroppedTextBirthDateRaises(todayYear: int)
    ensures WellFormed(DroppedTextBirthDateSheet)
    ensures TransformAsWritten(DroppedTextBirthDateSheet, todayYear) == Raised
    ensures Prepared(DroppedTextBirthDateSheet).Some?
    ensures var p := Prepared(DroppedTextBirthDateSheet).value;
      "Date of Birth" in p.columns && AllDates(Column(p, "Date of Birth"))
  {
    var r1, r2 := BirthDateRow(1, When(Date(1990, 5, 17))), BirthDateRow(1, Text("unknown"));
    BirthDateRowCells(1, When(Date(1990, 5, 17)));
    BirthDateRowCells(1, Text("unknown"));
    var t := Sheet([r1, r2]);
    SheetRaises([r1, r2], todayYear);
    assert !IsDateLike(t.rows[1]["Date of Birth"]);
    SheetWellFormed([r1, r2]);
    PreparedSome(t);
    PreparedKeepsFirstDate(t, r1, r2);
  }

  /** Of two rows sharing an ID, only the first one's birth date reaches the prepared table. */
  lemma PreparedKeepsFirstDate(t: Table, r1: Row, r2: Row)
    requires WellFormed(t) && Prepared(t).Some? && "Date of Birth" in t.columns && t.rows == [r1, r2]
    requires "ID" in r1 && "ID" in r2 && r1["ID"] == r2["ID"]
    requires "Date of Birth" in r1 && IsDateLike(r1["Date of Birth"])
    ensures var p := Prepared(t).value;
      "Date of Birth" in p.columns && AllDates(Column(p, "Date of Birth"))
  {
    PreparedDates(t);
    KeepFirstOfTwo(r1, r2, "ID");
  }

  /** Of two rows sharing a key, only the first is kept. */
  lemma KeepFirstOfTwo(r1: Row, r2: Row, key: string)
    requires key in r1 && key in r2 && r1[key] == r2[key]
    ensures KeepFirst([r1, r2], key) == [r1]
  {
    assert [r1, r2][..1] == [r1] && [r1][..0] == [];
    assert Keys([r1], key) == {r1[key]};
  }
}
