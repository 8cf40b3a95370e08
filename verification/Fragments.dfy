/**
 * The three SQL fragments a feature source builds for a feature, as functions
 * of the registered column names (in registration order), the geometry column
 * name and the feature:
 *   - the column list of an INSERT (getColumnNamesForInsert),
 *   - the value list of that INSERT (getColumnValuesForInsert),
 *   - the SET clause of an UPDATE (getUpdateSetClause).
 * The methods of FeatureSource build them with loops and are proved equal to
 * these functions; the lemmas here state what the fragments promise.
 */
module Fragments {
  import opened Wrappers
  import opened ColumnOrder
  import opened SqlLiterals
  import opened Features

  /** Each item followed by a comma. */
  function Terminated(items: seq<string>): string
  {
    if items == [] then "" else items[0] + "," + Terminated(items[1..])
  }

  /** The items separated by commas. */
  function Join(items: seq<string>): string
  {
    if items == [] then ""
    else if |items| == 1 then items[0]
    else items[0] + "," + Join(items[1..])
  }

  /** String.valueOf of the property: its text, or "null". */
  function ValueText(f: Feature, name: string): string
  {
    match Prop(f, name)
    case Some(v) => v
    case None => "null"
  }

  /** The property texts of the given columns, in column order. */
  function ValuesOf(cols: seq<string>, f: Feature): seq<string>
  {
    seq(|cols|, i requires 0 <= i < |cols| => ValueText(f, cols[i]))
  }

  /** Each text as an escaped SQL literal. */
  function Escaped(vals: seq<string>): seq<string>
  {
    seq(|vals|, i requires 0 <= i < |vals| => SqlEscape(vals[i]))
  }

  /** The geometry column name as StringBuilder.append writes it: "null" when unset. */
  function GeomNameText(geomColumn: Option<string>): string
  {
    match geomColumn
    case Some(g) => g
    case None => "null"
  }

  /** The last term of the INSERT value list. */
  function GeomValue(geometry: Option<string>): string
  {
    match geometry
    case Some(wkt) => GeomFromText(wkt)
    case None => "NULL"
  }

  /** The columns an INSERT lists: the registered names sorted by
      ALPHABETICAL_ORDER, keeping those whose property is non-null. */
  function InsertColumns(names: seq<string>, f: Feature): seq<string>
  {
    NonNullColumns(SortColumns(names), f)
  }

  /** The columns an UPDATE assigns: the registered names in registration
      order, keeping those whose property is non-null. */
  function UpdateColumns(names: seq<string>, f: Feature): seq<string>
  {
    NonNullColumns(names, f)
  }

  /** getColumnNamesForInsert: each qualifying column followed by a comma, then the geometry column. */
  function InsertColumnNames(names: seq<string>, geomColumn: Option<string>, f: Feature): string
  {
    Terminated(InsertColumns(names, f)) + GeomNameText(geomColumn)
  }

  /** getColumnValuesForInsert: the escaped values joined by commas, a comma
      when that text is not empty, then the geometry term. */
  function InsertColumnValues(names: seq<string>, f: Feature): string
  {
    var scalars := Join(Escaped(ValuesOf(InsertColumns(names, f), f)));
    scalars + (if |scalars| > 0 then "," else "") + GeomValue(f.geometry)
  }

  /** The "name=value, " pair of one column. */
  function Assignment(c: string, f: Feature): string
  {
    c + "=" + SqlEscape(ValueText(f, c)) + ", "
  }

  /** One assignment per column, in the given order. */
  function Assignments(cols: seq<string>, f: Feature): string
  {
    if cols == [] then "" else Assignment(cols[0], f) + Assignments(cols[1..], f)
  }

  /** The closing assignment of the UPDATE clause. */
  function GeomAssignment(geomColumn: Option<string>, wkt: string): string
  {
    GeomNameText(geomColumn) + "=" + GeomFromText(wkt)
  }

  /** getUpdateSetClause; the source dereferences the geometry unguarded. */
  function UpdateSetClause(names: seq<string>, geomColumn: Option<string>, f: Feature): string
    requires f.geometry.Some?
  {
    Assignments(UpdateColumns(names, f), f) + GeomAssignment(geomColumn, f.geometry.value)
  }

  /** Reads an INSERT value list the way the database splits it: string
      literals, each followed by a comma, and then the final (geometry) term. */
  function ReadValueList(s: string): (seq<string>, string)
    decreases |s|
  {
    match ReadLiteral(s)
    case Some(p) =>
      if p.1 != [] && p.1[0] == ',' then
        var (vals, last) := ReadValueList(p.1[1..]);
        ([p.0] + vals, last)
      else ([], s)
    case None => ([], s)
  }

  // ---------------------------------------------------------------------------
  // Building blocks.

  lemma {:induction false} TerminatedSnoc(items: seq<string>, x: string)
    ensures Terminated(items + [x]) == Terminated(items) + x + ","
  {
    if items != [] {
      TerminatedSnoc(items[1..], x);
      assert (items + [x])[1..] == items[1..] + [x];
    }
  }

  lemma {:induction false} JoinSnoc(items: seq<string>, x: string)
    ensures Join(items + [x]) == if items == [] then x else Join(items) + "," + x
  {
    if |items| > 1 {
      JoinSnoc(items[1..], x);
      assert (items + [x])[1..] == items[1..] + [x];
    } else if |items| == 1 {
      assert (items + [x])[1..] == [x];
    }
  }

  /** One step of the INSERT value loop: the next sorted name adds its literal,
      after a comma unless it is the first, when its property is non-null. */
  lemma InsertValuesStep(names: seq<string>, i: nat, f: Feature)
    requires i < |names|
    ensures Prop(f, names[i]).None? ==>
              NonNullColumns(names[..i + 1], f) == NonNullColumns(names[..i], f)
    ensures Prop(f, names[i]).Some? ==>
              && NonNullColumns(names[..i + 1], f) != []
              && Join(Escaped(ValuesOf(NonNullColumns(names[..i + 1], f), f)))
                 == if NonNullColumns(names[..i], f) == [] then SqlEscape(Prop(f, names[i]).value)
                    else Join(Escaped(ValuesOf(NonNullColumns(names[..i], f), f))) + ","
                         + SqlEscape(Prop(f, names[i]).value)
  {
    var cols := NonNullColumns(names[..i], f);
    NonNullColumnsSnoc(names[..i], names[i], f);
    assert names[..i + 1] == names[..i] + [names[i]];
    if Prop(f, names[i]).Some? {
      var literal := SqlEscape(Prop(f, names[i]).value);
      assert Escaped(ValuesOf(cols + [names[i]], f)) == Escaped(ValuesOf(cols, f)) + [literal];
      JoinSnoc(Escaped(ValuesOf(cols, f)), literal);
    }
  }

  /** A non-empty join followed by a comma is the comma-terminated list. */
  lemma {:induction false} JoinThenComma(items: seq<string>)
    requires items != []
    ensures Join(items) + "," == Terminated(items)
  {
    if |items| > 1 {
      JoinThenComma(items[1..]);
    } else {
      assert items[1..] == [];
    }
  }

  /** The join of literals is empty exactly when there are no literals. */
  lemma JoinEscapedEmpty(vals: seq<string>)
    ensures |Join(Escaped(vals))| > 0 <==> vals != []
  {
    if vals != [] {
      assert Escaped(vals)[0] == SqlEscape(vals[0]);
    }
  }

  lemma {:induction false} ReadTerminatedLiterals(vals: seq<string>, last: string)
    requires NoQuoteAhead(last)
    ensures ReadValueList(Terminated(Escaped(vals)) + last) == (vals, last)
  {
    if vals == [] {
      assert Terminated(Escaped(vals)) + last == last;
    } else {
      var lits := Escaped(vals);
      assert lits[0] == SqlEscape(vals[0]);
      assert lits[1..] == Escaped(vals[1..]);
      var rest := Terminated(lits[1..]) + last;
      var after := "," + rest;
      assert Terminated(lits) + last == SqlEscape(vals[0]) + after;
      EscapeRoundTrip(vals[0], after);
      assert after[1..] == rest;
      ReadTerminatedLiterals(vals[1..], last);
      assert ReadValueList(SqlEscape(vals[0]) + after) == ([vals[0]] + vals[1..], last);
      assert vals == [vals[0]] + vals[1..];
    }
  }

  // ---------------------------------------------------------------------------
  // What the INSERT fragments promise.

  /** The columns of an INSERT are exactly the registered columns with a
      non-null property, in ALPHABETICAL_ORDER; unregistered properties never appear. */
  lemma InsertColumnsChosen(names: seq<string>, f: Feature)
    ensures Sorted(InsertColumns(names, f))
    ensures forall c :: c in InsertColumns(names, f) <==> c in names && Prop(f, c).Some?
  {
    SortColumnsCorrect(names);
    NonNullColumnsSorted(SortColumns(names), f);
    forall c ensures c in InsertColumns(names, f) <==> c in names && Prop(f, c).Some? {
      NonNullColumnsMembers(SortColumns(names), f, c);
      assert c in SortColumns(names) <==> c in multiset(SortColumns(names));
    }
  }

  /** The value list has the same shape as the column list: each literal
      followed by a comma, then the geometry term. */
  lemma InsertValuesTerminated(names: seq<string>, f: Feature)
    ensures InsertColumnValues(names, f)
         == Terminated(Escaped(ValuesOf(InsertColumns(names, f), f))) + GeomValue(f.geometry)
  {
    var vals := ValuesOf(InsertColumns(names, f), f);
    JoinEscapedEmpty(vals);
    if vals != [] {
      JoinThenComma(Escaped(vals));
    }
  }

  /** The alignment of the two INSERT fragments: reading the value list back
      gives one value per listed column, value i being the property of column i,
      followed by the geometry term (ST_GeomFromText of the WKT, or NULL). */
  lemma InsertFragmentsAlign(names: seq<string>, geomColumn: Option<string>, f: Feature)
    ensures var cols := InsertColumns(names, f);
            var (vals, last) := ReadValueList(InsertColumnValues(names, f));
            && InsertColumnNames(names, geomColumn, f) == Terminated(cols) + GeomNameText(geomColumn)
            && |vals| == |cols|
            && (forall i :: 0 <= i < |cols| ==> Prop(f, cols[i]) == Some(vals[i]))
            && last == GeomValue(f.geometry)
  {
    var cols := InsertColumns(names, f);
    InsertValuesTerminated(names, f);
    ReadTerminatedLiterals(ValuesOf(cols, f), GeomValue(f.geometry));
    InsertColumnsChosen(names, f);
    forall i | 0 <= i < |cols| ensures Prop(f, cols[i]) == Some(ValuesOf(cols, f)[i]) {
      assert cols[i] in cols;
    }
  }

  /** With no qualifying column both INSERT fragments are the geometry term alone. */
  lemma InsertWithoutScalars(names: seq<string>, geomColumn: Option<string>, f: Feature)
    requires forall c :: c in names ==> Prop(f, c).None?
    ensures InsertColumnNames(names, geomColumn, f) == GeomNameText(geomColumn)
    ensures InsertColumnValues(names, f) == GeomValue(f.geometry)
  {
    InsertColumnsChosen(names, f);
    InsertValuesTerminated(names, f);
  }

  // ---------------------------------------------------------------------------
  // What the UPDATE clause promises.

  lemma {:induction false} AssignmentsSnoc(cols: seq<string>, c: string, f: Feature)
    ensures Assignments(cols + [c], f) == Assignments(cols, f) + Assignment(c, f)
  {
    if cols != [] {
      AssignmentsSnoc(cols[1..], c, f);
      assert (cols + [c])[1..] == cols[1..] + [c];
    }
  }

  /** The UPDATE clause closes with the geometry column's name and its geometry. */
  lemma GeomAssignmentAppended(assignments: string, geomColumn: Option<string>, wkt: string)
    ensures assignments + GeomNameText(geomColumn) + "=" + GeomFromText(wkt)
         == assignments + GeomAssignment(geomColumn, wkt)
  {
  }

  /** One step of the UPDATE loop: the next registered name adds its
      assignment when its property is non-null and nothing otherwise. */
  lemma AssignmentsStep(names: seq<string>, i: nat, f: Feature)
    requires i < |names|
    ensures Prop(f, names[i]).Some? ==>
      Assignments(NonNullColumns(names[..i + 1], f), f) ==
      Assignments(NonNullColumns(names[..i], f), f) + names[i] + "=" + SqlEscape(Prop(f, names[i]).value) + ", "
    ensures Prop(f, names[i]).None? ==>
      Assignments(NonNullColumns(names[..i + 1], f), f) == Assignments(NonNullColumns(names[..i], f), f)
  {
    NonNullColumnsSnoc(names[..i], names[i], f);
    assert names[..i + 1] == names[..i] + [names[i]];
    if Prop(f, names[i]).Some? {
      AssignmentsSnoc(NonNullColumns(names[..i], f), names[i], f);
      var prev := Assignments(NonNullColumns(names[..i], f), f);
      assert prev + Assignment(names[i], f)
          == prev + names[i] + "=" + SqlEscape(Prop(f, names[i]).value) + ", ";
    }
  }

  /** The UPDATE clause assigns the registered columns with a non-null
      property, in registration order: its columns are the names at the
      increasing positions whose property is non-null. It always ends with the
      geometry assignment, so no separator dangles at its end. Its columns are
      those of the INSERT fragments, which list them sorted. */
  lemma UpdateSetClauseShape(names: seq<string>, geomColumn: Option<string>, f: Feature)
    requires f.geometry.Some?
    ensures var clause := UpdateSetClause(names, geomColumn, f);
            var tail := GeomAssignment(geomColumn, f.geometry.value);
            && |clause| >= |tail|
            && clause[|clause| - |tail|..] == tail
            && clause[|clause| - 1] == ')'
    ensures forall c :: c in UpdateColumns(names, f) <==> c in names && Prop(f, c).Some?
    ensures exists idx :: PicksInOrder(names, idx, UpdateColumns(names, f))
                       && forall i :: 0 <= i < |names| ==> (i in idx <==> Prop(f, names[i]).Some?)
    ensures InsertColumns(names, f) == SortColumns(UpdateColumns(names, f))
  {
    forall c ensures c in UpdateColumns(names, f) <==> c in names && Prop(f, c).Some? {
      NonNullColumnsMembers(names, f, c);
    }
    NonNullColumnsInOrder(names, f);
    NonNullCommutesWithSort(names, f);
  }

  /** Escaping in the UPDATE clause: after "name=", the value's literal reads
      back as the value and closes exactly before the ", " separator. */
  lemma AssignmentReadsBack(c: string, f: Feature)
    requires Prop(f, c).Some?
    ensures var a := Assignment(c, f);
            && |a| > |c|
            && a[..|c| + 1] == c + "="
            && ReadLiteral(a[|c| + 1..]) == Some((Prop(f, c).value, ", "))
  {
    var lit := SqlEscape(Prop(f, c).value);
    var a := Assignment(c, f);
    assert a == (c + "=") + (lit + ", ");
    assert a[|c| + 1..] == lit + ", ";
    EscapeRoundTrip(Prop(f, c).value, ", ");
  }

  // ---------------------------------------------------------------------------
  // Worked examples.

  /** The feature of the INSERT example: a name and neither age nor geometry. */
  function SparseFeature(): Feature
  {
    Feature(map["name" := Some("X")], None)
  }

  lemma SparseInsertColumns()
    ensures InsertColumns(["age", "name"], SparseFeature()) == ["name"]
  {
    assert SortColumns(["age", "name"]) == ["age", "name"];
    assert NonNullColumns(["age"], SparseFeature()) == [];
  }

  /** A column whose property is null is left out of both INSERT fragments, and
      a missing geometry is written as NULL. */
  lemma SparseInsertExample()
    ensures InsertColumnNames(["age", "name"], Some("geom"), SparseFeature()) == "name,geom"
    ensures InsertColumnValues(["age", "name"], SparseFeature()) == "'X',NULL"
  {
    SparseInsertColumns();
    assert ValuesOf(["name"], SparseFeature()) == ["X"];
    assert SqlEscape("X") == "'X'" by { assert DoubleQuotes("X") == "X"; }
    assert Escaped(["X"])[0] == SqlEscape("X");
    assert Escaped(["X"]) == ["'X'"];
  }

  /** A present geometry ends the value list with its constructor call. */
  lemma GeometryInsertExample()
    ensures InsertColumnValues([], Feature(map[], Some("POINT(1 2)"))) == "ST_GeomFromText('POINT(1 2)')"
  {
  }

  /** The feature of the UPDATE example: age 30, name X, a point at the origin. */
  function ExampleFeature(): Feature
  {
    Feature(map["age" := Some("30"), "name" := Some("X")], Some("POINT(0 0)"))
  }

  lemma ExampleAgeAssignment()
    ensures Assignment("age", ExampleFeature()) == "age='30', "
  {
    assert DoubleQuotes("30") == "30" by { assert "30"[1..] == "0"; assert "0"[1..] == ""; }
    assert SqlEscape("30") == "'30'";
    assert ValueText(ExampleFeature(), "age") == "30";
  }

  lemma ExampleNameAssignment()
    ensures Assignment("name", ExampleFeature()) == "name='X', "
  {
    assert DoubleQuotes("X") == "X" by { assert "X"[1..] == ""; }
    assert SqlEscape("X") == "'X'";
    assert ValueText(ExampleFeature(), "name") == "X";
  }

  /** Both values are written as quoted literals, in registration order. */
  lemma ExampleAssignments()
    ensures Assignments(["age", "name"], ExampleFeature()) == "age='30', " + "name='X', "
  {
    var f := ExampleFeature();
    ExampleAgeAssignment();
    ExampleNameAssignment();
    assert ["age", "name"][1..] == ["name"];
    assert ["name"][1..] == [];
    assert Assignments(["name"], f) == Assignment("name", f) + "";
  }

  lemma ExampleUpdateColumns()
    ensures UpdateColumns(["age", "name"], ExampleFeature()) == ["age", "name"]
  {
    assert NonNullColumns(["age"], ExampleFeature()) == ["age"];
  }

  lemma ExampleGeomText()
    ensures GeomFromText("POINT(0 0)") == "ST_GeomFromText('POINT(0 0)')"
  {
  }

  lemma ExampleGeomAssignment()
    ensures GeomAssignment(Some("geom"), "POINT(0 0)") == "geom=" + "ST_GeomFromText('POINT(0 0)')"
  {
    ExampleGeomText();
    assert GeomNameText(Some("geom")) + "=" == "geom=";
  }

  /** Registered as name, then age: the UPDATE keeps that order, the INSERT sorts it. */
  lemma RegistrationOrderExample()
    ensures UpdateColumns(["name", "age"], ExampleFeature()) == ["name", "age"]
    ensures InsertColumns(["name", "age"], ExampleFeature()) == ["age", "name"]
  {
    assert NonNullColumns(["name"], ExampleFeature()) == ["name"];
    assert SortColumns(["name", "age"]) == ["age", "name"];
    assert NonNullColumns(["age"], ExampleFeature()) == ["age"];
  }

  lemma ExampleAssignmentsReordered()
    ensures Assignments(["name", "age"], ExampleFeature()) == "name='X', " + "age='30', "
  {
    var f := ExampleFeature();
    ExampleAgeAssignment();
    ExampleNameAssignment();
    assert ["name", "age"][1..] == ["age"];
    assert ["age"][1..] == [];
    assert Assignments(["age"], f) == Assignment("age", f) + "";
  }

  /** The same feature with name registered before age: the clause assigns name first. */
  lemma UpdateOrderExample()
    ensures UpdateSetClause(["name", "age"], Some("geom"), ExampleFeature())
         == "name='X', " + "age='30', " + ("geom=" + "ST_GeomFromText('POINT(0 0)')")
  {
    RegistrationOrderExample();
    ExampleAssignmentsReordered();
    ExampleGeomAssignment();
  }

  /** An UPDATE over age and name in registration order; every value is written as a string literal. */
  lemma UpdateExample()
    ensures UpdateSetClause(["age", "name"], Some("geom"), ExampleFeature())
         == "age='30', " + "name='X', " + ("geom=" + "ST_GeomFromText('POINT(0 0)')")
  {
    ExampleUpdateColumns();
    ExampleAssignments();
    ExampleGeomAssignment();
  }

}
