/**
 * A feature table of a GeoPackage: its column registry (column names in
 * registration order with their SQL types, the primary-key column and the
 * geometry column), the builders of its INSERT and UPDATE fragments, and its
 * identity (equals and hashCode depend on the GeoPackage and the table name only).
 */
module GpkgFeatureSource {
  import opened Wrappers
  import opened ColumnOrder
  import opened SqlLiterals
  import opened Features
  import opened Fragments

  /** The GeoPackage holding the connection, reduced to the identity that equals compares. */
  datatype GeoPackage = GeoPackage(id: int)

  const TwoTo32: int := 0x1_0000_0000
  const TwoTo31: int := 0x8000_0000

  /** Java int arithmetic: x reduced into [-2^31, 2^31). */
  function Wrap32(x: int): (r: int)
    ensures -TwoTo31 <= r < TwoTo31
    ensures (x - r) % TwoTo32 == 0
  {
    (x + TwoTo31) % TwoTo32 - TwoTo31
  }

  /** String.hashCode: h = 31 * h + c over the characters, in int arithmetic.
      The characters are Unicode scalar values, where Java hashes UTF-16 code
      units; the two agree on the Basic Multilingual Plane. */
  function StringHash(s: string): (h: int)
    ensures -TwoTo31 <= h < TwoTo31
  {
    if s == [] then 0 else Wrap32(31 * StringHash(s[..|s| - 1]) + s[|s| - 1] as int)
  }

  /** GeoPackage.hashCode, consistent with its equality. */
  function GeoPackageHash(g: GeoPackage): (h: int)
    ensures -TwoTo31 <= h < TwoTo31
  {
    Wrap32(g.id)
  }

  ghost predicate Distinct(s: seq<string>)
  {
    forall i, j :: 0 <= i < j < |s| ==> s[i] != s[j]
  }

  class FeatureSource {
    const gpkg: GeoPackage
    /** Fixed at construction. */
    const tableName: string
    var primaryKeyName: Option<string>
    var geomColumnName: Option<string>
    /** The keys of the LinkedHashMap of columns, in insertion order. */
    var columnNames: seq<string>
    /** The declared SQL type of each column. */
    var columnTypes: map<string, string>

    /** The registry is a map with an insertion order: every key once, in order. */
    ghost predicate Valid()
      reads this
    {
      && Distinct(columnNames)
      && columnTypes.Keys == set c | c in columnNames
    }

    constructor (geoPackage: GeoPackage, tableName: string)
      ensures Valid()
      ensures gpkg == geoPackage && this.tableName == tableName
      ensures columnNames == [] && columnTypes == map[]
      ensures primaryKeyName == None && geomColumnName == None
    {
      gpkg := geoPackage;
      this.tableName := tableName;
      primaryKeyName := None;
      geomColumnName := None;
      columnNames := [];
      columnTypes := map[];
    }

    /** getColumns: the entries of the registry in iteration (registration) order. */
    function GetColumns(): (entries: seq<(string, string)>)
      reads this
      requires Valid()
      ensures |entries| == |columnNames|
      ensures forall i :: 0 <= i < |entries| ==> entries[i].0 == columnNames[i]
      ensures forall k, t :: (k, t) in entries <==> k in columnTypes && columnTypes[k] == t
    {
      var names, types := columnNames, columnTypes;
      var entries := seq(|names|, i requires 0 <= i < |names| => (names[i], types[names[i]]));
      assert forall k, t :: (k, t) in entries ==> k in types && types[k] == t;
      assert forall k :: k in types ==> exists i :: 0 <= i < |names| && names[i] == k && entries[i] == (k, types[k]);
      entries
    }

    function GetTableName(): string
    {
      tableName
    }

    function GetPrimaryKeyName(): Option<string>
      reads this
    {
      primaryKeyName
    }

    function GetGeomColumnName(): Option<string>
      reads this
    {
      geomColumnName
    }

    /** addColumn: put into the LinkedHashMap. A new name goes to the end of the
        order; an existing name keeps its place and gets the new type. */
    method AddColumn(columnName: string, columnType: string)
      requires Valid()
      modifies this`columnNames, this`columnTypes
      ensures Valid()
      ensures columnTypes == old(columnTypes)[columnName := columnType]
      ensures columnNames == if columnName in old(columnNames) then old(columnNames)
                             else old(columnNames) + [columnName]
    {
      if columnName !in columnTypes {
        columnNames := columnNames + [columnName];
      }
      columnTypes := columnTypes[columnName := columnType];
    }

    method SetGeomColumnName(geomColumnName: Option<string>)
      modifies this`geomColumnName
      ensures this.geomColumnName == geomColumnName
    {
      this.geomColumnName := geomColumnName;
    }

    method SetPrimaryKeyName(primaryKeyName: Option<string>)
      modifies this`primaryKeyName
      ensures this.primaryKeyName == primaryKeyName
    {
      this.primaryKeyName := primaryKeyName;
    }

    /** getColumnNamesForInsert */
    method GetColumnNamesForInsert(feature: Feature) returns (r: string)
      ensures r == InsertColumnNames(columnNames, geomColumnName, feature)
    {
      var sb := "";
      var names := SortColumns(columnNames);
      for i := 0 to |names|
        invariant sb == Terminated(NonNullColumns(names[..i], feature))
      {
        NonNullColumnsSnoc(names[..i], names[i], feature);
        assert names[..i + 1] == names[..i] + [names[i]];
        if Prop(feature, names[i]).Some? {
          TerminatedSnoc(NonNullColumns(names[..i], feature), names[i]);
          sb := sb + names[i] + ",";
        }
      }
      assert names[..|names|] == names;
      match geomColumnName {
        case Some(g) => sb := sb + g;
        case None => sb := sb + "null";
      }
      r := sb;
    }

    /** getColumnValuesForInsert */
    method GetColumnValuesForInsert(feature: Feature) returns (r: string)
      ensures r == InsertColumnValues(columnNames, feature)
    {
      var sb := "";
      var names := SortColumns(columnNames);
      var firstIteration := true;
      for i := 0 to |names|
        invariant sb == Join(Escaped(ValuesOf(NonNullColumns(names[..i], feature), feature)))
        invariant firstIteration <==> NonNullColumns(names[..i], feature) == []
      {
        InsertValuesStep(names, i, feature);
        var value := Prop(feature, names[i]);
        if value.Some? {
          if !firstIteration {
            sb := sb + ",";
          }
          sb := sb + SqlEscape(value.value);
          firstIteration := false;
        }
      }
      assert names[..|names|] == names;
      if |sb| > 0 {
        sb := sb + ",";
      }
      match feature.geometry {
        case Some(wkt) => sb := sb + GeomFromText(wkt);
        case None => sb := sb + "NULL";
      }
      r := sb;
    }

    /** getUpdateSetClause; the feature must carry a geometry. */
    method GetUpdateSetClause(feature: Feature) returns (r: string)
      requires feature.geometry.Some?
      ensures r == UpdateSetClause(columnNames, geomColumnName, feature)
    {
      var sb := "";
      var names := columnNames;
      for i := 0 to |names|
        invariant sb == Assignments(NonNullColumns(names[..i], feature), feature)
      {
        var name := names[i];
        AssignmentsStep(names, i, feature);
        var value := Prop(feature, name);
        if value.Some? {
          sb := sb + name + "=" + SqlEscape(value.value) + ", ";
        }
      }
      assert names[..|names|] == names;
      GeomAssignmentAppended(sb, geomColumnName, feature.geometry.value);
      var geomName := GeomNameText(geomColumnName);
      sb := sb + geomName + "=" + GeomFromText(feature.geometry.value);
      r := sb;
    }

    /** equals: same GeoPackage and same table name; the registry plays no part. */
    function Equals(o: FeatureSource?): (r: bool)
      ensures r <==> o != null && gpkg == o.gpkg && tableName == o.tableName
    {
      this == o || (o != null && gpkg == o.gpkg && tableName == o.tableName)
    }

    /** hashCode: 31 * gpkg.hashCode() + tableName.hashCode(), in int arithmetic. */
    function HashCode(): (h: int)
      ensures -TwoTo31 <= h < TwoTo31
    {
      Wrap32(31 * GeoPackageHash(gpkg) + StringHash(tableName))
    }
  }

  /** equals is an equivalence relation on feature sources. */
  lemma EqualsIsEquivalence(a: FeatureSource, b: FeatureSource, c: FeatureSource)
    ensures a.Equals(a)
    ensures a.Equals(b) <==> b.Equals(a)
    ensures a.Equals(b) && b.Equals(c) ==> a.Equals(c)
  {
  }

  /** Equal sources have equal hash codes, whatever their registries hold. */
  lemma EqualSourcesHashAlike(a: FeatureSource, b: FeatureSource)
    requires a.Equals(b)
    ensures a.HashCode() == b.HashCode()
  {
  }

  /** Two sources of the same table with different registries are equal;
      sources of different tables never are. */
  method IdentityExample()
  {
    var g := GeoPackage(1);
    var a := new FeatureSource(g, "roads");
    var b := new FeatureSource(g, "roads");
    a.AddColumn("name", "TEXT");
    b.SetGeomColumnName(Some("geom"));
    assert a.Equals(b) && a.HashCode() == b.HashCode();
    var c := new FeatureSource(g, "rivers");
    assert !a.Equals(c);
  }
}
