# SpatialConnect feature-source core in Dafny

This project models two pieces of the SpatialConnect Android library.

- **`SCGpkgFeatureSource`.** A feature table in a GeoPackage. It keeps a registry of the table's columns: an insertion-ordered map from column name to SQL type, plus the primary-key and geometry column names. It builds three SQL fragments for a spatial feature:
  - the column list of an INSERT;
  - the value list of an INSERT, with every property value quoted as an SQL string literal and the geometry written as `ST_GeomFromText('<wkt>')` or `NULL`;
  - the SET clause of an UPDATE.

  The INSERT fragments list the columns in `ALPHABETICAL_ORDER`: case-insensitive first, with ties broken case-sensitively. Two sources are equal, and hash alike, when they have the same GeoPackage and table name.
- **`SCCommand`.** The enumeration of bridge commands and their action numbers, with the reverse lookup `fromActionNumber`.

Modules:

- `Wrappers`: `Option` and `Result`.
- `ColumnOrder`: the comparator and the sort.
  - `String.compareTo`, `String.CASE_INSENSITIVE_ORDER` (ASCII folding) and `ALPHABETICAL_ORDER`.
  - Proofs that the comparator is a total order that returns 0 only for identical strings.
  - An insertion sort, proved to give a sorted permutation.
  - A proof that a sorted permutation is unique. So any sorting algorithm, `Collections.sort` included, produces the same list.
- `SqlLiterals`: `DatabaseUtils.sqlEscapeString` and its partner, a reader of SQL string literals. The lemmas prove that an escaped value reads back whole and cannot end its literal early.
- `Features`: features with nullable properties and an optional WKT geometry. Also the filter "registered columns whose property is non-null", and the proof that this filter commutes with the sort.
- `Fragments`: the three fragments as functions, and what they promise:
  - The two INSERT fragments align: reading the value list back gives the property of column i at position i, followed by the geometry term.
  - The UPDATE clause keeps registration order and ends with the geometry assignment.
- `GpkgFeatureSource`: the class `FeatureSource`.
  - Its fields are the ones `SCGpkgFeatureSource` updates in place.
  - `AddColumn` and the setters have `modifies` frames.
  - The fragment builders are methods with the source's loops. Each is proved equal to the fragment function.
  - It also holds `equals` and `hashCode`, with Java's 32-bit `int` arithmetic written out.
- `Commands`: the 36 constants and their numbers.
  - `fromActionNumber` is modelled twice: as a specification function and as the method `FindCommand`, which has the source's loop.
  - An independent reverse table, `Canonical`, is the reference the lookup is proved against for every number.

Three behaviours of the code that a reader might not expect are kept as written:

- **Unset geometry column.** `getColumnNamesForInsert` appends the geometry column name through `StringBuilder.append(String)`, which writes `null` when no name was set. `GeomNameText` models that.
- **UPDATE values.** `getUpdateSetClause` passes every value through `sqlEscapeString`, as the INSERT value list does, so a value 30 is written `age='30'` (see `UpdateExample`).
- **UPDATE geometry.** `getUpdateSetClause` casts the feature to a geometry and dereferences its geometry without a check. The model therefore requires a geometry (`requires feature.geometry.Some?`) where the code would throw.

## Model

| member | source | states |
|---|---|---|
| ColumnOrder.CompareTo | spatialconnect/src/main/java/com/boundlessgeo/spatialconnect/db/SCGpkgFeatureSource.java:173 | no contract of its own: String.compareTo, the first character difference or else the length difference; CompareToAntisymmetric, CompareToZero and CompareToTransitive state its order properties |
| ColumnOrder.CaseInsensitiveCompare | spatialconnect/src/main/java/com/boundlessgeo/spatialconnect/db/SCGpkgFeatureSource.java:171 | no contract of its own: CASE_INSENSITIVE_ORDER with ASCII folding; CaseInsensitiveIsFoldedCompare, CaseInsensitiveTie and CaseInsensitiveTransitive state what it does |
| ColumnOrder.Compare | spatialconnect/src/main/java/com/boundlessgeo/spatialconnect/db/SCGpkgFeatureSource.java:169-177 | no contract of its own: the comparator, case-insensitive first and compareTo on a tie; CompareZeroIffEqual, CompareAntisymmetric, CompareTransitive and CompareTotal state that it is a total order |
| ColumnOrder.CompareToAntisymmetric | spatialconnect/src/main/java/com/boundlessgeo/spatialconnect/db/SCGpkgFeatureSource.java:173 | the case-sensitive tie-breaker is antisymmetric: compareTo(a, b) == -compareTo(b, a) |
| ColumnOrder.CompareToZero | spatialconnect/src/main/java/com/boundlessgeo/spatialconnect/db/SCGpkgFeatureSource.java:173 | compareTo is 0 exactly on identical strings |
| ColumnOrder.CompareToTransitive | spatialconnect/src/main/java/com/boundlessgeo/spatialconnect/db/SCGpkgFeatureSource.java:173 | compareTo's strict order is transitive |
| ColumnOrder.CaseInsensitiveIsFoldedCompare | spatialconnect/src/main/java/com/boundlessgeo/spatialconnect/db/SCGpkgFeatureSource.java:171 | CASE_INSENSITIVE_ORDER equals compareTo applied to the case-folded strings |
| ColumnOrder.CaseInsensitiveTie | spatialconnect/src/main/java/com/boundlessgeo/spatialconnect/db/SCGpkgFeatureSource.java:171 | two strings equal ignoring case compare alike against any third string |
| ColumnOrder.CaseInsensitiveTransitive | spatialconnect/src/main/java/com/boundlessgeo/spatialconnect/db/SCGpkgFeatureSource.java:171 | the case-insensitive strict order is transitive |
| ColumnOrder.CompareZeroIffEqual | spatialconnect/src/main/java/com/boundlessgeo/spatialconnect/db/SCGpkgFeatureSource.java:169-177 | ALPHABETICAL_ORDER returns 0 if and only if the strings are identical |
| ColumnOrder.CompareAntisymmetric | spatialconnect/src/main/java/com/boundlessgeo/spatialconnect/db/SCGpkgFeatureSource.java:169-177 | compare(a, b) == -compare(b, a) |
| ColumnOrder.CompareTransitive | spatialconnect/src/main/java/com/boundlessgeo/spatialconnect/db/SCGpkgFeatureSource.java:169-177 | compare(a, b) <= 0 and compare(b, c) <= 0 imply compare(a, c) <= 0 |
| ColumnOrder.CompareTotal | spatialconnect/src/main/java/com/boundlessgeo/spatialconnect/db/SCGpkgFeatureSource.java:169-177 | any two names are ordered one way or the other |
| ColumnOrder.SortColumns | spatialconnect/src/main/java/com/boundlessgeo/spatialconnect/db/SCGpkgFeatureSource.java:101-102 | no contract of its own: Collections.sort of the key set; SortColumnsCorrect states that the result is sorted and a permutation, and SortedPermutationUnique that every correct sort gives this list |
| ColumnOrder.InsertPermutes | spatialconnect/src/main/java/com/boundlessgeo/spatialconnect/db/SCGpkgFeatureSource.java:102 | inserting into the sorted list adds exactly that one name |
| ColumnOrder.InsertSorted | spatialconnect/src/main/java/com/boundlessgeo/spatialconnect/db/SCGpkgFeatureSource.java:102 | inserting into a sorted list keeps it sorted |
| ColumnOrder.ConsSorted | spatialconnect/src/main/java/com/boundlessgeo/spatialconnect/db/SCGpkgFeatureSource.java:102 | a name that does not follow the head of a sorted list may be put in front of it |
| ColumnOrder.HeadSorted | spatialconnect/src/main/java/com/boundlessgeo/spatialconnect/db/SCGpkgFeatureSource.java:102 | a name that every element of a sorted list follows may head it |
| ColumnOrder.SortColumnsCorrect | spatialconnect/src/main/java/com/boundlessgeo/spatialconnect/db/SCGpkgFeatureSource.java:101-102 | the sorted copy of the key set is in ALPHABETICAL_ORDER and is a permutation of the keys |
| ColumnOrder.SortedTail | spatialconnect/src/main/java/com/boundlessgeo/spatialconnect/db/SCGpkgFeatureSource.java:102 | the tail of a sorted list is sorted |
| ColumnOrder.SortedPermutationsSameHead | spatialconnect/src/main/java/com/boundlessgeo/spatialconnect/db/SCGpkgFeatureSource.java:102 | two sorted permutations of each other start with the same name |
| ColumnOrder.SortedPermutationUnique | spatialconnect/src/main/java/com/boundlessgeo/spatialconnect/db/SCGpkgFeatureSource.java:102 | two sorted permutations of each other are equal, so every sort of the keys gives the same list |
| ColumnOrder.SortExample | spatialconnect/src/main/java/com/boundlessgeo/spatialconnect/db/SCGpkgFeatureSource.java:169-177 | Name, age, ID sort to age, ID, Name |
| SqlLiterals.GeomFromText | spatialconnect/src/main/java/com/boundlessgeo/spatialconnect/db/SCGpkgFeatureSource.java:135-138 | no contract of its own: the ST_GeomFromText('wkt') term, the wkt unescaped; InsertValuesTerminated, UpdateSetClauseShape and GeometryInsertExample state where it appears |
| SqlLiterals.SqlEscape | spatialconnect/src/main/java/com/boundlessgeo/spatialconnect/db/SCGpkgFeatureSource.java:128 | an escaped value is at least the two quotes long |
| SqlLiterals.EscapeIsQuoted | spatialconnect/src/main/java/com/boundlessgeo/spatialconnect/db/SCGpkgFeatureSource.java:128 | an escaped value starts and ends with a single quote |
| SqlLiterals.ReadQuotedDoubled | spatialconnect/src/main/java/com/boundlessgeo/spatialconnect/db/SCGpkgFeatureSource.java:128 | the body of an escaped value, doubled quotes included, reads back as the original text up to the closing quote |
| SqlLiterals.EscapeRoundTrip | spatialconnect/src/main/java/com/boundlessgeo/spatialconnect/db/SCGpkgFeatureSource.java:128 | reading the literal sqlEscapeString(s) gives s back, and the literal ends exactly where the escaped text ends, whatever s contains |
| SqlLiterals.EscapeExample | spatialconnect/src/main/java/com/boundlessgeo/spatialconnect/db/SCGpkgFeatureSource.java:158 | O'Hara is written 'O''Hara' |
| Features.NonNullColumns | spatialconnect/src/main/java/com/boundlessgeo/spatialconnect/db/SCGpkgFeatureSource.java:103-107 | no contract of its own: the names whose property is non-null, in their given order; NonNullColumnsMembers, NonNullColumnsCount, NonNullColumnsSorted and NonNullCommutesWithSort state what it keeps |
| Features.Prop | spatialconnect/src/main/java/com/boundlessgeo/spatialconnect/db/SCGpkgFeatureSource.java:104 | no contract of its own: feature.getProperties().get(name), None both for a missing key and for a null value; NonNullColumnsMembers and NonNullColumnsCount state how the filters use it |
| Features.NonNullColumnsMembers | spatialconnect/src/main/java/com/boundlessgeo/spatialconnect/db/SCGpkgFeatureSource.java:104 | a column is chosen if and only if it is registered and its property is non-null |
| Features.NonNullColumnsCount | spatialconnect/src/main/java/com/boundlessgeo/spatialconnect/db/SCGpkgFeatureSource.java:124 | the filter keeps every occurrence of a name with a non-null property and drops the others |
| Features.NonNullColumnsInOrder | spatialconnect/src/main/java/com/boundlessgeo/spatialconnect/db/SCGpkgFeatureSource.java:103-106 | the filter keeps the names in their given order: its result is the names taken at strictly increasing positions, and a position is taken if and only if its property is non-null |
| Features.NonNullColumnsSorted | spatialconnect/src/main/java/com/boundlessgeo/spatialconnect/db/SCGpkgFeatureSource.java:120-124 | filtering sorted names keeps them sorted |
| Features.NonNullCommutesWithSort | spatialconnect/src/main/java/com/boundlessgeo/spatialconnect/db/SCGpkgFeatureSource.java:152-155 | filtering the sorted names gives the sorted filtered names, so the INSERT columns are the UPDATE columns sorted |
| Fragments.InsertColumnNames | spatialconnect/src/main/java/com/boundlessgeo/spatialconnect/db/SCGpkgFeatureSource.java:99-110 | no contract of its own: the INSERT column list; InsertColumnsChosen, InsertFragmentsAlign and InsertWithoutScalars state its shape and content |
| Fragments.InsertColumnValues | spatialconnect/src/main/java/com/boundlessgeo/spatialconnect/db/SCGpkgFeatureSource.java:118-144 | no contract of its own: the INSERT value list; InsertValuesTerminated, InsertFragmentsAlign and InsertWithoutScalars state its shape and that it reads back as the values |
| Fragments.UpdateSetClause | spatialconnect/src/main/java/com/boundlessgeo/spatialconnect/db/SCGpkgFeatureSource.java:152-166 | no contract of its own: the UPDATE SET clause; UpdateSetClauseShape states which columns it assigns, that they keep registration order, and how it ends; AssignmentReadsBack states that each value reads back from its pair |
| Fragments.InsertColumnsChosen | spatialconnect/src/main/java/com/boundlessgeo/spatialconnect/db/SCGpkgFeatureSource.java:99-107 | the INSERT columns are sorted, and a name is among them if and only if it is registered and its property is non-null |
| Fragments.InsertValuesStep | spatialconnect/src/main/java/com/boundlessgeo/spatialconnect/db/SCGpkgFeatureSource.java:123-131 | a null property leaves the value list unchanged; a non-null one appends its literal, after a comma unless it is the first |
| Fragments.JoinThenComma | spatialconnect/src/main/java/com/boundlessgeo/spatialconnect/db/SCGpkgFeatureSource.java:132-134 | a non-empty comma-separated list followed by a comma is the comma-terminated list |
| Fragments.JoinEscapedEmpty | spatialconnect/src/main/java/com/boundlessgeo/spatialconnect/db/SCGpkgFeatureSource.java:132 | the joined literals are empty if and only if no value was written |
| Fragments.ReadTerminatedLiterals | spatialconnect/src/main/java/com/boundlessgeo/spatialconnect/db/SCGpkgFeatureSource.java:125-134 | a list of escaped literals, each followed by a comma, reads back as the original values followed by the final term |
| Fragments.InsertValuesTerminated | spatialconnect/src/main/java/com/boundlessgeo/spatialconnect/db/SCGpkgFeatureSource.java:118-144 | the value list is each literal followed by a comma, then ST_GeomFromText('wkt') or NULL |
| Fragments.InsertFragmentsAlign | spatialconnect/src/main/java/com/boundlessgeo/spatialconnect/db/SCGpkgFeatureSource.java:99-144 | the column list is each chosen name plus a comma, then the geometry column name; the value list reads back as one value per listed column, in the same order, followed by the geometry term |
| Fragments.InsertWithoutScalars | spatialconnect/src/main/java/com/boundlessgeo/spatialconnect/db/SCGpkgFeatureSource.java:132-142 | with no non-null registered property both fragments are the geometry term alone, with no stray comma |
| Fragments.AssignmentsSnoc | spatialconnect/src/main/java/com/boundlessgeo/spatialconnect/db/SCGpkgFeatureSource.java:156-159 | one more column appends exactly its name=literal, pair |
| Fragments.AssignmentsStep | spatialconnect/src/main/java/com/boundlessgeo/spatialconnect/db/SCGpkgFeatureSource.java:154-160 | a null property leaves the clause unchanged; a non-null one appends name=literal, |
| Fragments.UpdateSetClauseShape | spatialconnect/src/main/java/com/boundlessgeo/spatialconnect/db/SCGpkgFeatureSource.java:152-166 | a name is assigned if and only if it is registered and its property is non-null; the assigned columns are the registered names at strictly increasing positions, exactly the positions with a non-null property, so registration order is kept (the walk over columns.keySet() at :154, not a sorted copy); sorted, they are the INSERT columns; the clause ends with the geometry assignment, so no separator dangles |
| Fragments.AssignmentReadsBack | spatialconnect/src/main/java/com/boundlessgeo/spatialconnect/db/SCGpkgFeatureSource.java:156-159 | in each name=value, pair of the UPDATE clause the name is followed by =, and the escaped value reads back as the property value and closes exactly before the , separator |
| Fragments.GeomNameText | spatialconnect/src/main/java/com/boundlessgeo/spatialconnect/db/SCGpkgFeatureSource.java:108 | no contract of its own: StringBuilder.append of the geometry column name, which writes null when the name is unset; InsertFragmentsAlign and SparseInsertExample state where it appears |
| Fragments.SparseInsertColumns | spatialconnect/src/main/java/com/boundlessgeo/spatialconnect/db/SCGpkgFeatureSource.java:101-106 | of the registered age and name, only name has a property |
| Fragments.SparseInsertExample | spatialconnect/src/main/java/com/boundlessgeo/spatialconnect/db/SCGpkgFeatureSource.java:99-144 | a feature without geometry whose only property is name X gives the fragments name,geom and 'X',NULL |
| Fragments.GeometryInsertExample | spatialconnect/src/main/java/com/boundlessgeo/spatialconnect/db/SCGpkgFeatureSource.java:135-139 | a lone geometry gives the value list ST_GeomFromText('POINT(1 2)') |
| Fragments.ExampleAssignments | spatialconnect/src/main/java/com/boundlessgeo/spatialconnect/db/SCGpkgFeatureSource.java:154-160 | age 30 and name X, in registration order, are written age='30', name='X',  |
| Fragments.ExampleUpdateColumns | spatialconnect/src/main/java/com/boundlessgeo/spatialconnect/db/SCGpkgFeatureSource.java:154-155 | both registered columns have a property |
| Fragments.RegistrationOrderExample | spatialconnect/src/main/java/com/boundlessgeo/spatialconnect/db/SCGpkgFeatureSource.java:101-106 | with name registered before age, the UPDATE columns stay name, age while the INSERT columns are sorted to age, name |
| Fragments.UpdateExample | spatialconnect/src/main/java/com/boundlessgeo/spatialconnect/db/SCGpkgFeatureSource.java:152-166 | a feature with age 30, name X and geometry POINT(0 0) gives the SET clause age='30', name='X', geom=ST_GeomFromText('POINT(0 0)'), with the values quoted |
| Fragments.UpdateOrderExample | spatialconnect/src/main/java/com/boundlessgeo/spatialconnect/db/SCGpkgFeatureSource.java:152-166 | the same feature with name registered before age gives name='X', age='30', geom=ST_GeomFromText('POINT(0 0)'): the clause follows registration order, not ALPHABETICAL_ORDER |
| GpkgFeatureSource.Wrap32 | spatialconnect/src/main/java/com/boundlessgeo/spatialconnect/db/SCGpkgFeatureSource.java:193-194 | Java int arithmetic: the result is in range and congruent to the exact value modulo 2^32 |
| GpkgFeatureSource.StringHash | spatialconnect/src/main/java/com/boundlessgeo/spatialconnect/db/SCGpkgFeatureSource.java:194 | tableName.hashCode() is a 32-bit int |
| GpkgFeatureSource.GeoPackageHash | spatialconnect/src/main/java/com/boundlessgeo/spatialconnect/db/SCGpkgFeatureSource.java:193 | gpkg.hashCode() is a 32-bit int; the GeoPackage class is not part of this model, so its hash is its id as an int |
| GpkgFeatureSource.FeatureSource.constructor | spatialconnect/src/main/java/com/boundlessgeo/spatialconnect/db/SCGpkgFeatureSource.java:59-62 | a new source holds the GeoPackage and table name, an empty registry and no key or geometry column |
| GpkgFeatureSource.FeatureSource.GetColumns | spatialconnect/src/main/java/com/boundlessgeo/spatialconnect/db/SCGpkgFeatureSource.java:64-66 | the entries in registration order; an entry is present if and only if the registry maps that name to that type |
| GpkgFeatureSource.FeatureSource.AddColumn | spatialconnect/src/main/java/com/boundlessgeo/spatialconnect/db/SCGpkgFeatureSource.java:68-70 | the name now maps to the type; a new name goes to the end of the order, and an existing name keeps its place; the registry stays a map with an insertion order |
| GpkgFeatureSource.FeatureSource.SetGeomColumnName | spatialconnect/src/main/java/com/boundlessgeo/spatialconnect/db/SCGpkgFeatureSource.java:72-74 | sets the geometry column name and nothing else |
| GpkgFeatureSource.FeatureSource.SetPrimaryKeyName | spatialconnect/src/main/java/com/boundlessgeo/spatialconnect/db/SCGpkgFeatureSource.java:76-78 | sets the primary-key name and nothing else |
| GpkgFeatureSource.FeatureSource.GetTableName | spatialconnect/src/main/java/com/boundlessgeo/spatialconnect/db/SCGpkgFeatureSource.java:80-82 | no contract of its own: returns the table name given to the constructor |
| GpkgFeatureSource.FeatureSource.GetPrimaryKeyName | spatialconnect/src/main/java/com/boundlessgeo/spatialconnect/db/SCGpkgFeatureSource.java:84-86 | no contract of its own: returns the primary-key name, None until SetPrimaryKeyName sets it |
| GpkgFeatureSource.FeatureSource.GetGeomColumnName | spatialconnect/src/main/java/com/boundlessgeo/spatialconnect/db/SCGpkgFeatureSource.java:88-90 | no contract of its own: returns the geometry column name, None until SetGeomColumnName sets it |
| GpkgFeatureSource.FeatureSource.GetColumnNamesForInsert | spatialconnect/src/main/java/com/boundlessgeo/spatialconnect/db/SCGpkgFeatureSource.java:99-110 | the loop over the sorted names builds InsertColumnNames, whose alignment and column choice are proved in Fragments |
| GpkgFeatureSource.FeatureSource.GetColumnValuesForInsert | spatialconnect/src/main/java/com/boundlessgeo/spatialconnect/db/SCGpkgFeatureSource.java:118-144 | the loop with its firstIteration flag builds InsertColumnValues |
| GpkgFeatureSource.FeatureSource.GetUpdateSetClause | spatialconnect/src/main/java/com/boundlessgeo/spatialconnect/db/SCGpkgFeatureSource.java:152-166 | the loop over the names in registration order builds UpdateSetClause; a geometry is required |
| GpkgFeatureSource.FeatureSource.Equals | spatialconnect/src/main/java/com/boundlessgeo/spatialconnect/db/SCGpkgFeatureSource.java:179-189 | equal if and only if the other source is non-null and has the same GeoPackage and table name |
| GpkgFeatureSource.FeatureSource.HashCode | spatialconnect/src/main/java/com/boundlessgeo/spatialconnect/db/SCGpkgFeatureSource.java:191-196 | the hash is a 32-bit int |
| GpkgFeatureSource.EqualsIsEquivalence | spatialconnect/src/main/java/com/boundlessgeo/spatialconnect/db/SCGpkgFeatureSource.java:179-189 | equals is reflexive, symmetric and transitive |
| GpkgFeatureSource.EqualSourcesHashAlike | spatialconnect/src/main/java/com/boundlessgeo/spatialconnect/db/SCGpkgFeatureSource.java:179-196 | equal sources have equal hash codes, whatever their registries hold |
| GpkgFeatureSource.IdentityExample | spatialconnect/src/main/java/com/boundlessgeo/spatialconnect/db/SCGpkgFeatureSource.java:179-196 | no contract of its own: asserts in its body that two sources of one table with different registries are equal and hash alike, and that sources of different tables are not equal |
| Commands.Value | spatialconnect/src/main/java/com/boundlessgeo/spatialconnect/schema/SCCommand.java:48-50 | no contract of its own: value(), the number each constant is declared with; DeclaredNumbers lists them in order, and CanonicalOfValue, SharedValueOnlyByNotifications and LookupOfValue state how they map back |
| Commands.CommandAt | spatialconnect/src/main/java/com/boundlessgeo/spatialconnect/schema/SCCommand.java:5-40 | no contract of its own: values()[i], the constant declared at position i; OrdinalOfCommandAt and DeclaredNumbers state that it lists each constant once, in declaration order, and FindFrom scans it |
| Commands.Ordinal | spatialconnect/src/main/java/com/boundlessgeo/spatialconnect/schema/SCCommand.java:5-40 | every constant has a position in declaration order, and the constant at that position is itself |
| Commands.OrdinalOfCommandAt | spatialconnect/src/main/java/com/boundlessgeo/spatialconnect/schema/SCCommand.java:5-40 | values() lists each constant once: position and ordinal are inverse |
| Commands.DeclaredNumbers | spatialconnect/src/main/java/com/boundlessgeo/spatialconnect/schema/SCCommand.java:5-50 | value() of the constants in declaration order gives exactly the declared numbers |
| Commands.FindFrom | spatialconnect/src/main/java/com/boundlessgeo/spatialconnect/schema/SCCommand.java:53-57 | the scan stops at the first position whose number matches, and finds none only when no later position matches |
| Commands.NoConstantCarries | spatialconnect/src/main/java/com/boundlessgeo/spatialconnect/schema/SCCommand.java:53-58 | a number no position of values() carries is carried by no constant |
| Commands.FromActionNumber | spatialconnect/src/main/java/com/boundlessgeo/spatialconnect/schema/SCCommand.java:52-61 | the result carries the number and is the first such constant in declaration order; the IllegalArgumentException for the number is thrown if and only if no constant carries it |
| Commands.FindCommand | spatialconnect/src/main/java/com/boundlessgeo/spatialconnect/schema/SCCommand.java:52-61 | the loop over values() returns what FromActionNumber specifies |
| Commands.CanonicalOfValue | spatialconnect/src/main/java/com/boundlessgeo/spatialconnect/schema/SCCommand.java:5-40 | the reference table maps each constant's number back to that constant, except NOTIFICATION_CONTENT_AVAILABLE, whose 602 maps to NOTIFICATION_INFO |
| Commands.ValueOfCanonical | spatialconnect/src/main/java/com/boundlessgeo/spatialconnect/schema/SCCommand.java:5-40 | the reference table names only constants that carry the number |
| Commands.SharedValueOnlyByNotifications | spatialconnect/src/main/java/com/boundlessgeo/spatialconnect/schema/SCCommand.java:37-38 | two constants share a number only as NOTIFICATION_INFO followed by NOTIFICATION_CONTENT_AVAILABLE |
| Commands.TableHitFound | spatialconnect/src/main/java/com/boundlessgeo/spatialconnect/schema/SCCommand.java:53-56 | a number some constant carries is looked up as the constant the table names |
| Commands.TableMissRejected | spatialconnect/src/main/java/com/boundlessgeo/spatialconnect/schema/SCCommand.java:58-60 | a number the table does not name is rejected with IllegalArgumentException |
| Commands.FromActionNumberMatchesTable | spatialconnect/src/main/java/com/boundlessgeo/spatialconnect/schema/SCCommand.java:52-61 | for every int, fromActionNumber agrees with the independent reverse table |
| Commands.LookupOfValue | spatialconnect/src/main/java/com/boundlessgeo/spatialconnect/schema/SCCommand.java:48-61 | fromActionNumber(c.value()) is c, except for NOTIFICATION_CONTENT_AVAILABLE, which comes back as NOTIFICATION_INFO |
| Commands.ValueRoundTrip | spatialconnect/src/main/java/com/boundlessgeo/spatialconnect/schema/SCCommand.java:48-61 | fromActionNumber is a left inverse of value() on every other constant |
| Commands.UnknownNumbersRejected | spatialconnect/src/main/java/com/boundlessgeo/spatialconnect/schema/SCCommand.java:58-60 | 2, 103 and 700 are rejected |

## Left out

- The network, authentication and every other part of the library outside these two classes.
- The GeoPackage connection and the statements that run the fragments. The GeoPackage is reduced to an identity (`GeoPackage(id)`), and its `hashCode` is modelled as that id in `int` arithmetic.
- Geometry serialisation. The WKT text is an opaque string, placed inside `ST_GeomFromText('…')` unescaped, as the code does.
- `String.valueOf` of property values. Values are given as already-stringified text. A null value, or a missing key, is `None`.
- `DatabaseUtils.sqlEscapeString` is an Android library function. It is modelled by its documented behaviour: wrap in single quotes and double each embedded quote.
- `ColumnOrder.CaseInsensitiveCompare`: case folding covers ASCII letters only, where Java folds every letter of Unicode.
- `ColumnOrder.CompareTo` and `ColumnOrder.Compare`: characters are compared as Unicode scalar values, where Java compares UTF-16 code units. The two orders agree on the Basic Multilingual Plane and may differ on strings with supplementary characters.
- `GpkgFeatureSource.StringHash`: hashes Unicode scalar values, not UTF-16 code units, so a string with supplementary characters hashes differently from Java's `String.hashCode`.
- `Collections.sort` is modelled as an insertion sort. `SortedPermutationUnique` shows that any correct sort gives the same list, because the comparator is 0 only on identical strings.
- `GpkgFeatureSource.FeatureSource.Equals`: the `getClass()` test is covered by the parameter type (`FeatureSource?`). Subclasses do not exist in the model.
- Null table names, null column names and types, and a null feature are not modelled, because all names are plain strings. The optional geometry and primary-key names are `Option`s.
- `GpkgFeatureSource.FeatureSource.GetColumns` returns a snapshot of the entries, not a live view of the map that callers could mutate.
- `GpkgFeatureSource.FeatureSource.GetUpdateSetClause` requires a geometry. Where the source would fail on the cast or on a null geometry, the model requires the caller to avoid the call.
- The text of the IllegalArgumentException message is left out; only the number it reports is kept. The log tag is also left out.
