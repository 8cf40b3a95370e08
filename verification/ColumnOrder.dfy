/**
 * The order in which a feature source emits the columns of an INSERT:
 * the comparator ALPHABETICAL_ORDER (case-insensitive comparison, ties broken
 * by the case-sensitive String.compareTo) and the sort of the registered
 * column names by it.
 *
 * Characters are compared by their numeric values; a Dafny char is a Unicode
 * scalar value, so this agrees with Java's comparison of UTF-16 code units on
 * the Basic Multilingual Plane only. Case folding covers the ASCII letters only.
 */
module ColumnOrder {

  /** String.compareTo: the difference of the first differing characters,
      otherwise the difference of the lengths. */
  function CompareTo(a: string, b: string): int
  {
    if a == [] || b == [] then |a| - |b|
    else if a[0] != b[0] then a[0] as int - b[0] as int
    else CompareTo(a[1..], b[1..])
  }

  function ToUpper(c: char): char
  {
    if 'a' <= c <= 'z' then (c as int - 32) as char else c
  }

  function ToLower(c: char): char
  {
    if 'A' <= c <= 'Z' then (c as int + 32) as char else c
  }

  /** The character String.CASE_INSENSITIVE_ORDER compares: the lower case of the upper case. */
  function Fold(c: char): char
  {
    ToLower(ToUpper(c))
  }

  /** String.CASE_INSENSITIVE_ORDER.compare: characters that differ are compared
      after folding; a common prefix is decided by the lengths. */
  function CaseInsensitiveCompare(a: string, b: string): int
  {
    if a == [] || b == [] then |a| - |b|
    else if a[0] != b[0] && Fold(a[0]) != Fold(b[0]) then Fold(a[0]) as int - Fold(b[0]) as int
    else CaseInsensitiveCompare(a[1..], b[1..])
  }

  /** ALPHABETICAL_ORDER.compare: case-insensitive first, case-sensitive on a tie. */
  function Compare(a: string, b: string): int
  {
    var res := CaseInsensitiveCompare(a, b);
    if res == 0 then CompareTo(a, b) else res
  }

  /** The whole string folded character by character. */
  function FoldAll(s: string): (r: string)
    ensures |r| == |s|
  {
    if s == [] then [] else [Fold(s[0])] + FoldAll(s[1..])
  }

  // ---------------------------------------------------------------------------
  // String.compareTo is a strict total order with 0 exactly on equal strings.

  lemma {:induction false} CompareToAntisymmetric(a: string, b: string)
    ensures CompareTo(a, b) == -CompareTo(b, a)
  {
    if a != [] && b != [] && a[0] == b[0] {
      CompareToAntisymmetric(a[1..], b[1..]);
    }
  }

  lemma {:induction false} CompareToZero(a: string, b: string)
    ensures CompareTo(a, b) == 0 <==> a == b
  {
    if a != [] && b != [] && a[0] == b[0] {
      CompareToZero(a[1..], b[1..]);
      assert a == [a[0]] + a[1..] && b == [b[0]] + b[1..];
    }
  }

  lemma {:induction false} CompareToTransitive(a: string, b: string, c: string)
    requires CompareTo(a, b) < 0 && CompareTo(b, c) < 0
    ensures CompareTo(a, c) < 0
  {
    if a != [] && b != [] && c != [] && a[0] == b[0] && b[0] == c[0] {
      CompareToTransitive(a[1..], b[1..], c[1..]);
    }
  }

  // ---------------------------------------------------------------------------
  // The case-insensitive comparison is String.compareTo on the folded strings.

  lemma {:induction false} CaseInsensitiveIsFoldedCompare(a: string, b: string)
    ensures CaseInsensitiveCompare(a, b) == CompareTo(FoldAll(a), FoldAll(b))
  {
    if a != [] && b != [] {
      CaseInsensitiveIsFoldedCompare(a[1..], b[1..]);
      assert FoldAll(a)[1..] == FoldAll(a[1..]);
      assert FoldAll(b)[1..] == FoldAll(b[1..]);
    }
  }

  /** Strings that compare equal ignoring case compare alike against every third string. */
  lemma CaseInsensitiveTie(a: string, b: string, c: string)
    requires CaseInsensitiveCompare(a, b) == 0
    ensures CaseInsensitiveCompare(a, c) == CaseInsensitiveCompare(b, c)
  {
    CaseInsensitiveIsFoldedCompare(a, b);
    CaseInsensitiveIsFoldedCompare(a, c);
    CaseInsensitiveIsFoldedCompare(b, c);
    CompareToZero(FoldAll(a), FoldAll(b));
  }

  // ---------------------------------------------------------------------------
  // ALPHABETICAL_ORDER is a total order that returns 0 only for identical strings.

  lemma CompareZeroIffEqual(a: string, b: string)
    ensures Compare(a, b) == 0 <==> a == b
  {
    CompareToZero(a, b);
    if a == b {
      CaseInsensitiveIsFoldedCompare(a, b);
      CompareToZero(FoldAll(a), FoldAll(b));
    }
  }

  lemma CompareAntisymmetric(a: string, b: string)
    ensures Compare(a, b) == -Compare(b, a)
  {
    CaseInsensitiveIsFoldedCompare(a, b);
    CaseInsensitiveIsFoldedCompare(b, a);
    CompareToAntisymmetric(FoldAll(a), FoldAll(b));
    CompareToAntisymmetric(a, b);
  }

  lemma CaseInsensitiveTransitive(a: string, b: string, c: string)
    requires CaseInsensitiveCompare(a, b) < 0 && CaseInsensitiveCompare(b, c) < 0
    ensures CaseInsensitiveCompare(a, c) < 0
  {
    CaseInsensitiveIsFoldedCompare(a, b);
    CaseInsensitiveIsFoldedCompare(b, c);
    CaseInsensitiveIsFoldedCompare(a, c);
    CompareToTransitive(FoldAll(a), FoldAll(b), FoldAll(c));
  }

  lemma CompareTransitive(a: string, b: string, c: string)
    requires Compare(a, b) <= 0 && Compare(b, c) <= 0
    ensures Compare(a, c) <= 0
  {
    CompareZeroIffEqual(a, b);
    CompareZeroIffEqual(b, c);
    if a == b || b == c {
      return;
    }
    var ab := CaseInsensitiveCompare(a, b);
    var bc := CaseInsensitiveCompare(b, c);
    if ab < 0 && bc < 0 {
      CaseInsensitiveTransitive(a, b, c);
    } else if ab < 0 {
      CaseInsensitiveTie(b, c, a);
      CaseInsensitiveIsFoldedCompare(a, b);
      CaseInsensitiveIsFoldedCompare(b, a);
      CompareToAntisymmetric(FoldAll(a), FoldAll(b));
      CaseInsensitiveIsFoldedCompare(a, c);
      CaseInsensitiveIsFoldedCompare(c, a);
      CompareToAntisymmetric(FoldAll(a), FoldAll(c));
    } else if bc < 0 {
      CaseInsensitiveTie(a, b, c);
    } else {
      CaseInsensitiveTie(a, b, c);
      CompareToZero(a, b);
      CompareToZero(b, c);
      CompareToTransitive(a, b, c);
    }
  }

  /** Every two strings are ordered one way or the other. */
  lemma CompareTotal(a: string, b: string)
    ensures Compare(a, b) <= 0 || Compare(b, a) <= 0
  {
    CompareAntisymmetric(a, b);
  }

  // ---------------------------------------------------------------------------
  // Sorting by ALPHABETICAL_ORDER.

  ghost predicate Sorted(s: seq<string>)
  {
    forall i, j :: 0 <= i < j < |s| ==> Compare(s[i], s[j]) <= 0
  }

  /** Inserts x before the first element it does not follow. */
  function Insert(x: string, s: seq<string>): seq<string>
  {
    if s == [] then [x]
    else if Compare(x, s[0]) <= 0 then [x] + s
    else [s[0]] + Insert(x, s[1..])
  }

  /** The column names in ALPHABETICAL_ORDER (Collections.sort of a copy of the key set). */
  function SortColumns(s: seq<string>): seq<string>
  {
    if s == [] then [] else Insert(s[0], SortColumns(s[1..]))
  }

  lemma {:induction false} InsertPermutes(x: string, s: seq<string>)
    ensures multiset(Insert(x, s)) == multiset(s) + multiset{x}
  {
    if s != [] && Compare(x, s[0]) > 0 {
      InsertPermutes(x, s[1..]);
      assert s == [s[0]] + s[1..];
    }
  }

  /** An element that precedes the head of a sorted list precedes all of it. */
  lemma ConsSorted(x: string, s: seq<string>)
    requires Sorted(s) && (s != [] ==> Compare(x, s[0]) <= 0)
    ensures Sorted([x] + s)
  {
    var r := [x] + s;
    forall i, j | 0 <= i < j < |r| ensures Compare(r[i], r[j]) <= 0 {
      if i == 0 && j > 1 {
        CompareTransitive(x, s[0], s[j - 1]);
      }
    }
  }

  /** An element that every element of a sorted list follows may head it. */
  lemma HeadSorted(y: string, t: seq<string>)
    requires Sorted(t) && forall z :: z in multiset(t) ==> Compare(y, z) <= 0
    ensures Sorted([y] + t)
  {
    var r := [y] + t;
    forall i, j | 0 <= i < j < |r| ensures Compare(r[i], r[j]) <= 0 {
      if i == 0 {
        assert t[j - 1] in multiset(t);
      }
    }
  }

  lemma {:induction false} InsertSorted(x: string, s: seq<string>)
    requires Sorted(s)
    ensures Sorted(Insert(x, s))
  {
    if s != [] && Compare(x, s[0]) > 0 {
      var t := Insert(x, s[1..]);
      SortedTail(s);
      InsertSorted(x, s[1..]);
      InsertPermutes(x, s[1..]);
      forall z | z in multiset(t) ensures Compare(s[0], z) <= 0 {
        if z == x {
          CompareAntisymmetric(x, s[0]);
        } else {
          assert z in multiset(s[1..]);
          var k :| 0 <= k < |s[1..]| && s[1..][k] == z;
          assert s[k + 1] == z;
        }
      }
      HeadSorted(s[0], t);
    } else {
      ConsSorted(x, s);
    }
  }

  /** The sort is a permutation of its input in non-decreasing ALPHABETICAL_ORDER. */
  lemma {:induction false} SortColumnsCorrect(s: seq<string>)
    ensures Sorted(SortColumns(s))
    ensures multiset(SortColumns(s)) == multiset(s)
  {
    if s != [] {
      SortColumnsCorrect(s[1..]);
      InsertSorted(s[0], SortColumns(s[1..]));
      InsertPermutes(s[0], SortColumns(s[1..]));
      assert s == [s[0]] + s[1..];
    }
  }

  /** Two sorted permutations of each other begin with the same element. */
  lemma SortedPermutationsSameHead(s: seq<string>, t: seq<string>)
    requires s != [] && Sorted(s) && Sorted(t) && multiset(s) == multiset(t)
    ensures t != [] && s[0] == t[0]
  {
    assert s[0] in multiset(t);
    assert t != [] && t[0] in multiset(s);
    var m :| 0 <= m < |s| && s[m] == t[0];
    var k :| 0 <= k < |t| && t[k] == s[0];
    CompareZeroIffEqual(s[0], s[0]);
    assert Compare(s[0], t[0]) <= 0 by { if m > 0 { assert Compare(s[0], s[m]) <= 0; } }
    assert Compare(t[0], s[0]) <= 0 by { if k > 0 { assert Compare(t[0], t[k]) <= 0; } }
    CompareAntisymmetric(s[0], t[0]);
    CompareZeroIffEqual(s[0], t[0]);
  }

  /** Because ALPHABETICAL_ORDER is 0 only on identical strings, a sorted
      permutation is unique: any sort (Collections.sort included) yields
      SortColumns, so two sorts of the same names always agree. */
  lemma {:induction false} SortedPermutationUnique(s: seq<string>, t: seq<string>)
    requires Sorted(s) && Sorted(t) && multiset(s) == multiset(t)
    ensures s == t
  {
    if s != [] {
      SortedPermutationsSameHead(s, t);
      assert s == [s[0]] + s[1..] && t == [t[0]] + t[1..];
      assert multiset(s) == multiset{s[0]} + multiset(s[1..]);
      assert multiset(t) == multiset{t[0]} + multiset(t[1..]);
      assert multiset(s[1..]) == multiset(s) - multiset{s[0]};
      assert multiset(t[1..]) == multiset(t) - multiset{t[0]};
      SortedTail(s);
      SortedTail(t);
      SortedPermutationUnique(s[1..], t[1..]);
    }
  }

  lemma SortedTail(s: seq<string>)
    requires s != [] && Sorted(s)
    ensures Sorted(s[1..])
  {
    forall i, j | 0 <= i < j < |s[1..]| ensures Compare(s[1..][i], s[1..][j]) <= 0 {
      assert s[1..][i] == s[i + 1] && s[1..][j] == s[j + 1];
    }
  }

  /** The example order: Name, age and ID sort to age, ID, Name. */
  lemma SortExample()
    ensures SortColumns(["Name", "age", "ID"]) == ["age", "ID", "Name"]
  {
  }
}
