/**
 * Character-level string helpers used by the queries and by `DonationType.fromString`:
 * ASCII case folding (`equalsIgnoreCase`, `LIKE` on `UPPER`), and the code-point
 * lexicographic order used for `ORDER BY` on names.
 */
module Text {

  /** Lower-cases an ASCII letter; every other character is left as it is. */
  function LowerChar(c: char): char {
    if 'A' <= c <= 'Z' then (c as int - 'A' as int + 'a' as int) as char else c
  }

  /** `String.equalsIgnoreCase`, restricted to ASCII case folding. */
  predicate EqualsIgnoreCase(a: string, b: string) {
    |a| == |b| && (|a| == 0 || (LowerChar(a[0]) == LowerChar(b[0]) && EqualsIgnoreCase(a[1..], b[1..])))
  }

  lemma {:induction false} EqualsIgnoreCaseReflexive(a: string)
    ensures EqualsIgnoreCase(a, a)
  {
    if |a| > 0 { EqualsIgnoreCaseReflexive(a[1..]); }
  }

  lemma {:induction false} EqualsIgnoreCaseSymmetric(a: string, b: string)
    requires EqualsIgnoreCase(a, b)
    ensures EqualsIgnoreCase(b, a)
  {
    if |a| > 0 { EqualsIgnoreCaseSymmetric(a[1..], b[1..]); }
  }

  lemma {:induction false} EqualsIgnoreCaseTransitive(a: string, b: string, c: string)
    requires EqualsIgnoreCase(a, b) && EqualsIgnoreCase(b, c)
    ensures EqualsIgnoreCase(a, c)
  {
    if |a| > 0 { EqualsIgnoreCaseTransitive(a[1..], b[1..], c[1..]); }
  }

  /** Two strings equal ignoring case agree on their length and their first letter ignoring case. */
  lemma EqualsIgnoreCaseHead(a: string, b: string)
    requires EqualsIgnoreCase(a, b)
    ensures |a| == |b| && (|a| > 0 ==> LowerChar(a[0]) == LowerChar(b[0]))
  {
  }

  /** `UPPER(s) LIKE UPPER('%term%')`: some window of `s` equals `term` ignoring case. */
  predicate ContainsIgnoreCase(s: string, term: string) {
    exists i | 0 <= i <= |s| - |term| :: MatchesAt(s, term, i)
  }

  /** The window of `s` starting at `i` equals `term` ignoring case. */
  predicate MatchesAt(s: string, term: string, i: int) {
    0 <= i <= |s| - |term| && EqualsIgnoreCase(s[i..i + |term|], term)
  }

  /** Strict code-point lexicographic order on strings (a proper prefix comes first). */
  predicate LexLess(a: string, b: string) {
    if |a| == 0 then |b| > 0
    else if |b| == 0 then false
    else a[0] < b[0] || (a[0] == b[0] && LexLess(a[1..], b[1..]))
  }

  lemma {:induction false} LexLessIrreflexive(a: string)
    ensures !LexLess(a, a)
  {
    if |a| > 0 { LexLessIrreflexive(a[1..]); }
  }

  lemma {:induction false} LexLessTransitive(a: string, b: string, c: string)
    requires LexLess(a, b) && LexLess(b, c)
    ensures LexLess(a, c)
  {
    if |a| > 0 && |b| > 0 && |c| > 0 && a[0] == b[0] && b[0] == c[0] {
      LexLessTransitive(a[1..], b[1..], c[1..]);
    }
  }

  lemma {:induction false} LexLessTotal(a: string, b: string)
    ensures LexLess(a, b) || a == b || LexLess(b, a)
  {
    if |a| > 0 && |b| > 0 && a[0] == b[0] {
      LexLessTotal(a[1..], b[1..]);
      if a[1..] == b[1..] {
        assert a == [a[0]] + a[1..] && b == [b[0]] + b[1..];
      }
    }
  }

  lemma LexLessAsymmetric(a: string, b: string)
    requires LexLess(a, b)
    ensures !LexLess(b, a)
  {
    if LexLess(b, a) {
      LexLessTransitive(a, b, a);
      LexLessIrreflexive(a);
    }
  }

  /** Strictly ascending, hence without duplicates. */
  ghost predicate StrictlyAscending(s: seq<string>) {
    forall i, j :: 0 <= i < j < |s| ==> LexLess(s[i], s[j])
  }

  /** Inserts `x` into an ascending sequence, unless it is already there. */
  function InsertUnique(x: string, s: seq<string>): (r: seq<string>)
    requires StrictlyAscending(s)
    ensures StrictlyAscending(r)
    ensures forall y :: y in r <==> y == x || y in s
  {
    if s == [] then [x]
    else if x == s[0] then s
    else if LexLess(x, s[0]) then
      assert forall j :: 0 < j < |s| ==> LexLess(x, s[j]) by {
        forall j | 0 < j < |s| ensures LexLess(x, s[j]) { LexLessTransitive(x, s[0], s[j]); }
      }
      [x] + s
    else
      LexLessTotal(x, s[0]);
      assert StrictlyAscending(s[1..]);
      var rest := InsertUnique(x, s[1..]);
      assert forall y :: y in rest ==> LexLess(s[0], y) by {
        forall y | y in rest ensures LexLess(s[0], y) {
          if y != x {
            var j :| 0 <= j < |s[1..]| && s[1..][j] == y;
            assert s[j + 1] == y;
          }
        }
      }
      [s[0]] + rest
  }

  /** `SELECT DISTINCT name ... ORDER BY name`: the distinct names of `names`, ascending. */
  function UniqueSorted(names: seq<string>): (r: seq<string>)
    ensures StrictlyAscending(r)
    ensures forall y :: y in r <==> y in names
  {
    if names == [] then []
    else
      var prefix := names[..|names| - 1];
      assert forall y :: y in names <==> y in prefix || y == names[|names| - 1] by {
        assert names == prefix + [names[|names| - 1]];
      }
      InsertUnique(names[|names| - 1], UniqueSorted(prefix))
  }
}
