/**
 * The diagnostic printed after normalisation: the share of rows whose drug1
 * still matches the regular expression DB\d* somewhere (str.contains uses a
 * search, not a full match), as a numerator and a denominator.
 */
module Diagnostics {
  import opened Wrappers
  import opened Interactions

  /** The character class \d, restricted to the ASCII digits. */
  predicate IsDigit(c: char)
  {
    '0' <= c <= '9'
  }

  /** The length of the longest run of digits starting at position j (the greedy \d*). */
  function DigitRun(s: string, j: nat): (n: nat)
    requires j <= |s|
    ensures j + n <= |s|
    ensures forall k :: j <= k < j + n ==> IsDigit(s[k])
    ensures j + n == |s| || !IsDigit(s[j + n])
    decreases |s| - j
  {
    if j < |s| && IsDigit(s[j]) then 1 + DigitRun(s, j + 1) else 0
  }

  /** The end of a match of DB\d* anchored at position i, if there is one. */
  function MatchAt(s: string, i: nat): (m: Option<nat>)
    requires i <= |s|
    ensures m.Some? <==> i + 2 <= |s| && s[i] == 'D' && s[i + 1] == 'B'
    ensures m.Some? ==> i + 2 <= m.value <= |s|
  {
    if i + 2 <= |s| && s[i] == 'D' && s[i + 1] == 'B' then Some(i + 2 + DigitRun(s, i + 2)) else None
  }

  /**
   * A regex search from position i: the first start position at which the
   * pattern matches, with the end of that match.
   */
  function SearchFrom(s: string, i: nat): (found: Option<(nat, nat)>)
    requires i <= |s|
    ensures found.Some? ==> i <= found.value.0 <= |s| && MatchAt(s, found.value.0) == Some(found.value.1)
    ensures found.Some? ==> forall q :: i <= q < found.value.0 ==> MatchAt(s, q).None?
    ensures found.None? ==> forall q :: i <= q <= |s| ==> MatchAt(s, q).None?
    decreases |s| - i
  {
    match MatchAt(s, i)
    case Some(e) => Some((i, e))
    case None => if i == |s| then None else SearchFrom(s, i + 1)
  }

  /** "DB" occurs in s at position p. */
  predicate OccursAt(s: string, p: int)
  {
    0 <= p && p + 1 < |s| && s[p] == 'D' && s[p + 1] == 'B'
  }

  /** Because \d* may match zero digits, searching for DB\d* finds the leftmost occurrence of "DB". */
  lemma {:induction false} SearchFindsLeftmost(s: string, i: nat)
    requires i <= |s|
    ensures SearchFrom(s, i).Some? <==> exists p :: i <= p && OccursAt(s, p)
    ensures SearchFrom(s, i).Some? ==>
              var (p, e) := SearchFrom(s, i).value;
              i <= p && OccursAt(s, p) && p + 2 <= e <= |s| &&
              forall q :: i <= q < p ==> !OccursAt(s, q)
    decreases |s| - i
  {
    if MatchAt(s, i).None? && i < |s| {
      SearchFindsLeftmost(s, i + 1);
      assert !OccursAt(s, i);
      if exists p :: i <= p && OccursAt(s, p) {
        var p :| i <= p && OccursAt(s, p);
        assert i + 1 <= p;
      }
    } else if MatchAt(s, i).Some? {
      assert OccursAt(s, i);
    }
  }

  /** str.contains('DB\d*') on one string: the pattern matches at some position of s. */
  predicate ContainsPattern(s: string): (b: bool)
    ensures b <==> exists p :: 0 <= p <= |s| && MatchAt(s, p).Some?
  {
    SearchFrom(s, 0).Some?
  }

  /** The pattern test is exactly "contains the substring DB". */
  lemma ContainsPatternIffSubstring(s: string)
    ensures ContainsPattern(s) <==> exists p :: OccursAt(s, p)
  {
    SearchFindsLeftmost(s, 0);
  }

  /** df['drug1'].str.contains('DB\d*'): the boolean mask over the column. */
  function ContainsMask(col: seq<string>): (mask: seq<bool>)
    ensures |mask| == |col|
    ensures forall i :: 0 <= i < |col| ==> (mask[i] <==> ContainsPattern(col[i]))
  {
    seq(|col|, i requires 0 <= i < |col| => ContainsPattern(col[i]))
  }

  /** len(df[mask == True]): the number of rows the mask selects. */
  function CountTrue(mask: seq<bool>): (n: nat)
    ensures n <= |mask|
  {
    if mask == [] then 0
    else CountTrue(mask[..|mask| - 1]) + (if mask[|mask| - 1] then 1 else 0)
  }

  /** The positions the mask selects. */
  function Selected(mask: seq<bool>): set<int>
  {
    set i | 0 <= i < |mask| && mask[i]
  }

  /** The count of a mask is the number of positions it selects. */
  lemma {:induction false} CountTrueIsSelected(mask: seq<bool>)
    ensures CountTrue(mask) == |Selected(mask)|
  {
    if mask != [] {
      var prefix := mask[..|mask| - 1];
      var last := |mask| - 1;
      CountTrueIsSelected(prefix);
      assert Selected(mask) == Selected(prefix) + (if mask[last] then {last} else {});
      assert last !in Selected(prefix);
    }
  }

  /** A mask selects nothing exactly when it is all false, and everything exactly when it is all true. */
  lemma {:induction false} CountTrueExtremes(mask: seq<bool>)
    ensures CountTrue(mask) == 0 <==> forall i :: 0 <= i < |mask| ==> !mask[i]
    ensures CountTrue(mask) == |mask| <==> forall i :: 0 <= i < |mask| ==> mask[i]
  {
    if mask != [] {
      var prefix := mask[..|mask| - 1];
      CountTrueExtremes(prefix);
      assert forall i :: 0 <= i < |prefix| ==> prefix[i] == mask[i];
    }
  }

  /** len(df[df['drug1'].str.contains('DB\d*') == True]): the number of matching rows. */
  function CountMatching(col: seq<string>): (n: nat)
    ensures n <= |col|
  {
    CountTrue(ContainsMask(col))
  }

  /** The positions of the rows whose entry matches the pattern. */
  ghost function MatchingRows(col: seq<string>): set<int>
  {
    set i | 0 <= i < |col| && ContainsPattern(col[i])
  }

  /** A row is counted exactly when its entry contains "DB". */
  lemma MatchingRowsMeaning(col: seq<string>)
    ensures forall i :: i in MatchingRows(col) <==> 0 <= i < |col| && exists p :: OccursAt(col[i], p)
  {
    forall i | 0 <= i < |col| ensures ContainsPattern(col[i]) <==> exists p :: OccursAt(col[i], p) {
      ContainsPatternIffSubstring(col[i]);
    }
  }

  /** The count is the number of rows whose entry matches, that is, contains "DB". */
  lemma CountIsMatchingRows(col: seq<string>)
    ensures CountMatching(col) == |MatchingRows(col)|
  {
    var mask := ContainsMask(col);
    CountTrueIsSelected(mask);
    assert Selected(mask) == MatchingRows(col);
  }

  /** No row is counted exactly when no entry matches; all are counted exactly when every entry does. */
  lemma CountExtremes(col: seq<string>)
    ensures CountMatching(col) == 0 <==> forall i :: 0 <= i < |col| ==> !ContainsPattern(col[i])
    ensures CountMatching(col) == |col| <==> forall i :: 0 <= i < |col| ==> ContainsPattern(col[i])
  {
    CountTrueExtremes(ContainsMask(col));
  }

  /** A share of rows, kept as an exact numerator and denominator. */
  datatype Ratio = Ratio(num: nat, den: nat)

  /** Python's ZeroDivisionError, raised when the table has no rows. */
  datatype ArithError = ZeroDivisionError

  /** The fraction the script prints as "not converted": the share of drug1 entries containing DB. */
  function UnconvertedFraction(drug1: seq<string>): (r: Result<Ratio, ArithError>)
    ensures r.Failure? <==> |drug1| == 0
    ensures r.Success? ==> 0 < r.value.den == |drug1| && r.value.num <= r.value.den
    ensures r.Success? ==> r.value.num == |MatchingRows(drug1)|
  {
    CountIsMatchingRows(drug1);
    var n := CountMatching(drug1);
    if |drug1| == 0 then Failure(ZeroDivisionError) else Success(Ratio(n, |drug1|))
  }

  /** The diagnostic as the table has it: the fraction taken over drug1 after normalisation. */
  function ReportedFraction(edges: seq<Edge>, rows: seq<LookupRow>): (r: Result<Ratio, ArithError>)
    ensures r.Failure? <==> |edges| == 0
    ensures r.Success? ==> r.value.den == |edges|
    ensures r.Success? ==> r.value.num == |MatchingRows(Drug1s(NormalizeEdges(edges, BuildLookup(rows))))|
  {
    UnconvertedFraction(Drug1s(NormalizeEdges(edges, BuildLookup(rows))))
  }

  /**
   * What the diagnostic counts: a row whose drug1 was replaced by a name without
   * "DB" is not counted, a converted name that contains "DB" is counted, and an
   * unconverted code is counted exactly when it contains "DB".
   */
  lemma ReportedRows(edges: seq<Edge>, rows: seq<LookupRow>, e: int)
    requires 0 <= e < |edges|
    ensures var lookup := BuildLookup(rows);
            var counted := e in MatchingRows(Drug1s(NormalizeEdges(edges, lookup)));
            (Mapped(lookup, edges[e].drug1) ==>
               (counted <==> exists p :: OccursAt(lookup[edges[e].drug1].value, p))) &&
            (!Mapped(lookup, edges[e].drug1) ==>
               (counted <==> exists p :: OccursAt(edges[e].drug1, p)))
  {
    MatchingRowsMeaning(Drug1s(NormalizeEdges(edges, BuildLookup(rows))));
  }
}
