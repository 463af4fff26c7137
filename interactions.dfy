/**
 * Identifier normalisation of the drug–drug interaction table: the lookup
 * dictionary built from the "DrugBank ID" and "Common name" columns, the
 * replacement of both endpoint columns by their common names (with the raw
 * code kept where no name is known), and the constant edge weight.
 */
module Interactions {
  import opened Wrappers

  /** One row of the interaction table: the columns drug1 and drug2. */
  datatype Edge = Edge(drug1: string, drug2: string)

  /** One row after the weight column has been added. */
  datatype WeightedEdge = WeightedEdge(drug1: string, drug2: string, weight: int)

  /** One row of the lookup table; a missing "Common name" is None. */
  datatype LookupRow = LookupRow(id: string, name: Option<string>)

  /** The dictionary from DrugBank ID to common name (possibly missing). */
  type Lookup = map<string, Option<string>>

  /** The weight every interaction receives, since severity is not known. */
  const UniformWeight: int := 1

  /** The first and second endpoint columns of the table. */
  function Drug1s(edges: seq<Edge>): (c: seq<string>)
    ensures |c| == |edges| && forall i :: 0 <= i < |edges| ==> c[i] == edges[i].drug1
  {
    seq(|edges|, i requires 0 <= i < |edges| => edges[i].drug1)
  }

  function Drug2s(edges: seq<Edge>): (c: seq<string>)
    ensures |c| == |edges| && forall i :: 0 <= i < |edges| ==> c[i] == edges[i].drug2
  {
    seq(|edges|, i requires 0 <= i < |edges| => edges[i].drug2)
  }

  /**
   * dict(zip(ids, names)): the rows are inserted in order, so a later row
   * with the same ID overwrites an earlier one.  The keys are exactly the IDs.
   */
  function BuildLookup(rows: seq<LookupRow>): (d: Lookup)
    ensures d.Keys == set i | 0 <= i < |rows| :: rows[i].id
  {
    if rows == [] then map[]
    else
      var prefix := rows[..|rows| - 1];
      var d0 := BuildLookup(prefix);
      d0[rows[|rows| - 1].id := rows[|rows| - 1].name]
  }

  /** Row i is the last row of the lookup table that carries its ID. */
  ghost predicate IsLastOccurrence(rows: seq<LookupRow>, i: int)
  {
    0 <= i < |rows| && forall j :: i < j < |rows| ==> rows[j].id != rows[i].id
  }

  /** A duplicated ID maps to the name of its last occurrence. */
  lemma {:induction false} LastOccurrenceWins(rows: seq<LookupRow>, i: int)
    requires IsLastOccurrence(rows, i)
    ensures rows[i].id in BuildLookup(rows)
    ensures BuildLookup(rows)[rows[i].id] == rows[i].name
  {
    if i < |rows| - 1 {
      var prefix := rows[..|rows| - 1];
      assert prefix[i] == rows[i];
      LastOccurrenceWins(prefix, i);
    }
  }

  /** A code is mapped when it is a key whose common name is not missing. */
  predicate Mapped(lookup: Lookup, code: string)
  {
    code in lookup && lookup[code].Some?
  }

  /** Series.map(dict): the name of each code, None for an absent key or a missing name. */
  function MapColumn(col: seq<string>, lookup: Lookup): (m: seq<Option<string>>)
    ensures |m| == |col|
    ensures forall i :: 0 <= i < |col| ==> (m[i].Some? <==> Mapped(lookup, col[i]))
    ensures forall i :: 0 <= i < |col| && Mapped(lookup, col[i]) ==> m[i] == lookup[col[i]]
  {
    seq(|col|, i requires 0 <= i < |col| => if col[i] in lookup then lookup[col[i]] else None)
  }

  /** Series.fillna(other): every missing entry is replaced by the entry of other at the same position. */
  function FillNa(m: seq<Option<string>>, other: seq<string>): (r: seq<string>)
    requires |m| == |other|
    ensures |r| == |m|
    ensures forall i :: 0 <= i < |m| ==> r[i] == (if m[i].Some? then m[i].value else other[i])
  {
    seq(|m|, i requires 0 <= i < |m| => match m[i] case Some(n) => n case None => other[i])
  }

  /** col.map(lookup).fillna(col): one endpoint column replaced by common names. */
  function NormalizeColumn(col: seq<string>, lookup: Lookup): (r: seq<string>)
    ensures |r| == |col|
    ensures forall i :: 0 <= i < |col| && Mapped(lookup, col[i]) ==> r[i] == lookup[col[i]].value
    ensures forall i :: 0 <= i < |col| && !Mapped(lookup, col[i]) ==> r[i] == col[i]
  {
    FillNa(MapColumn(col, lookup), col)
  }

  /** Reassembles rows from two columns of equal length. */
  function Zip(c1: seq<string>, c2: seq<string>): (edges: seq<Edge>)
    requires |c1| == |c2|
    ensures Drug1s(edges) == c1 && Drug2s(edges) == c2
  {
    seq(|c1|, i requires 0 <= i < |c1| => Edge(c1[i], c2[i]))
  }

  /**
   * Both endpoint columns normalised, drug1 first and then drug2; each column
   * is computed from the original codes of that column only.
   */
  function NormalizeEdges(edges: seq<Edge>, lookup: Lookup): (r: seq<Edge>)
    ensures |r| == |edges|
    ensures forall i :: 0 <= i < |edges| && Mapped(lookup, edges[i].drug1) ==>
              r[i].drug1 == lookup[edges[i].drug1].value
    ensures forall i :: 0 <= i < |edges| && !Mapped(lookup, edges[i].drug1) ==>
              r[i].drug1 == edges[i].drug1
    ensures forall i :: 0 <= i < |edges| && Mapped(lookup, edges[i].drug2) ==>
              r[i].drug2 == lookup[edges[i].drug2].value
    ensures forall i :: 0 <= i < |edges| && !Mapped(lookup, edges[i].drug2) ==>
              r[i].drug2 == edges[i].drug2
  {
    var col1 := NormalizeColumn(Drug1s(edges), lookup);
    var col2 := NormalizeColumn(Drug2s(edges), lookup);
    var r := Zip(col1, col2);
    assert forall i :: 0 <= i < |edges| ==> r[i].drug1 == Drug1s(r)[i] && r[i].drug2 == Drug2s(r)[i];
    r
  }

  /** Normalisation works row by row: it keeps the order of the edges and commutes with concatenation. */
  lemma NormalizeEdgesConcat(a: seq<Edge>, b: seq<Edge>, lookup: Lookup)
    ensures NormalizeEdges(a + b, lookup) == NormalizeEdges(a, lookup) + NormalizeEdges(b, lookup)
  {
  }

  /** Each output column depends only on the same input column. */
  lemma ColumnsIndependent(e1: seq<Edge>, e2: seq<Edge>, lookup: Lookup)
    requires |e1| == |e2|
    ensures Drug1s(e1) == Drug1s(e2) ==> Drug1s(NormalizeEdges(e1, lookup)) == Drug1s(NormalizeEdges(e2, lookup))
    ensures Drug2s(e1) == Drug2s(e2) ==> Drug2s(NormalizeEdges(e1, lookup)) == Drug2s(NormalizeEdges(e2, lookup))
  {
  }

  /** df["weight"] = 1: every row gets the uniform weight, its endpoints untouched. */
  function AssignWeight(edges: seq<Edge>): (r: seq<WeightedEdge>)
    ensures |r| == |edges|
    ensures forall i :: 0 <= i < |edges| ==>
              r[i].drug1 == edges[i].drug1 && r[i].drug2 == edges[i].drug2 && r[i].weight == 1
  {
    seq(|edges|, i requires 0 <= i < |edges| => WeightedEdge(edges[i].drug1, edges[i].drug2, UniformWeight))
  }

  /** The table as it stands once the weight column is added: normalised through the lookup rows, then weighted. */
  function PrepareEdges(edges: seq<Edge>, rows: seq<LookupRow>): (r: seq<WeightedEdge>)
    ensures |r| == |edges|
    ensures forall i :: 0 <= i < |edges| ==> r[i].weight == 1
    ensures forall i :: 0 <= i < |edges| && Mapped(BuildLookup(rows), edges[i].drug1) ==>
              r[i].drug1 == BuildLookup(rows)[edges[i].drug1].value
    ensures forall i :: 0 <= i < |edges| && !Mapped(BuildLookup(rows), edges[i].drug1) ==>
              r[i].drug1 == edges[i].drug1
    ensures forall i :: 0 <= i < |edges| && Mapped(BuildLookup(rows), edges[i].drug2) ==>
              r[i].drug2 == BuildLookup(rows)[edges[i].drug2].value
    ensures forall i :: 0 <= i < |edges| && !Mapped(BuildLookup(rows), edges[i].drug2) ==>
              r[i].drug2 == edges[i].drug2
  {
    AssignWeight(NormalizeEdges(edges, BuildLookup(rows)))
  }

  /**
   * End to end, drug1 column: a code whose last lookup row has a name becomes
   * that name; one whose last lookup row has a missing name keeps its code,
   * even when an earlier row for the same ID had a name.
   */
  lemma PreparedDrug1(edges: seq<Edge>, rows: seq<LookupRow>, e: int, j: int)
    requires 0 <= e < |edges|
    requires IsLastOccurrence(rows, j) && rows[j].id == edges[e].drug1
    ensures PrepareEdges(edges, rows)[e].weight == 1
    ensures rows[j].name.Some? ==> PrepareEdges(edges, rows)[e].drug1 == rows[j].name.value
    ensures rows[j].name.None? ==> PrepareEdges(edges, rows)[e].drug1 == edges[e].drug1
  {
    LastOccurrenceWins(rows, j);
  }

  /** End to end, drug2 column: the same as PreparedDrug1 for the second endpoint. */
  lemma PreparedDrug2(edges: seq<Edge>, rows: seq<LookupRow>, e: int, j: int)
    requires 0 <= e < |edges|
    requires IsLastOccurrence(rows, j) && rows[j].id == edges[e].drug2
    ensures PrepareEdges(edges, rows)[e].weight == 1
    ensures rows[j].name.Some? ==> PrepareEdges(edges, rows)[e].drug2 == rows[j].name.value
    ensures rows[j].name.None? ==> PrepareEdges(edges, rows)[e].drug2 == edges[e].drug2
  {
    LastOccurrenceWins(rows, j);
  }

  /** An endpoint code that no lookup row carries is left as it was, in either column. */
  lemma UnlistedCodeKept(edges: seq<Edge>, rows: seq<LookupRow>, e: int)
    requires 0 <= e < |edges|
    ensures (forall j :: 0 <= j < |rows| ==> rows[j].id != edges[e].drug1) ==>
              PrepareEdges(edges, rows)[e].drug1 == edges[e].drug1
    ensures (forall j :: 0 <= j < |rows| ==> rows[j].id != edges[e].drug2) ==>
              PrepareEdges(edges, rows)[e].drug2 == edges[e].drug2
  {
  }

  /** The worked example: two edges over three codes, the third unmapped. */
  lemma Example()
    ensures NormalizeEdges([Edge("DB1", "DB2"), Edge("DB2", "DB3")],
                           BuildLookup([LookupRow("DB1", Some("A")), LookupRow("DB2", Some("B"))]))
         == [Edge("A", "B"), Edge("B", "DB3")]
  {
  }

  /** Normalisation is not idempotent: a common name may itself be an ID of the lookup table. */
  lemma NotIdempotent()
    ensures var lookup := BuildLookup([LookupRow("DB1", Some("DB2")), LookupRow("DB2", Some("X"))]);
            var once := NormalizeEdges([Edge("DB1", "DB1")], lookup);
            NormalizeEdges(once, lookup) != once
  {
    var rows := [LookupRow("DB1", Some("DB2")), LookupRow("DB2", Some("X"))];
    LastOccurrenceWins(rows, 0);
    LastOccurrenceWins(rows, 1);
    var lookup := BuildLookup(rows);
    var once := NormalizeEdges([Edge("DB1", "DB1")], lookup);
    assert once[0].drug1 == "DB2";
    assert NormalizeEdges(once, lookup)[0].drug1 == "X";
  }
}
