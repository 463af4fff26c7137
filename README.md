# Drug–drug interaction network: normalisation and selection model

A Dafny model of the script's own sequential logic in `drug_interactions.py`. It covers four steps:

- **Lookup construction.** A dictionary from DrugBank ID to common name is built from the lookup table's rows. A later row with the same ID overwrites an earlier one.
- **Endpoint normalisation.** Both endpoint columns (`drug1`, `drug2`) go through `map(lookup).fillna(original)`. A code becomes its common name when it is a key with a non-missing name. Otherwise it stays as it was. After that every interaction gets the constant weight 1.
- **Unconverted-fraction diagnostic.** This counts the `drug1` entries that contain a match of the regular expression `DB\d*` and divides by the number of rows. The model gives the result as an exact numerator and denominator. An empty table gives a division-by-zero error.
- **Top-node selection.** The two functions that find the nodes of highest degree and betweenness centrality share one pattern: take the maximum of the centrality map, then loop over its items and collect every node whose value equals it. The source functions are modelled as loops, proved against a pure definition of the top nodes.

Modules:

- `Wrappers` (`wrappers.dfy`): `Option` stands for a value pandas may hold as NaN. `Result` stands for an operation that may raise.
- `Interactions` (`interactions.dfy`): the lookup, the column normalisation and the weight.
- `Diagnostics` (`diagnostics.dfy`): the regex search, the row count and the fraction.
- `Centrality` (`centrality.dfy`): `max` and the selection loop, generic in the node type. Centrality values are `real`.

Three consequences of the code are worth stating:

- The diagnostic counts only `drug1`, and it counts every entry containing `DB`, including a common name that contains `DB` (`Diagnostics.ReportedRows`).
- Normalisation is not idempotent: a common name can itself be an ID (`Interactions.NotIdempotent`).
- A duplicated ID whose LAST row has a missing name maps to NaN. So that code keeps its raw form, even when an earlier row gave it a name (`Interactions.PreparedDrug1`, `Interactions.PreparedDrug2`).

## Model

| member | source | states |
|---|---|---|
| Interactions.BuildLookup | drug_interactions.py:18 | the dictionary's keys are exactly the IDs occurring in the lookup rows |
| Interactions.LastOccurrenceWins | drug_interactions.py:18 | an ID maps to the name (possibly missing) of the last row that carries it |
| Interactions.MapColumn | drug_interactions.py:19-20 | `Series.map(dict)`: same length; an entry is present exactly when its code is a key with a non-missing name, and then it is that name |
| Interactions.NormalizeColumn | drug_interactions.py:19-20 | `col.map(lookup).fillna(col)`, written `FillNa(MapColumn(col, lookup), col)`: a mapped code is replaced by exactly its name, any other code falls back to the raw code, and the length is preserved |
| Interactions.NormalizeEdges | drug_interactions.py:19-20 | same number of edges; for each edge and each of `drug1` and `drug2`, a mapped code becomes its name and an unmapped or nameless code stays unchanged |
| Interactions.NormalizeEdgesConcat | drug_interactions.py:19-20 | normalisation works row by row and keeps the order: it commutes with concatenation |
| Interactions.ColumnsIndependent | drug_interactions.py:19-20 | each normalised column depends only on the same input column |
| Interactions.PrepareEdges | drug_interactions.py:18-27 | `AssignWeight` after normalisation through the built lookup keeps the number of rows; every weight is 1; in both `drug1` and `drug2`, a code mapped by the built lookup becomes its name and any other code is kept |
| Interactions.PreparedDrug1 | drug_interactions.py:18-27 | end to end, `drug1` column: a code whose last lookup row has a name becomes that name; a code whose last lookup row has a missing name stays raw; the weight is 1 |
| Interactions.PreparedDrug2 | drug_interactions.py:18-27 | the same, end to end, for the `drug2` column |
| Interactions.UnlistedCodeKept | drug_interactions.py:18-20 | an endpoint code absent from every lookup row is left unchanged, in `drug1` and in `drug2` |
| Interactions.Example | drug_interactions.py:19-20 | `[(DB1,DB2),(DB2,DB3)]` with `DB1→A`, `DB2→B` normalises to `[(A,B),(B,DB3)]` |
| Interactions.NotIdempotent | drug_interactions.py:19-20 | there is a lookup for which normalising twice differs from normalising once |
| Diagnostics.DigitRun | drug_interactions.py:23 | the greedy `\d*`: a run of digits that stays in bounds and cannot be extended |
| Diagnostics.MatchAt | drug_interactions.py:23 | `DB\d*` matches at a position exactly when `DB` starts there, and the match ends within the string |
| Diagnostics.SearchFrom | drug_interactions.py:23 | `re.search` from a position: a reported match starts at a position where `DB\d*` matches and no earlier position matches; no report means no position matches |
| Diagnostics.SearchFindsLeftmost | drug_interactions.py:23 | the search succeeds iff `DB` occurs at or after the start position, and then reports the leftmost occurrence |
| Diagnostics.ContainsPattern | drug_interactions.py:23 | `str.contains('DB\d*')` on one entry holds exactly when the pattern matches at some position |
| Diagnostics.ContainsPatternIffSubstring | drug_interactions.py:23 | `str.contains('DB\d*')` holds exactly when the string contains the substring `DB` |
| Diagnostics.CountTrue | drug_interactions.py:23 | `len(df[mask == True])` is at most the number of rows |
| Diagnostics.CountTrueIsSelected | drug_interactions.py:23 | the count of a mask equals the number of positions it selects |
| Diagnostics.CountTrueExtremes | drug_interactions.py:23 | a mask counts 0 iff it is all false, and counts every row iff it is all true |
| Diagnostics.CountMatching | drug_interactions.py:23 | `CountTrue(ContainsMask(col))`, the count over the `str.contains` mask: the number of matching rows is at most the number of rows |
| Diagnostics.MatchingRowsMeaning | drug_interactions.py:23 | a row position is counted exactly when its entry contains the substring `DB` |
| Diagnostics.CountIsMatchingRows | drug_interactions.py:23 | the count equals the number of row positions whose entry contains `DB` |
| Diagnostics.CountExtremes | drug_interactions.py:23 | the count is 0 iff no entry matches, and equals the row count iff every entry matches |
| Diagnostics.UnconvertedFraction | drug_interactions.py:23 | division by zero exactly on an empty table; otherwise the denominator is the row count and the numerator the number of matching rows, at most the denominator |
| Diagnostics.ReportedFraction | drug_interactions.py:17-23 | the fraction printed for the table: division by zero exactly on no rows; otherwise the denominator is the row count and the numerator the number of rows whose normalised `drug1` matches |
| Diagnostics.ReportedRows | drug_interactions.py:17-23 | a row whose `drug1` was converted is counted exactly when its common name contains `DB`; an unconverted row is counted exactly when its code contains `DB` |
| Centrality.TopKeys | drug_interactions.py:46-53 | the top nodes are keys of the map, all share one value, and no node exceeds them |
| Centrality.MaximumExists | drug_interactions.py:46 | a non-empty centrality map has a node of maximal value |
| Centrality.TopKeysNonEmpty | drug_interactions.py:46-53 | a non-empty map has at least one top node |
| Centrality.TopKeysAtMaximum | drug_interactions.py:46-53 | given the maximum, the top nodes are exactly the nodes whose value equals it |
| Centrality.MaxOfValues | drug_interactions.py:46 | `max(list(values))`: an error exactly for an empty map, otherwise a value of the map that no value exceeds |
| Centrality.NodesWithHighest | drug_interactions.py:46-54 | an error exactly for an empty map; otherwise the collected set is exactly the top nodes, and it is non-empty |
| Centrality.FindNodesWithHighestDegCent | drug_interactions.py:41-54 | the same for the degree centralities |
| Centrality.FindNodeWithHighestBetCent | drug_interactions.py:63-76 | the same for the betweenness centralities |

## Left out

- Reading the interaction TSV and the lookup CSV (lines 11, 17) is file I/O. The model takes the rows as inputs. Any failure to read is whatever pandas raises.
- Graph construction with `nx.from_pandas_edgelist`, the graph name and `nx.info` (lines 33-37) are library calls. Their simple-graph, multi-edge and self-loop behaviour is not visible in this code.
- `nx.degree_centrality` and `nx.betweenness_centrality` (lines 44, 66) are library algorithms. The selection takes their result as a given map.
- Centrality.NodesWithHighest: centralities are exact `real` values, not floats. The source's `v == max_dc` test is exact too, so the selection itself behaves the same. What the model drops is float rounding inside the centrality computations, which decides which nodes tie. It also drops NaN, which would make `max` depend on order and make `v == max_dc` false.
- Centrality.NodesWithHighest: the Python dictionary's iteration order is not modelled. The loop picks the items in any order, and the resulting set does not depend on that order.
- Diagnostics.DigitRun: `\d` is modelled as the ASCII digits, whereas Python's `re` also accepts other Unicode decimal digits. This does not change whether a string matches, because `\d*` may match nothing.
- Diagnostics.UnconvertedFraction: the result is an exact ratio rather than the printed floating-point quotient.
- Printing and the matplotlib import (lines 10, 23, 37, 58-59, 80-81) are output only.
- Subgraph selection and visualisation are only announced in comments (lines 87-89). No code implements them, so there is nothing to model.
