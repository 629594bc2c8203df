# MAG taxonomy consensus, modelled in Dafny

This project models the taxonomic core of `MagTaxonomy` in `src/tax.py`.
MagTaxonomy flags suspicious contigs in a metagenome-assembled genome (MAG).
MMseqs2 first assigns each predicted protein (ORF) a lowest common ancestor (LCA) and a full lineage.
The core then works in three steps:

1. `parse_contig_taxonomy` cleans that table into one row per classified ORF.
2. `get_contig_consensus_tax` votes a phylum-level consensus for every contig, taking the most common `p_` cell over the contig's rows.
3. `identify_erroneous_contigs` reports the contigs whose consensus differs from the most common phylum of the whole MAG.

The model is organised as modules:

- `Counting`: `Counter.most_common(1)`, which picks the first-seen element among those tied for the largest count.
- `Selection`: boolean-mask filtering and `unique()` in order of first appearance.
- `Text`: `str.split`, `str.rsplit(sep, 1)` and `str.startswith`.
- `Parsing`: the cleaning step, as pure functions over rows.
- `Consensus`: the voting step.
  - It is an imperative method with the source's nested loops and its dictionary accumulator.
  - It is proved equal to a recursive specification (`Resolve`/`ConsensusTable`), whose properties are proved as lemmas.
- `Outliers`: the outlier step, both as written and as evidently intended.
- `WorkedExample`: a worked example of four MMseqs2 lines, proved through all three steps.

Tables are sequences of row datatypes rather than DataFrames.
Missing cells (pandas `None` from `expand=True`) are `Option`.
Where the source raises, the model returns a `Result` error:

- `NoPhylumCell(contig)`: `most_common(1)[0]` on an empty tally, which is an IndexError.
- `NoContigs`: the same on an empty consensus table.
- `ListIndexedByString`: line 120, which is a TypeError.

## Model

| member | source | states |
|---|---|---|
| Counting.FirstIndex | src/tax.py:105 | the first position of an element present in a list: it holds the element and no earlier position does |
| Counting.LeaderOfPrefix | src/tax.py:105 | the scan that `most_common` performs over a prefix ends on an element whose count is maximal, and every element before it has a strictly smaller count |
| Counting.MostCommonIsPlurality | src/tax.py:105 | `most_common(1)` has no answer exactly on an empty list; otherwise it returns an element of the list with maximal count, first-seen among ties |
| Counting.PluralityUnique | src/tax.py:105 | the answer of `most_common(1)` is fully determined: two first-seen maximal elements are equal |
| Counting.MostCommonTieBreak | src/tax.py:105 | an element with as many votes as the winner, but a different one, appears later in the list than the winner |
| Selection.Filter | src/tax.py:83 | a boolean mask keeps only elements of the input that satisfy it, never adding any |
| Selection.FilterPositions | src/tax.py:83 | masking keeps exactly the elements that satisfy the mask, in their original order: the result reads the input at an increasing list of positions, and those are exactly the positions of satisfying elements |
| Selection.FilterNone | src/tax.py:120 | a mask that no element satisfies selects nothing |
| Selection.FilterLength | src/tax.py:83 | the number of kept elements is the number of elements satisfying the mask |
| Selection.UniqueContents | src/tax.py:96 | `unique()` lists every value of the column exactly once and nothing else |
| Selection.UniqueInFirstAppearanceOrder | src/tax.py:96 | `unique()` lists values in the order of their first appearance |
| Text.Split | src/tax.py:79 | splitting on ';' yields at least one piece, and no piece contains ';' |
| Text.JoinSplit | src/tax.py:79 | the pieces of a split, joined back with the separator, give the original string |
| Text.SplitJoin | src/tax.py:79 | splitting the join of separator-free pieces gives those pieces back |
| Text.LastIndexOf | src/tax.py:80 | finds the last occurrence of a character, or reports that there is none |
| Text.RSplitOnce | src/tax.py:80 | `rsplit('_', 1)` cuts at the last '_': head, '_' and tail rebuild the ID and the tail holds no '_'; without a '_' the whole ID is the head and the tail is missing |
| Text.RSplitAtLastSeparator | src/tax.py:80 | an ID built as name + '_' + ORF, with a '_'-free ORF, splits back into exactly that name and ORF |
| Parsing.LineageWidth | src/tax.py:79 | `expand=True` creates as many lineage columns as the longest lineage in the table has, and no fewer |
| Parsing.KeptColumnsShape | src/tax.py:82 | dropping positions 10 to 35 keeps lineage columns 0 to 8 and those from 35 on, in order, and nothing else |
| Parsing.CleanRow | src/tax.py:79-82 | a cleaned row keeps the LCA, splits the ID at its last '_' into contig name and ORF, and holds the padded lineage at the surviving positions |
| Parsing.ParseTaxonomy | src/tax.py:70-84 | the cleaned table has one row per classified line, none has LCA "unclassified", and all have the same lineage width |
| Parsing.ParseKeepsClassifiedRows | src/tax.py:83 | cleaning keeps exactly the lines whose LCA is not "unclassified", each cleaned, in their original order |
| Parsing.LineageRoundTrip | src/tax.py:79 | a row's lineage columns are separator-free and rebuild its Full Tax string |
| Consensus.PhylumCellsMembers | src/tax.py:101-104 | the votes taken from a row (`PhylumCells`) are only cells starting with "p_": a value is a vote exactly when it is a present cell of the row and starts with "p_" |
| Consensus.PhylumCellsAppend | src/tax.py:102-104 | the votes of consecutive cells are the votes of the first cells followed by those of the rest |
| Consensus.TallyMembers | src/tax.py:98-104 | a contig's tally (`Tally`, the list `contig_taxlist`) holds only values starting with "p_": a value is in it exactly when it starts with "p_" and is a cell of some row of that contig |
| Consensus.TallyAppend | src/tax.py:99-104 | tallying two consecutive slices of rows concatenates their tallies |
| Consensus.OtherContigRowIgnored | src/tax.py:100 | rows of other contigs do not change a contig's tally |
| Consensus.ResolveSucceeds | src/tax.py:97-106 | the loop over contigs completes exactly when every contig has at least one vote |
| Consensus.ResolveNames | src/tax.py:97-107 | a completed loop yields one line per contig, in the order of the contigs |
| Consensus.ResolveVotes | src/tax.py:97-107 | each line of a completed loop holds the `most_common` answer for that contig's tally |
| Consensus.ResolveFailsAtFirstEmptyTally | src/tax.py:97-105 | a failing loop stops at the first contig, in contig order, whose tally is empty; every earlier contig had votes |
| Consensus.ResolveKeepsFirstError | src/tax.py:105 | once the loop has raised, later contigs do not change the outcome |
| Consensus.ConsensusLines | src/tax.py:95-107 | the consensus table has one line per distinct contig, each holding a "p_" value that is the first-seen plurality of that contig's votes |
| Consensus.ConsensusContigsDistinct | src/tax.py:96-107 | no contig appears twice in the consensus table |
| Consensus.ConsensusContigsFromRows | src/tax.py:96-107 | every contig of the consensus table has a row in the input |
| Consensus.ConsensusCoversRows | src/tax.py:96-107 | every contig of the input has a line in the consensus table |
| Consensus.ConsensusOrder | src/tax.py:96-107 | consensus lines follow the first appearance of their contigs in the input |
| Consensus.ConsensusFailure | src/tax.py:97-105 | the consensus step raises exactly when some contig has no "p_" cell in any of its rows, and then it names the first such contig |
| Consensus.GetContigConsensusTax | src/tax.py:86-108 | the nested loops with the dictionary accumulator return exactly the consensus table, or raise on the first contig without votes |
| Consensus.ContigTaxlist | src/tax.py:98-104 | the inner loops over rows and cells collect exactly the contig's tally |
| Outliers.ErroneousContigsAsWritten | src/tax.py:118-120 | the outlier step as written never returns: it fails with `NoContigs` exactly on an empty table, and with the line-120 TypeError otherwise |
| Outliers.ErroneousContigs | src/tax.py:118-121 | the corrected step fails only on an empty table; otherwise it returns lines of the table whose phylum differs from the dataset plurality |
| Outliers.DatasetPhylumIsPlurality | src/tax.py:118-119 | the phylum compared against is the first-seen plurality of the Phylum column |
| Outliers.OutliersAreExactlyDiffering | src/tax.py:118-121 | the outliers are exactly the lines whose phylum differs from the plurality, in table order |
| Outliers.UniformTableHasNoOutliers | src/tax.py:118-121 | a MAG whose contigs all share one phylum has no outliers |
| Outliers.DifferingCount | src/tax.py:120 | the lines differing from a phylum and that phylum's votes together account for the whole table |
| Outliers.OutlierCount | src/tax.py:118-121 | the number of outliers is the number of contigs less the number of contigs of the plurality phylum |
| Outliers.AsWrittenRaisesWhereIntendedSucceeds | src/tax.py:118-121 | on every non-empty table the code as written raises while the intended step succeeds |
| WorkedExample.ParseScenario | src/tax.py:78-84 | for any names shaped like the example's, four MMseqs2 lines, one of them unclassified, clean to three rows with the expected names, ORFs and padded lineages |
| WorkedExample.ConsensusScenario | src/tax.py:95-107 | the consensus of those rows gives c1 its phylum (p_Firmicutes in the example) and c2 its own (p_Proteobacteria); the LCA cell counts as a vote |
| WorkedExample.OutlierScenario | src/tax.py:118-121 | with one contig per phylum, the tie goes to the first-seen phylum and the other contig is the outlier |
| WorkedExample.PipelineExample | src/tax.py:152-153 | the three steps chained on the example table give the consensus and outlier tables above |

## Left out

- `fetch_args`, `main`, `create_mag_db`, `get_contig_taxonomy`: command-line parsing and calls to the external MMseqs2 program. The model starts from the taxonomy table held in memory.
- Reading the TSV (`pd.read_csv`, line 78), `write_taxonomy_df` and `remove_tmp_files`: file I/O. `src/utilities.py` is not part of this model.
- `run`: this is only the wiring of the steps. As written it calls `write_taxonomy_df` with one argument (lines 154-155) and never calls `identify_erroneous_contigs`; `WorkedExample.PipelineExample` chains the three steps instead.
- Column labels and DataFrame indexes: rows are datatypes with named fields. The positional drop on line 82 is modelled on the lineage columns.
  - Contig Name and ORF are kept in every row.
  - In pandas, after line 81 a row is laid out as LCA (position 0), lineage columns 0 to k-1 (positions 1 to k, where k is the longest lineage of the table), Contig Name (position k+1) and ORF (position k+2). Line 82 drops positions 10 to 35, so the ORF column is dropped when 8 <= k <= 33 and the Contig Name column when 9 <= k <= 34; from k = 35 on neither is. The model does not capture that column loss.
  - Consequence for the consensus step: once Contig Name is gone, line 96 raises a KeyError, so the code as written fails on every table whose longest lineage has 9 to 34 tokens. The model instead votes as if the column were present.
- Consensus.Cells: always lists the ORF cell, as `row.tolist()` does when the ORF column survives. On a table whose longest lineage has exactly 8 tokens line 82 drops ORF alone, so in the code the ORF cell then takes no part in the vote, while in the model it still does.
- Text.RSplitOnce and Parsing.CleanRow: follow pandas 1.x, where line 80's positional `1` is the split count `n`. From pandas 2.0 on, `n` of `Series.str.rsplit` is keyword-only, so line 80 as written raises a TypeError there on every table; the model does not capture that failure.
- Empty or NaN cells read from the file, and `startswith` on a NaN cell: all cells are strings or `None`.
- The pandas errors raised by line 80 when no ID in the table contains '_' (the two-column assignment then fails), and by `read_csv` on an empty file. In the model such IDs yield rows with a missing ORF.
- The pandas column dtypes and the row index that the cleaned table carries.
- The ORF-count-weighted consensus that the class comment (src/tax.py:26) suggests: the code does not implement it.

## Findings

| source | as written | input that shows it | evidently intended | confidence | as-written member | corrected member |
|---|---|---|---|---|---|---|
| src/tax.py:120 | `phylum_ids['Phylum']` indexes the Python list `phylum_ids` with a string | any consensus table with at least one line, e.g. c1: p_Firmicutes; the list indexing raises TypeError | select the consensus lines whose Phylum differs from the most common phylum | not executed | Outliers.ErroneousContigsAsWritten | Outliers.ErroneousContigs |

Behaviour of the code that the model keeps:

- A contig with no `p_` cell makes the consensus step raise; such contigs are not skipped.
- An empty consensus table makes the outlier step raise; it does not yield an empty result.
- The LCA, Contig Name and ORF cells take part in the vote, because the code votes over the whole row. This holds while line 82 leaves those columns in place; see "## Left out" for the lineage widths at which it does not.
