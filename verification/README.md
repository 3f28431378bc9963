# HDFWriter bookkeeping, modelled in Dafny

`HDFWriter` records an experiment's data sources into one hierarchical file: each registered
source gets a data table at the file's root, optionally a paired message table named
`<source>_msgs` whose rows `{time, msg}` stamp a text with the paired data table's current
row count, and attributes may be set on a source's table. The writer keeps two mappings,
`data` (source to data table) and `msgs` (source to message table), and rebuilds them by
classifying the root-level table names whenever the file is opened again (on construction and
on `save`, which closes and reopens the file).

This project models that bookkeeping on an abstract store: a map from root-level table name to
a table, each table an append-only sequence of opaque rows plus an attribute map. Table handles
are represented by table names. Every operation is a pure function from writer state to writer
state.

- `wrappers.dfy` — `Option`.
- `naming.dfy` — module `Naming`: the `"_msgs"` naming convention and the classification of a
  root-level name into a data table or the message table of a base source; hdfwriter.py's
  regular-expression classification as written, and where it differs.
- `table_store.dfy` — module `TableStore`: rows, tables, the store, a schema reduced to its
  number of fields.
- `hdf_writer.dfy` — module `HdfWriter`: the writer state, the reopen scan, `Open`, `Save`,
  `Register`, `Send`, `SendAttr`, `SendMsg` (declarative) and `SendMsgInOrder` (the loop over
  the message sources in an unspecified order, proved equal to `SendMsg`).
- `writer_properties.dfy` — module `WriterProperties`: lemmas relating several operations
  (idempotent re-scan, save restores the mappings, invariants kept, composition of sends).
- `scenario.dfy` — module `Scenario`: the recording sessions of the repository's tests.

Three points where the code behaves differently from what its naming convention suggests; the
model follows the code on every name without a line break:

- A name is a message table when it contains `"_msgs"` anywhere, not only as a suffix; for a
  name without a line break its base is everything before the last occurrence (names with a
  line break are the subject of "## Findings").
- Reopening does not reconstruct a source whose own name contains `"_msgs"`: such a data table
  is classified as a message table of the text before the last marker, and what happens then
  depends on the enumeration order, which is not known. If the base has no binding yet, it
  gains one: either the base has no data table at all, so `msgs` names a source without one
  (`WriterProperties.SaveMisclassifiesMarkedSource`), or the base is a source registered
  without messages, which now has the marked data table as its message table. If the base
  already has a message table, the scan keeps whichever is enumerated last: the marked data
  table when it comes later (`WriterProperties.SaveMovesMessageBinding`), which the next
  `sendMsg` would try to stamp (not modelled: `SendMsg` requires a valid writer), or the
  base's own message table when it comes later, leaving the writer unchanged and valid
  (`WriterProperties.SaveKeepsBindingInOtherOrder`). In every case where a binding goes to the
  marked data table, the writer is no longer valid. The reconstruction property holds for
  every session that registers only unmarked names (`WriterProperties.SaveRestoresMappings`).
- The reopen scan adds to the mappings held before and never clears them.

## Model

| member | source | states |
|---|---|---|
| Naming.LastOccurrence | hdfwriter/hdfwriter.py:63-64 | the result is an occurrence of `"_msgs"` at or below the bound, and no occurrence lies between it and the bound; none is found only when there is no occurrence at all up to the bound |
| Naming.Classify | hdfwriter/hdfwriter.py:61-67 | a name is classified as a message table exactly when it contains `"_msgs"`; any other name is a data table bound under the name itself |
| Naming.ClassifyBase | hdfwriter/hdfwriter.py:63-64 | the base of a message table is the prefix of its name ending where `"_msgs"` occurs for the last time |
| Naming.MsgsTableNameRoundTrip | hdfwriter/hdfwriter.py:100 | states the naming function `Naming.MsgsTableName`: classifying the message-table name `register` creates for a source gives back that source as the base, for every source name |
| Naming.ClassifyInnerMarker | hdfwriter/hdfwriter.py:63-64 | `"a_msgs_b"` is the message table of source `"a"`: text after the last marker stays in the table name |
| Naming.ClassifyAsWritten | hdfwriter/hdfwriter.py:61-65 | the greedy match of hdfwriter.py only accepts an occurrence with no line break before it; it takes the last such occurrence, and fails when there is none |
| Naming.AsWrittenAgreesOnSingleLine | hdfwriter/hdfwriter.py:63-64 | on names without a line break the as-written classification equals `Classify` |
| Naming.AsWrittenLosesMultiLineSource | hdfwriter/hdfwriter.py:63-64 | for source `"a\nb"` the as-written match of its message table fails while `Classify` recovers `"a\nb"` |
| Naming.AsWrittenPicksEarlierBase | hdfwriter/hdfwriter.py:63-64 | for source `"a_msgs\nb"` the as-written match binds its message table to the earlier base `"a"` while `Classify` recovers `"a_msgs\nb"` |
| HdfWriter.RescanData | hdfwriter/hdfwriter.py:59-67 | states the reopen scan `HdfWriter.Rescan`, the left fold of `HdfWriter.Bind` over the enumeration: after the scan every unmarked name of the enumeration is a data source bound to itself, and every other `data` entry is kept unchanged; no marked name is ever added to `data` |
| HdfWriter.RescanMsgs | hdfwriter/hdfwriter.py:59-65 | states the reopen scan `HdfWriter.Rescan` for `msgs`: after the scan each base with a message table in the enumeration is bound to the last such table in enumeration order, and every other `msgs` entry is kept unchanged |
| HdfWriter.Open | hdfwriter/hdfwriter.py:51-67 | a writer opened on a store has `data` = its unmarked names, each bound to itself, and `msgs` = the bases of its marked names; it is valid when every message table has its unmarked data table beside it |
| HdfWriter.Save | hdfwriter/hdfwriter.py:181-184 | close-and-reopen keeps the store, never removes a key of either mapping, binds every unmarked stored name to itself and every `msgs` entry is either kept or a stored table of that base |
| HdfWriter.Register | hdfwriter/hdfwriter.py:98-103 | exactly the table `name` and, iff messages are requested, the table `name_msgs` are added, both empty; `data` gains `name`, `msgs` gains `name` iff messages are requested; nothing else changes; for a record (structured) schema the result buffer is one all-zero record of the schema |
| HdfWriter.RegisterKeepsValid | hdfwriter/hdfwriter.py:98-101 | registering keeps every `msgs` key a `data` key, every handle a stored table, and message tables distinct from data tables |
| HdfWriter.Send | hdfwriter/hdfwriter.py:120-122 | for an unregistered source or a None payload the state is unchanged; otherwise the source's table grows by exactly the payload rows at its end and no other table or mapping changes |
| HdfWriter.SendAttr | hdfwriter/hdfwriter.py:160-161 | a registered source's table gets the attribute set to the value, its rows and other attributes unchanged, all other tables unchanged; an unregistered source leaves the state unchanged |
| HdfWriter.SendMsg | hdfwriter/hdfwriter.py:137-141 | every message table bound in `msgs` gets exactly one row at its end, holding the message and the row count of its own source's data table; every data table and every unbound table is unchanged |
| HdfWriter.SendMsgInOrder | hdfwriter/hdfwriter.py:137-141 | the loop over the message sources, in any order and reading each data table's length as it goes, produces the same state as `SendMsg` |
| WriterProperties.OpenLastWins | hdfwriter/hdfwriter.py:59-65 | a writer opened on a store binds each base with message tables to the last of them in enumeration order |
| WriterProperties.SaveLastWins | hdfwriter/hdfwriter.py:181-184 | after a save each base with stored message tables is bound to the last of them in enumeration order |
| WriterProperties.RescanDataIdempotent | hdfwriter/hdfwriter.py:59-67 | running the reopen scan a second time changes no `data` binding |
| WriterProperties.RescanMsgsIdempotent | hdfwriter/hdfwriter.py:59-65 | running the reopen scan a second time changes no `msgs` binding |
| WriterProperties.SaveIdempotent | hdfwriter/hdfwriter.py:181-184 | two saves in a row give the same writer as one |
| WriterProperties.SavePreservesValid | hdfwriter/hdfwriter.py:181-184 | saving a valid writer with unmarked sources over a store whose message tables are all paired keeps it valid |
| WriterProperties.SaveRestoresMappings | hdfwriter/hdfwriter.py:181-184 | saving a coherent writer gives back exactly the same writer: every source is rebound and classified as before |
| WriterProperties.CoherentIsPaired | hdfwriter/hdfwriter.py:59-67 | in a coherent writer every stored message table's base is a stored unmarked data table |
| WriterProperties.FreshIsCoherent | hdfwriter/hdfwriter.py:51-53 | a writer opened on an empty file is coherent |
| WriterProperties.RegisterKeepsCoherent | hdfwriter/hdfwriter.py:90-101 | registering an unmarked name keeps the writer coherent |
| WriterProperties.WritesKeepCoherent | hdfwriter/hdfwriter.py:120-161 | `send`, `sendAttr` and `sendMsg` keep the writer coherent |
| WriterProperties.SendConcatenates | hdfwriter/hdfwriter.py:120-122 | sending `p` then `q` to one source equals sending `p + q` |
| WriterProperties.SendAttrLastWins | hdfwriter/hdfwriter.py:160-161 | setting one attribute twice leaves only the later value |
| WriterProperties.SaveMisclassifiesMarkedSource | hdfwriter/hdfwriter.py:59-67 | a data source registered as `"x_msgs"` becomes, after a save, the message table of a source `"x"` that has no data table, and the writer is no longer valid |
| WriterProperties.SaveMovesMessageBinding | hdfwriter/hdfwriter.py:59-65 | with a source `"a"` with messages and a data source `"a_msgs_b"`, a save that enumerates `"a_msgs_b"` after `"a_msgs"` binds `"a"` to the data table `"a_msgs_b"`, and the writer is no longer valid |
| WriterProperties.SaveKeepsBindingInOtherOrder | hdfwriter/hdfwriter.py:59-65 | on the same file, a save that enumerates `"a_msgs"` after `"a_msgs_b"` gives back the same valid writer: the outcome depends on the enumeration order |
| Scenario.TwoTablesRegisteredState | tests/test_hdfwriter.py:15-16 | after registering `table1` with messages and `table2` without, the file holds exactly `table1`, `table1_msgs`, `table2`, all empty |
| Scenario.TwoTablesFilledState | tests/test_hdfwriter.py:19-21 | after the sends `table1` holds 4 rows and `table2` exactly the one record of ones |
| Scenario.TwoTableSessionOutcome | tests/test_hdfwriter.py:15-44 | after `sendMsg("message!")` `table1` has 4 rows, `table2` exactly the one record of ones, `table1_msgs` exactly the row `{time: 4, msg: "message!"}`, and there is no `table2_msgs` |
| Scenario.BufferRoundTrip | tests/test_hdfwriter.py:50-54 | the buffer `register` returns is one zero record; its field set to 2 and sent, it is the source's only row, holding 2 |

## Left out

- Temporary-file creation for an empty file name (hdfwriter/hdfwriter.py:39-44), the status lines (those guarded by `verbose` and the unconditional one at hdfwriter/hdfwriter.py:56), and the fixed compression filter (hdfwriter/hdfwriter.py:10): file-system and library concerns with no effect on the bookkeeping.
- `close` and its copy of the file to another path (hdfwriter/hdfwriter.py:172-179): file I/O. `Save` treats closing as leaving the stored tables unchanged; the copy is not modelled.
- The open mode: `Open` takes the store as it stands once the file is open in whatever mode; truncation or creation is the storage library's.
- The order in which the file enumerates its root children is not known; `Open` and `Save` take it as a parameter that lists exactly the stored names.
- Register: array (sub-array dtype) schemas are not modelled: the extendable array of the element type created at hdfwriter/hdfwriter.py:90-94, and the one-element buffer of the element type that line 103 then returns for them instead of a zero record. A schema is reduced to the number of fields of a record schema and rows are opaque. Re-registering a name, or registering a source whose message-table name already exists, makes the library raise; both are preconditions. Names the library refuses as node names (the empty name, a name containing `/`) also make it raise inside `create_table`/`create_earray` (hdfwriter/hdfwriter.py:93-96, 100); that is not modelled, and `Register` accepts every string.
- Send: schema mismatches and other storage errors are not modelled; an append always succeeds.
- SendAttr: attribute names or values the storage library refuses make it raise at hdfwriter/hdfwriter.py:161; that is not modelled, and setting an attribute always succeeds. A table's attribute map holds only the attributes set through `sendAttr`; those the library keeps for itself are not modelled.
- SendMsg: requires a valid writer, whereas hdfwriter.py (lines 138-141) needs each `msgs` key to be a `data` key (otherwise it raises a key error) and each bound table to have the `time` and `msg` columns of a message table (filling them on a table without those columns is left to the library, which most likely raises). Valid approximates the second need by asking that every message table be named for its source and differ from every data table; that is more than hdfwriter.py asks, since a data table with those two columns would also do. Every state reached from an empty file by sessions that register only names without `"_msgs"` satisfies it (`WriterProperties.FreshIsCoherent`, `WriterProperties.RegisterKeepsCoherent`, `WriterProperties.WritesKeepCoherent`, `WriterProperties.SaveRestoresMappings`); registering a name that contains `"_msgs"` and saving can leave it (`WriterProperties.SaveMisclassifiesMarkedSource`, `WriterProperties.SaveMovesMessageBinding`).
- SendMsg: the `time` column is a 32-bit unsigned integer in the file; the model stores an unbounded `nat`, so row counts beyond 2^32 - 1 are not modelled.
- SendMsg: requires the message to have at most 256 characters; what the 256-byte column does with longer text (and the character/byte difference) is the library's and not modelled.
- Handles are table names, so a `data` entry that survives a save without being rebound (only a source whose own name contains `"_msgs"`, such as `"a_msgs_b"` above) stays usable in the model, whereas hdfwriter.py keeps a handle to a closed table.
- HdfWriter.Rescan: the reopen scan (and so `HdfWriter.Open` and `HdfWriter.Save`) uses `Naming.Classify`, which differs from hdfwriter.py for every name with a line break before its last `"_msgs"`: there its regular expression either raises (`Naming.AsWrittenLosesMultiLineSource`) or binds the table to an earlier base (`Naming.AsWrittenPicksEarlierBase`: `"a_msgs\nb_msgs"` goes to `"a"`).
- When the as-written classification fails, hdfwriter.py raises in the middle of the scan with the mappings partly filled; `Naming.ClassifyAsWritten` only reports the failure, and the writer model uses the corrected `Naming.Classify`.
- setup.py: packaging metadata.

## Findings

| source | as written | input that shows it | evidently intended | confidence | as-written member | corrected member |
|---|---|---|---|---|---|---|
| hdfwriter/hdfwriter.py:63-64 | the base of a message table is taken by a greedy regular-expression match whose `.` does not match a line break | a source `"a\nb"` registered with messages: on reopen its table `"a\nb_msgs"` has no match, so reading the group raises; a source `"a_msgs\nb"`: its table `"a_msgs\nb_msgs"` is bound to source `"a"` | the base is everything before the last `"_msgs"`, so every message table `register` creates is classified back to its source | low; not executed, and it depends on the storage library accepting a line break in a table name | Naming.ClassifyAsWritten, shown by Naming.AsWrittenLosesMultiLineSource and Naming.AsWrittenPicksEarlierBase | Naming.Classify, with Naming.MsgsTableNameRoundTrip |
