# xmdb: a verified model

xmdb is a small relational database server written in C++. Its SQL text goes through a lexer and a parser, is lowered
to a flat intermediate representation (IR) by way of an expression graph in which equal expressions share a node, is
type checked, and is then executed against tables. A table is a file of fixed-size records together with a paged
B-tree of its primary keys, and a catalog file lists all databases, users and tables. Underneath lie a small library
(hash table, arena, integer text) and SHA-256 and hex codecs. This project models these parts in Dafny and proves what
each is for.

Code that updates things in place is modelled by classes and loops over arrays, fields and files: the B-tree over its
page file, the hash table, the record store, the expression graph, the compiler, the type checker, the parser, the
lexer, the catalog, SHA-256 and the arena. Each such method is proved against a function or against the abstract
contents of its object, and the laws are proved about those. `dafny verify dfyconfig.toml` checks everything.

## The modules

| module | what it is about |
|---|---|
| `BTree`, `BTreeIndex` | the index as a tree of keys; the class over pages that refines it |
| `BTreeAsWritten`, `BTreeInsertAsWritten` | the loops of a split as they stand in the source; a whole insertion as it stands, followed over the pages with their dead slots, and the exact condition under which it is right |
| `RecordLayout`, `RecordStore`, `TableStore`, `SetClauses` | column layout and cells; records in a file; a table with its index under INSERT, UPDATE and DELETE; when SET clauses mean what SQL says |
| `Ast`, `Lowering`, `CompileConditions`, `StmtGraphs`, `GraphCompiler` | expressions and their equality; the code that statements get, defined with a memo; when a query compiles, and which error or stop comes first; the shared graph with its visited marks; the compiler over it, proved to emit that code |
| `Execution`, `StatementMeaning`, `CompiledNames` | what IR does and what statements ask for, and that the two agree; the names and counts in compiled code |
| `TypeCheck`, `CheckerSoundness`, `CheckerConditions`, `CheckerExamples` | the type checker; that its verdict on the IR is a verdict on what the statements ask for; when it accepts, rejects or stops, as written and repaired; queries that it gets wrong |
| `QueryRun`, `StoredQuery`, `CellTypes` | an accepted query as the server runs it; from the query to the rows that its tables hold afterwards; which values go into which columns |
| `IrEmitter` | the pools behind the instructions |
| `Tokens`, `Lexer`, `SourceText` | the lexer; the tokens of any source are exactly those that are written in it |
| `Grammar`, `StatementGrammar`, `Parser`, `Sentences`, `QueryText` | the grammar as the parser follows it and the parser; the grammar as a relation, and that a list of tokens is parsed exactly if it is a sentence; lexer and parser together |
| `Sha256`, `Words`, `Sha256Constants`, `Sha256Example` | SHA-256 and its loops; its functions bit by bit; what its constants are; the digest of `abc` |
| `Catalog`, `CatalogFile` | saving and loading the catalog; what any file loads as, byte by byte |
| `HashTable`, `Arena`, `IntText`, `HexText` | the support code |
| `Arithmetic`, `Bytes`, `SeqFacts`, `Wrappers` | rounding, bytes, files, sequences, results |

A `Trapped` outcome stands for a failed assertion or an unfinished branch, both of which stop the server; `Failed`
stands for an error that the user is told.

## Where the source does not do what it is for

In these places the model keeps the source's statements beside the intended ones and says exactly when they agree.

- `split_child` bounds its two shift loops by the page id of the child where its index is meant
  (src/Core/BTreeIndex.cpp:301-307), against its own note that no access is out of bounds. The loops trap or shift
  nothing, and then a separator and a child are overwritten and a slot that was dead is counted. Besides,
  `insert_non_full` goes on in the lower half even when the key belongs to the upper half
  (src/Core/BTreeIndex.cpp:372-377). `InsertAsWrittenIff` is the exact condition for a whole insertion, whatever the dead
  slots hold; `LostLeafExample` loses a separator and a leaf, `LostKeyExample` a key that search no longer finds, and
  `TrappedExample` stops. `ParentAsWrittenAgrees` is the condition for the parent's page alone.
- A reopened index hands out page ids from zero again (src/Core/BTreeIndex.cpp:134-141); `ReloadedCounterIff`.
- INSERT drops every 33rd row (src/Core/DBConnection.cpp:615-621); `InsertIsCompleteIff`, `KeptRows`.
- INSERT fills cells by position and ignores the names (src/Core/DBConnection.cpp:608-613); `PositionsMeanNamesIff`.
- The SET clauses of an UPDATE are carried out one after the other (src/Core/QueryExecutionContext.cpp:211-220);
  `OneByOneMeansAtOnceIff` says for any list of clauses when that is what SQL means, and `SwapIff` is an example.
- An UPDATE of the primary key leaves the index as it was; `ConstantKeyInStepIff`, `ColumnKeyInStepIff`.
- The type checker reads the operands of `<` and `>` as those of `=` and stops (src/SQL/type_check.cpp:76-79), and it
  never clears the columns of a finished INSERT (src/SQL/type_check.cpp:201-227), so that a later INSERT stops at them or
  is rejected for them. `WrittenAcceptsIff` is the exact condition, and splits stops from rejections; `OrderExample`,
  `OtherColumnExample`, `OtherTypeExample`.
- A second `*` in a select list, a column with the name of its table, and a call that is not the first argument of a
  call compile but stop the executor; by `LoweringPreservesMeaning` these are the only lookups of the executor that fail.
- The executor has no column type for NULL and for parts of images and stops at a SELECT that shows one
  (src/Core/DBConnection.cpp:22-36 and 129-145), although the checker accepts it; by `AcceptedRunIff` this is all that can
  still stop the instructions of an accepted query. `NullExample` is `SELECT NULL FROM t;`.
- A note at src/Core/DBConnection.cpp:196 says that CommitInsert has no operands; it has one, and the model follows the
  code.
- An expression statement that is not a SELECT cannot be followed by a semicolon; `SemicolonStops`.
- The text of an illegal character other than `-` is the character behind it; `LexemePlace`, `LexemeInSourceIff`,
  `LexemesInOrder`.
- The buffer for the text of an integer has ten characters; `BufferHoldsIff`.
- Saving the catalog returns the `offset` of the file as its size (src/Core/catalog.cpp:118), which seeking sets and
  writing does not move, so the size is always zero; the contract of `Catalog.Save` says so.

## Model

| member | source | states |
|---|---|---|
| BTree.Position | src/Core/BTreeIndex.cpp:361-365 | the descent picks the place after every key that is not larger than the new one: the key before it is not larger, the key at it is larger |
| BTree.SplitShape | src/Core/BTreeIndex.cpp:275-317 | splitting a full child keeps leaf depth, fill limits and one child more than keys, and leaves both halves with room |
| BTree.InsertNonFullShape | src/Core/BTreeIndex.cpp:345-379 | insertion below a node with room keeps the shape of the subtree and adds at most one key to the node |
| BTree.InsertShape | src/Core/BTreeIndex.cpp:319-343 | one insertion keeps the B-tree shape for the height that the header then states, and the root stays on page 0 |
| BTree.HalvesKeepKeys | src/Core/BTreeIndex.cpp:281-297 | lower half, median and upper half are exactly the keys of the full child, in order |
| BTree.SplitKeepsKeys | src/Core/BTreeIndex.cpp:275-317 | a split changes the left-to-right keys of the tree not at all |
| BTree.SplitPlaces | src/Core/BTreeIndex.cpp:369-375 | the half chosen after a split is one between whose separators the key lies |
| BTree.InsertNonFullGrows | src/Core/BTreeIndex.cpp:345-379 | insertion below a node keeps its keys in order and adds exactly one occurrence of the key |
| BTree.InsertGrows | src/Core/BTreeIndex.cpp:319-343 | insertion at the root keeps all keys in order and adds exactly one occurrence of the key |
| BTree.SortedIffSeparated | src/Core/BTreeIndex.cpp:177-200 | left-to-right order is the same as sorted nodes whose separators bound their subtrees |
| BTree.FirstAtLeast | src/Core/BTreeIndex.cpp:182-185 | the search loop stops at the first key that is not below the one looked for |
| BTree.FoundIff | src/Core/BTreeIndex.cpp:177-200 | search answers yes exactly for the keys of the tree |
| BTree.SplitTally | src/Core/BTreeIndex.cpp:283-316 | a split uses one page more, the new one, whatever pages are weighed by |
| BTree.InsertPages | src/Core/BTreeIndex.cpp:319-343 | one insertion uses every page once and adds exactly the pages it handed out |
| BTree.RunHolds | src/Core/BTreeIndex.cpp:319-343 | after any run of insertions the tree holds exactly the inserted keys |
| BTree.RunDense | src/Core/BTreeIndex.cpp:388-393 | after any run of insertions the number of nodes is the last page id plus one |
| BTree.RunIsIndex | src/Core/BTreeIndex.cpp:275-379 | every run from a fresh index: a B-tree of the stated height, exactly the inserted keys in order, pages 0 to last once each, and search answers for exactly the inserted keys |
| BTreeIndex.Frame | src/Core/BTreeIndex.cpp:240-265 | the page file represents a tree whatever is written to pages outside it |
| BTreeIndex.GraftKid | src/Core/BTreeIndex.cpp:258-265 | rewriting only the pages of one child and fresh pages replaces that child in the represented tree and nothing else |
| BTreeIndex.GraftSplit | src/Core/BTreeIndex.cpp:314-316 | the three pages that a split saves turn the represented tree into the split tree |
| BTreeIndex.Node.InsertKey | src/Core/BTreeIndex.cpp:350-357 | shifting in place opens a slot at the index, stores the key there and keeps the other keys in order |
| BTreeIndex.Node.InsertChild | src/Core/BTreeIndex.cpp:299-310 | shifting in place opens a slot behind the child and stores the new page id there (with the child's index as the bound) |
| BTreeIndex.Node.TakeSplit | src/Core/BTreeIndex.cpp:299-312 | the parent's page becomes the page of the split node |
| BTreeIndex.BTreeState.Create | src/Core/BTreeIndex.cpp:110-122 | an index on an empty file: one empty leaf in page 0, header for height 1, no keys, one page |
| BTreeIndex.BTreeState.Reset | src/Core/BTreeIndex.cpp:148-171 | an empty index again; the page id counter goes on |
| BTreeIndex.BTreeState.Open | src/Core/BTreeIndex.cpp:123-142 | opening a written file gives an index with the same pages, header and tree, valid for further inserts (counter recovered from the header) |
| BTreeIndex.BTreeState.SaveNode | src/Core/BTreeIndex.cpp:258-265 | the page of the node, and no other, becomes what the node holds |
| BTreeIndex.BTreeState.LoadNode | src/Core/BTreeIndex.cpp:240-256 | a new node that holds exactly the page |
| BTreeIndex.BTreeState.AllocNode | src/Core/BTreeIndex.cpp:388-393 | a new node gets the next page id and is counted in the header |
| BTreeIndex.BTreeState.CopyUpperHalf | src/Core/BTreeIndex.cpp:284-295 | the copy loops fill the new node with the upper half of the full child |
| BTreeIndex.BTreeState.SplitChild | src/Core/BTreeIndex.cpp:275-317 | exactly the pages of parent, child and new node are written, and they hold the split |
| BTreeIndex.BTreeState.FindPosition | src/Core/BTreeIndex.cpp:348-365 | the backward search ends at the position of the key |
| BTreeIndex.BTreeState.LoadChild | src/Core/BTreeIndex.cpp:240-256 | loading child i gives a node with the content of that child |
| BTreeIndex.BTreeState.InsertNonFull | src/Core/BTreeIndex.cpp:345-379 | the pages below the node represent the insertion into its tree afterwards, and no page outside that subtree that was in use is touched |
| BTreeIndex.BTreeState.Insert | src/Core/BTreeIndex.cpp:319-343 | the index stays valid, the tree is the insertion of the key, exactly one occurrence more, header counts and height in step, memory and page 0 agree |
| BTreeIndex.BTreeState.GrowRoot | src/Core/BTreeIndex.cpp:320-334 | a full root moves to a new page and is split; the new root takes over page 0 and equals it |
| BTreeIndex.BTreeState.Contains | src/Core/BTreeIndex.cpp:202-204 | true exactly when the key is in the index |
| BTreeIndex.BTreeState.NodeSearch | src/Core/BTreeIndex.cpp:177-200 | an index other than -1 exactly when the key is found below the node, and then the key lies there |
| BTreeIndex.Reopen | src/Core/BTreeIndex.cpp:110-146 | closing and reopening the file gives the same tree, header and pages, so the same answers, and safe inserts, if the pages are numbered without gaps |
| BTreeIndex.CanReopen | src/Core/BTreeIndex.cpp:110-171 | which holds for every index that was never reset, and for every index of one page |
| BTreeAsWritten.ShiftLoop | src/Core/BTreeIndex.cpp:301-307 | the loop with any bound on a bounds-checked slice, as a function of start, bound and live length, trap included |
| BTreeAsWritten.TakeSplitAsWritten | src/Core/BTreeIndex.cpp:299-312 | the parent's page after the loops and stores exactly as they stand, or a trap |
| BTreeAsWritten.ParentAsWrittenIs | src/Core/BTreeIndex.cpp:301-312 | as written, the loops trap on their first step or take none |
| BTreeAsWritten.ParentAsWrittenAgrees | src/Core/BTreeIndex.cpp:299-312 | the parent as written is the split parent if and only if the child's page id is at least the key count and the child is the last one (or the last but one beside dead slots that repeat the last key and child) |
| BTreeAsWritten.ReloadedCounterIff | src/Core/BTreeIndex.cpp:134-141 | a zeroed page id counter is safe if and only if the tree is a single page |
| BTreeInsertAsWritten.FirstStep | src/Core/BTreeIndex.cpp:345-379 | on the pages of any node with room, the code stores in a leaf, goes down to a child with room, or splits a full one: then it stops at the bounds check exactly when the child's page id is below the key count, and else overwrites and goes on in the lower half |
| BTreeInsertAsWritten.WrittenKeeps | src/Core/BTreeIndex.cpp:345-379 | however an insertion as written ends, pages in use outside the subtree stay, and no page inside comes to hold a higher tree |
| BTreeInsertAsWritten.FittingTakes | src/Core/BTreeIndex.cpp:345-379 | under the condition, insertion as written ends, and the pages hold the subtree with exactly this key more, in order, on the pages it had and was handed |
| BTreeInsertAsWritten.DeadChild | src/Core/BTreeIndex.cpp:309-312 | if an overwriting split comes out right, the child slot that was dead leads to the very subtree that was overwritten |
| BTreeInsertAsWritten.DeadKey | src/Core/BTreeIndex.cpp:309-312 | and the key slot that was dead holds the overwritten separator, with nothing but that key behind it |
| BTreeInsertAsWritten.TookFits | src/Core/BTreeIndex.cpp:345-379 | conversely, if an insertion as written comes out right below a node, every split on the way fulfilled the condition and the key belonged to the lower half |
| BTreeInsertAsWritten.InsertAsWrittenIff | src/Core/BTreeIndex.cpp:275-379 | for every index, key and content of dead slots: insertion as written ends with pages that hold a B-tree with exactly this key more, on the pages it had and was handed, if and only if each full node on the way passes the bounds check, is a last child or is made good by the dead slots of its parent, and has a median not below the key |
| BTreeInsertAsWritten.WrittenAddsKey | src/Core/BTreeIndex.cpp:345-379 | where every full node on the way is a last child, so that nothing is overwritten, an insertion as written that ends keeps all keys and adds one; it may only put it in the wrong place |
| BTreeInsertAsWritten.LostKeyExample | src/Core/BTreeIndex.cpp:369-377 | a concrete tree and key: the key is stored, the shape is kept, and search no longer finds it |
| BTreeInsertAsWritten.LostLeafExample | src/Core/BTreeIndex.cpp:309-312 | a concrete file and key: the insertion ends, the separator and the whole second leaf are lost, and no page that search comes to holds a key that was there before |
| BTreeInsertAsWritten.TrappedExample | src/Core/BTreeIndex.cpp:301-303 | a concrete tree and key on which the bounds check stops the program |
| HashTable.AbsentAtFree | src/Core/ok.hpp:1504-1511 | a probe that stands at a free slot proves that the key is in no slot |
| HashTable.StoreRepresents | src/Core/ok.hpp:1504-1517 | storing where the probe stopped binds the key, keeps the other bindings, and keeps every slot from home to key occupied |
| HashTable.NotAllPassed | src/Core/ok.hpp:1504-1520 | a probe can pass every slot only in a table without a free one |
| HashTable.LookupHit | src/Core/ok.hpp:1528-1534 | any occupied slot with the key holds the value the map has for it |
| HashTable.LookupMiss | src/Core/ok.hpp:1528-1536 | a lookup that went round without a hit proves that the map has no such key |
| HashTable.LoadBelow | src/Core/ok.hpp:1220-1235 | in a table of three times the capacity plus three, the old entries stay below 70 percent |
| HashTable.Table.constructor | src/Core/ok.hpp:1480-1492 | a new table is the empty map |
| HashTable.Table.Clear | src/Core/ok.hpp:1215-1218 | the table is the empty map afterwards |
| HashTable.Table.Get | src/Core/ok.hpp:1523-1537 | the value the map has for the key, or none |
| HashTable.Table.Put | src/Core/ok.hpp:1494-1521 | the map is updated at the key and nowhere else, and the arrays are new, three times as long plus three, exactly when 70 of 100 slots were used |
| HashTable.Table.Copy | src/Core/ok.hpp:1220-1231 | a larger table with the same bindings, filled without growing again |
| HashTable.Table.PutInFree | src/Core/ok.hpp:1502-1520 | on a table that is not full, put updates the map at the key and keeps the probe runs |
| HashTable.Table.FindSlot | src/Core/ok.hpp:1502-1520 | the probe loop ends, at a free slot or at the key, having passed only occupied slots with other keys |
| Bytes.File.Write | src/Core/DBConnection.cpp:547-551 | writing replaces exactly the bytes from the position on and moves the position behind them |
| Bytes.File.Read | src/Core/DBTable.cpp:401-407 | reading gives the bytes from the position on, fewer only at the end of the file |
| RecordLayout.ComputeColumnsLayout | src/Core/DBTable.cpp:48-76 | the array holds for each column the place that the layout function defines |
| RecordLayout.CellsApart | src/Core/DBTable.cpp:54-73 | cells lie one after the other without overlap, inside the record, aligned for their types |
| RecordLayout.NoHolesIff | src/Core/DBRecord.cpp:10-17 | a record can be created exactly when no column needs padding in front of it |
| RecordLayout.CreatableHasNoHoles | src/SQL/ir.cpp:234-254 | and that holds for every table that CREATE TABLE can make |
| RecordLayout.EndNext | src/Core/DBTable.cpp:31-73 | in such a table an INTEGER takes 8 bytes, a TEXT 64 and a PNG 272, with nothing between them |
| RecordLayout.CellUndo | src/Core/DBTable.cpp:413-430 | reading a cell gives back the value that was written into it, for every value of a column that CREATE TABLE can make |
| RecordLayout.CellBytes | src/Core/DBConnection.cpp:395-443 | what stands in a cell, byte by byte: a number, highest byte first, a length and 63 characters, or a handle |
| RecordLayout.FillInteger | src/Core/DBConnection.cpp:409-419 | the byte loop stores the eight bytes of the number, highest first, and no other byte |
| RecordLayout.ReadInteger | src/Core/DBTable.cpp:414-426 | the decoding loop reads those bytes as a signed number |
| RecordStore.CellPlace | src/Core/DBTable.cpp:396-401 | cell i of record r lies behind the 16 bytes of the header, r records and the cells before it |
| RecordStore.KeyOrder | src/Core/DBConnection.cpp:421-423 | primary keys are told apart by their index keys and ordered by them, negative ones behind all others |
| RecordStore.CellAt | src/Core/DBTable.cpp:396-401 | cell i of a stored record lies where the layout says |
| RecordStore.CellOverwrite | src/Core/DBConnection.cpp:785-789 | overwriting the bytes of cell i gives the record of the changed row |
| RecordStore.AppendStores | src/Core/DBConnection.cpp:540-552 | writing a record behind the last one stores one row more and keeps all others |
| RecordStore.RecordsApart | src/Core/DBConnection.cpp:547-547 | the byte ranges of two records do not overlap |
| RecordStore.HeaderKeepsRows | src/Core/state.cpp:30-44 | writing the header changes no row |
| RecordStore.CellWriteStores | src/Core/DBConnection.cpp:785-791 | writing one cell in place changes that cell of that row, no other cell, no other row, and not the header |
| RecordStore.FillColumn | src/Core/DBConnection.cpp:395-443 | the bytes of the cell become the value's, and no other byte of the buffer changes |
| RecordStore.BuildRecord | src/Core/DBConnection.cpp:606-613 | the cells filled by position are the record of the row, with the primary key read as unsigned |
| TableStore.KeptCount | src/Core/DBConnection.cpp:605-624 | how many of the rows of an INSERT are stored as written |
| TableStore.KeptRows | src/Core/DBConnection.cpp:605-624 | every row that does not come 33rd, 66th, ... is stored, and at which place |
| TableStore.InsertIsCompleteIff | src/Core/DBConnection.cpp:605-624 | an INSERT as written stores all its rows if and only if there are at most 32 |
| TableStore.PositionsMeanNamesIff | src/Core/DBConnection.cpp:608-613 | filling cells by position gives the named row for all values if and only if the names are in table order |
| TableStore.RunKeepsCounts | src/Core/DBConnection.cpp:524-556 | after any run of INSERT, UPDATE and DELETE on a new table, index and record file hold equally many entries |
| TableStore.RunInStep | src/Core/DBConnection.cpp:590-624 | after any run in which no UPDATE writes the primary key, the index keys are exactly the primary-key cells read as unsigned |
| TableStore.ConstantKeyInStepIff | src/Core/DBConnection.cpp:763-795 | an UPDATE of the primary key to a constant keeps the index right if and only if every row had that key already |
| TableStore.ColumnKeyInStepIff | src/Core/DBConnection.cpp:763-795 | an UPDATE of the primary key from another column keeps it right if and only if that column held the same values in some order |
| SetClauses.OneByOneReads | src/Core/QueryExecutionContext.cpp:211-220 | clauses done one by one give each column its last source, resolved through the clauses before it to a constant or a column of the row as it was |
| SetClauses.AtOnceReads | src/Core/QueryExecutionContext.cpp:211-220 | clauses done all at once give each column its last source as it is written |
| SetClauses.SourcesApart | src/Core/DBConnection.cpp:763-795 | two different sources of a column give different values for some row of the table |
| SetClauses.OneByOneMeansAtOnceIff | src/Core/QueryExecutionContext.cpp:211-220 | for any list of SET clauses: one by one they do the same as all at once, for every row of the table, if and only if for each column that is set the resolved source of its last clause is the source as written |
| SetClauses.IndependentMeansAtOnce | src/Core/QueryExecutionContext.cpp:211-220 | SET clauses of which none reads a column that an earlier one writes mean what they mean all at once |
| SetClauses.DependentExamples | src/Core/QueryExecutionContext.cpp:211-220 | `SET a = a, b = a` and `SET a = v, b = a, b = v` are not of that kind and do so too |
| SetClauses.SwapIff | src/Core/QueryExecutionContext.cpp:211-220 | `SET a = b, b = a` swaps if and only if the two are equal already |
| TableStore.Table.constructor | src/Core/state.cpp:6-28 | a new table has no rows and an empty index |
| TableStore.Table.Sync | src/Core/state.cpp:30-44 | the header in the file counts the records; the bytes behind it stay |
| TableStore.Table.WriteRecord | src/Core/DBConnection.cpp:540-552 | one turn of the flush loop stores one row behind the others and adds its key to the index |
| TableStore.Table.WriteBatch | src/Core/DBConnection.cpp:539-552 | the flush loop stores the batch in order and adds its keys, while the header still counts the old records |
| TableStore.Table.Flush | src/Core/DBConnection.cpp:524-556 | the rows are the old rows and then the batch, the index has the batch's keys more, header and file in step |
| TableStore.Table.Insert | src/Core/DBConnection.cpp:590-624 | INSERT of any number of rows stores each row exactly once, in order, with its key (the row that triggers a flush is kept) |
| TableStore.Table.InsertAsWritten | src/Core/DBConnection.cpp:590-624 | INSERT exactly as written: the rows kept are those that `Kept` describes |
| TableStore.Table.ReadCell | src/Core/DBTable.cpp:396-430 | reading column i of record r from the file gives the value of the abstract row |
| TableStore.Table.WriteCell | src/Core/DBConnection.cpp:785-791 | the abstract row r changes in column i only |
| TableStore.Table.UpdateRow | src/Core/DBConnection.cpp:780-792 | one turn of the loop gives row r the value of the source as that row stood, and moves the stream on |
| TableStore.Table.WriteColumn | src/Core/DBConnection.cpp:763-795 | UPDATE of a column: every row gets its value of the source as it stood before the write, even from the same file; nothing else changes |
| TableStore.Table.WriteColumns | src/Core/QueryExecutionContext.cpp:204-237 | UPDATE of several columns changes each row by its clauses one after the other |
| TableStore.Table.Delete | src/Core/DBConnection.cpp:721-744 | DELETE leaves no rows and an empty index; the bytes behind the header stay |
| TableStore.Table.Execute | src/Core/DBConnection.cpp:558-797 | each of the three statements changes rows and index keys as the abstract step says |
| TableStore.LoadState | src/Core/state.cpp:51-77 | the record count of the header, or the error for less than 16 bytes or for eight other first bytes |
| TableStore.HeaderUndo | src/Core/state.cpp:51-77 | a header written by the table starts with these eight bytes and loads again with its record count |
| TableStore.Stream.Next | src/Core/DBTable.cpp:352-411 | a constant repeats forever; a column gives the values of the rows in order and ends after the last record |
| TableStore.DecodeCell | src/Core/DBTable.cpp:413-431 | the switch over column types reads the value that the bytes of the cell stand for |
| Ast.SameExprIff | src/SQL/ast.cpp:59-122 | two expression objects count as equal exactly when they spell the same expression and hold no call and no select item, which are compared by pointer |
| Ast.SameHash | src/SQL/ast.cpp:7-57 | equal expressions hash equally, whatever the string hash |
| Lowering.MemoGrows | src/SQL/ir.cpp:707-713 | the ids that were given to expressions stay |
| Lowering.EmittedOnce | src/SQL/ir.cpp:475-477 | a shared expression is emitted once: later, whatever was compiled between, it costs no instruction and has the same id |
| Execution.TrapStays | src/Core/DBConnection.cpp:819-821 | what stopped the executor stops it for every longer program |
| Execution.CompiledMeans | src/SQL/ir.cpp:192-232 | a compiled leaf or call computes its meaning if calls stand only in first argument position, and else the executor stops |
| Execution.ArgsMean | src/SQL/ir.cpp:217-222 | compiled arguments push exactly their meanings, in order, on what waits already |
| Execution.ValueMeans | src/SQL/ir.cpp:693-767 | the id of a compiled value holds its meaning, shared or not; otherwise the executor stopped or the id is the table's |
| Execution.BinaryMeans | src/SQL/ir.cpp:729-767 | a compiled comparison compares the meanings of its two sides, left and right |
| StatementMeaning.ItemsMean | src/SQL/ir.cpp:786-812 | a select list emits exactly its items in order, `*` giving the columns of the table in order, and counts them |
| StatementMeaning.SelectMeans | src/SQL/ir.cpp:768-817 | the IR of a compiled SELECT asks for exactly the columns of its list if it is clean, and else a lookup of the executor fails |
| StatementMeaning.InsertMeans | src/SQL/ir.cpp:818-900 | a compiled INSERT inserts exactly its rows, each value under its column, if it is clean, and else stops the executor |
| StatementMeaning.UpdateMeans | src/SQL/ir.cpp:901-949 | a compiled UPDATE sets exactly its columns in order if it is clean, and else stops the executor |
| StatementMeaning.DeleteMeans | src/SQL/ir.cpp:950-978 | a compiled DELETE empties exactly its table |
| StatementMeaning.StmtMeans | src/SQL/ir.cpp:1147-1156 | the IR of one compiled statement asks for exactly its effect, or a lookup of the executor fails, by whether it is clean |
| StatementMeaning.LoweringPreservesMeaning | src/SQL/ir.cpp:1132-1165 | the IR of a query asks the executor for exactly the effects its statements ask for, in order, if all are clean; if one is not, a lookup of the executor fails (column types of a SELECT: see QueryRun.AcceptedRunIff) |
| StmtGraphs.StmtGraph.ExprToNode | src/SQL/ir.cpp:475-553 | the node has the expression, edges lead to smaller nodes for its parts in order, shareable equal expressions share their node, and the rest of the graph stays |
| StmtGraphs.StmtGraph.ExprsToNodes | src/SQL/ir.cpp:532-540 | the edges of a node are the nodes of its parts, in order |
| StmtGraphs.StmtGraph.AddNode | src/SQL/ir.cpp:456-462 | the new node is the last one, and found under its expression if that is shareable |
| GraphCompiler.IrContext.PushTable | src/SQL/ir.hpp:639-642 | the current namespace is that of the table afterwards, and both stacks keep what they held |
| GraphCompiler.IrContext.PopNamespace | src/SQL/ir.hpp:647-650 | the namespace is taken off, and the table with it exactly for a table namespace |
| GraphCompiler.IrContext.CompileIdent | src/SQL/ir.cpp:159-190 | a name is looked up as a column or as a table by the current namespace, with exactly the code of the definition, or its error |
| GraphCompiler.IrContext.CompileExpr | src/SQL/ir.cpp:192-232 | leaves and calls get exactly the code of the definition |
| GraphCompiler.IrContext.CompileCall | src/SQL/ir.cpp:211-225 | the loop over the arguments emits each argument followed by its Arg, then the call |
| GraphCompiler.IrContext.CompileGraphNode | src/SQL/ir.cpp:707-767 | with the visited marks, a node gets the code and ids that the definition with the memo gives its expression, and marks only its own nodes |
| GraphCompiler.IrContext.CompileSingle | src/SQL/ir.cpp:693-705 | the same for nodes that must give one value |
| GraphCompiler.IrContext.CompileComparison | src/SQL/ir.cpp:729-767 | left side, right side, then the comparison of their ids |
| GraphCompiler.IrContext.CompileStar | src/SQL/ir.cpp:979-1000 | one FetchColumn for each column of the table, in order |
| GraphCompiler.IrContext.CompileItems | src/SQL/ir.cpp:786-811 | the loop over the select list emits what the definition says, with the number of columns |
| GraphCompiler.IrContext.CompileSelect | src/SQL/ir.cpp:768-817 | a SELECT gets exactly the code of the definition, and the stacks are as before |
| GraphCompiler.IrContext.CompileValues | src/SQL/ir.cpp:875-888 | the loop over one row's values emits what the definition says |
| GraphCompiler.IrContext.CompileRows | src/SQL/ir.cpp:862-893 | the loop over the rows walks the flat list of edges row after row |
| GraphCompiler.IrContext.CompileInsert | src/SQL/ir.cpp:818-900 | an INSERT gets exactly the code of the definition, or its errors, which `CompileConditions.InsertOutcome` states |
| GraphCompiler.IrContext.CompileSets | src/SQL/ir.cpp:924-942 | the loop over the SET clauses emits what the definition says |
| GraphCompiler.IrContext.CompileUpdate | src/SQL/ir.cpp:901-949 | an UPDATE gets exactly the code of the definition |
| GraphCompiler.IrContext.CompileDelete | src/SQL/ir.cpp:950-978 | a DELETE gets exactly the code of the definition |
| GraphCompiler.IrContext.CompileStmt | src/SQL/ir.cpp:555-646 | building the graph of a statement and compiling it gives the code of the definition |
| GraphCompiler.IrContext.CompileQuery | src/SQL/ir.cpp:1132-1165 | a whole query gets exactly the code of the definition, or fails or stops as the first fault of its statements says |
| CompileConditions.LeafOutcome | src/SQL/ir.cpp:159-232 | a literal, name or call compiles, fails or stops as its first fault says: an unknown name is an error; a callee that is no name, or a comparison, `*` or SELECT as an argument, stops |
| CompileConditions.ValueOutcome | src/SQL/ir.cpp:693-766 | a value beside the columns of a table does so as its first fault says, left to right; besides columns it may name the table, and `*` is one value if the table has one column or a `*` was compiled before |
| CompileConditions.TableOutcome | src/SQL/ir.cpp:768-783 | only the name of a table of the database is a table; any other name or value is an error, behind its own faults |
| CompileConditions.ItemsOutcome | src/SQL/ir.cpp:787-812 | the items of a select list do so in order; a `*` by itself never has a fault |
| CompileConditions.InsertOutcome | src/SQL/ir.cpp:818-900 | an INSERT does so: table, then as many columns as the table has and only its own, then for each row the number of its values and the values in order |
| CompileConditions.UpdateOutcome | src/SQL/ir.cpp:901-949 | an UPDATE does so: no filter, table, then for each clause the column and the value |
| CompileConditions.DeleteOutcome | src/SQL/ir.cpp:950-978 | a DELETE does so: no filter, then the table |
| CompileConditions.StmtOutcome | src/SQL/ir.cpp:587-650 | every statement compiles, fails or stops exactly as its first fault says, on conditions over the statement and the schemas alone |
| CompileConditions.QueryOutcome | src/SQL/ir.cpp:1132-1165 | and so does every query, whose statements come one after the other |
| CompileConditions.CompilesIff | src/SQL/ir.cpp:1132-1165 | a query compiles if and only if each statement names tables, columns, callees and values as it must, which is said without any order |
| TypeCheck.FindColumn | src/SQL/type_check.cpp:9-18 | a column is found exactly when its name is in the schema |
| TypeCheck.TypingContext.CheckInstruction | src/SQL/type_check.cpp:72-326 | the checker's tables and pending lists change as the definition says, for every instruction, with its errors and traps |
| TypeCheck.TypingContext.CheckEmitQuery | src/SQL/type_check.cpp:162-192 | the last emitted columns, in order, become the schema of the query and leave the list |
| TypeCheck.TypingContext.CheckCommitInsert | src/SQL/type_check.cpp:201-227 | every pending column is looked up in the table and compared in type, with the lists cleared in the repaired mode only |
| TypeCheck.TypingContext.CheckCall | src/SQL/type_check.cpp:260-311 | a call of unknown name, count or argument type is an error, and otherwise it has the type of the function |
| TypeCheck.TypingContext.CheckQuery | src/SQL/type_check.cpp:328-337 | the loop over the instructions is the definition |
| CompiledNames.QueryNames | src/SQL/ir.cpp:159-190 | compiled queries fetch tables of the database only, name columns of the right tables only, leave no INSERT unfinished, and each SELECT counts the columns it shows |
| CompiledNames.OpenColumnsAre | src/SQL/ir.cpp:786-812 | the executor has as many columns ready for a SELECT as the code has shown since the last one |
| CheckerSoundness.ArgsCheckIff | src/SQL/type_check.cpp:290-304 | the loop over the arguments of a call passes if and only if each has exactly the type of its parameter |
| CheckerSoundness.PendingChecks | src/SQL/type_check.cpp:205-224 | the loop of a commit goes on, ends with an error or stops as the pending cells, read as values and columns, say |
| CheckerSoundness.StepJudged | src/SQL/type_check.cpp:72-326 | on any instruction that the executor gets over, the verdict of the checker, in either mode, is read off the values that the executor holds; and its types stay those of these values |
| CheckerSoundness.RunJudged | src/SQL/type_check.cpp:328-337 | over any program that the executor can run, the verdict is that of the first instruction that is not accepted |
| CheckerSoundness.CheckIsVerdict | src/SQL/type_check.cpp:328-337 | the checker, as written or repaired, says to the IR of a clean query exactly what the verdict on its statements is, which looks at values and schemas only: accepted, rejected or stopped by the first thing in query order |
| CheckerConditions.ValueAcceptedIff | src/SQL/type_check.cpp:74-108 | a value is accepted if and only if it has a type and, as written, nothing in it is compared by `<` or `>`; a value that has a type is never rejected |
| CheckerConditions.PendingSplit | src/SQL/type_check.cpp:205-224 | pending columns are accepted if and only if all fit the table; else the first that does not decides: the checker stops if the table has no such column, and rejects if it has it at another type |
| CheckerConditions.NeverStops | src/SQL/type_check.cpp:72-337 | the repaired checker stops at no compiled code that the executor can run: all its lookups succeed |
| CheckerConditions.AcceptsIff | src/SQL/type_check.cpp:72-337 | sound and complete: the repaired checker, looking at the IR, accepts a clean query if and only if everything its statements ask for is well typed by the values and the schemas alone, and rejects every other one with an error |
| CheckerConditions.WrittenAcceptsIff | src/SQL/type_check.cpp:72-337 | the checker as written accepts a clean query if and only if it is well typed, has no `<` or `>`, and the columns of every INSERT go with the tables of all later INSERTs; a well-typed query that is not accepted is rejected, or stops the server, by the first statement with `<` or `>` or the first column that does not go |
| CheckerConditions.OneTableAccepted | src/SQL/type_check.cpp:193-227 | any number of well-typed INSERTs into one table are accepted as written |
| CheckerExamples.OrderExample | src/SQL/type_check.cpp:76-79 | a concrete well-typed query with `<` that stops the checker as written |
| CheckerExamples.TwoInserts | src/SQL/type_check.cpp:193-227 | two INSERTs of one constant each, of which the first does not go with the table of the second: stopped or rejected as written, by whether that table has the column |
| CheckerExamples.OtherColumnExample | src/SQL/type_check.cpp:205-214 | two concrete INSERTs of which the second stops the checker as written |
| CheckerExamples.OtherTypeExample | src/SQL/type_check.cpp:215-224 | two concrete INSERTs into columns of the same name at different types, of which the second is rejected as written |
| QueryRun.SchemaIsShown | src/SQL/type_check.cpp:162-192 | the schema that the checker made for a finished SELECT lists the names and the types of what it shows |
| QueryRun.RunIff | src/Core/DBConnection.cpp:129-145 | on any program that the checker accepts and the executor can run, the run with the checker's schemas goes on exactly as long as everything shown has a column type |
| QueryRun.AcceptedRunIff | src/Core/DBConnection.cpp:799-838 | an accepted query has exactly the effects its statements ask for if and only if every statement is clean and no value that it shows is NULL or part of an image; otherwise the server stops |
| QueryRun.NullExample | src/Core/DBConnection.cpp:22-36 | `SELECT NULL FROM t;` is accepted by the checker, as written and repaired, and stops the server |
| StoredQuery.AcceptedIsLegal | src/Core/DBConnection.cpp:395-443 | whatever constants and columns the checker accepts for a table have the size of the cells they are written to |
| StoredQuery.EffectStored | src/Core/DBConnection.cpp:558-797 | carrying out one accepted effect leaves in its table the rows that SQL says, found by names of columns, and all other tables as they were |
| StoredQuery.AcceptedQueryStores | src/Core/DBConnection.cpp:799-838 | end to end: a query that is compiled, clean and accepted, with constants and columns as values, runs, and every table then holds the rows that its statements, read as SQL, make of the rows it held |
| CellTypes.CellTypedIff | src/SQL/type_check.cpp:20-37 | a value is accepted for a column if and only if its type is in the list of that column type: its own, NULL, and parts of an image for a PNG |
| CellTypes.LeafTypedIff | src/SQL/type_check.cpp:20-37 | numbers are accepted for INTEGER only, strings for TEXT only, truth values for BOOLEAN only, and NULL everywhere |
| CellTypes.ColumnTypedIff | src/SQL/type_check.cpp:39-54 | a column is accepted as the value of a column if and only if both have the same type |
| CellTypes.StoredIff | src/SQL/type_check.cpp:201-227 | a constant is accepted for a column if and only if it fits a cell of the store |
| CellTypes.ComparedTypedIff | src/SQL/type_check.cpp:76-100 | which pairs of types can be compared, in either direction |
| CellTypes.ShownIff | src/Core/DBConnection.cpp:22-36 | what a SELECT can show has the type of some column, and everything else stops it |
| IrEmitter.InstrsDiffer | src/SQL/ir.hpp:202-206 | opcode and operands tell instructions apart, and each operand has the kind that its place has |
| IrEmitter.Emitter.GenTemp | src/SQL/ir.hpp:232-237 | a new name goes to the end of the string pool, and its index comes back |
| IrEmitter.Emitter.Add | src/SQL/ir.cpp:28-58 | the operand can be got back under the index, and the pools only grow |
| IrEmitter.Emitter.Emit | src/SQL/ir.cpp:60-131 | the program grows by exactly this instruction, and every earlier one still reads the same |
| IrEmitter.Emitter.OperandsOf | src/SQL/ir.hpp:380-447 | the operands_of functions give back opcode and operands that the emit functions were given |
| IrEmitter.Emitter.TableSchemaById | src/SQL/ir.hpp:574-584 | the schema of a FetchTable, and none for other instructions |
| Sentences.ExprIsWriting | src/SQL/Parser.cpp:375-434 | whatever is parsed as an expression is a writing of it, in a relation that allows any texts of keywords and signs, left out commas behind arguments and any spelling of a number, and nothing else |
| Sentences.ExprParsed | src/SQL/Parser.cpp:375-434 | every writing of an expression is parsed as it, if no operator or parenthesis follows |
| Sentences.StmtIsWriting | src/SQL/Parser.cpp:97-373 | whatever is parsed as a statement is a writing of it, its semicolon included; an INSERT may lack its table name |
| Sentences.StmtParsed | src/SQL/Parser.cpp:97-373 | every writing of a statement is parsed as it |
| Sentences.QueryIff | src/SQL/Parser.cpp:436-444 | a list of tokens is parsed as a query if and only if it is a writing of that query |
| Sentences.QueryStopsIff | src/SQL/Parser.cpp:336-373 | the parser stops the server if and only if the tokens are writings of statements and then ALTER with another word than USER behind it; all that is left fails |
| QueryText.SourceIff | src/SQL/Parser.cpp:86-95 | a source is parsed as a query if and only if it is a writing of tokens that are a writing of that query |
| QueryText.SourceStopsIff | src/SQL/Parser.cpp:336-373 | a source stops the server if and only if it is statements and then such an ALTER |
| QueryText.QueryTextUndo | src/SQL/Parser.cpp:86-95 | lexer and parser together undo writing a query as text, with any white space and comments between its tokens, for all names that are no keywords and all strings that can be quoted |
| Grammar.ExprUndo | src/SQL/Parser.cpp:375-434 | parsing a printed expression gives the same tree and consumes exactly its tokens, if what follows does not continue it |
| Grammar.PrimUndo | src/SQL/Parser.cpp:41-84 | the same for literals, names, `*` and SELECTs with their own semicolon |
| Grammar.ArgsUndo | src/SQL/Parser.cpp:405-430 | the same for the arguments of a call up to its closing parenthesis |
| StatementGrammar.StmtUndo | src/SQL/Parser.cpp:97-115 | parsing a printed statement of any kind gives it back and consumes exactly its tokens |
| StatementGrammar.InsertUndo | src/SQL/Parser.cpp:129-179 | INSERTs of any number of rows come back row by row |
| StatementGrammar.UpdateUndo | src/SQL/Parser.cpp:181-220 | UPDATEs come back with all SET clauses and an optional filter |
| StatementGrammar.DeleteUndo | src/SQL/Parser.cpp:222-241 | DELETEs come back with an optional filter |
| StatementGrammar.CreateTableUndo | src/SQL/Parser.cpp:278-303 | CREATE TABLE comes back with its columns and types |
| StatementGrammar.AlterUndo | src/SQL/Parser.cpp:336-373 | ALTER USER comes back with its clauses |
| StatementGrammar.QueryUndo | src/SQL/Parser.cpp:436-444 | the parser gives back every printed query and consumes every token |
| StatementGrammar.SemicolonStops | src/SQL/Parser.cpp:109-113 | an expression statement other than SELECT that is followed by a semicolon is read without it, and the query then fails |
| Parser.Parser.TryExpect | src/SQL/Parser.cpp:450-457 | the position moves by one exactly when the token is the expected one |
| Parser.Parser.Expect | src/SQL/Parser.cpp:459-472 | the token is consumed if it is the expected one, and else the position stays |
| Parser.Parser.ParsePrim | src/SQL/Parser.cpp:41-84 | reads what the grammar says from the position, and terminates by the tokens left |
| Parser.Parser.ParseSelect | src/SQL/Parser.cpp:16-39 | reads a SELECT as the grammar says, its semicolon included |
| Parser.Parser.ParseList | src/SQL/Parser.cpp:22-29 | the loop over expressions reads a list as the grammar says |
| Parser.Parser.ParseExpression | src/SQL/Parser.cpp:375-434 | reads an expression as the grammar says, comparisons to the right |
| Parser.Parser.ParseArguments | src/SQL/Parser.cpp:410-430 | the loop over the arguments reads them as the grammar says, commas optional |
| Parser.Parser.ParseNames | src/SQL/Parser.cpp:140-146 | the loop over column names reads them as the grammar says |
| Parser.Parser.ParseColumnDefs | src/SQL/Parser.cpp:287-298 | the loop over column definitions reads them as the grammar says |
| Parser.Parser.ParseClause | src/SQL/Parser.cpp:321-334 | reads one clause of the form name = expression |
| Parser.Parser.ParseClauses | src/SQL/Parser.cpp:193-206 | the loop over clauses reads them as the grammar says |
| Parser.Parser.ParseRows | src/SQL/Parser.cpp:155-173 | the two loops over rows and values read them as the grammar says |
| Parser.Parser.ParseFilter | src/SQL/Parser.cpp:208-215 | reads an optional filter |
| Parser.Parser.ParseInsert | src/SQL/Parser.cpp:129-179 | reads an INSERT as the grammar says, with the missing table name as the one error that is not returned |
| Parser.Parser.ParseUpdate | src/SQL/Parser.cpp:181-220 | reads an UPDATE as the grammar says |
| Parser.Parser.ParseDelete | src/SQL/Parser.cpp:222-241 | reads a DELETE as the grammar says |
| Parser.Parser.ParseUse | src/SQL/Parser.cpp:117-127 | reads a USE as the grammar says |
| Parser.Parser.ParseDrop | src/SQL/Parser.cpp:243-266 | reads a DROP of a table or a database as the grammar says |
| Parser.Parser.ParseCreate | src/SQL/Parser.cpp:268-319 | reads a CREATE of a database, a table or a user as the grammar says |
| Parser.Parser.ParseAlter | src/SQL/Parser.cpp:336-373 | reads an ALTER USER as the grammar says; another target stops the server |
| Parser.Parser.ParseStmt | src/SQL/Parser.cpp:97-115 | the first token decides, and the statement is read as the grammar says |
| Parser.Parser.ParseQuery | src/SQL/Parser.cpp:436-444 | reads all statements up to the last token, or what the grammar says instead |
| Lexer.WordKindIff | src/SQL/Lexer.cpp:140-152 | a word is a keyword exactly when it spells it in any case, and else an identifier |
| Lexer.Skip | src/SQL/Lexer.hpp:158-161 | the first position from there on that is not in the class |
| Lexer.LexemePlace | src/SQL/Lexer.cpp:28-155 | every token moves the position strictly forward within the source; its text lies between the old and the new position, except for an illegal character, whose text is the one behind it |
| Lexer.LexemeInSourceIff | src/SQL/Lexer.cpp:133-138 | the text of a token lies in the source if and only if the token is not an illegal last character |
| Lexer.LexIsLexemes | src/SQL/Parser.cpp:86-95 | the tokens of a source are those of its lexemes, one after the other |
| Lexer.LexemesInOrder | src/SQL/Lexer.cpp:28-155 | all token texts of a source lie in its bounds and one behind the other without overlap, except exactly for an illegal last character and for a token that begins with the text of an illegal character before it |
| SourceText.GapSkipped | src/SQL/Lexer.cpp:28-43 | white space and comments up to their newline are skipped, in any order and number |
| SourceText.GapFound | src/SQL/Lexer.cpp:28-43 | what is skipped before a token, or at the end, is nothing but white space and comments, the last of which may end with the source |
| SourceText.FoundIff | src/SQL/Lexer.cpp:35-155 | the token found behind a gap is the one that is written there, character by character: words and numbers as long as they go, strings up to their own quote, signs, and illegal characters |
| SourceText.LexIff | src/SQL/Parser.cpp:86-95 | for every source and every list of tokens: the lexer gives these tokens if and only if the source is a writing of them |
| SourceText.LexUndo | src/SQL/Lexer.cpp:28-155 | any legal tokens come back with kind and text, written with any white space and comments between them, or with nothing where they do not run into each other |
| Lexer.Lexer.SkipWhile | src/SQL/Lexer.hpp:158-161 | the loop ends at the first position that is not in the class |
| Lexer.Lexer.Next | src/SQL/Lexer.cpp:28-155 | the next token of the definition, which `SourceText.FoundIff` and `SourceText.GapFound` describe for every source, with the position behind it |
| Lexer.Lexer.QuotedString | src/SQL/Lexer.cpp:103-124 | a string up to its own quote, or an unterminated one up to the end |
| IntText.DecimalAt | src/Core/ok.hpp:2682-2686 | the character of each digit, by its place |
| IntText.DecimalUndo | src/Core/ok.hpp:2682-2686 | the digits of a number, read by place, give the number |
| IntText.ValueFromFront | src/Core/ok.hpp:2700-2709 | the value of digits that are added up from the back is the value read from the front |
| IntText.PrintedLength | src/Core/ok.hpp:2664-2692 | twenty characters hold every 64-bit integer |
| IntText.BufferHoldsIff | src/Core/ok.hpp:2665-2665 | ten characters hold an integer if and only if it lies between -999999999 and 9999999999 |
| IntText.ToText | src/Core/ok.hpp:2664-2692 | the loops count the digits and fill them in from the back: the text of the integer, with a zero behind it |
| IntText.ParsedUndo | src/Core/ok.hpp:2694-2716 | parsing undoes printing for every integer whose negative exists |
| IntText.ParsedIff | src/Core/ok.hpp:2694-2716 | a text is read if and only if it is a digit or a minus sign with nothing but digits behind it |
| IntText.ParsedIs | src/Core/ok.hpp:2694-2716 | zeros in front change nothing, and numbers that do not fit wrap around modulo 2^64 |
| IntText.NothingWraps | src/Core/ok.hpp:2697-2707 | on the way no sum reaches 2^63 and no coefficient 2^64 |
| IntText.ParseInt64 | src/Core/ok.hpp:2694-2716 | the loop from the back, modulo 2^64, for every text, errors included |
| HexText.DecodedUndo | src/Core/util.cpp:36-79 | decoding undoes encoding for every byte string |
| HexText.EncodedUndo | src/Core/util.cpp:36-79 | encoding undoes decoding, up to the case of the letters |
| HexText.DecodedFailsIff | src/Core/util.cpp:59-69 | decoding fails if and only if some character of a full pair is not a hex digit |
| HexText.EncodedAt | src/Core/util.cpp:18-46 | the two characters of each byte |
| HexText.ToHex | src/Core/util.cpp:36-46 | the loop writes two digits for every byte, high half first |
| HexText.FromHex | src/Core/util.cpp:48-79 | the loop decodes the full pairs; a last single character is not looked at |
| Catalog.SavedUndo | src/Core/catalog.cpp:129-212 | loading a saved catalog, whatever bytes follow it, gives everything back, with the database list and each user list reversed and tables in order, if no table has flag bit 2 or 3, and stops the server otherwise |
| Catalog.TwoCyclesRestore | src/Core/catalog.cpp:36-212 | two cycles of saving and loading restore the pool exactly, if no table has flag bit 2 or 3 |
| Catalog.SavedFileLoads | src/Core/catalog.cpp:58-118 | the same as for `SavedUndo` holds for a file that held something else, and possibly longer, before |
| CatalogFile.TablesLoad | src/Core/catalog.cpp:175-206 | from any place of any file, n tables load exactly if their entries end inside the file and none has flag bit 2 or 3, and then they are what the bytes say; otherwise the server stops |
| CatalogFile.DatabasesLoad | src/Core/catalog.cpp:151-207 | the same for n databases with their users and tables |
| CatalogFile.LoadingIs | src/Core/catalog.cpp:129-212 | what loading any file does, in terms of its bytes: a stop below 24 bytes, an error for other magic bytes or another version, the pool if all entries end inside the file and no table has flag bit 2 or 3, and else a stop |
| Bytes.EightFromLittleEndian | src/Core/catalog.cpp:121-127 | a field of eight bytes as a number, the lowest first |
| Bytes.EightFromBigEndian | src/Core/DBTable.cpp:414-426 | the eight bytes of an INTEGER cell as a number, the highest first |
| Catalog.WriteUsers | src/Core/catalog.cpp:76-88 | the loop appends the entries of the users in list order |
| Catalog.WriteColumns | src/Core/catalog.cpp:104-112 | the loop appends name and type of each column |
| Catalog.WriteTables | src/Core/catalog.cpp:90-113 | the loop appends each table entry with its columns |
| Catalog.Save | src/Core/catalog.cpp:36-119 | the saved bytes stand at the start of the file, the old bytes behind them stay, and the size returned is zero |
| Catalog.ReadUsers | src/Core/catalog.cpp:159-173 | the loop reads the entries and prepends each user, so the list is reversed |
| Catalog.ReadColumns | src/Core/catalog.cpp:182-192 | the loop reads the columns in order |
| Catalog.ReadTables | src/Core/catalog.cpp:175-206 | the loop reads the tables in order, and a table that is a proxy or ephemeral stops the server, as `CatalogFile.TablesLoad` says |
| Catalog.DBPool.Load | src/Core/catalog.cpp:129-212 | the pool is what the file says, or the load fails or stops, for every file as in `CatalogFile.LoadingIs` |
| Catalog.DBPool.ReadDatabases | src/Core/DBPool.cpp:59-64 | each database read goes to the front of the list |
| Words.ChBit | src/Core/hash.cpp:55-55 | in `ch`, each bit of the first word chooses between the bits of the others |
| Words.MajBit | src/Core/hash.cpp:58-58 | in `maj`, each bit is that of at least two of the words |
| Words.BigSigma0Bit | src/Core/hash.cpp:57-57 | each bit of the sum of three rotations by 2, 13 and 22 |
| Words.BigSigma1Bit | src/Core/hash.cpp:54-54 | the same for 6, 11 and 25 |
| Words.SmallSigma0Bit | src/Core/hash.cpp:45-45 | the same for rotations by 7 and 18 and a shift by 3 |
| Words.SmallSigma1Bit | src/Core/hash.cpp:46-46 | the same for rotations by 17 and 19 and a shift by 10 |
| Words.FourBytesBit | src/Core/hash.cpp:39-42 | each bit of a word made of four bytes, highest first |
| Sha256Constants.PrimesAre | src/Core/hash.cpp:7-24 | the table of 64 numbers that the constants are compared with holds exactly the primes up to 311 |
| Sha256Constants.PrimesAscend | src/Core/hash.cpp:7-24 | in ascending order |
| Sha256Constants.RoundConstantsAre | src/Core/hash.cpp:7-24 | round constant t is the first 32 bits behind the point of the cube root of the prime with t primes before it |
| Sha256Constants.InitialWordsAre | src/Core/hash.cpp:26-29 | the first hash value, likewise, from the square roots of the first eight primes |
| Sha256Example.AbcDigest | src/Core/hash.cpp:75-115 | the 32 bytes of the digest of `abc`, proved word by word of the schedule and round by round |
| Sha256.DigestBytesAt | src/Core/hash.cpp:106-115 | bytes 4 i to 4 i + 3 of a digest are word i of the hash value, highest byte first |
| Sha256.FullBlock | src/Core/hash.cpp:79-83 | full blocks of the message are blocks of the message padded as in section 5.1.1 of FIPS 180-4 |
| Sha256.ShortTail | src/Core/hash.cpp:85-104 | with at most 55 bytes left, the last padded block is these, the mark, zeros and the bit length |
| Sha256.LongTail | src/Core/hash.cpp:85-104 | with 56 to 63 bytes left, there are two last blocks, and the length stands in the second |
| Sha256.BuildSchedule | src/Core/hash.cpp:36-48 | the loops fill the array with the message schedule of section 6.2.2 of FIPS 180-4 |
| Sha256.RunRounds | src/Core/hash.cpp:50-69 | the loop over eight variables is the 64 rounds of that section, whose functions and constants have laws of their own in `Words` and `Sha256Constants` |
| Sha256.ProcessChunk | src/Core/hash.cpp:35-73 | the hash array becomes its compression with the block |
| Sha256.FinishHash | src/Core/hash.cpp:85-104 | the one or two last blocks built in the buffer are those of the padded message |
| Sha256.Sha256Digest | src/Core/hash.cpp:75-115 | the digest is the fold of the compression over the padded message, for every message shorter than 2^61 bytes; `Sha256Example.AbcDigest` is one in numbers |
| Arena.HandOut | src/Core/ok.hpp:1980-1985 | handing out the next part of a region keeps all blocks disjoint, inside their regions and at multiples of eight |
| Arena.NewRegion | src/Core/ok.hpp:1990-1993 | a region put in front leaves all blocks as they are |
| Arena.UsedIsSizesMinusFree | src/Core/ok.hpp:372-382 | capacity minus what is available is what the regions have handed out |
| Arena.BlocksBalance | src/Core/ok.hpp:372-382 | capacity minus what is available is always the sum of the rounded block sizes, and the blocks are pairwise disjoint |
| Arena.PageUp | src/Core/ok.hpp:1937-1940 | the smallest multiple of 4096 that is large enough |
| Arena.ArenaAllocator.AllocRegion | src/Core/ok.hpp:1937-1970 | a fresh region of whole pages goes to the front; no block is lost |
| Arena.ArenaAllocator.RawAlloc | src/Core/ok.hpp:1972-2001 | one more block, of the size rounded up to eight, apart from all others: the next part of the first region with room for it, or the start of a new region in front |
| Arena.ArenaAllocator.Avail | src/Core/ok.hpp:372-376 | the loop sums up what the regions have free |
| Arena.ArenaAllocator.Capacity | src/Core/ok.hpp:378-382 | the loop sums up the sizes of the regions |
| Arena.ArenaAllocator.Reserve | src/Core/ok.hpp:384-393 | at least the given number of bytes is free afterwards, no block moved, and a new region came in front only if too little was free |
| Arena.ArenaAllocator.Reset | src/Core/ok.hpp:395-397 | no block is left, everything is free, and the capacity stays |

Functions that only compute (for example `Lowering.LowerNode`, `Grammar.Expression`, `Sha256.Schedule`) have no row of
their own; the rows of the lemmas and methods about them do.

## Left out

- BTreeIndex.BTreeState.Insert: models the intended shifts and descent; the statements as they stand are in `BTreeAsWritten`. Page ids, keys and counters are natural numbers, so the wrap-around of 64-bit counters is not modelled, and keys may be larger than 64 bits.
- BTreeIndex.BTreeState.Open: models a counter recovered from the header; the zeroed counter of the source is covered by `ReloadedCounterIff`.
- BTreeIndex.Reopen: not stated for an index that was reset and has grown since, whose pages have gaps in their numbers; the recovered counter would hand out some of them twice.
- BTreeInsertAsWritten.InsertAsWrittenIff: what a new page holds in the slots that are not filled is an arbitrary function of its id; how far the descent follows pages is bounded by the height, which an index never exceeds.
- The page file is a map from page ids to pages and the record file a sequence of bytes; opening, reading and writing always succeed, and the packing of a page into bytes is not modelled.
- B-tree removal, which the source does not implement.
- HashTable.Table.Put: `Table::remove` is not modelled; it frees a slot in the middle of a probe run without care for the entries behind it. Nor is `Set`. The hash function is any function, and counts are unbounded.
- TableStore.Table.Insert: models a loop that stores the row which triggers a flush; the loop as written is `TableStore.Table.InsertAsWritten`.
- TableStore.Table.WriteColumn: the source of values is a constant or a column of the same table, which are the values that UPDATE can be given and that streams can compute; comparisons and calls are not values of the store, since the source stops on comparing values at run time.
- TableStore.Table.WriteColumns: the same values as for one column.
- RecordLayout.CellUndo: a PNG cell is the handle of 272 bytes that the record stores, as one opaque value; chunk files are not modelled. In the source an UPDATE from a PNG column writes a new chunk instead of copying the cell. FLOAT, DOUBLE and BOOLEAN columns, which CREATE TABLE cannot make and streams cannot read, appear in the layout only.
- In `TableStore` the primary key is a given column; `StoredQuery.PrimaryKey` is the search for a column called `id`. In the source a primary key that is not an INTEGER leaves every key at zero, and the model does so too.
- StoredQuery.AcceptedQueryStores: one way, under conditions on the statements that each have an exact theorem of their own (`PositionsMeanNamesIff`, `InsertIsCompleteIff`, `OneByOneMeansAtOnceIff`). NULL, strings longer than 63 bytes and calls are no values to store here; the source stops on the first two. An INSERT that names a column, which polls that column's first row, and an UPDATE from a PNG column are not covered.
- The rows that a SELECT shows are not modelled beyond the values of its columns: their number is that of the largest table read, and the executor does not compare values at run time.
- Execution.BinaryMeans: the executor ignores which of `=`, `<` and `>` is asked for, and so does the meaning of a comparison here; the result of comparing two values at run time is not implemented in the source and is left uninterpreted.
- StatementMeaning.LoweringPreservesMeaning: for SELECT, INSERT, UPDATE and DELETE on base tables, with `*` only as an item of a select list. `*` as an operand gives one id or none depending on the number of columns; the model of the compiler covers it, with an operand of more or fewer than one column counted as a trap (the source looks up a graph node by an IR id there, and stops or reports an error by what it happens to find). A nested SELECT is a trap too: the source looks up a schema through an operand that EmitQuery never sets.
- The graph is compiled for one statement at a time, as in the source, so nothing is shared between statements. The names of emitted columns follow the source: those of `*` are empty.
- GraphCompiler.IrContext.CompileStmt: the statements SELECT, INSERT, UPDATE and DELETE, on base tables.
- GraphCompiler.IrContext.CompileQuery: queries of these four kinds of statements.
- USE, CREATE, DROP and ALTER are parsed but not lowered or executed; so are expression statements other than SELECT. WHERE filters are parsed; the compiler stops on them for UPDATE and DELETE, and the model does so too.
- TypeCheck.TypingContext.CheckInstruction: only the instructions that the modelled statements compile to, which excludes the ones for users, databases and tables, all of which the checker accepts without a look.
- QueryRun.AcceptedRunIff: the instructions of a query, which build the query graph; running the nodes of the graph is modelled for INSERT, UPDATE and DELETE in `TableStore`, and not for CALL and for reading the columns of a SELECT.
- Text and positions of error messages; the tokens kept beside the instructions; permissions.
- IrEmitter.Emitter.TableSchemaById: not stated for EmitQuery, whose third operand is whatever was in memory.
- QueryText.QueryTextUndo: integers are printed without a sign, since the grammar has none; left sides of comparisons and callees are primaries, as everything the parser can return is.
- IntText.ToText: the buffer is required to be long enough and the smallest integer is excluded, whose negative the source cannot form. `parse_int64` reads a lone `-` as zero, and so does the model.
- Lexer.Lexer.Next: characters are those of ASCII; the locale of `toupper` is not modelled.
- Catalog.SavedUndo: names of at most 63 bytes are part of the type; a length byte above 63 is read as 63, where the source would read past the string. Opening the files of each table while loading is not modelled; two databases with a table of the same name share these files in the source.
- Sha256.Sha256Digest: messages whose bit length fits 64 bits.
- Arena.ArenaAllocator.RawAlloc: regions are never adjacent in memory here, and the pool that holds their descriptors is not modelled; nor is `raw_dealloc`, which takes back the last block. Sizes are unbounded.
- Server, command line, plugins, user interface, logging, string formatting, the multi-list of pending columns and the linked list of query nodes, which would only add easy members.
