# A verified model of minisql

minisql keeps each table in memory with a B+ tree over its primary key, appends every INSERT to a CSV
file, and serves SELECT and INSERT over HTTP from a pool of worker threads that share the tables
through a readers-writer guard. This Dafny project models that engine and proves what holds it
together. `dafny verify dfyconfig.toml` checks all of it.

| file | what it models |
|---|---|
| `BPlusTreeModel.dfy`, `BPlusTree.dfy`, `BPlusTreeMap.dfy` | the order-100 B+ tree: as a value, and as nodes with arrays that are shifted and split in place |
| `Text.dfy`, `Csv.dfy`, `CsvSpellings.dfy` | C strings, the CSV writer, parser and file reader, and the files as they may be spelled |
| `TableModel.dfy`, `TableState.dfy` | a table: rows, index, next id and file; INSERT, SELECT, load and reload |
| `NumberForms.dfy`, `TableMeaning.dfy` | what the numbers, SELECT, INSERT and loading mean, without the index and the order of work |
| `DbGuard.dfy` | the readers-writer guard, one step per atomic operation |
| `Statements.dfy`, `Database.dfy` | SELECT and INSERT one shared access at a time, on all loaded tables |
| `GuardedSystem.dfy`, `SystemSteps.dfy`, `Serializability.dfy` | texts of requests running concurrently through classifier, guard and parser |
| `Answers.dfy`, `Winners.dfy`, `SystemProgress.dfy` | what the answers say about the rows, the INSERTs of one id, and that every request can be answered |
| `JobQueue.dfy`, `QueueProtocol.dfy` | the ring buffer, and threads sleeping and waking on its two condition variables |
| `ThreadPool.dfy`, `PoolProgress.dfy` | workers, submitters, stop and destroy; why jobs are refused and that they can run |
| `SqlGrammar.dfy`, `SqlParser.dfy`, `SqlClassifier.dfy` | the SQL grammar, its parser, and the scanner that picks the lock |
| `RequestReader.dfy` | the incremental HTTP request reader |
| `Service.dfy` | durability of the tables over concurrent runs |

The main theorems:

- Every `bptree_insert` updates the finite map the tree stands for, or fails on a duplicate and changes
  nothing; the real nodes always represent a balanced tree with the occupancy bounds, no node is shared, the
  leaf chain is the leaves from left to right, and no search visits more than six nodes.
- The guard excludes writers from everyone else, lets any number of readers in together, lets no new reader
  in ahead of a waiting writer, and never deadlocks a writer.
- Concurrent requests are linearizable, over all loaded tables: each answer is the one of a serial execution in the
  order of admission to the write lock, whose places 0, 1, 2, ... each belong to one such request, and that order
  respects real time. In terms of rows: there is a history of the tables in which every SELECT is answered with exactly
  the rows it asks for, and an INSERT with success exactly if it added the row of its values. Of the INSERTs of one
  absent id into a table exactly one is answered with success. From every reachable state every request can be answered.
- SELECT returns the rows at exactly the positions that meet its condition, whether it uses the index or not. INSERT
  succeeds exactly if it gives the right number of valid values and no id that is taken, and adds exactly those values.
- A table and its file stay together over any run of INSERTs, concurrent ones included, **if and only if** every added
  row is storable: no newline in a field, and an encoded row shorter than the 8192-byte line buffer. The file must end
  its last line at the start. A short row appended to a last line that is not ended survives **if and only if** that line
  is nothing but carriage returns. Two lemmas show a row lost: `2` after the file `1`, and a name with a newline.
- No wake-up of the queue is lost, each job is executed and cleaned up exactly as often as it should be, and stop can
  always finish. A job is refused only if it cannot be executed or the queue is closed, and while the queue is open
  every other submitted job can be executed.
- Any file of lines with quoted and bare fields is read as its fields, trimmed.
- A text parses to a query **if and only if** it is a spelling of that query, and the lock is then the right one. A text
  gets a lock **if and only if** its first word after blanks, semicolons and comments is SELECT or INSERT.
- The request reader's outcome depends only on the input, not on how it is cut into pieces, and is known for every
  request of header lines, whole or cut short.

Where the code and its documentation could be read differently, the model follows the code: `trim_field` strips white
space inside the quotes too, so values come back from the file trimmed; `bptree_collect_keys` on an empty tree succeeds
for every capacity; a SELECT whose WHERE names `id` always uses the primary-key index.

## Model

| member | source | states |
|---|---|---|
| BPlusTreeModel.InsertCorrect | src/index/bptree.c:76-221 | Inserting below any node of a valid tree fails exactly on a duplicate; otherwise the one or two resulting trees hold the old entries with the new one in order, within the same key bounds, at the same height and with legal occupancy, and the promoted key separates them |
| BPlusTreeModel.InsertIndexCorrect | src/index/bptree.c:237-278 | Inserting at the root fails exactly when the key is present, and otherwise gives a valid tree whose map is the old one updated at the key |
| BPlusTreeModel.InsertAllIsPutAll | src/index/bptree.c:237-278 | After any sequence of insertions the map is the one of adding the pairs in turn, the first pair of each key winning |
| BPlusTreeModel.SearchIsLookup | src/index/bptree.c:280-307 | Descending a valid tree finds exactly what the finite map holds for the key |
| BPlusTreeModel.ManyEntries | src/index/bptree.c:120-131 | A non-root tree of height h holds at least 50^h entries |
| BPlusTreeModel.RootManyEntries | src/index/bptree.c:202-217 | A tree of height h >= 2 holds at least 2 * 50^(h-1) entries |
| BPlusTreeModel.SearchVisitsAtMostSix | src/index/bptree.c:280-307 | With 32-bit keys a search visits at most six nodes |
| BPlusTree.LeafSearch | src/index/bptree.c:55-74 | Binary search returns the first slot whose key is not smaller, and whether the key is there |
| BPlusTree.FindChild | src/index/bptree.c:45-53 | The index of the child whose key interval holds the key |
| BPlusTree.LeafInsertInPlace | src/index/bptree.c:92-102 | Shifting the arrays of a leaf with room inserts the pair at its slot and leaves the chain |
| BPlusTree.LeafSplit | src/index/bptree.c:104-137 | A full leaf becomes two that hold the halves of the 100 pairs, the new one linked after the old and before its successor, with the right half's first key promoted |
| BPlusTree.InnerInsertInPlace | src/index/bptree.c:167-179 | Shifting the arrays of an internal node with room inserts the key and the child right of it |
| BPlusTree.InnerSplit | src/index/bptree.c:181-221 | A full internal node becomes two around the promoted middle key, which is in neither |
| BPlusTree.InsertIntoLeaf | src/index/bptree.c:76-138 | A duplicate changes no memory; otherwise the leaf and at most one fresh node represent the inserted leaf, chained to the same successor |
| BPlusTree.InsertRecursive | src/index/bptree.c:140-221 | The in-place recursive insertion refines insertion into the tree value, on the node's own memory and fresh nodes only, and keeps nodes unshared and the leaf chain whole |
| BPlusTree.InsertRoot | src/index/bptree.c:237-278 | First node, growth of a new root and insertion below refine insertion into the index value; a failed insertion leaves root and memory alone |
| BPlusTree.SearchFrom | src/index/bptree.c:280-307 | The loop over the real nodes returns what the search of the tree value returns, -1 when absent |
| BPlusTree.RepIsChain | src/index/bptree.c:133-136 | Following next from the leftmost leaf visits exactly the tree's leaves from left to right and their pairs are the tree's entries |
| BPlusTree.CollectFrom | src/index/bptree.c:324-338 | The walk along the chain writes the keys in order, and stops early exactly when the capacity is used up |
| BPlusTreeMap.BPTree.Insert | src/index/bptree.c:237-278 | Returns whether the key was new; the map becomes m[key := row], or nothing at all changes; every invariant of the tree is kept |
| BPlusTreeMap.BPTree.Search | src/index/bptree.c:280-307 | Equals lookup in the map |
| BPlusTreeMap.BPTree.CollectKeys | src/index/bptree.c:309-341 | Succeeds exactly when the keys fit, and then writes all keys, strictly increasing |
| Text.TrimCut | src/storage/storage.c:8-22 | Trimming removes white space only and leaves none at either end |
| Csv.TrimField | src/storage/storage.c:8-22 | The two index loops compute the trimmed text |
| Csv.ParseCsvLine | src/storage/storage.c:70-138 | The character loop with its in-quotes flag and buffer computes the parse of the line, within the buffer |
| Csv.TableFile.WriteField | src/storage/storage.c:140-166 | Writes the field in quotes with inner quotes doubled, at the end of the file |
| Csv.TableFile.AppendRow | src/storage/storage.c:168-202 | Appends the quoted fields joined by commas and a newline |
| Csv.CsvRoundTrip | src/storage/storage.c:70-166 | Every non-empty list of fields, written and parsed, comes back with each field trimmed |
| Csv.ReadCsvRows | src/storage/storage.c:204-246 | The fgets loop with its 8192-byte buffer gives the rows of the file, skipping blank lines, or fails |
| Csv.AppendedRowReadBack | src/storage/storage.c:168-246 | A written row is read back as one row with trimmed fields if it is storable; if not, reading fails or gives at least two rows |
| Csv.ReadRowsConcat | src/storage/storage.c:204-246 | Reading a file that ends its last line and then more text is reading the two and joining the rows |
| Csv.ReadAfterAppend | src/storage/storage.c:168-246 | Appending a storable row to a readable file adds exactly that row; an unstorable one leaves the file unreadable or with too many rows |
| Csv.SurplusStays | src/storage/storage.c:204-246 | Surplus rows are never made up for by later appends |
| Csv.AppendedToUnendedLine | src/storage/storage.c:168-246 | A short row appended to a last line that is not ended is read back as one more row if that line is only carriage returns, and otherwise adds no row |
| CsvSpellings.FieldsParse | src/storage/storage.c:70-138 | Every line of fields made of quoted and bare stretches, joined by commas, parses to the values of the fields, trimmed |
| CsvSpellings.WrongCountFails | src/storage/storage.c:129-137 | Such a line is refused for every other number of columns |
| CsvSpellings.EncodedIsShown | src/storage/storage.c:140-202 | What is written of a row is each field in quotes, inner quotes twice, with commas between |
| CsvSpellings.FileRead | src/storage/storage.c:204-246 | Every file of such lines and blank ones, with any number of carriage returns before each newline and the last line ended or not, is read as its rows in order |
| NumberForms.SignedNumber | src/query/executor.c:35-56 | A non-empty digit string behind at most one sign is an integer text, and a minus negates its value |
| NumberForms.IntegerIsSigned | src/query/executor.c:35-56 | Every integer text has that form |
| NumberForms.LeadingZero | src/query/executor.c:278 | A leading zero does not change the number |
| NumberForms.SignedDecimal | src/query/executor.c:278 | The decimal text of n behind a minus is -n, behind a plus n |
| NumberForms.FloatForm | src/query/executor.c:58-84 | Digits, at most one dot and digits, one digit at least, behind at most one sign are a float text |
| NumberForms.FloatIsOfForm | src/query/executor.c:58-84 | Every float text has that form |
| TableModel.DecimalRoundTrip | src/query/executor.c:255-256 | The text of a generated id is an integer string with that value |
| TableModel.AddedConsistent | src/query/executor.c:284-302 | Adding an accepted row keeps ids distinct, fields valid, the index equal to the positions of the ids, and next id above all of them |
| TableModel.InsertCoherent | src/query/executor.c:224-313 | Every INSERT, accepted or rejected, keeps the table coherent |
| TableModel.Run | src/query/executor.c:224-313 | Any sequence of INSERTs leads from a coherent table to a coherent table |
| TableModel.DurableIsReadBack | src/index/db_context.c:102-154 | For a consistent table, reloading gives memory back exactly when the rows read are the rows in memory up to trimming |
| TableModel.AddedDurable | src/query/executor.c:284-302 | One INSERT on a durable table keeps it durable if its row is storable, and otherwise file and memory part |
| TableModel.RunDurable | src/query/executor.c:284-302 | Over any run of INSERTs on a durable table whose file ends its last line, the result is durable if and only if every added row was storable |
| TableModel.LoadDurable | src/index/db_context.c:218-242 | A freshly loaded table is durable |
| TableModel.UnendedFileDurable | src/query/executor.c:284-302 | On a file whose last line is not ended, an INSERT of a short newline-free row stays durable if and only if that line is only carriage returns |
| TableModel.UnendedFileExample | src/query/executor.c:284-302 | The file `1` and an INSERT of `2`: both tables are coherent, the first is durable, the second is not |
| TableModel.NewlineExample | src/storage/storage.c:204-246 | An empty table and an INSERT of a name with a newline: both tables are coherent, the first is durable, the second is not |
| TableModel.SelectedRowsValid | src/server/request/sql_service.c:330-370 | Every selected row passes the column type checks of its table |
| TableMeaning.IndexedIsScan | src/query/executor.c:136-182 | For every condition a SELECT fails exactly if its column is unknown, or is `id` with a text that is no integer, and otherwise gives what a scan that tests every row gives |
| TableMeaning.SelectMeaning | src/query/executor.c:136-182 | Without WHERE all rows; with it the rows at increasing positions, exactly those whose field is the value, or whose id is the number |
| TableMeaning.InsertMeaning | src/query/executor.c:224-313 | An INSERT is accepted exactly for the right number of values, each valid for its column, and no id that a row has; then the row of its values, behind the printed next id if the id is left out, is added to rows and file, and otherwise nothing changes |
| TableMeaning.GeneratedIdIsFresh | src/query/executor.c:237-282 | With a generated id an INSERT is rejected only for its values, its row is the next id and the values, and no row has that id |
| TableMeaning.MaxIdIsTaken | src/index/db_context.c:130-148 | The largest id is 0 or the id of some row |
| TableMeaning.FileLoads | src/index/db_context.c:102-154 | A file of lines with quoted and bare fields loads exactly if its rows are valid and have distinct ids, and then the table is consistent and has these rows |
| TableState.IsIntegerString | src/query/executor.c:35-56 | Accepts exactly an optional sign and at least one digit |
| TableState.IsFloatString | src/query/executor.c:58-84 | Accepts exactly an optional sign and digits with at most one dot and at least one digit |
| TableState.ValidateRow | src/query/executor.c:272-276 | The check of all fields succeeds exactly for valid rows |
| TableState.FindColumnIndex | src/query/executor.c:100-110 | The first column of that name, -1 if there is none |
| TableState.TableState.AddRow | src/query/executor.c:284-302 | File, rows, index object and next id together go through the step that adding a row is on values |
| TableState.TableState.ExecuteInsert | src/query/executor.c:224-313 | Succeeds exactly for the right number of valid values and no taken id; then rows and file have the row of the values at their end, and index and next id follow; a rejected statement changes nothing |
| TableState.ValidateLoadedRows | src/index/db_context.c:69-88 | Succeeds exactly when every loaded row is valid |
| TableState.BuildIndex | src/index/db_context.c:130-148 | The loop builds the index of the rows and their maximum, and fails exactly on a repeated id |
| TableState.LoadTable | src/index/db_context.c:102-154 | Loads exactly the value the file stands for, or fails exactly when the file is unreadable, invalid or has a repeated id |
| TableState.ReloadTable | src/index/db_context.c:218-242 | Replaces the table by what the file gives, and keeps the old one if that fails |
| TableState.ExecuteSelect | src/query/executor.c:136-182 | The command line's SELECT prints, in order, exactly the rows asked for, all of them without WHERE, and fails exactly for an unknown column or an id that is no integer |
| TableState.BuildSelectPayload | src/server/request/sql_service.c:372-451 | The HTTP SELECT chooses exactly the rows asked for, the same as the command line's, or fails with it; the type check never fires |
| TableState.AppendRowObject | src/server/request/sql_service.c:330-370 | The type check of a row object succeeds exactly for valid rows |
| DbGuard.NextInv | src/server/concurrency/db_guard.c:62-170 | Every atomic step keeps the counters equal to the number of threads at the matching points, at most one owner, and no reader past its test beside a writer past its own |
| DbGuard.RunInv | src/server/concurrency/db_guard.c:62-170 | The same in every state of every run of any number of threads |
| DbGuard.Exclusion | src/server/concurrency/db_guard.c:62-126 | While a thread holds the write lock no other thread holds either lock |
| DbGuard.ReadersTogether | src/server/concurrency/db_guard.c:62-82 | For every set of threads there is a run after which exactly they hold the read lock together |
| DbGuard.WaitingStep | src/server/concurrency/db_guard.c:68-81 | While a writer waits, no step adds a holder of the read lock or a thread about to enter, and every step of an interfering reader decreases the interference |
| DbGuard.WriterPreference | src/server/concurrency/db_guard.c:68-125 | Over the whole time a writer waits, read holders only leave, each reader adds to reader_count at most once, and interference does not grow |
| DbGuard.DrainedAdmits | src/server/concurrency/db_guard.c:119-122 | With no interference left, the owner's test of reader_count succeeds |
| DbGuard.WriterCanBeAdmitted | src/server/concurrency/db_guard.c:99-126 | From every reachable state with a waiting writer there is a continuation that admits it |
| Statements.SelectStepOnCourse | src/query/executor.c:136-182 | A SELECT in small steps over one table ends with the selected rows |
| Statements.InsertStepOnCourse | src/query/executor.c:224-313 | An INSERT in small steps leads from a table to the inserted table and its result |
| Database.StepStaysOnCourse | src/server/request/sql_service.c:590-640 | Every access of a parsed statement, of an unknown table or of a text that does not parse stays on the way to its result |
| Database.CourseEnds | src/server/request/sql_service.c:590-640 | A finished statement has the answer of the statement in one piece and has left all tables as it leaves them |
| Database.EffectConsistent | src/query/executor.c:224-313 | A statement keeps every table consistent and every schema |
| SystemSteps.AdvanceInv | src/server/request/request_handler.c:182-195 | Every step of every thread keeps answers, shared tables and running statements in line with the serial execution, where the classifier picks the lock and the parser the statement |
| Serializability.Serializable | src/server/request/request_handler.c:182-195 | In every state of every run on any tables each answer is the serial one at its place, places respect real time, the answered requests with the write lock have the places 0, 1, 2, ... in order and the one place left is that of the request that is writing, and the tables are the serial ones whenever nobody writes |
| Answers.RunHasHistory | src/server/request/request_handler.c:182-195 | In every state of every run there is a history of table contents, from the base to the present whenever nobody writes, whose steps are one acceptable INSERT adding its row or no change, and every answer fits it: a SELECT has the rows it asks for, an INSERT is told whether it was acceptable, the rest is refused |
| Answers.InsertAnswer | src/server/request/sql_service.c:590-640 | An INSERT is answered with success exactly if the table has one row more after its place, that of its values, and with failure exactly if the table is unchanged |
| Winners.OneWinner | src/query/executor.c:278-300 | Once an INSERT naming an id that was absent at the start has been answered, exactly one answer of success has added a row with that id, and the answer to an INSERT naming it is success exactly if it is that one |
| Winners.OneSuccess | src/query/executor.c:278-300 | Of all answers to INSERTs naming one id, at most one is a success, whatever the table held |
| Winners.TakenIdFails | src/query/executor.c:278-281 | An INSERT naming an id that was there at the start is answered with failure |
| SystemProgress.StatementComesNearer | src/query/executor.c:136-313 | Every access of a running statement brings it nearer to its end |
| SystemProgress.RequestCanBeAnswered | src/server/request/request_handler.c:182-195 | From every state of every run and for every thread inside a request there is a continuation without new requests that ends with the answer to it |
| SystemProgress.TextCanBeAnswered | src/server/request/request_handler.c:182-195 | In every state of every run an idle thread can take up any text the classifier knows, and a continuation ends with the answer to the statement the text parses to |
| JobQueue.JobQueue.Create | src/server/pool/job_queue.c:32-77 | An empty open queue, refused exactly for a capacity that is not positive |
| JobQueue.JobQueue.PushSection | src/server/pool/job_queue.c:105-121 | Sleeps exactly when open and full, refuses exactly when closed, else the job becomes last in the sequence; tail stays (head + count) mod capacity |
| JobQueue.JobQueue.PopSection | src/server/pool/job_queue.c:144-160 | Sleeps exactly when open and empty, reports the end exactly when closed and empty, else removes and returns the first job |
| JobQueue.JobQueue.Close | src/server/pool/job_queue.c:182-186 | Closes the queue and keeps its jobs |
| JobQueue.JobQueue.Destroy | src/server/pool/job_queue.c:203-225 | Cleans up exactly the queued jobs with a cleanup callback, in order |
| JobQueue.CleanupPositions | src/server/pool/job_queue.c:203-225 | The jobs cleaned up are those at exactly the positions of jobs with a cleanup callback, in order |
| QueueProtocol.NextInv | src/server/pool/job_queue.c:95-187 | Every mutex section, spurious wake-up or client step keeps the FIFO record, the two wake-up bounds and the meaning of returned values |
| QueueProtocol.RunInv | src/server/pool/job_queue.c:95-187 | No lost wake-up in any run: if a consumer sleeps unsignalled the queue is open and has no more jobs than signalled consumers, and likewise for producers and free slots; threads woken for no reason do not count |
| QueueProtocol.JobCanBeTaken | src/server/pool/job_queue.c:144-160 | With a job queued and a thread inside pop, some thread takes the first job in its next section |
| QueueProtocol.SlotCanBeFilled | src/server/pool/job_queue.c:105-121 | With a free slot in an open queue and a thread inside push, some thread stores its job in its next section |
| QueueProtocol.ClosedMeansAwake | src/server/pool/job_queue.c:182-186 | After a close nobody sleeps |
| QueueProtocol.RunFifo | src/server/pool/job_queue.c:95-161 | Over any run, what was taken is what was accepted first, and nothing is accepted after the close |
| QueueProtocol.ZeroMeansDrained | include/job_queue.h:50-56 | When pop has returned 0, the queue is closed and every accepted job has been taken, for good |
| ThreadPool.NextInv | src/server/pool/thread_pool.c:12-230 | Every step of workers, submitters, stop and destroy keeps each job in exactly one place with exactly the callbacks due there |
| ThreadPool.EnterInv | src/server/pool/thread_pool.c:142-173 | Every change of a job's owner keeps the books of places, callbacks and return values |
| ThreadPool.AtMostOnce | src/server/pool/thread_pool.c:12-33 | At any moment the callbacks of a job are a beginning of execute-cleanup or of cleanup alone, as submit's value says once it has returned |
| ThreadPool.ExactlyOnce | src/server/pool/thread_pool.c:142-205 | Once stop has joined the workers and nobody is inside submit, every job was executed once and then cleaned once if submit returned 1, and only cleaned once if it returned 0 |
| ThreadPool.StoppedIsDrained | src/server/pool/thread_pool.c:189-230 | After stop the queue is closed and empty, so destroy has no job to clean up |
| ThreadPool.StopCanFinish | src/server/pool/thread_pool.c:189-205 | From every reachable state in which a thread is inside stop, or in stop on behalf of destroy, there is a continuation after which every worker has exited, the queue is closed and drained and started is false |
| PoolProgress.RefusedForAReason | src/server/pool/thread_pool.c:142-173 | At any moment of any run, submit has returned 0 only for a job without an execute callback or with the queue closed by then, and 1 only for a job with one; a pool that is not started has its queue closed |
| PoolProgress.SubmittedCanRun | src/server/pool/thread_pool.c:12-173 | From every reachable state with the pool started, the queue open and a thread inside submit with an executable job there is a continuation, by signals alone and without new calls, after which the job was executed once and then cleaned once if it has a cleanup, and submit has returned 1 |
| SqlGrammar.PrintParses | src/query/parser.c:15-352 | Every spelling of a SELECT or INSERT, with any keyword case, white space, quoting and final semicolon, parses to that query |
| SqlGrammar.ParsedIsSpelled | src/query/parser.c:15-352 | Every text that parses is such a spelling of the query it parses to |
| SqlParser.MatchKeywordAt | src/query/parser.c:15-32 | Skips white space and a keyword in any case that no identifier character follows, or leaves the cursor |
| SqlParser.ParseIdentifierAt | src/query/parser.c:34-60 | Reads the longest run of identifier characters, fails on none |
| SqlParser.ParseValueAt | src/query/parser.c:62-105 | Reads a quoted or bare value, fails on an empty or unterminated one |
| SqlParser.ParseConditionAt | src/query/parser.c:135-167 | Reads the optional WHERE column = value |
| SqlParser.ParseSelectText | src/query/parser.c:169-211 | Parses SELECT as the grammar does |
| SqlParser.ParseValueList | src/query/parser.c:246-293 | The loop reads the values up to the closing parenthesis |
| SqlParser.ParseInsertText | src/query/parser.c:213-314 | Parses INSERT as the grammar does |
| SqlParser.TokenizeSql | src/query/tokenizer.c:4-21 | Refuses exactly the blank texts |
| SqlParser.ParseSqlText | src/query/parser.c:316-352 | Parses exactly what the grammar parses |
| SqlClassifier.SkipSqlPrefix | src/server/request/sql_service.c:81-104 | Skips white space, line comments and semicolons |
| SqlClassifier.MatchesKeyword | src/server/request/sql_service.c:110-120 | Recognizes the keyword in any case that no identifier character follows |
| SqlClassifier.ClassifyOperation | src/server/request/sql_service.c:543-571 | READ, WRITE or an error, by the first word |
| SqlClassifier.WordClassified | src/server/request/sql_service.c:543-571 | After any white space, semicolons and comment lines, the word SELECT in any case means READ and the word INSERT means WRITE |
| SqlClassifier.ClassifiedHasWord | src/server/request/sql_service.c:543-571 | Every text that is classified has that form |
| SqlClassifier.LockIsRight | src/server/request/sql_service.c:543-571 | For every text the parser accepts the classifier says READ exactly for SELECT and WRITE exactly for INSERT |
| SqlClassifier.InsertNeedsWriteLock | src/server/request/request_handler.c:182-195 | What executes under the read lock is a SELECT, what executes under the write lock an INSERT, and everything that parses gets its lock |
| RequestReader.FindRequestTerminator | src/server/api/socket_server.c:96-121 | Finds the end of the first blank line in the buffer |
| RequestReader.HeaderEndOfPrefix | src/server/api/socket_server.c:96-121 | A prefix of the input has its blank line exactly when it reaches the end of the input's, and never another one |
| RequestReader.ParseContentLength | src/server/api/socket_server.c:123-195 | The first Content-Length line in any case with blanks, digits and blanks gives the length as size_t holds it, no such line 0, any other value an error |
| RequestReader.LengthLineForm | src/server/api/socket_server.c:123-195 | A line names the length exactly if it starts with content-length in any case and a colon |
| RequestReader.LengthValueForm | src/server/api/socket_server.c:123-195 | Every accepted value is blanks, digits and blanks, with the value of the digits |
| RequestReader.ReadRequest | src/server/api/socket_server.c:197-308 | For every way of cutting the input into pieces and interruptions the outcome is that of the whole input, with sums as size_t has them, and on success the buffer holds the beginning of the input, at most 65536 characters, and header and content in full unless their sum wraps |
| RequestReader.SameBoundary | src/server/request/http_protocol.c:15-28 | Two searches and a comparison find the same boundary as the reader's scan |
| RequestReader.BodyStartOfRequest | src/server/request/http_protocol.c:15-28 | The body is found at the reader's boundary exactly when no NUL came before it |
| RequestReader.LinesOutcome | src/server/api/socket_server.c:197-308 | Header lines, a blank line and anything after it: too large if header and declared length do not fit, an error for a bad length or a body cut short, and otherwise complete with the length of the first Content-Length line, 0 without one |
| RequestReader.CutHeaderOutcome | src/server/api/socket_server.c:197-308 | A header cut off before the end of its blank line is an error, nothing at all is empty, and one that fills the buffer is too large |
| RequestReader.RequestIsRead | src/server/api/socket_server.c:197-308 | Every request of lines with the Content-Length of its body anywhere among them, in any case and with any blanks, is read completely if it fits and refused as too large if not, with exactly the body after the boundary |
| Service.ParsedCStrings | src/query/parser.c:213-314 | The values of a parsed INSERT are C strings and at least one |
| Service.SerialIsRun | src/query/executor.c:224-313 | In the serial execution of statements on all tables, a table goes through exactly the INSERTs into it |
| Service.RunsAreDurable | src/server/request/sql_service.c:590-640 | After any concurrent run of any texts, whenever nobody writes, reloading the file of a table gives the table in memory if and only if every row added to it was storable |

## Left out

- Allocation failure: every allocation succeeds. An internal split that cannot allocate after its child has split does not restore the tree.
- Weak memory: the guard's atomic operations interleave in a sequentially consistent order.
- Lazy first load of a table under the read lock: the concurrent runs start with every table loaded, and a statement that names another one fails.
- Index operations inside a concurrent statement are single steps of `Statements`; the guard makes their inner steps invisible.
- Files and sockets are character sequences: no write fails half-way, no path is built, a receive timeout is the end of the input and other receive errors do not occur.
- Numbers outside the C int range in `atoi` and next_id: ids and searched ids are C ints and ids leave room for the next one.
- TableModel.UnendedFileDurable: does not say what becomes of a row that does not fit the line buffer together with the unended line, because that depends on where in the row the buffer ends.
- TableState.AppendRowObject: states which rows pass the type check, not the JSON text that is written; int and float fields such as `+5` are written as they are.
- TableState.BuildSelectPayload: states which rows are written, not the JSON text around them.
- A pool whose start fails, and jobs submitted to it: `ThreadPool` begins after a successful start.
- Release of memory: destroyed queues, nodes and tables simply go unused.
- Schema files, table paths, the script splitter, JSON quoting, HTTP status codes and responses, the command line, configuration, the server's life cycle and the benchmarks.
