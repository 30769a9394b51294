# Verification of the library service

A Dafny model of the three stateful parts of the library service and the pipeline they form: an
upload message is turned into searches that go through a cache and a single-flight reducer, the pages
are collected and bucketed, and the buckets are inserted in one transaction into a table with soft
delete. `dafny verify dfyconfig.toml` checks everything.

- `Reducer.dfy`, `AsyncReducer.dfy`: the single-flight reducer. One event of the state machine is the
  code between two awaits: a call, a runner's first and last step, a waiter's first step, one callback
  of the event loop's ready queue, a waiter waking, a caller being cancelled. The class holds the same
  fields and its methods are those steps. Every step is total: what Python would report as an error (a
  future resolved twice, a missing key on `del`) is counted in `faults`, which is proved to stay 0.
- `ReducerInvariant.dfy`, `ReducerRuns.dfy`: the inductive invariant, and the properties of whole runs.
- `PyRepr.dfy`: the default keys, as Python prints them, and a parser that inverts the printer.
- `CachedStack.dfy`, `CachedClient.dfy`, `StackProgress.dfy`, `CacheOrder.dfy`: the cache in front of the
  reducer in front of the upstream client, with any number of concurrent callers, lagging writes,
  expiries, writes by other processes, cache failures and cancellations; and the order of its writes.
- `Search.dfy`, `Slices.dfy`, `Upload.dfy`, `Pipeline.dfy`: the filtered page loop, bucketing, upload and
  redelivery over runs of the use case, and the page loop and the upload run through the cached stack.
- `Books.dfy`, `BookLaws.dfy`, `Paging.dfy`, `Users.dfy`, `UserLaws.dfy`: the two tables with their
  constraints as functions, and their laws over whole serial histories.
- `UnitOfWork.dfy`, `ScopeLaws.dfy`, `Storage.dfy`, `Commands.dfy`: the unit of work with a failure
  possible at every step, the table laws over any run of its scopes, the storage and service objects
  over it, and the upload, registration and login use cases.

## Assumptions

- A coroutine given to the reducer ends with a value, an `Exception` or `CancelledError`; it does not
  re-enter the reducer with its own ident; a runner task is not cancelled before its first step, where
  the `try` would not have been entered.
- asyncio's ready queue is first in, first out, and `call_soon`, `set_result` and `add_done_callback`
  behave as documented. Everything else the loop may run in between is any interleaving of events.
- The cache returns what was last written under a key until the entry expires. Other processes may write
  results of a request under its key at any time, before the start included. Search results are never
  `None`, so a miss and a cached value are told apart.
- A query has a finite list of documents, and a search returns the slice its limit and offset name, or
  fails; which searches fail may differ from one delivery of a message to the next.
- Transactions run one after the other. ON CONFLICT DO NOTHING inserts row by row. Ids come from a fresh
  supply. A failing commit may or may not have reached the database.
- A statement the database refuses aborts its transaction: until the transaction ends it accepts no
  other statement, and committing it writes nothing.
- A bulk insert without rows is refused by the NOT NULL columns; the proofs show it is never issued.
- A hash fits its column and verifies its own password (`Users.WellBehaved`).

## What the proofs show about the code

- The page loop does not collect everything: it stops at the first page with fewer than 100 authored
  documents, while the offset counts unfiltered ones. `Search.LoopCompleteness` gives the exact
  condition, `Search.AuthorlessDocLosesRest` a list of 101 documents that loses one.
- After a commit that fails, or a close that fails after a commit, or a rollback that fails, the unit of
  work keeps its transaction and refuses every later scope; after a begin that fails it keeps only its
  session and the next scope can begin (`UnitOfWork.WhenScopesRepeat`). One lost commit of an empty body
  is enough (`UnitOfWork.LostCommitSticks`).
- An update of a user with an explicit null, or that clashes with another row, live or deleted, raises
  the driver's integrity error, unlike a clash on creation. `UserLaws.UserUpdateExactly` gives the exact
  condition, `UserLaws.RenameOntoDeletedName` and `UserLaws.NullNameRaises` a rename and a null at which
  it happens.
- An update of a book with an explicit null raises the unknown error (`BookLaws.UpdateSucceeds`,
  `BookLaws.LongTitleAndNull`).
- Cache entries do not follow the order of the executions: a caller whose write is pending can put an
  older result over a newer one. `CacheOrder.OlderValueWins` gives the run. A run never goes back exactly
  when it writes the executions in their order between two clearings of a key
  (`CacheOrder.NeverBackExactly`); a write of the latest execution never does
  (`CacheOrder.LatestWriteIsSafe`), and any pending one can (`CacheOrder.SafeOnlyWhenWritten`).
- The stored author text does not determine the authors: it is cut at 255 characters.
  `Search.StoredAuthorsSplit` gives the exact condition under which it does, `Search.LongAuthorsCollide`
  two books that are stored alike.
- Titles and authors are truncated on insert but not on update, where a longer text is refused unless
  only spaces are cut off: `BookLaws.UpdateSucceeds` has the condition, `BookLaws.LongTitleAndNull` a title
  of 256 letters that creation stores and an update refuses.

## Model

| member | source | states |
|---|---|---|
| AsyncReducerObject.AsyncReducer.constructor | library/application/reduced.py:11-13 | a new reducer has no entry, no task and satisfies the invariant |
| AsyncReducerObject.AsyncReducer.Call | library/application/reduced.py:15-29 | a call joins the ident's running execution and closes its coroutine, or starts one; either way its waiter captures the future stored under the ident |
| AsyncReducerObject.AsyncReducer.GetOrCreateFuture | library/application/reduced.py:31-38 | the stored future, or a new pending one stored under the ident; which of the two is reported |
| AsyncReducerObject.AsyncReducer.StartRunner | library/application/reduced.py:40-47 | the runner awaits its coroutine once |
| AsyncReducerObject.AsyncReducer.FinishRunner | library/application/reduced.py:46-53 | in one step the future gets the outcome, its callbacks are queued in order, the entry is deleted and the task's done-callback queued |
| AsyncReducerObject.AsyncReducer.DeleteRunningEntry | library/application/reduced.py:53 | the entry is gone; a missing one would be a fault |
| AsyncReducerObject.AsyncReducer.SetFutureResult | library/application/reduced.py:48-51 | a pending future is done and its callbacks queued in order; a done one would be a fault |
| AsyncReducerObject.AsyncReducer.Attach | library/application/reduced.py:55-63 | the waiter's callback is registered, or queued at once when the future is already done |
| AsyncReducerObject.AsyncReducer.FireNext | library/application/reduced.py:24 | the oldest ready callback runs: a task is discarded or a waiter served |
| AsyncReducerObject.AsyncReducer.SetWaitFutureResult | library/application/reduced.py:65-79 | a cancelled wait_future is left alone, a pending one gets the shared future's value or exception |
| AsyncReducerObject.AsyncReducer.Wake | library/application/reduced.py:63 | the waiter ends with exactly the outcome of the future it captured |
| AsyncReducerObject.AsyncReducer.Cancel | library/application/reduced.py:63-70 | cancelling a caller changes only its own waiter |
| ReducerInvariant.StepKeeps | library/application/reduced.py:10-79 | every step keeps the whole invariant, faults at 0 included |
| ReducerInvariant.RunKeeps | library/application/reduced.py:10-79 | so does every run |
| ReducerRuns.OneExecutionPerIdent | library/application/reduced.py:15-53 | an ident is in `_running` iff an unfinished execution of it exists, there is at most one, stored futures are pending and distinct, every unfinished task is held |
| ReducerRuns.CoroutinesConserved | library/application/reduced.py:15-27 | each coroutine handed over is awaited once or closed once, never both; the three counts add up |
| ReducerRuns.FinishedOnce | library/application/reduced.py:40-53 | in any run a shared future is resolved by exactly one event, with that event's outcome |
| ReducerRuns.Delivery | library/application/reduced.py:55-79 | whatever follows a call, its waiter can only end with the outcome of the one execution of its ident it captured, which was unfinished at the call and finished once, after it |
| ReducerRuns.StepDecreases | library/application/reduced.py:22-63 | every event but a call strictly decreases the weight of the state |
| ReducerRuns.RunsAreBounded | library/application/reduced.py:22-63 | once calls stop, no run is longer than the weight of its first state |
| ReducerRuns.QuiescentIsClean | library/application/reduced.py:22-63 | when nothing is left to do, `_running` and `_tasks` are empty and every waiter not cancelled has returned its future's outcome |
| ReducerRuns.Drains | library/application/reduced.py:22-63 | from any state and for any endings of the running coroutines quiescence is reached without cancelling anyone |
| ReducerRuns.CancelTakesEffect | library/application/reduced.py:63-70 | any waiter that has not ended can be cancelled, a suspended one included; that changes it alone, and the result that comes later leaves it cancelled |
| ReducerRuns.ServedInOrder | library/application/reduced.py:55-63 | of two waiters of one execution the one that attached first is served first, in every run |
| ReducerRuns.StepIsolates | library/application/reduced.py:55-79 | one step of a run with cancellations is matched by the run without them |
| ReducerRuns.CancellationIsolated | library/application/reduced.py:40-79 | removing any set of cancellations from any run leaves a run with the same entries, tasks, futures, queue and outcomes of all other waiters |
| PyRepr.ReadReprStr | library/application/reduced.py:97-101 | Python's string repr can be read back, whatever follows it |
| PyRepr.ReadReprInt | library/application/reduced.py:97-101 | so can Python's int repr, negative numbers included |
| PyRepr.ParseOfKey | library/application/cached.py:22-26 | parsing a printed key gives the request back, whatever the query contains |
| PyRepr.KeyInjective | library/application/reduced.py:97-101 | different requests have different keys |
| PyRepr.PlainRepr | library/application/cached.py:22-26 | a text of plain characters prints as itself, between single quotes unless it holds one and no double quote |
| PyRepr.EscapeLengths | library/application/cached.py:22-26 | every other character prints as the shortest escape Python has for it |
| CachedStack.KeysInFull | library/application/reduced.py:97-101 | the two keys of one request, in full |
| CachedStack.MoveKeeps | library/application/cached.py:21-33 | every step of callers, cache, reducer and other processes keeps the stack's invariant |
| CachedStack.AnswersComeFromExecutions | library/adapters/open_library/cached.py:13-17 | under every interleaving each cached value and each answer is the outcome of a finished execution of exactly that query, limit and offset, or was written from outside for exactly it; each raised error is the outcome of such an execution; only values are cached |
| CachedStack.ExecutionHappened | library/application/cached.py:28-33 | each of those executions was finished, with that outcome, by an earlier event |
| CachedStack.ForeignHappened | library/application/cached.py:28-33 | each of those outside results was written by an earlier event |
| CachedStack.OneFlightPerRequest | library/application/reduced.py:96-102 | no two unfinished upstream executions are of the same request |
| CachedStack.StackRefinesUpstream | library/adapters/open_library/di.py:34-44 | if upstream is a function and outside writes agree with it, the stack returns or raises what calling it directly would, and caches only its values |
| StackProgress.HitNeedsNoExecution | library/application/cached.py:28-30 | after a write and until the entry expires, a caller of the same request finds it, and whatever happens until its next step, that step answers it and executes nothing |
| StackProgress.LastWriteIsAnswered | library/application/cached.py:28-32 | what was written last for a request, here or elsewhere, is what its next caller is answered until the entry is touched |
| StackProgress.SettledServesEveryone | library/application/cached.py:21-33 | when nothing is left to do, every caller has an answer or an error, or was broken off |
| StackProgress.CallersAreArrivals | library/adapters/open_library/cached.py:13-17 | every caller is there with the request it came with |
| StackProgress.SettledAnswers | library/application/cached.py:21-33 | when nothing is left to do, every caller whose cache worked and who was not cancelled has an answer or an error |
| StackProgress.SettledRefinesUpstream | library/application/cached.py:21-33 | if upstream is a function, that is exactly the answer or the error upstream has for the request the caller came with |
| StackProgress.AbandonTakesEffect | library/application/cached.py:28-32 | any caller under way can be cancelled; it is gone and its waiter cancelled unless that had returned |
| StackProgress.BreakTakesEffect | library/application/cached.py:28-32 | a failing cache ends the caller whose read or write it is in, and nothing else |
| StackProgress.OverIsFinal | library/application/cached.py:29-33 | a caller that is done stays as it is |
| StackProgress.SchedulesEnd | library/application/cached.py:21-33 | once no one arrives, every schedule is no longer than the weight of its first state and two steps for each outside write |
| CacheOrder.FollowKeeps | library/application/cached.py:28-33 | in every run each entry written here comes from the execution it is traced to, and executions of one request never overlap |
| CacheOrder.LatestWriteIsSafe | library/application/cached.py:31-33 | the write of the request's latest execution never replaces the value of a later one |
| CacheOrder.NeverBackExactly | library/application/cached.py:31-33 | a run never replaces the value of a later execution by that of an earlier one iff between two clearings of a key it writes the executions in their order |
| CacheOrder.OlderValueWins | library/application/cached.py:31-33 | a run after which a pending write puts the older of two values back |
| CacheOrder.SafeOnlyWhenWritten | library/application/cached.py:31-33 | a caller that has collected a value can still do so in some continuation iff its write is not done |
| CachedClientObject.CachedOpenLibraryClient.constructor | library/adapters/open_library/cached.py:9-11 | the stack starts empty, with a reducer of its own |
| CachedClientObject.CachedOpenLibraryClient.Arrive | library/adapters/open_library/cached.py:14-17 | a new caller is recorded with its request |
| CachedClientObject.CachedOpenLibraryClient.Lookup | library/application/cached.py:28 | the caller learns what the cache holds under its key |
| CachedClientObject.CachedOpenLibraryClient.Proceed | library/application/cached.py:29-31 | a hit is answered; a miss calls the reducer under the flight key and waits on the waiter it gets |
| CachedClientObject.CachedOpenLibraryClient.Collect | library/application/cached.py:31 | a value goes on to be stored, an exception ends the caller and is not stored |
| CachedClientObject.CachedOpenLibraryClient.Write | library/application/cached.py:32 | the value is cached under the caller's own key |
| CachedClientObject.CachedOpenLibraryClient.Answer | library/application/cached.py:33 | the value returned was produced for the caller's request |
| CachedClientObject.CachedOpenLibraryClient.WriteElsewhere | library/adapters/open_library/cached.py:9-17 | a result written by another process sharing the cache is what the next reader finds |
| CachedClientObject.CachedOpenLibraryClient.Abandon | library/application/cached.py:28-32 | cancelling a caller cancels only its own waiter |
| Search.GetAllBooksByQuery | library/domains/use_cases/commands/book/upload_books.py:36-58 | whatever client answers the searches, the exact result: the authored documents among the first 100(k+1), in order, k the first page with fewer than 100; at most n/100 + 1 searches; fails iff one of pages 0..k fails |
| Search.DirectServes | library/adapters/open_library/client.py:33-42 | the search service answers the loop's searches with the pages of the query's documents, or fails |
| Search.LoopCompleteness | library/domains/use_cases/commands/book/upload_books.py:39-57 | the result is a prefix of all authored documents, and all of them iff no document after the stopping page names an author |
| Search.CreatedBooks | library/domains/use_cases/commands/book/upload_books.py:46-54 | book i of the result is made of the i-th document among the first 100(k+1) that names its authors: its title, year 0, and an author text that splits back into its names |
| Search.PageCounts | library/domains/use_cases/commands/book/upload_books.py:55-56 | a page has as many books as its 100 documents name their authors |
| Search.FullyAuthoredIsComplete | library/domains/use_cases/commands/book/upload_books.py:39-57 | nothing is lost when every page before the last is fully authored, whatever the last one holds |
| Search.AuthorlessDocLosesRest | library/domains/use_cases/commands/book/upload_books.py:55-56 | a concrete list on which the loop misses an authored document |
| Search.AuthoredConcat | library/adapters/open_library/client.py:33-42 | filtering pages one by one is filtering the whole |
| Search.AuthoredAt | library/adapters/open_library/client.py:33-42 | the filter keeps, in order, exactly the documents that name their authors, each with its own key, title and names |
| Search.AuthoredFull | library/adapters/open_library/client.py:33-42 | a page keeps its length iff every document on it names its authors |
| Search.JoinedAuthorsSplit | library/domains/use_cases/commands/book/upload_books.py:47-51 | the joined author text determines the authors when no name contains a comma |
| Search.JoinedPieces | library/domains/use_cases/commands/book/upload_books.py:51 | whatever the names contain, the joined text is their pieces between commas, in order |
| Search.StoredAuthorsSplit | library/adapters/database/storages/book.py:162-171 | the stored author text gives the authors back iff there is one, no name contains a comma and the joined names fit 255 characters |
| Search.LongAuthorsCollide | library/adapters/database/storages/book.py:168 | two books by different authors that are stored alike |
| Slices.BucketsPartition | library/domains/use_cases/commands/book/upload_books.py:29-31 | buckets concatenate to the list, none is empty, none exceeds the size, all but the last are full |
| Upload.BucketingIsTransparent | library/domains/use_cases/commands/book/upload_books.py:29-34 | saving bucket by bucket gives the same table as one insert of the whole list, for every bucket size |
| Upload.UploadIsAtomic | library/domains/use_cases/commands/book/upload_books.py:32-34 | whichever step fails, an upload leaves none or all of its buckets |
| Upload.HandleDelivers | library/domains/use_cases/commands/book/upload_books.py:25-34 | handling one message saves all of its books or none; all of them iff its searches work, no transaction is left over, the scope begins, nothing interrupts its body, even after the last bucket, and the commit is not lost; it raises nothing iff it saves them and its commit and close succeed |
| Upload.UploadRaises | library/domains/use_cases/commands/book/upload_books.py:25-34 | exactly which exception comes out of an upload: the failed search, the error of a unit of work still in a transaction, none when all works, else an interruption |
| Upload.UploadedKeys | library/domains/use_cases/commands/book/upload_books.py:25-58 | after an upload that raises nothing the new live keys are those of the documents that name their authors on the pages the loop reads: title and joined authors cut at 255, no year |
| Upload.CollectFails | library/domains/use_cases/commands/book/upload_books.py:26-28 | a message is not collected iff some loop meets a failing search before it stops |
| Upload.AllBooksFlatten | library/domains/use_cases/commands/book/upload_books.py:26-28 | its books are those of its queries, one after the other |
| Upload.RunsAreDeliveries | library/domains/use_cases/commands/book/upload_books.py:25-34 | any sequence of uploads, each with its own failing searches and faults, is the sequence of the inserts of those that reached the database |
| Upload.UploadsAddKeys | library/domains/use_cases/commands/book/upload_books.py:25-34 | after any such sequence the live keys are the initial ones and those of the messages that reached the database; no old row and no user has changed |
| Upload.UploadOrderDoesNotMatter | library/domains/use_cases/commands/book/upload_books.py:25-34 | two runs in which the same messages reached the database, in any order and however often, end with the same live keys |
| Upload.UploadAgain | library/domains/use_cases/commands/book/upload_books.py:25-34 | handling again a message that reached the database before adds and changes no row, whatever came in between and whatever fails |
| Pipeline.StackServesPages | library/domains/use_cases/commands/book/upload_books.py:40-44 | an answer to the loop's search through cache and single flight is that page of the query's documents; a search that failed is one that fails upstream |
| Pipeline.StackServes | library/domains/use_cases/commands/book/upload_books.py:36-58 | the stack is a client the page loop can work with: each search is answered by its page or fails |
| Pipeline.LoopThroughStack | library/domains/use_cases/commands/book/upload_books.py:36-58 | run through the stack the page loop collects exactly what the search service has for it once the pages up to the first with fewer than 100 authored documents are answered, and otherwise fails |
| Pipeline.UploadThroughStack | library/domains/use_cases/commands/book/upload_books.py:25-34 | an upload whose searches go through one run of the stack saves all of the search service's books or nothing; it raises nothing iff all were answered and its scope works, and a search without answer comes out as the failed search |
| Commands.UploadBooksCommand.Execute | library/domains/use_cases/commands/book/upload_books.py:25-34 | the use case is the step the runs above are made of: a failing search raises before any transaction, otherwise one scope saves the buckets of all collected books |
| Commands.UploadBooksCommand.Collect | library/domains/use_cases/commands/book/upload_books.py:26-28 | the books of all queries in order, or the first failure |
| Commands.UploadBooksCommand.SaveBuckets | library/domains/use_cases/commands/book/upload_books.py:33-34 | the buckets are saved in order up to the first failure or interruption |
| Commands.RegisterUserCommand.Execute | library/domains/use_cases/commands/auth/register_user.py:22-34 | registration is one scope inserting the user with the hashed password |
| Commands.LoginUserCommand.Execute | library/domains/use_cases/commands/auth/login_user.py:24-50 | a login changes nothing committed; its result is exactly the decision on the committed users when its scope works, and otherwise the error of the scope |
| Books.Stored | library/adapters/database/storages/book.py:166-168 | the stored texts are the prefixes of 255 characters, or the whole texts when shorter |
| BookLaws.SaveAllAdds | library/adapters/database/storages/book.py:162-181 | a bulk insert makes live exactly the old keys and the truncated new ones, and changes no existing row |
| BookLaws.SaveAllAgain | library/adapters/database/storages/book.py:173-180 | books whose keys are live add no row |
| BookLaws.SaveAllCounts | library/adapters/database/storages/book.py:162-181 | it adds one row for each key not live before, duplicates counted once |
| BookLaws.HistoryKeeps | library/adapters/database/tables.py:9-18 | over every serial history no two live books share title, year and author, no row vanishes, deleted rows never change |
| BookLaws.RowsConserved | library/adapters/database/storages/book.py:95-181 | live rows plus deleted rows are the initial rows plus the successful inserts |
| BookLaws.SoftDeleteRefinesRemoval | library/domains/services/book.py:32-46 | each operation answers and changes what can be read as on a table that removes deleted books |
| BookLaws.HistoryRefinesRemoval | library/adapters/database/storages/book.py:34-93 | so does every serial history |
| BookLaws.DeleteThenCreate | library/domains/services/book.py:32-38 | a live key is refused, a deleted one can be created again with a new id, the deleted row staying |
| BookLaws.CreateExactly | library/adapters/database/storages/book.py:95-123 | creation succeeds iff no live book has the truncated content, and adds exactly one live row with it under a new id |
| BookLaws.FitTextExactly | library/adapters/database/tables.py:20-22 | what a column of 255 characters takes of a text |
| BookLaws.UpdateStatement | library/adapters/database/storages/book.py:133-160 | the statement by itself misses only a row that is not there, a deleted row cannot clash, and no other row is touched |
| BookLaws.DeleteStatement | library/adapters/database/storages/book.py:125-131 | the statement by itself stamps its row, live or deleted, and nothing else |
| BookLaws.UpdateTwice | library/domains/entities/book.py:48-56 | two successful updates of a book equal one update with the later fields winning |
| BookLaws.UpdateIsLocal | library/adapters/database/storages/book.py:133-160 | an update changes only the fields it does not leave out, of the live book it names; a failing one changes nothing |
| BookLaws.UpdateSucceeds | library/adapters/database/storages/book.py:133-152 | the exact condition of each result: success, a clash, an explicit null, a text too long, no live book |
| BookLaws.LongTitleAndNull | library/adapters/database/storages/book.py:95-160 | a title that creation cuts off and an update refuses, and a null that an update refuses |
| Paging.PagesPartition | library/adapters/database/storages/book.py:67-93 | pages at 0, limit, 2·limit, … are all live books, each once, by increasing id, as many as are counted |
| Paging.ListingIsLive | library/adapters/database/storages/book.py:58-80 | the listing shows exactly the live books |
| Paging.PageIsRankRange | library/adapters/database/storages/book.py:67-93 | a page at any offset and limit shows, by increasing id, exactly the live books whose rank by id is in its range |
| StorageObjects.BookStorage.FetchBookById | library/adapters/database/storages/book.py:34-50 | the live book with this id, or none |
| StorageObjects.BookStorage.ExistsBookById | library/adapters/database/storages/book.py:52-56 | whether a live book has this id |
| StorageObjects.BookStorage.CountBooks | library/adapters/database/storages/book.py:58-65 | the number of live books |
| StorageObjects.BookStorage.FetchBookList | library/adapters/database/storages/book.py:67-93 | the slice of the ordered live books |
| StorageObjects.BookStorage.CreateBook | library/adapters/database/storages/book.py:95-123 | a live row with the truncated content and a new id, or refused when that content is live, the transaction aborted |
| StorageObjects.BookStorage.DeleteBookById | library/adapters/database/storages/book.py:125-131 | the row is marked, live or not |
| StorageObjects.BookStorage.UpdateBookById | library/adapters/database/storages/book.py:133-160 | the row takes the values; a missing row leaves the session as it was, a statement the database refuses aborts the transaction |
| StorageObjects.BookStorage.SaveBulkBooks | library/adapters/database/storages/book.py:162-181 | the loop over rows is the bulk insert of the table model |
| StorageObjects.UpdateToDict | library/domains/entities/book.py:48-56 | a column is in the dict iff its field is not left out, an explicit null included, with the field's value |
| StorageObjects.BookService.FetchBookById | library/domains/services/book.py:21-25 | the live book, or not found |
| StorageObjects.BookService.FetchBookList | library/domains/services/book.py:27-30 | the count of live books with the page |
| StorageObjects.BookService.CreateBook | library/domains/services/book.py:32-33 | creation through the storage |
| StorageObjects.BookService.DeleteBookById | library/domains/services/book.py:35-38 | only a live book is deleted; otherwise not found and nothing changes |
| StorageObjects.BookService.UpdateBookById | library/domains/services/book.py:40-43 | only a live book is updated; otherwise not found and nothing changes |
| StorageObjects.BookService.SaveBulkBooks | library/domains/services/book.py:45-46 | the bulk insert through the storage |
| StorageObjects.UserStorage.ExistsUserById | library/adapters/database/storages/user.py:61-65 | whether a live user has this id |
| StorageObjects.UserStorage.FetchCredentials | library/adapters/database/storages/user.py:44-59 | the live user with this name, if it has a password |
| StorageObjects.UserStorage.CreateUser | library/adapters/database/storages/user.py:86-102 | a live user, or refused for a text too long or a name or email in any row, the transaction aborted |
| StorageObjects.UserStorage.DeleteUserById | library/adapters/database/storages/user.py:104-110 | the row is marked, live or not |
| StorageObjects.UserStorage.UpdateUserById | library/adapters/database/storages/user.py:112-123 | the row takes the values; a missing row leaves the session as it was, a statement the database refuses aborts the transaction |
| StorageObjects.UserService.DeleteUserById | library/domains/services/user.py:33-36 | only a live user is deleted |
| StorageObjects.UserService.UpdateUserById | library/domains/services/user.py:38-41 | only a live user is updated |
| UserLaws.UserHistoryKeeps | library/adapters/database/tables.py:28-30 | over every serial history names and emails stay unique over live and deleted rows, no account is lost or revived, hashes and rights are fixed |
| UserLaws.LoginExactly | library/domains/use_cases/commands/auth/login_user.py:24-50 | login gives an id iff the live row with that name and id has a hash that verifies the password, and gives that row's rights |
| UserLaws.LoginAfterHistory | library/domains/use_cases/commands/auth/register_user.py:22-34 | after registration and any history the account logs in under its current name with its own password, with another one iff that verifies against the hash made at registration, and never once deleted |
| UserLaws.DeletedNamesAreBurned | library/adapters/database/storages/user.py:86-123 | after any history the row of a deleted user is unchanged, no other row has its name or email, and neither creation nor renaming can take them |
| UserLaws.InsertExactly | library/adapters/database/storages/user.py:86-102 | the exact condition of each result of a creation: success, a name or email in any row, a text too long |
| UserLaws.InsertStores | library/adapters/database/storages/user.py:86-102 | a created user is one new live row with exactly the given name, email, hash and rights; no other row changes |
| UserLaws.RegisterStores | library/domains/use_cases/commands/auth/register_user.py:22-34 | registration stores the given name and email, the hash and no rights, and the account can log in at once under that name with that password |
| UserLaws.RegisterExactly | library/domains/use_cases/commands/auth/register_user.py:22-34 | the exact condition of each result of a registration |
| UserLaws.UpdateUserStatement | library/adapters/database/storages/user.py:112-123 | the statement by itself misses only a row that is not there and touches no other |
| UserLaws.DeleteUserStatement | library/adapters/database/storages/user.py:104-110 | the statement by itself stamps its row, live or deleted, and nothing else |
| UserLaws.UserUpdateExactly | library/adapters/database/storages/user.py:112-123 | an update succeeds iff the user is live, the texts fit, no field is null and no other row, live or deleted, has the resulting name or email; if only the last two fail the integrity error comes out untranslated |
| UserLaws.RenameOntoDeletedName | library/adapters/database/storages/user.py:119-131 | a rename onto a deleted user's name that raises it, where creation raises the translated error |
| UserLaws.NullNameRaises | library/domains/entities/user.py:73-79 | a null name that raises it without a clash |
| UserLaws.ServeUserIsLocal | library/domains/services/user.py:30-41 | a failed operation changes nothing; a successful one only the set fields or the mark of the live row it names, or adds one row; only a live user is deleted |
| StorageObjects.SqlalchemyUow.constructor | library/adapters/database/uow.py:21-24 | neither session nor transaction |
| StorageObjects.SqlalchemyUow.View | library/adapters/database/uow.py:26-30 | the session's view, or an error without a session or in an aborted transaction |
| StorageObjects.SqlalchemyUow.CreateTransaction | library/adapters/database/uow.py:39-48 | a held transaction is refused, a held session is reused, otherwise one is opened; a failing begin leaves the session without a transaction |
| StorageObjects.SqlalchemyUow.Commit | library/adapters/database/uow.py:32-33 | the session's view becomes the committed tables unless the commit is lost or the transaction aborted; the transaction option stays |
| StorageObjects.SqlalchemyUow.Rollback | library/adapters/database/uow.py:35-37 | the view is dropped and the transaction cleared, unless it fails |
| StorageObjects.SqlalchemyUow.CloseTransaction | library/adapters/database/uow.py:50-54 | both options are cleared, unless the close fails |
| StorageObjects.SqlalchemyUow.Exit | library/domains/uow.py:14-25 | rollback after an exception, otherwise commit, then close; the first failure comes out |
| UnitOfWork.CallsKeepSound | library/adapters/database/uow.py:21-54 | after any calls in any order with any failures a transaction implies a session, at most one session is open, and only commit changes what is committed |
| UnitOfWork.ScopeIsAtomic | library/domains/uow.py:10-25 | the committed tables after a scope are those before it or those with all its writes, and it raises nothing, with the exact condition for each |
| UnitOfWork.ScopeRaises | library/domains/uow.py:20-25 | a body's own error comes out of the scope, which ends with both options cleared |
| UnitOfWork.ScopeErrors | library/domains/uow.py:14-25 | exactly which exception comes out of a scope, for every body and every fault |
| UnitOfWork.BeginsOnce | library/adapters/database/uow.py:39-48 | a session that has begun cannot begin again; a fresh or new one begins on the committed tables, or keeps no transaction when beginning fails |
| UnitOfWork.WithoutSession | library/adapters/database/uow.py:26-30 | without a session everything but opening one raises and changes nothing |
| UnitOfWork.BeginsByItself | library/adapters/database/uow.py:26-30 | a statement of a session that has begun nothing works as if its transaction had just begun |
| UnitOfWork.AbortedWritesNothing | library/adapters/database/uow.py:26-33 | once a statement has failed in the database no later one is accepted and a commit writes nothing; one that finds no row changes nothing |
| UnitOfWork.WhenScopesRepeat | library/domains/uow.py:10-25 | the exact condition under which the next scope can begin, a failing begin included; otherwise every later scope is refused |
| UnitOfWork.LostCommitSticks | library/domains/uow.py:20-25 | one lost commit after which every later scope is refused |
| UnitOfWork.ScopesRepeat | library/domains/uow.py:10-25 | without faults scopes repeat without bound and the database is that of the successful bodies in order |
| ScopeLaws.ScopesKeep | library/domains/uow.py:10-25 | any scopes, with any statements and faults, keep live book keys, user names and emails unique, lose no row and change no deleted one |
| ScopeLaws.ScopesAreHistories | library/domains/uow.py:10-25 | the committed tables after any scopes are those of the serial histories of the scopes that reached the database |

## Left out

- REST controllers, schemas, exception handlers, middleware, message broker, dependency injection,
  configuration, logging, migrations: wiring with one-branch behaviour.
- Health checks, token pairs and permission guards: an ordered map, library-dependent encoding and set
  membership.
- Cache time to live: an entry may expire at any moment, so nothing is said about how old a hit can be.
- A cached or reduced function that returns `None`, is given its own key function or is called with
  positional arguments: the one function decorated is called by keyword and returns a result object.
- Interleaved transactions and isolation levels: transactions run serially.
- Timestamps other than the deletion mark, and concrete UUID values: tables are compared up to them.
- Text with NUL characters and years beyond 32 bits, which PostgreSQL refuses.
- User listing and counting: the listing has no order, so its pages promise nothing.
- Create, delete and update use cases of books and users as objects: each is a scope with one statement,
  covered by the scope's theorems.
- passlib itself: hashing and verification are parameters with the assumption above.
