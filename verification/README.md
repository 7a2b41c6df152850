# Verified model of the ZServer core

A Dafny model of the parts of the shooting-game server that keep state or do arithmetic: the expiring
in-memory store, the SQL worker pipeline, the database connection, and the small algorithms of the bundled
MySQL headers and of the HTML5 socket shim. `dafny verify dfyconfig.toml` checks everything.

- **Store** (`dbms.dfy`). A class with the key map and the time-ordered multimap, the latter a sequence
  sorted by time in which equal times keep insertion order and `find` returns the first of them. Expiry
  times are unsigned 64-bit and wrap; the sweep compares them after the cast to a signed time. `Replay`
  runs any calls with any clock readings and answers as one plain map does. The early-exit sweep equals a
  full scan if and only if no ordinary live entry stands in front of a dead entry whose expiry is 2^63 or
  more. The lifetime law "found until the first sweep past the deadline and never afterwards, whatever else
  is stored" is false for some inserts. With the stored expiry, cast to a signed time, for its deadline it
  holds if and only if the value's own wrapped expiry is below 2^63 (`LawOfStoredExpiry`); with now + ttl
  for its deadline, if and only if 0 <= now + ttl < 2^63 (`LawOfTimeToLive`). The expiries of other keys do
  not matter. `HugeExpiryOutlivesItsSweep` has the table and the sweep that break it.
- **SQL pipeline** (`sql_pipeline.dfy`, `db_sql_thread.dfy`). A state machine in which every lock, copy,
  clear, execution, push and unlock of one worker and any number of clients is a separate step. Its history
  fields record submissions and who made them, batches, executions and deliveries; `Leads` relates a schedule
  to its final state, and the contracts tie the histories to the calls in the schedule. `db_sql_thread.dfy` has the same methods as a class over shared registration nodes and
  the thread's connection, for one caller at a time; `Iterated` is the effect both agree on.
- **Reader/writer lock** (`rw_lock.dfy`). The Windows wrapper with its single flag, for any number of
  threads, what each call does by the time it returns, and the flag-free lock it refines.
- **Trailing spaces and byte order** (`trailing_space.dfy`, `byte_order.dfy`). Both scanners against the
  naive one; loads and stores against a host-memory reference. A bitwise or of fields that do not overlap
  is written as their sum.
- **Deadlines** (`timespec.dfy`). Clock arithmetic with its 64-bit wrap-around.
- **Connection** (`db_connect.dfy`, `call_text.dfy`). The handle state machine over arbitrary library
  answers, and the follow-up query cut out of a call's text. A statement reaches the connection as a
  zero-terminated string, so it ends at its first NUL (`CString`). The text law "the query is the expected
  one if and only if neither text contains '@' or ')'" is false in both directions:
  `SpecialAccountsWithExpectedQuery` gives accepted accounts that have both characters, and
  `NulAccountHasNoQuery` an accepted one that has neither. The exact condition is `Harmless`. Look at the
  first '@' or NUL of the account, or of the password when the account has none. It must begin
  "@accountid,@isNew", followed by a NUL, or by a ')' that is the first ')' of both texts. When there is no
  '@' and no NUL at all, there must be no ')' either.
- **Receive queue** (`web_socket.dfy`). The message queue of each socket instance.

`Dbms.Replay`, `DbConnect.Session` and `WebSocketQueue.Exchange` stand for an arbitrary caller: they take any
sequence of operations, run it on the object, and their contracts say what holds over the whole run.

Clock readings, database outcomes, library answers, result rows and arriving messages are parameters.

## Model

| member | source | states |
|---|---|---|
| `Dbms.Replay` | src/Server/ZServer/DPDB/dbms.cpp:2-73 | for every run of Insert, Del, UpdateData, Find and Size with any clock readings, the two-container store answers exactly as a single map from key to value and expiry |
| `Dbms.DBMS.Del` | src/Server/ZServer/DPDB/dbms.cpp:2-24 | the counted walk always meets the key: exactly its own entry leaves the index, every other entry keeps its place, and the containers stay consistent |
| `Dbms.OwnEntryInEqualRange` | src/Server/ZServer/DPDB/dbms.cpp:9-21 | a stored key has its one index entry inside the equal range of its expiry, within count(time) steps of find(time) |
| `Dbms.CountSpansEqualRange` | src/Server/ZServer/DPDB/dbms.cpp:9-11 | in a sorted index, the count of a time is the length of its equal range |
| `Dbms.DBMS.Insert` | src/Server/ZServer/DPDB/dbms.cpp:59-73 | the key gets the new value and the wrapped expiry, nothing else changes, and an older entry of the key is gone from the index |
| `Dbms.DBMS.UpdateData` | src/Server/ZServer/DPDB/dbms.cpp:26-44 | evicting from the front until the first live entry leaves exactly the keys that some live entry of no later time shields |
| `Dbms.DBMS.Find` | src/Server/ZServer/DPDB/dbms.cpp:47-57 | found if and only if stored, with the stored value |
| `Dbms.DBMS.Size` | src/Server/ZServer/DPDB/dbms.h:35-38 | the number of stored keys, which is also the length of the index |
| `Dbms.ContainersHaveEqualSize` | src/Server/ZServer/DPDB/dbms.h:19-20 | consistent containers have equal size |
| `Dbms.DeadPrefixIsSwept` | src/Server/ZServer/DPDB/dbms.cpp:29-43 | removing the maximal dead prefix of the sorted index is the sweep of the one map |
| `Dbms.SweepIsFullScan` | src/Server/ZServer/DPDB/dbms.cpp:29-43 | the early-exit sweep removes precisely the dead keys if and only if no live expiry below 2^63 coexists with a dead one of 2^63 or more |
| `Dbms.SweepsCombine` | src/Server/ZServer/DPDB/dbms.cpp:26-44 | two sweeps equal one sweep at the later clock reading, for any table |
| `Dbms.NeverEvictedEarly` | src/Server/ZServer/DPDB/dbms.cpp:26-73 | whatever else is stored, a value is found as long as no sweep passed its deadline and its key was not written |
| `Dbms.FoundUntilFirstSweepPastDeadline` | src/Server/ZServer/DPDB/dbms.cpp:26-73 | for a value whose own expiry is below 2^63, in any table and any run that does not write its key, Find returns it until the first sweep whose clock exceeds its expiry and fails from then on |
| `Dbms.LawOfStoredExpiry` | src/Server/ZServer/DPDB/dbms.cpp:26-73 | the lifetime law with the stored expiry for its deadline holds for every table and run if and only if the value's own expiry is below 2^63 |
| `Dbms.LawOfTimeToLive` | src/Server/ZServer/DPDB/dbms.cpp:26-73 | the lifetime law with deadline now + ttl holds for every table and run if and only if 0 <= now + ttl < 2^63 |
| `Dbms.HugeExpiryOutlivesItsSweep` | src/Server/ZServer/DPDB/dbms.cpp:35 | for every insert whose own expiry is 2^63 or more, a table with one other key at expiry 100 and a sweep at clock 0 break the lifetime law |
| `SqlPipeline.EveryRunIsFifo` | src/Server/ZServer/DPDB/DBSqlThread.cpp:6-26 | in every interleaving, each idle client's pushes are exactly the nodes it gave to AddWaitNode, in call order; submitted = delivered ++ being returned ++ finish vector ++ unpushed rest of the batch ++ write vector; executions are a prefix of submissions and deliveries a prefix of executions |
| `SqlPipeline.EveryCallCounts` | src/Server/ZServer/DPDB/DBSqlThread.h:82-99 | in every run and for each client, the nodes given to AddWaitNode are its pushes in order, then the node of a call not yet at its push; the calls of GetFinishDBWait are its returned vectors, plus one for a call under way |
| `SqlPipeline.HistoriesGrow` | src/Server/ZServer/DPDB/DBSqlThread.cpp:6-26 | what was submitted, executed or delivered at some point of a run stays in front of all that comes later |
| `SqlPipeline.EveryReturnIsWholeBatches` | src/Server/ZServer/DPDB/DBSqlThread.cpp:16-23 | each returned vector is a concatenation of consecutive whole worker batches, and the batches are the submissions in order |
| `SqlPipeline.StepKeepsInv` | src/Server/ZServer/DPDB/DBSqlThread.cpp:8-25 | every step of every thread keeps the lock, local, conservation and batch invariants |
| `SqlPipeline.NoDeadlock` | src/Server/ZServer/DPDB/DBSqlThread.h:82-99 | in every reachable state, the lock that a blocked thread waits for is held by another thread that can take its next step; no thread holds both locks; the worker does not hold the write lock while SQL runs |
| `SqlPipeline.StoppedOnlyByLocks` | src/Server/ZServer/DPDB/DBSqlThread.h:82-99 | in every reachable state a thread is stopped exactly when its next step takes a lock that is taken, and an idle client can make any call |
| `SqlPipeline.OnlyOwnerAdvances` | src/Server/ZServer/DPDB/DBSqlThread.h:84-97 | each step of a lock's owner brings the unlock one step nearer and no other thread changes that |
| `SqlPipeline.LockIsReleased` | src/Server/ZServer/DPDB/DBSqlThread.h:84-97 | in every run a held lock is free again once its owner has taken its remaining steps, however the others interleave |
| `SqlPipeline.IterationFinishesEarlierNodes` | src/Server/ZServer/DPDB/DBSqlThread.cpp:10-24 | a node submitted before a worker iteration starts is in the finish vector or delivered when it ends, whatever the clients do |
| `SqlPipeline.IterationAlone` | src/Server/ZServer/DPDB/DBSqlThread.cpp:10-24 | undisturbed, 2n + 6 steps execute the n waiting nodes in order and move them behind the finish vector |
| `WaitNodes.DBSqlThread.RunIteration` | src/Server/ZServer/DPDB/DBSqlThread.cpp:10-23 | the write vector moves behind the finish vector; each node runs once per place it has; the registrations run in order on the one connection, and a node carries the code of its last place, computed on the connection that the places before it left |
| `WaitNodes.DBSqlThread.AddWaitNode` | src/Server/ZServer/DPDB/DBSqlThread.h:82-87 | the node goes to the end of the write vector and the finish vector is untouched |
| `WaitNodes.DBSqlThread.GetFinishDBWait` | src/Server/ZServer/DPDB/DBSqlThread.h:91-99 | returns the whole finish vector and leaves it empty |
| `WaitNodes.CRegisterWaitNode.DoDBSql` | src/Server/ZServer/DPDB/DBSqlThread.cpp:73-76 | stores the code of registering the node's own account and password on the given connection |
| `RwLock.ReleaseAlwaysMatches` | src/Server/ZServer/mysql-connector-c-6.1.11-win32-Realease/include/thr_rwlock.h:73-131 | for any number of threads and any interleaving, unlock makes the release call of the mode its caller holds; a writer excludes everybody; an idle lock has a clear flag |
| `RwLock.CallHasItsEffect` | src/Server/ZServer/mysql-connector-c-6.1.11-win32-Realease/include/thr_rwlock.h:73-131 | in every run, by the time a call has returned and whatever the others did: rdlock gave one more shared hold, wrlock left its caller alone in the lock, unlock ended one hold of its mode, a failed try changed nothing |
| `RwLock.HoldsAreCalls` | src/Server/ZServer/mysql-connector-c-6.1.11-win32-Realease/include/thr_rwlock.h:73-131 | in every run, what a thread outside the wrapper holds is its own acquires minus its own releases of each mode, a function of its calls alone |
| `RwLock.WaitsOnlyForHolders` | src/Server/ZServer/mysql-connector-c-6.1.11-win32-Realease/include/thr_rwlock.h:73-111 | in every run a reader waits exactly while there is a writer, a writer exactly while there is any holder, and nobody waits at any other point |
| `RwLock.WrapperRefinesIdeal` | src/Server/ZServer/mysql-connector-c-6.1.11-win32-Realease/include/thr_rwlock.h:73-131 | in every run each step is invisible or what a lock that is told the mode does for the very call that the thread is in, and each release call ends one hold |
| `RwLock.StepKeepsInv` | src/Server/ZServer/mysql-connector-c-6.1.11-win32-Realease/include/thr_rwlock.h:94-131 | the flag is set exactly while an exclusive holder is past setting it and before clearing it, and the native mode agrees with the real holds |
| `TrailingSpace.SkipTrailingSpace` | src/Server/ZServer/mysql-connector-c-6.1.11-win32-Realease/include/m_string.h:317-329 | the eight-byte scan returns the position of the naive scan and reads only inside the buffer |
| `TrailingSpace.SkipTrailingSpaceAligned` | src/Server/ZServer/mysql-connector-c-6.1.11-win32-Realease/include/m_string.h:280-310 | the three-phase scan returns the same position for every base address, word size 4 or 8 and byte order |
| `TrailingSpace.SkipWords` | src/Server/ZServer/mysql-connector-c-6.1.11-win32-Realease/include/m_string.h:303-305 | word reads are aligned and inside the buffer, and skip only spaces |
| `TrailingSpace.SkipBytes` | src/Server/ZServer/mysql-connector-c-6.1.11-win32-Realease/include/m_string.h:301-308 | the byte loop stops at its bound or behind a byte that is no space |
| `TrailingSpace.TrimmedIsLastNonSpace` | src/Server/ZServer/mysql-connector-c-6.1.11-win32-Realease/include/m_string.h:276-277 | the naive scan returns the one position with only spaces behind it and no space before it |
| `TrailingSpace.SpaceWord` | src/Server/ZServer/mysql-connector-c-6.1.11-win32-Realease/include/m_string.h:282-289 | in either byte order a word equals the word of spaces if and only if all its bytes are spaces |
| `TrailingSpace.EightSpaces` | src/Server/ZServer/mysql-connector-c-6.1.11-win32-Realease/include/m_string.h:322 | uint8korr gives 0x2020202020202020 if and only if all eight bytes are spaces |
| `ByteOrder.PortableLoadsAreDirectReads` | src/Server/ZServer/mysql-connector-c-6.1.11-win32-Realease/include/byte_order_generic_x86.h:22-56 | the portable loads agree with direct reads of a little-endian host for every byte string |
| `ByteOrder.PortableRoundTrips` | src/Server/ZServer/mysql-connector-c-6.1.11-win32-Realease/include/my_byteorder.h:45-101 | for widths 2, 3, 4, 5, 6 and 8 a load after a store gives the word cut to that width |
| `ByteOrder.StoredByte` | src/Server/ZServer/mysql-connector-c-6.1.11-win32-Realease/include/my_byteorder.h:77-101 | byte i of a store is the word shifted right by 8 * i, cut to a byte: low byte first |
| `ByteOrder.PortableStoreAfterLoad` | src/Server/ZServer/mysql-connector-c-6.1.11-win32-Realease/include/byte_order_generic.h:38-97 | for widths 2, 3, 4, 5, 6 and 8, storing what the portable load read gives back the bytes it read |
| `ByteOrder.SignedRoundTrip` | src/Server/ZServer/mysql-connector-c-6.1.11-win32-Realease/include/my_byteorder.h:31-43 | sint3korr undoes int3store exactly on [-2^23, 2^23) |
| `ByteOrder.Int2Store` | src/Server/ZServer/mysql-connector-c-6.1.11-win32-Realease/include/byte_order_generic.h:76-81 | writes exactly the bytes of a direct two-byte write and no others |
| `ByteOrder.Int3Store` | src/Server/ZServer/mysql-connector-c-6.1.11-win32-Realease/include/my_byteorder.h:77-82 | writes exactly the low three bytes, low byte first |
| `ByteOrder.Int4Store` | src/Server/ZServer/mysql-connector-c-6.1.11-win32-Realease/include/byte_order_generic.h:83-89 | writes exactly the bytes of a direct four-byte write |
| `ByteOrder.Int5Store` | src/Server/ZServer/mysql-connector-c-6.1.11-win32-Realease/include/my_byteorder.h:84-91 | writes exactly the low five bytes, low byte first |
| `ByteOrder.Int6Store` | src/Server/ZServer/mysql-connector-c-6.1.11-win32-Realease/include/my_byteorder.h:93-101 | writes exactly the low six bytes, low byte first |
| `ByteOrder.Int8Store` | src/Server/ZServer/mysql-connector-c-6.1.11-win32-Realease/include/byte_order_generic.h:91-97 | the two portable halves write what one direct eight-byte write does |
| `ByteOrder.HalvesCompose` | src/Server/ZServer/mysql-connector-c-6.1.11-win32-Realease/include/byte_order_generic.h:91-97 | the bytes of a word are the bytes of its low half followed by those of its high half |
| `ByteOrder.FloatsAgreeAcrossHosts` | src/Server/ZServer/mysql-connector-c-6.1.11-win32-Realease/include/big_endian.h:21-55 | a float stored by a big-endian host has the bytes that a little-endian host stores for the same word, the little-endian host reads that word from them, and the big-endian get gives the host's own memory of the word |
| `ByteOrder.GetUndoesStore` | src/Server/ZServer/mysql-connector-c-6.1.11-win32-Realease/include/big_endian.h:21-55 | a float or double get at the place of a store of its width gives the stored bytes in host order |
| `ByteOrder.ShortReadsBack` | src/Server/ZServer/mysql-connector-c-6.1.11-win32-Realease/include/big_endian.h:57-80 | on a big-endian host the machine-order short read is the host's own two-byte read and undoes the short store |
| `ByteOrder.Float4Store` | src/Server/ZServer/mysql-connector-c-6.1.11-win32-Realease/include/big_endian.h:21-25 | writes the four host bytes in reverse order and nothing else |
| `ByteOrder.Float4Get` | src/Server/ZServer/mysql-connector-c-6.1.11-win32-Realease/include/big_endian.h:27-33 | returns the four stored bytes in host order |
| `ByteOrder.Float8Store` | src/Server/ZServer/mysql-connector-c-6.1.11-win32-Realease/include/big_endian.h:35-43 | writes the eight host bytes in reverse order and nothing else |
| `ByteOrder.Float8Get` | src/Server/ZServer/mysql-connector-c-6.1.11-win32-Realease/include/big_endian.h:45-55 | returns the eight stored bytes in host order |
| `ByteOrder.ShortStore` | src/Server/ZServer/mysql-connector-c-6.1.11-win32-Realease/include/big_endian.h:77-80 | writes the two bytes a big-endian host has in memory |
| `ByteOrder.LongStore` | src/Server/ZServer/mysql-connector-c-6.1.11-win32-Realease/include/big_endian.h:81-85 | writes the four bytes a big-endian host has in memory |
| `Timespec.SetTimespecNsec` | src/Server/ZServer/mysql-connector-c-6.1.11-win32-Realease/include/my_global.h:688-699 | the deadline is normalized and equals 100 * clock + nsec, less 100 * 2^64 when the clock sum wraps; with a short time_t, deadlines of 2^31 seconds or more saturate to 2^31 - 1 seconds and keep the nanoseconds |
| `Timespec.SetTimespec` | src/Server/ZServer/mysql-connector-c-6.1.11-win32-Realease/include/my_global.h:712-715 | the deadline is exact if and only if neither the product nor the clock sum wraps nor a short time_t saturates; otherwise it is the deadline of the wrapped product |
| `Timespec.CmpTimespec` | src/Server/ZServer/mysql-connector-c-6.1.11-win32-Realease/include/my_global.h:724-740 | on normalized values 1 if and only if the first time is later, -1 if and only if it is earlier |
| `Timespec.DiffTimespec` | src/Server/ZServer/mysql-connector-c-6.1.11-win32-Realease/include/my_global.h:742-750 | the true difference modulo 2^64, so exact if and only if it is not negative and below 2^64 |
| `Timespec.GetMilliseconds` | src/Server/ZServer/mysql-connector-c-6.1.11-win32-Realease/include/thr_cond.h:89-94 | 0 when the deadline has passed; otherwise within one millisecond of the true time left if and only if the milliseconds left fit 32 bits |
| `Timespec.TimeLeftOfSetDeadline` | src/Server/ZServer/mysql-connector-c-6.1.11-win32-Realease/include/thr_cond.h:119-124 | the same for a deadline set from one clock reading and waited for at any other, both before and after it has passed |
| `CallText.FollowUpIsExpected` | src/Server/ZServer/DPDB/DBConnect.cpp:104-118 | the rewritten query is "SELECT @accountid,@isNew" if and only if the texts are `Harmless`, the condition on their '@', ')' and NUL characters given above |
| `CallText.CutIsList` | src/Server/ZServer/DPDB/DBConnect.cpp:108-117 | for any text, the cut text is a given list exactly when the list stands at the first '@' and runs to the end of the text or to its first ')' |
| `CallText.CutText` | src/Server/ZServer/DPDB/DBConnect.cpp:108-117 | without an '@' there is no query; otherwise it is "SELECT " and the text from the first '@' to the first ')' when that is behind it, else to the end |
| `CallText.CutIsCounted` | src/Server/ZServer/DPDB/DBConnect.cpp:108-117 | the same for a text of any length, in terms of the character count after its conversion to int and back |
| `CallText.PlainTextsAreHarmless` | src/Server/ZServer/DPDB/DBSqlThread.cpp:34 | texts of any length without '@', ')' and NUL give the expected query |
| `CallText.SpecialAccountsWithExpectedQuery` | src/Server/ZServer/DPDB/DBSqlThread.cpp:31-34 | two accepted accounts with '@' and ')' that also give the expected query |
| `CallText.NulAccountHasNoQuery` | src/Server/ZServer/DPDB/DBSqlThread.cpp:34-44 | an accepted account without '@' and ')' whose statement ends before every '@', so that there is no follow-up query |
| `CallText.StatementText` | src/Server/ZServer/DPDB/DBSqlThread.cpp:34 | the whole statement text, with the account and the password in their places |
| `CallText.AtIsSent` | src/Server/ZServer/DPDB/DBSqlThread.cpp:34-44 | the registration statement that is sent has an '@' unless a NUL of the account, or of the password, comes before every '@' |
| `DbConnect.Session` | src/Server/ZServer/DPDB/DBConnect.cpp:26-143 | in every run with any library answers, queries, fetches, closes and pings of a handle use only a connected, unclosed handle, no handle is closed twice, the return codes depend only on the handle held before, and pings, statements and fetches are exactly what the operations ask for, in order |
| `DbConnect.NullPingIsKeepAlive` | src/Server/ZServer/DPDB/DBConnect.cpp:73-91 | in every run a null handle is pinged if and only if some KeepAlive is called while no connection is held; a load never does it |
| `DbConnect.NoHandleIsClosedTwice` | src/Server/ZServer/DPDB/DBConnect.cpp:136-143 | a safe run closes no handle twice |
| `DbConnect.LoadsFailUntilReconnected` | src/Server/ZServer/DPDB/DBConnect.cpp:88-91 | after a lost connection every load returns -1 until a connection attempt succeeds |
| `DbConnect.DBConnect.Init` | src/Server/ZServer/DPDB/DBConnect.cpp:26-71 | does nothing with a handle in place; otherwise connects or leaves no handle; the only open connection is the held one |
| `DbConnect.DBConnect.KeepAlive` | src/Server/ZServer/DPDB/DBConnect.cpp:73-86 | pings the held handle once, null included; 0 only when ping and reconnection both failed; the handle afterwards |
| `DbConnect.DBConnect.LoadTableData` | src/Server/ZServer/DPDB/DBConnect.cpp:88-135 | -1 exactly without a live connection, -2 exactly when the statement fails; the ping, statement, follow-up query, fetch and result set are those that the next four rows spell out |
| `DbConnect.DeadLoad` | src/Server/ZServer/DPDB/DBConnect.cpp:88-103 | without a live connection nothing but the ping of an open handle; a failed statement is the last request |
| `DbConnect.SelectIsFetched` | src/Server/ZServer/DPDB/DBConnect.cpp:121-134 | a statement that begins with 's', 'S' or 'C': exactly the ping, the statement and one fetch; 1 with a result set, else -3 |
| `DbConnect.OtherIsNotFetched` | src/Server/ZServer/DPDB/DBConnect.cpp:121-133 | any other first letter: only the statement, code 1, no result set |
| `DbConnect.CallIsFollowed` | src/Server/ZServer/DPDB/DBConnect.cpp:104-134 | a statement that begins with 'c' is followed by the query cut out of it and a fetch if and only if "call" and '@' occur; with "call" but no '@' by nothing; without "call" by a fetch |
| `DbConnect.DBConnect.Clear` | src/Server/ZServer/DPDB/DBConnect.cpp:136-143 | closes the held handle once and forgets it |
| `DbConnect.CheckAndInsertAccountAndPasswd` | src/Server/ZServer/DPDB/DBSqlThread.cpp:28-71 | the code is right in the sense of the next row; nothing is asked for a long account or without a handle; otherwise the ping, the statement, its follow-up query and the fetch, and the exact condition under which a successful statement is followed by the expected query and its fetch |
| `DbConnect.RegistrationCodes` | src/Server/ZServer/DPDB/DBSqlThread.cpp:28-71 | a new account gives its own id, and only then is the code positive; -1, -2, -3, -4 and -6 each have their exact condition on account length, handle, ping, statement, '@', result set and row |
| `WebSocketQueue.LibraryWebSockets.SocketCreate` | src/Client/Source/Myproject/ThirdParty/lib/HTML5/WebSocket.js:4-75 | a new instance with an empty queue, the others untouched |
| `WebSocketQueue.LibraryWebSockets.OnMessage` | src/Client/Source/Myproject/ThirdParty/lib/HTML5/WebSocket.js:28-37 | the message joins the end of its own instance's queue |
| `WebSocketQueue.LibraryWebSockets.SocketRecvLength` | src/Client/Source/Myproject/ThirdParty/lib/HTML5/WebSocket.js:99-109 | the length of the first message, 0 when there is none |
| `WebSocketQueue.LibraryWebSockets.SocketRecv` | src/Client/Source/Myproject/ThirdParty/lib/HTML5/WebSocket.js:111-121 | takes exactly the first message into memory; an undersized buffer or a write outside memory changes nothing; received ++ pending = arrived |
| `WebSocketQueue.Exchange` | src/Client/Source/Myproject/ThirdParty/lib/HTML5/WebSocket.js:4-121 | in every run over any instances, an instance handed out the messages that arrived for it, in order, one for each receive whose length and memory had room for the next one, and holds the rest |
| `WebSocketQueue.LibraryWebSockets.Drain` | src/Client/Source/Myproject/ThirdParty/lib/HTML5/WebSocket.js:99-121 | a length-then-receive loop hands out the queue in order up to its first empty message, so it empties the queue if and only if no message is empty |

## Left out

- Dbms.DBMS.Del: the count of equal times is an unbounded integer; the source's int would overflow with 2^31 entries of one second, and so would the int that Size returns.
- Timespec.GetMilliseconds: does not model deadlines whose signed product overflows (undefined in C), nor what a deadline before the epoch gives, since set_timespec never makes one.
- CallText.FollowUpIsExpected: for statements of 2^31 characters or more, whose count of cut characters is narrowed to an int, the condition is only given on the statement (`CutIsCounted`) and not on the two texts.
- WebSocketQueue.LibraryWebSockets.SocketRecv: an instance number that was never created throws in the original and is excluded here.
- DbConnect.DBConnect.LoadTableData: a null statement pointer is not modelled; the source makes a string from it before its null check.
- SqlPipeline: the vectors are values and the node objects are names there, because the locks' interleavings are the point; the objects are in WaitNodes.
- RwLock: a state machine over values for the same reason; the non-Windows branch maps directly to pthread calls.
- A result row has its two columns; a null or missing column, which the original passes to atoi, is not modelled.
- Handles are named by identity, so a reused address counts as a new handle; a handle that was made but never connected is dropped without being closed, and no leak freedom is claimed for it.
- The destructor of the connection does what Clear does and is not a separate member.
- Sockets, boost asio, the MySQL client library, the system clock and thread scheduling policies: only their answers and orders appear, as arbitrary values.
- The login node: its reply loop uses a column count as a row count, and message encoding is in files that are not part of this model.
- The Redis branch of Insert and the singleton accessors.
- The FILETIME branches of the timespec functions (compilers without struct timespec).
- Two- and four-byte signed loads, memcpy-only codecs, the bi-endian double layout and the char-pointer overloads.
- Blob messages, socket errors, close codes and sending in the socket shim.
- The Unreal client, configuration macros, error tables and instrumentation headers.
