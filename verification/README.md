# muduo examples: a Dafny model

This project models the hardest algorithms and protocols among muduo's examples and its RPC layer,
and proves what they are for.

* **Sudoku by dancing links** (`DancingLinks`, `ExactCovers`, `PoolBuilding`, `SudokuRules`,
  `SudokuEncoding`, `SudokuSolver`). A pool of nodes linked four ways is searched by unlinking and
  relinking nodes in place. The proof has three layers. The pool refines a matrix and the set of its
  uncovered columns; the search over sets is sound and complete; exact covers of the constructed
  matrix are the completions of the puzzle. The first two layers hold for any matrix.
* **The connection multiplexer** (`Multiplexer`, `MuxPackets`, `Demux`, `MuxToDemux`). Many clients share one
  backend connection. Every lock region of the threaded server is one atomic step, `send` appends to
  a FIFO, and statements are about every interleaving. `MuxToDemux` puts the two ends together.
* **RPC calls** (`RpcChannel`), as interleaved steps: take an id, send, register, receive, complete,
  handle the response.
* **Distributed word count** (`WordCount`): local aggregation, hash sharding, batching and chunked
  delivery together equal a plain count.
* **Stream codecs** (`Streams`, `TextNumbers`, `Frames`, `FastCgi`, `Hub`). One theory of decoders
  that drain a buffer gives independence from how TCP cuts the bytes; each codec adds its grammar
  and round trip.
* **The publish/subscribe hub** (`Hub`): a two-way index, and what subscribers are told.

Objects whose handlers update fields are classes; their methods are specified by functions of the
old state, and the lemmas are about those functions. Ghost fields of the solver (`mat`, `built`,
`ids`, `choice`) describe the matrix under construction.

Where the source turns out not to meet a property, the exact condition is proved and a failing input
is given: the id partition and the brackets of the multiplexer (`PartitionIffNeverStale`,
`OrderlyIffNeverTooLate`, with the runs `LateDown` and `StrayData`), completion of an RPC call
(`CompletionIffRegistered`, with the run `EarlyResponse`), termination of the frame loop
(`TerminatesIffNothingRejected`, with `CorruptFrameSpins`), and counting a line by itself
(`NumberedIffOnItsOwn`), and the assertions of the demultiplexer when ids are used again
(`EntriesServeHolders`, with `ReusedId`).

## Model

| member | source | states |
|---|---|---|
| `SudokuSolver.SolveSudoku` | muduo/examples/sudoku/sudoku.cc:259-287 | On any 81 characters: if they are all digits and a completion exists, the result is 81 digits that complete the puzzle and keep every given; otherwise the result is NoSolution. All loops and the recursion terminate. |
| `SudokuSolver.RunSolver` | muduo/examples/sudoku/sudoku.cc:275-276 | Building the matrix and searching returns true exactly when the givens have a completion, and then the board is one. |
| `SudokuSolver.ReadPuzzle` | muduo/examples/sudoku/sudoku.cc:265-271 | The board read from the characters, and that `valid` means exactly that all of them are digits. |
| `SudokuSolver.PrintBoard` | muduo/examples/sudoku/sudoku.cc:278-283 | The printed board reads back as the board. |
| `SudokuSolver.SudokuSolver.Solve` | muduo/examples/sudoku/sudoku.cc:91-129 | For any well-formed matrix in any reachable search state: true exactly when the uncovered columns have an exact cover; then the stack has gained one and the board is filled from it; when false, every link, column size, the stack and the board are as before. The number of uncovered columns decreases at each recursive call. |
| `SudokuSolver.SudokuSolver.TryRow` | muduo/examples/sudoku/sudoku.cc:115-125 | The loop body for one row: succeeds exactly when the columns this row leaves have an exact cover, else restores everything. |
| `SudokuSolver.SudokuSolver.Cover` | muduo/examples/sudoku/sudoku.cc:214-225 | The in-place unlinking reaches exactly the state that the trace of unlinks specifies. |
| `SudokuSolver.SudokuSolver.Uncover` | muduo/examples/sudoku/sudoku.cc:227-238 | Started from what covering left, it restores every link and size of the pool. |
| `SudokuSolver.SudokuSolver.UnlinkRows` | muduo/examples/sudoku/sudoku.cc:218-224 | The downward walk of `cover` returns to the header although rows are being unlinked, and performs the specified trace. |
| `SudokuSolver.SudokuSolver.RelinkRows` | muduo/examples/sudoku/sudoku.cc:229-235 | The upward walk of `uncover` performs that trace backwards. |
| `SudokuSolver.SudokuSolver.UnlinkRow` | muduo/examples/sudoku/sudoku.cc:219-223 | One row of `cover`: all nodes of the row but the first leave their columns, left to right. |
| `SudokuSolver.SudokuSolver.RelinkRow` | muduo/examples/sudoku/sudoku.cc:230-234 | One row of `uncover`: the same nodes come back, right to left. |
| `SudokuSolver.SudokuSolver.CoverOthers` | muduo/examples/sudoku/sudoku.cc:116-118 | The nested covers of a chosen row go through the states of its trace. |
| `SudokuSolver.SudokuSolver.UncoverOthers` | muduo/examples/sudoku/sudoku.cc:123-125 | The nested uncovers go back through the same states to the first. |
| `SudokuSolver.SudokuSolver.MinColumn` | muduo/examples/sudoku/sudoku.cc:197-212 | An uncovered column whose ring has at most one node or is no longer than any other. |
| `SudokuSolver.SudokuSolver.Decode` | muduo/examples/sudoku/sudoku.cc:95-104 | The rightward walk finds both the cell and the value of a row. |
| `SudokuSolver.SudokuSolver.WriteSolution` | muduo/examples/sudoku/sudoku.cc:94-108 | Every row on the stack is written to its cell, and nothing else changes. |
| `SudokuSolver.SudokuSolver.constructor` | muduo/examples/sudoku/sudoku.cc:29-89 | For any digits as givens: all rings are well linked, every column is uncovered, and the matrix encodes the puzzle: its columns are the unmet constraints, its rows exactly the allowed placements, each placement having exactly one row. |
| `SudokuSolver.SudokuSolver.Build` | muduo/examples/sudoku/sudoku.cc:39-88 | The three construction phases after the root exists, with the same conclusion; the node pool is never exhausted. |
| `SudokuSolver.ScanGivens` | muduo/examples/sudoku/sudoku.cc:39-51 | The three tables say exactly which digits each row, column and box already uses. |
| `SudokuSolver.SudokuSolver.AppendColumns` | muduo/examples/sudoku/sudoku.cc:53-68 | The appended column numbers are exactly the unmet constraints, each appended once. |
| `SudokuSolver.SudokuSolver.AppendUnitColumns` | muduo/examples/sudoku/sudoku.cc:61-66 | One round of the inner loop adds exactly the unused row, column and box constraints of a digit. |
| `SudokuSolver.SudokuSolver.AppendRows` | muduo/examples/sudoku/sudoku.cc:70-88 | Exactly the allowed placements get a row, each exactly one; at most 36 nodes are used per cell. |
| `SudokuSolver.SudokuSolver.AppendCellRows` | muduo/examples/sudoku/sudoku.cc:71-87 | After the rows of one empty cell, the rows are one for each allowed placement in the cells so far, and no others. |
| `SudokuSolver.SudokuSolver.AddOption` | muduo/examples/sudoku/sudoku.cc:78-84 | From one row for each earlier placement to one row for each placement up to this one. |
| `SudokuSolver.SudokuSolver.JoinNodes` | muduo/examples/sudoku/sudoku.cc:82-84 | Three `put_left` calls make one ring of the four nodes, in that order, and touch nothing else. |
| `SudokuSolver.SudokuSolver.AppendColumn` | muduo/examples/sudoku/sudoku.cc:154-161 | The matrix gains one column; the slot in `columns_` was free. |
| `SudokuSolver.SudokuSolver.NewRow` | muduo/examples/sudoku/sudoku.cc:163-180 | The matrix gains one node at the bottom of its column; the slot in `columns_` was set. |
| `SudokuSolver.SudokuSolver.NewColumn` | muduo/examples/sudoku/sudoku.cc:140-152 | A fresh self-linked node from the pool. |
| `SudokuSolver.SudokuSolver.InsertLeft` | muduo/examples/sudoku/sudoku.cc:240-246 | `put_left`, tied to its effect on the pool. |
| `SudokuSolver.SudokuSolver.InsertUp` | muduo/examples/sudoku/sudoku.cc:248-256 | `put_up`, tied to its effect on the pool, column and size included. |
| `DancingLinks.RelinkUndoesUnlink` | muduo/examples/sudoku/sudoku.cc:220-233 | For any node whose neighbours point back at it, relinking after unlinking gives back the identical pool. |
| `DancingLinks.RelinkHeaderUndoesUnlinkHeader` | muduo/examples/sudoku/sudoku.cc:216-237 | The same for a column in the header ring. |
| `DancingLinks.UnlinkNodesLinked` | muduo/examples/sudoku/sudoku.cc:218-224 | Any trace of live nodes leaves all rings well linked, each size equal to its ring's length, and removes exactly the trace's nodes. |
| `DancingLinks.CoverHeaderLinked` | muduo/examples/sudoku/sudoku.cc:216-217 | Unlinking a header removes exactly that column from the header ring and keeps every other ring. |
| `DancingLinks.TraceDistinct` | muduo/examples/sudoku/sudoku.cc:218-224 | Covering never unlinks a node twice. |
| `DancingLinks.CoverTrace` | muduo/examples/sudoku/sudoku.cc:218-224 | The trace holds exactly the live nodes outside column `c` of rows that hit `c`, and none of column `c`. |
| `DancingLinks.CoverRefines` | muduo/examples/sudoku/sudoku.cc:214-225 | `cover(c)` refines the set-level step: the invariant is kept, exactly column `c` leaves the header ring, and each uncovered column's ring is again exactly the rows that hit uncovered columns only; the ring of `c` itself is untouched. |
| `DancingLinks.CoverAllRefines` | muduo/examples/sudoku/sudoku.cc:116-118 | The same for any sequence of covers of different columns. |
| `ExactCovers.BranchComplete` | muduo/examples/sudoku/sudoku.cc:112-126 | If the uncovered columns have an exact cover at all, some row on the ring of any chosen column leads to one. |
| `ExactCovers.ExtendCover` | muduo/examples/sudoku/sudoku.cc:115-121 | A row plus an exact cover of the columns it leaves is an exact cover. |
| `ExactCovers.DropRow` | muduo/examples/sudoku/sudoku.cc:115-121 | Taking a row out of an exact cover leaves an exact cover of the remaining columns. |
| `ExactCovers.LiveRow` | muduo/examples/sudoku/sudoku.cc:114-118 | A row found on an uncovered column's ring hits uncovered columns only, each once. |
| `ExactCovers.ChooseRow` | muduo/examples/sudoku/sudoku.cc:113-118 | Covering the chosen column and the row's other columns leaves exactly the columns the row does not hit. |
| `PoolBuilding.AppendColumnBuilds` | muduo/examples/sudoku/sudoku.cc:154-161 | Appending a column keeps the half-built pool well linked and adds exactly that column. |
| `PoolBuilding.NewNodeBuilds` | muduo/examples/sudoku/sudoku.cc:163-180 | A new node keeps it well linked and lengthens exactly its column's ring and size. |
| `PoolBuilding.JoinBuilds` | muduo/examples/sudoku/sudoku.cc:82-84 | Joining four nodes makes one row of them and keeps everything else. |
| `PoolBuilding.JoinedRing` | muduo/examples/sudoku/sudoku.cc:82-84 | After the joins, reading right from any of the four nodes gives the same row. |
| `PoolBuilding.BuiltIsInv` | muduo/examples/sudoku/sudoku.cc:29-89 | A finished pool satisfies the search invariant with every column uncovered. |
| `SudokuRules.NamesApart` | muduo/examples/sudoku/sudoku.cc:22-24 | Column numbers of the four kinds never collide and determine unit and digit; `name % 10` is the digit. |
| `SudokuRules.OntoIsDistinct` | muduo/examples/sudoku/sudoku.cc:39-88 | Nine cells that show all nine digits show no digit twice. |
| `SudokuRules.DistinctIsOnto` | muduo/examples/sudoku/sudoku.cc:39-88 | Nine different digits are all nine digits. |
| `SudokuRules.CoverIsCompletion` | muduo/examples/sudoku/sudoku.cc:53-88 | Placements that meet every unmet constraint exactly once complete the puzzle, whatever the givens; so contradictory givens admit none. |
| `SudokuRules.CompletionIsCover` | muduo/examples/sudoku/sudoku.cc:53-88 | The placements of a completion meet every unmet constraint exactly once. |
| `SudokuRules.CoversAreCompletions` | muduo/examples/sudoku/sudoku.cc:53-88 | For sets of placements, the two translations are each other's inverse. |
| `SudokuEncoding.CoverChoosesExactly` | muduo/examples/sudoku/sudoku.cc:53-88 | An exact cover of the built matrix chooses placements that meet every constraint once, in different cells. |
| `SudokuEncoding.CoverSolves` | muduo/examples/sudoku/sudoku.cc:94-108 | Writing an exact cover to the board completes the puzzle. |
| `SudokuEncoding.CompletionSolves` | muduo/examples/sudoku/sudoku.cc:70-88 | Every completion has an exact cover of the built matrix that writes exactly this completion to the board. |
| `SudokuEncoding.CoversDiffer` | muduo/examples/sudoku/sudoku.cc:70-108 | Two exact covers of the built matrix write the same board if and only if they choose the same rows; with the row above, covers and completions correspond one-to-one. |
| `SudokuEncoding.SolvableIffCompletable` | muduo/examples/sudoku/sudoku.cc:29-89 | The matrix has an exact cover if and only if the givens have a completion. |
| `SudokuEncoding.WithOptionEncodes` | muduo/examples/sudoku/sudoku.cc:78-84 | Adding the row of an allowed placement that has none keeps the encoding, rows staying one for each placement; the placements with rows grow by exactly that one. |
| `Multiplexer.PartitionIffNeverStale` | muduo/examples/multiplexer/multiplexer.cc:151-196 | In any run, the id partition holds in every state if and only if no client that got its id in one backend session releases it while a later session is up. |
| `Multiplexer.EveryRunBasic` | muduo/examples/multiplexer/multiplexer.cc:192-251 | In every run, backend down implies that the free queue and the client table are empty (so the assertions at lines 194, 195 and 229 hold), and ids stay in range. |
| `Multiplexer.PartitionStep` | muduo/examples/multiplexer/multiplexer.cc:151-196 | A step from a good state keeps the partition exactly when it is not a stale release. |
| `Multiplexer.NoSharedId` | muduo/examples/multiplexer/multiplexer.cc:151-160 | While the partition holds no two live clients share an id. |
| `Multiplexer.RefusedIffFull` | muduo/examples/multiplexer/multiplexer.cc:150-166 | With the backend up, a new client gets an id of the open session, which nobody uses, if and only if fewer than kMaxConns clients use one; else it is refused. |
| `Multiplexer.IdsInTurn` | muduo/examples/multiplexer/multiplexer.cc:156-157 | In every run, the ids given since the backend came up followed by the free queue are 1..kMaxConns followed by the ids given back since, so an id is used again only after all that were free before it. |
| `Multiplexer.OrderlyIffNeverTooLate` | muduo/examples/multiplexer/multiplexer.cc:149-251 | In every interleaving of the lock regions, all three hold throughout the run if and only if no client releases its id in, or sends to, a later session than the one it got its id in: the partition holds; each session's stream, restricted to one id, reads (UP data* DOWN)* with at most one bracket open at the end, by one client for each bracket; and that client got the id in that session. |
| `Multiplexer.PatientRunOrderly` | muduo/examples/multiplexer/multiplexer.cc:149-251 | If the backend returns only after every client of the previous session is down, all three hold throughout the run. |
| `Multiplexer.DataFollowsOwnUp` | muduo/examples/multiplexer/multiplexer.cc:149-211 | In such a stream every data or DOWN packet follows an UP of the same client with nothing but that client's data in between, so bytes of a previous holder never follow the next holder's UP. |
| `Multiplexer.LateDown` | muduo/examples/multiplexer/multiplexer.cc:186-233 | A run in which the backend returns early and a late DOWN breaks the partition. |
| `Multiplexer.StrayData` | muduo/examples/multiplexer/multiplexer.cc:80-86 | A run in which the backend returns early and a late client's data breaks the bracket of its id on the new stream. |
| `Multiplexer.MultiplexServer.OnClientUp` | muduo/examples/multiplexer/multiplexer.cc:151-160 | The allocating lock region. |
| `Multiplexer.MultiplexServer.OnClientDown` | muduo/examples/multiplexer/multiplexer.cc:186-196 | The releasing lock region. |
| `Multiplexer.MultiplexServer.OnBackendUp` | muduo/examples/multiplexer/multiplexer.cc:225-234 | The free queue gains 1..kMaxConns in order. |
| `Multiplexer.MultiplexServer.OnBackendDown` | muduo/examples/multiplexer/multiplexer.cc:235-251 | Both tables are emptied; exactly the clients in the table are to be shut down. |
| `MuxPackets.PacketsRoundTrip` | muduo/examples/multiplexer/demux.cc:82-118 | Any packets of 1 to 255 bytes with ids 0..65535, in any TCP chunks, are decoded as sent, with nothing left over. |
| `MuxPackets.PacketLayout` | muduo/examples/multiplexer/multiplexer.cc:72-77 | A packet is its length, its id with the lower byte first, and its payload. |
| `MuxPackets.EmptyPacketWaits` | muduo/examples/multiplexer/demux.cc:84-92 | A packet without payload, which the multiplexer never sends, stays in the buffer until something follows it. |
| `MuxPackets.CutKeeps` | muduo/examples/multiplexer/multiplexer.cc:97-110 | Cutting a buffer loses and reorders nothing, and every piece fits a packet and is not empty. |
| `MuxPackets.EachClientsBytes` | muduo/examples/multiplexer/multiplexer.cc:97-142 | Packets of different ids interleaved in any way and decoded under any chunking give back each id's bytes in order. |
| `MuxPackets.SendBackendPacket` | muduo/examples/multiplexer/multiplexer.cc:68-77 | The three-byte header, little-endian id, in front of the payload. |
| `MuxPackets.SendBackendBuffer` | muduo/examples/multiplexer/multiplexer.cc:97-110 | The loop sends exactly the pieces of the cut and empties the buffer. |
| `MuxPackets.SendToClient` | muduo/examples/multiplexer/multiplexer.cc:112-142 | Every complete packet goes to whoever holds its id at the moment it is looked up, packets of unknown ids are dropped, an incomplete packet stays in the buffer. |
| `MuxPackets.HolderGetsItsBytes` | muduo/examples/multiplexer/multiplexer.cc:126-138 | A client that keeps its id while packets are handed out is sent exactly the payloads of that id, in order. |
| `Demux.CommandRoundTrip` | muduo/examples/multiplexer/multiplexer.cc:169-184 | The demultiplexer reads back the id and the UP or DOWN of every command the multiplexer formats, for addresses without a capital I. |
| `Demux.DemuxServer.DoCommand` | muduo/examples/multiplexer/demux.cc:120-156 | UP creates an entry; DOWN erases an unconnected one and leaves a connected one. |
| `Demux.DemuxServer.OnPacket` | muduo/examples/multiplexer/demux.cc:96-114 | Data goes to the connection or to the pending buffer, commands to `doCommand`. |
| `Demux.DemuxServer.OnServerMessage` | muduo/examples/multiplexer/demux.cc:82-118 | The loop handles exactly the complete packets in the buffer, in order, and leaves the rest. |
| `Demux.DemuxServer.OnSocksUp` | muduo/examples/multiplexer/demux.cc:161-169 | The connection is set and the pending bytes are handed over. |
| `Demux.DemuxServer.OnSocksDown` | muduo/examples/multiplexer/demux.cc:170-184 | The entry is erased only when the server connection is gone. |
| `Demux.DemuxServer.OnServerDown` | muduo/examples/multiplexer/demux.cc:70-79 | Is the event that ends a session: the table becomes empty. |
| `Demux.SessionsApart` | muduo/examples/multiplexer/demux.cc:70-79 | Sessions with the server connection lost in between are accepted if and only if each is accepted from an empty table, and the table is then that of the last session alone. |
| `Demux.NothingWithoutServer` | muduo/examples/multiplexer/demux.cc:172-183 | Without a server connection there is no entry, so no socks connection can report and the erasing branch is never taken. |
| `Demux.EntryAccounts` | muduo/examples/multiplexer/demux.cc:96-109 | In every run, the bytes handed to an entry's connection followed by its pending bytes are all payloads received for the id since its UP, and a connected entry has nothing pending, so the assertion at line 102 holds. |
| `MuxToDemux.EntriesServeHolders` | muduo/examples/multiplexer/demux.cc:56-169 | The same over several sessions with the server connection lost in between: accepted throughout if and only if no session opens an id again in that way, and in the last session each entry serves the present holder of its id, whatever the sessions before. |
| `MuxToDemux.EntryServesHolder` | muduo/examples/multiplexer/demux.cc:82-169 | One session of a run in which no client acts on a later session than its own: its stream arrives up to any packet, in any TCP chunks, mixed in any way with socks connection events. The assertions of the demultiplexer hold if and only if no id is opened again once its socks connection has come up; and then, for every id in use, the entry's bytes are exactly those that its present holder has fetched for this session and sent, in order, up to the step at which the stream was what has arrived. |
| `MuxToDemux.StreamCarriesSentData` | muduo/examples/multiplexer/multiplexer.cc:68-110 | In every run, a client's data on a session's stream are exactly the bytes of those packets that it fetched while that session was open and then sent, in order; the right side is read off the steps of the run alone. |
| `MuxToDemux.AcceptedNeverReopens` | muduo/examples/multiplexer/demux.cc:129-155 | An entry whose socks connection has come up is not erased while the server connection is up, so opening its id again always trips the assertion. |
| `MuxToDemux.ReusedId` | muduo/examples/multiplexer/demux.cc:129-155 | Such a stream, for any addresses: its brackets are whole, and the assertion at line 129 fails. |
| `MuxToDemux.Follows` | muduo/examples/multiplexer/demux.cc:96-156 | For any stream with whole brackets and no id opened again, every event is accepted and every entry accounts for the data since the UP. |
| `MuxToDemux.HolderData` | muduo/examples/multiplexer/multiplexer.cc:169-211 | In a stream with whole brackets, the data since the UP of an id that is held are all the data its holder sent. |
| `MuxToDemux.EveryRunPortable` | muduo/examples/multiplexer/multiplexer.cc:70-76 | In every run each packet's id and size fit the wire format, and each client announces itself at most once. |
| `RpcChannel.EveryRunSafe` | muduo/muduo/net/protorpc/RpcChannel.cc:44-126 | In every interleaving, stray and repeated responses included: ids are distinct, each `done` runs at most once, only after registration and only on a response with its call's own id. |
| `RpcChannel.UnknownIdIgnored` | muduo/muduo/net/protorpc/RpcChannel.cc:82-90 | A response with an unknown or already answered id runs nothing and changes neither calls nor table. |
| `RpcChannel.EveryRunOnce` | muduo/muduo/net/protorpc/RpcChannel.cc:44-155 | When all responses come from the services, a message with a given id is in at most one place, requests and answers stay with their calls, `done` gets the answer to its call's own request, and a registered call that is not done is in the table. |
| `RpcChannel.NothingLost` | muduo/muduo/net/protorpc/RpcChannel.cc:57-155 | In every run, each request that was sent and not dropped for want of a service or method is somewhere: on its way, being served, or its answer on its way or handled. |
| `RpcChannel.QuietMeansDone` | muduo/muduo/net/protorpc/RpcChannel.cc:44-155 | When nothing is on its way or being served, every such call has had its response handled at some step; `done` has run exactly once if and only if the call was registered before that step, with the text with which the service completed just what the call had asked, both read off the steps. |
| `RpcChannel.CompletionIffRegistered` | muduo/muduo/net/protorpc/RpcChannel.cc:57-126 | For any run and any step that handles the response to a call: `done` runs exactly once, on that response, which is the server's answer to that very request, if and only if the registering step of the call comes earlier in the run; else `done` never runs, however the run continues, and a call registered too late stays in the table. |
| `RpcChannel.EarlyResponse` | muduo/muduo/net/protorpc/RpcChannel.cc:57-61 | A run, for any request and answer, in which the response is handled before the call is registered, and `done` never runs. |
| `RpcChannel.RpcChannel.NextId` | muduo/muduo/net/protorpc/RpcChannel.cc:52 | Is the step of the runs that gives a call its id. |
| `RpcChannel.RpcChannel.Register` | muduo/muduo/net/protorpc/RpcChannel.cc:59-61 | Is the registering step of the runs. |
| `RpcChannel.RpcChannel.TakeOutstanding` | muduo/muduo/net/protorpc/RpcChannel.cc:82-90 | Is the handling step of the runs, and finds a call exactly when that step runs its `done`. |
| `Frames.FramesRoundTrip` | muduo/examples/protobuf/codec/codec.cc:22-145 | Any sequence of messages within the length limit, framed and fed in any chunks, is delivered exactly once each, in order and unchanged; only an incomplete suffix stays buffered. |
| `Frames.OneByteDetected` | muduo/examples/protobuf/codec/codec.cc:164-210 | Changing any single byte of a frame body of any length, checksum bytes included, makes `parse` report a checksum error. |
| `Frames.OneByteChangesCheckSum` | muduo/examples/protobuf/codec/codec.cc:46-50 | Changing one byte of any string changes its Adler-32 (section 2.2 of RFC 1950). |
| `Frames.AdlerClosed` | muduo/examples/protobuf/codec/codec.cc:46-50 | The checksum is that of RFC 1950 in closed form: one plus the sum of the bytes in the lower half, and the sum of all the partial sums in the upper half, both modulo 65521. |
| `Frames.TerminatesIffNothingRejected` | muduo/examples/protobuf/codec/codec.cc:119-144 | The receive loop terminates on a buffer if and only if the buffer is not some acceptable frames with a rejected frame behind them: a rejected frame is neither consumed nor followed by leaving the loop. |
| `Frames.CorruptFrameSpins` | muduo/examples/protobuf/codec/codec.cc:119-144 | For any message, any position in its frame body and any wrong byte there, the loop never terminates, whatever messages come before and whatever bytes after. |
| `Frames.BadLengthSpins` | muduo/examples/protobuf/codec/codec.cc:121-125 | So does any length outside the limits, negative ones included, whatever messages come before and whatever bytes after. |
| `Frames.OnMessage` | muduo/examples/protobuf/codec/codec.cc:115-145 | The loop delivers exactly the acceptable frames up to the first incomplete or rejected one; `stuck` is returned exactly where the source would spin. |
| `Frames.FillEmptyBuffer` | muduo/examples/protobuf/codec/codec.cc:22-54 | The buffer holds the frame: length, body, checksum of the body. |
| `Frames.FrameLayout` | muduo/examples/protobuf/codec/codec.cc:22-54 | Length, content and checksum are where they belong, in network byte order. |
| `Frames.Be32RoundTrip` | muduo/examples/protobuf/codec/codec.cc:108-113 | Four big-endian bytes read back as the number, signed and unsigned. |
| `Frames.BodyParses` | muduo/examples/protobuf/codec/codec.cc:164-213 | `parse` undoes the framing of a body. |
| `Frames.ProtobufGood` | muduo/examples/protobuf/codec/codec.cc:164-213 | The named-message format meets the frame theory's demands. |
| `Frames.NamedResult` | muduo/examples/protobuf/codec/codec.cc:176-205 | Content that is a name and data is a message if the type is known and the data can be parsed, an unknown message type if the type is not known, and a parse error otherwise. |
| `Frames.InvalidNameIff` | muduo/examples/protobuf/codec/codec.cc:176-205 | It is an invalid name length exactly if it is not a name and data. |
| `Frames.RpcGood` | muduo/muduo/net/protorpc/RpcCodec.cc:33-189 | So does the RPC format with its RPC0 tag. |
| `Frames.RpcResult` | muduo/muduo/net/protorpc/RpcCodec.cc:162-186 | RPC content is an unknown message type exactly if it does not begin with RPC0, a parse error exactly if what follows cannot be parsed, and else the message. |
| `FastCgi.RequestRoundTrip` | muduo/examples/fastcgi/fastcgi.cc:46-247 | A request whose pairs are split at any points into PARAMS records and whose input is split into STDIN records, with any padding, with any records of other kinds in between, under any chunking, triggers the callback exactly once, with the last-wins map of the pairs and the whole input. The keep-connection flag is then that of a responder's BEGIN_REQUEST record of at least 8 bytes, else unchanged, and nothing else is left behind. |
| `FastCgi.ConnectionRoundTrip` | muduo/examples/fastcgi/fastcgi.h:27-44 | Requests one after the other, each beginning with a chunk of its own: one callback for each, in order, unaffected by the others. |
| `FastCgi.OthersIgnored` | muduo/examples/fastcgi/fastcgi.cc:204-213 | Records of other kinds change nothing. |
| `FastCgi.OneCallback` | muduo/examples/fastcgi/fastcgi.h:27-44 | Whatever the chunking, the records of one request trigger one callback with the state they add up to, and leave the codec fresh. |
| `FastCgi.PairsRoundTrip` | muduo/examples/fastcgi/fastcgi.cc:72-93 | Any list of pairs, with one- or four-byte lengths, decodes to the map in which the last value of a name wins (section 3.4 of the FastCGI Specification). |
| `FastCgi.LastWinsMeaning` | muduo/examples/fastcgi/fastcgi.cc:84-85 | In that map the value at a name is the value of the last pair with that name, and there are no names but those of the pairs. |
| `FastCgi.ParseMeaning` | muduo/examples/fastcgi/fastcgi.cc:72-120 | Any stream whatsoever is some pairs and a tail that does not start with a pair; the parser puts the pairs into the map, and succeeds if and only if the tail is empty. |
| `FastCgi.LengthsDoNotWrap` | muduo/examples/fastcgi/fastcgi.cc:76-82 | Two lengths never wrap 32 bits when added and never equal the error value. |
| `FastCgi.ReadLenEncoded` | muduo/examples/fastcgi/fastcgi.cc:95-120 | `readLen` undoes both encodings of a length. |
| `FastCgi.FastCgiCodec.TakeLen` | muduo/examples/fastcgi/fastcgi.cc:95-120 | The length is taken off the stream, or -1 is returned and nothing is taken. |
| `FastCgi.FastCgiCodec.ParseAllParams` | muduo/examples/fastcgi/fastcgi.cc:72-93 | The loop computes the parse of the stream, partial results of a failure included. |
| `FastCgi.FastCgiCodec.HandleRecord` | muduo/examples/fastcgi/fastcgi.cc:191-213 | One record's effect on the codec. |
| `FastCgi.FastCgiCodec.ParseRequest` | muduo/examples/fastcgi/fastcgi.cc:180-222 | Exactly the complete records are handled, in order. |
| `FastCgi.FastCgiCodec.OnMessage` | muduo/examples/fastcgi/fastcgi.h:27-44 | Callback and reset, and shutdown exactly after a request without keep-alive. |
| `FastCgi.RecordDecodes` | muduo/examples/fastcgi/fastcgi.cc:182-214 | A record's header, content and padding are recognised whatever follows. |
| `FastCgi.RecordLayout` | muduo/examples/fastcgi/fastcgi.cc:124-168 | The fields of a record are those of section 3.3, numbers with the upper byte first. |
| `FastCgi.Respond` | muduo/examples/fastcgi/fastcgi.cc:155-178 | Below 65536 bytes with room for the header the buffer becomes three records; otherwise only the two closing records are appended. |
| `FastCgi.EndResponse` | muduo/examples/fastcgi/fastcgi.cc:124-153 | The two closing records. |
| `FastCgi.ResponseDecodes` | muduo/examples/fastcgi/fastcgi.cc:155-178 | The response decodes to the content, the end of stdout and the end of the request (section 3.3). |
| `FastCgi.ResponseAligned` | muduo/examples/fastcgi/fastcgi.cc:159-171 | Each of the three records is a multiple of eight bytes long. |
| `WordCount.DistributedCount` | muduo/examples/wordcount/receiver.cc:55-76 | When all senders have finished and their bytes have arrived, in any chunks and interleaving, receiver `k` of `n` has for each word with hash mod n = k the number of its occurrences in all files of all senders, and every other word is absent. What a finished sender has sent is what `SendFiles` concludes. |
| `WordCount.SendFiles` | muduo/examples/wordcount/hasher.cc:145-152 | A whole sender, under any batch size and map limit: after all its files and the disconnecting, every receiver has been sent exactly its shard of records that add up to the words of all the files, and no batch is left over. |
| `WordCount.DisconnectAll` | muduo/examples/wordcount/hasher.cc:145-152 | Everything handed over for any receiver has been sent. |
| `WordCount.CountOfShards` | muduo/examples/wordcount/receiver.cc:55-76 | What a receiver counts that has been sent its shards of the senders' records. |
| `WordCount.ProcessFile` | muduo/examples/wordcount/hasher.cc:186-215 | Under any batch size and map limit, the records handed to the buckets add up to the words of this file and those before, and each bucket gets exactly its shard, as lines. |
| `WordCount.CountSome` | muduo/examples/wordcount/hasher.cc:197-205 | The reading loop counts the words it has consumed and stops exactly at the end or when the map has become too large. |
| `WordCount.SendCounts` | muduo/examples/wordcount/hasher.cc:208-213 | Every counted word is sent once, with its count. |
| `WordCount.SendOne` | muduo/examples/wordcount/hasher.cc:211-212 | One record reaches the bucket of its hash and no other. |
| `WordCount.SendThrottler.Send` | muduo/examples/wordcount/hasher.cc:58-71 | One more line, at once or kept; a full batch leaves and nothing leaves before the batch is full. |
| `WordCount.SendThrottler.Disconnect` | muduo/examples/wordcount/hasher.cc:47-56 | Everything handed over has been sent. |
| `WordCount.WordCountReceiver.OnLine` | muduo/examples/wordcount/receiver.cc:63-74 | One line adds to its word the number that `atoll` finds behind the tab, which may be beyond the line and beyond the buffer; a line without a tab adds nothing and is reported. |
| `WordCount.WordCountReceiver.OnMessage` | muduo/examples/wordcount/receiver.cc:55-76 | The loop does this for exactly the complete lines, with what lies behind each, and leaves the rest. |
| `WordCount.NumberedIffOnItsOwn` | muduo/examples/wordcount/receiver.cc:63-68 | What a line counts is independent of the bytes behind it if and only if it has no tab or something other than white space after the tab. |
| `WordCount.ReceiveIsByLine` | muduo/examples/wordcount/receiver.cc:55-76 | If every complete line has its number, the receiver's state depends on the lines alone, whatever memory lies behind the buffer. |
| `WordCount.ReceivedTally` | muduo/examples/wordcount/receiver.cc:55-76 | However the chunks of several senders interleave, if every complete line has its number the map holds exactly the tally of the complete lines. |
| `WordCount.ShardSum` | muduo/examples/wordcount/hasher.cc:208-213 | Sharding keeps every word's total in its own bucket. |
| `Hub.CallbackToldExactly` | muduo/examples/hub/hub.cc:29-190 | In every run of byte chunks on any connections, when the bytes sent to a client have arrived, in any chunks, its callback has been told, in order: every publication on a topic while it was subscribed, and the current content of a topic whenever it subscribed to one that had been published; nothing else, nothing twice. The right side is read off the events in everybody's bytes alone. |
| `Hub.SubscriberUpToDate` | muduo/examples/hub/hub.cc:29-61 | In every run of byte chunks on any connections, once the bytes sent to an audience member have arrived, in any chunks, the last thing its callback was told about a published topic is the topic's current content. |
| `Hub.EveryByteRun` | muduo/examples/hub/hub.cc:90-152 | In every run of byte chunks, with one buffer for each open connection and the periodic internal publication, audiences and subscription sets are each other's inverse, audience members were last sent the current content, and everything published or sent can be printed. |
| `Hub.EveryByteRunReflects` | muduo/examples/hub/hub.cc:90-190 | In every such run the audiences, the published contents and what everybody has been told are those of the events in the bytes. |
| `Hub.EveryoneToldExactly` | muduo/examples/hub/hub.cc:29-61 | The same for runs of events. |
| `Hub.AsksServed` | muduo/examples/hub/pubsub.cc:38-56 | What a client asks for in clean text, by subscribing, unsubscribing and publishing, is what the hub takes it to ask for. |
| `Hub.EveryState` | muduo/examples/hub/hub.cc:90-190 | In every run a connection is in a topic's audience exactly when the topic is in its subscription set, and every audience member was last sent the current content. |
| `Hub.ClosedIsGone` | muduo/examples/hub/hub.cc:96-106 | A closed connection is in no audience. |
| `Hub.ServeKeeps` | muduo/examples/hub/hub.cc:109-146 | Whatever bytes a connection sends, the index, the currency of what was sent and the printability of topics and contents are kept. |
| `Hub.ServeInChunks` | muduo/examples/hub/hub.cc:109-146 | While the connection is not shut down, the hub's state depends only on the concatenated bytes. |
| `Hub.PubSubServer.OnMessage` | muduo/examples/hub/hub.cc:109-146 | The loop serves commands up to the first unknown one, and shuts down after it or after a line without a space. |
| `Hub.PubSubServer.DoSubscribe` | muduo/examples/hub/hub.cc:154-162 | Both sides of the index change, and a published topic's content is sent. |
| `Hub.PubSubServer.DoUnsubscribe` | muduo/examples/hub/hub.cc:164-172 | Both sides of the index change. |
| `Hub.PubSubServer.DoPublish` | muduo/examples/hub/hub.cc:174-180 | The content is stored and sent to exactly the audience, once each. |
| `Hub.PubSubServer.GetTopic` | muduo/examples/hub/hub.cc:182-190 | A topic is created when it is first named. |
| `Hub.PubSubServer.OnConnectionUp` | muduo/examples/hub/hub.cc:92-95 | Is the opening step of the runs for a connection the hub has not seen: it has an empty subscription set, and no other connection changes. |
| `Hub.PubSubServer.OnConnectionDown` | muduo/examples/hub/hub.cc:96-106 | The connection leaves the audience of every topic it had. |
| `Hub.ParseMessage` | muduo/examples/hub/codec.cc:7-52 | Success, error and continue occur exactly where the grammar says; only success consumes bytes. |
| `Hub.Grammar` | muduo/examples/hub/codec.cc:7-52 | The parser finds a message exactly if the buffer begins with it (command up to the first space, topic up to the line end, and one more line for a publication), and reports an error exactly if the first line has no space; else it waits. |
| `Hub.ClientOnMessage` | muduo/examples/hub/pubsub.cc:75-98 | The callback, if there is one, is told exactly the publications among the complete messages, in order; garbage shuts the connection down. |
| `Hub.MessagesRoundTrip` | muduo/examples/hub/pubsub.cc:38-56 | Messages with CRLF-free topics and contents survive printing, any chunking, and parsing. |
| `Hub.DirtyNeverSurvives` | muduo/examples/hub/codec.cc:7-52 | Conversely no parsed topic or content contains CRLF. |
| `Hub.NotesArrive` | muduo/examples/hub/hub.cc:58-61 | What the hub sends to a subscriber, its callback is told, in order and unchanged. |
| `Streams.ChunkingIrrelevant` | muduo/muduo/net/protorpc/RpcCodec.cc:66-98 | For any stable decoder, feeding chunks one by one delivers the same messages and leaves the same bytes as feeding them at once. |
| `Streams.StreamRoundTrip` | muduo/muduo/net/protorpc/RpcCodec.cc:33-98 | For any stable decoder that recognises an encoder's messages, encoding, chunking in any way and decoding is the identity. |
| `TextNumbers.AtoiPrinted` | muduo/examples/wordcount/hasher.cc:62-64 | A printed number reads back, whatever non-digit follows. |
| `TextNumbers.SearchStable` | muduo/examples/wordcount/receiver.cc:57-58 | The first line end found stays the first when more bytes arrive. |

## Left out

- Sockets, event loops, pollers, threads, timers and logging; `send` is an atomic append to a FIFO.
- `Buffer` and `TcpConnection` internals: a buffer is a byte queue with append, prepend and retrieve.
- Sudoku: `solve` needs every row of the matrix to carry a cell label and a digit label, as all constructed rows do; `char` arithmetic is done on code points.
- Sudoku: nested loops of the constructor, `solve`, `cover` and `uncover` are methods of their own; the pool's pointers are indices into the node array.
- Multiplexer: the single-threaded server (`multiplexer_simple.cc`) is the special case in which the steps of a handler are not interleaved; its DISCONNECT command only shuts a client down and is not modelled; shutting down clients after backend loss is their later DOWN step; statistics are left out.
- Multiplexer: in the protocol's streams UP and DOWN are packets of the client's id; on the wire they are text commands on id 0, which `CommandRoundTrip` and `EntryServesHolder` relate to that id.
- MuxToDemux.EntryServesHolder: socks connections report about known entries, as the source asserts; addresses have at most 200 bytes and no capital I.
- Demux: the socks client's name; the bytes from the socks side, which are cut exactly as the multiplexer cuts a client's.
- Demux.DemuxServer.OnServerMessage: requires what the source asserts of its peer (UP for an unknown id, DOWN and data for a known one).
- Demux.CommandRoundTrip: `snprintf` into 256 bytes is not truncated by an address; IPv4 addresses and ports have no letters.
- RPC: ids are unbounded; one connection; parsing of the response body and deletion of objects are not modelled; a request for an unknown service or method is dropped, as in the source.
- Protobuf serialization and reflection are an abstract encoder with its inverse; Adler-32 is the RFC 1950 definition rather than zlib's code.
- Frames.OnMessage: error callbacks do nothing but leave the frame where it is, as the default one does; the place where the loop would spin is reported by `stuck`.
- FastCgi.Respond: responses of 65536 bytes or more are not framed, which the source marks as unfinished; room in front of the buffer is a parameter.
- FastCGI: several requests in one buffer, and request ids, which the source does not look at.
- WordCount: counts are unbounded; the memory behind the receiver's buffer is a parameter; the hash is any function; waiting while the connection is congested and the receiver's output file are left out.
- Hub.PubSubServer.OnConnectionDown: drains a snapshot of the subscription set; the source walks the very set it erases from.
- Hub: a topic is valid once something has been published on it; connections are not reused after they close; a connection the hub has shut down is still read, but nothing more reaches its client.
- The curl and c-ares bridges, SOCKS4a and relay, echo, discard, daytime, time, chargen, finger, pingpong, zeromq, netty, shorturl, the Sudoku servers and the remaining examples would only add easy members or I/O.
