# Verified models of the client's algorithmic core

The repository is a Windows bookmark client. Most of it is user interface and Win32 plumbing, but it
carries several self-contained algorithms, and those are what this project models and proves:

* **Inflate** (`src/Utility/XUnzip.cpp`). The canonical Huffman table builder `huft_build`, the bit
  buffer, the 32K sliding window with its slow and fast copies, and the resumable decoder
  `inflate_codes` with its inner loop `inflate_fast`. The reference is RFC 1951: sections 3.1.1, 3.2.2,
  3.2.5 and 3.2.7. Modules `Bits`, `Bitwise`, `Canonical`, `CodeLengths`, `HuffmanTables`, `TableSpace`,
  `TableFill`, `HuftBuild`, `HuftSpace`, `DeflateCodes`, `InflateTrees`, `Window`, `BitReader`, `InflateSpec`, `InflateMachine`, `InflateCodes`.
* **Shared-cache locking** (`btmutex.c`). Any number of connections as interleaved steps. Modules
  `BtMutex`, `BtMutexProof`, `BtMutexTheorems`, `BtMutexRuns`, `BtMutexProgress`, `BtMutexArray`.
* **Bitvec** (`bitvec.c`), module `Bitvec`, and the **FTS3 hash table** (`fts3_hash.c`), module
  `Fts3Hash`: linked, self-reorganising heap structures against a set and a map. Which allocations succeed
  is an input (module `Memory`), so that what happens without memory is stated exactly.
* **ANALYZE** (`analyze.c`). The program the code generator emits, a machine that runs it, what the run
  leaves behind, and what the loader reads back. Modules `Vdbe`, `Analyze`, `AnalyzeReport`,
  `AnalyzeEmit`, `AnalyzeStats`, `AnalyzeLoad`.
* **Julian days** (`date.c`), module `JulianDay`; **MD5 streaming** (`MD5Checksum.cpp`), module `Md5`;
  **DROP TABLE page order** and **column affinity** (`build.c`), modules `DestroyTable` and `Affinity`;
  **Adler-32**, **CRC-32**, the **central-directory search** and the **TxConfig file**, modules
  `Adler32`, `Crc32`, `CrcTable`, `CrcConstants`, `ZipScan`, `TxConfig`.

Code that changes state step by step is modelled by classes and methods with loops; each is tied to a
value-level definition, and the laws are proved about that definition. `dafny verify dfyconfig.toml`
checks everything.

## Where the code does less than its purpose suggests

* `huft_build` can make a table with more than `l` bits when a code is incomplete and its lengths jump by
  more than a whole level. Some entries of such a table are never written, and a stream exists that makes
  the decoder read one. `HuftBuild.Gap` is the exact condition on the lengths: in a space that is empty, as
  the allocator clears it, the tables decode if and only if there is no gap. The lengths 1 to 6 and 13 with
  6-bit tables are an input that fails: `HuftSpace.BuildJump` shows that 320 entries are taken, the result is
  the one for incomplete codes, and the tables do not decode. None of the callers in the file accepts such
  a code (`InflateTrees.NoGapForCallers`).
* `computeJD` and `computeYMD` cut quotients off toward zero where the calendar needs rounding down.
  `JulianDay.RoundTrip` says for every date and time of day when it comes back: not before the March-based
  year -4716, not in a century before 0 that is no leap year, not on March 1 of the year 300 (it comes back
  as February 29, which that year does not have), and below day number zero only at midnight. From the
  year 0 on March 1 of the year 300 is the only exception.
* `sqlite3BtreeMutexArrayEnter` keeps the locking order during a call if and only if at the call every mutex
  held is smaller than every entry of the array that is not (`BtMutexRuns.ArrayOrderIff`); for calls that
  never return `BtMutexRuns.ArrayMoment` says at which moments it is lost.
  `BtMutexTheorems.UnguardedArrayDeadlocks` is a run of two connections that deadlocks otherwise.
* `MakeConfig` cuts the length of a key off to 16 bits. The buffer is filled to its computed size if and only
  if every key has fewer than 32768 characters and every value fewer than 2^32 bytes. A key of 32768
  characters is written with length 0 and read back as the empty key (`TxConfig.LongKeyIsLost`).
* `inflate_codes` says of its END mode that all data have been flushed. When `inflate_fast` meets the end of
  the block and the caller has too little room, Z_STREAM_END is returned in mode WASH with bytes still
  pending (`InflateCodes.Codes.StepStart` and `InflateCodes.Codes.Run`). They are in the window, and the
  calls that follow deliver them (`InflateCodes.Drive`).
* MD5's `Update` compares a 32-bit index that wraps around on inputs just below 2^32 bytes and then reads
  on behind the input (`Md5.WrapGoesOn`, and `Md5.WrapExample` for one byte followed by 2^32 - 1);
  `Md5.NoWrap` is the exact condition.

In analyze.c the first field of the record uses the register that also holds the last observed value of
the last column, and with no columns at all it would overwrite the row count. Indices have at least one
column, and the run theorems say so (`j.n > 0`).

## Model

| member | source | states |
|---|---|---|
| `Canonical.KraftBySymbol` | src/Utility/XUnzip.cpp:1754-1795 | the Kraft sum over the symbols is the sum over the counts per length |
| `CodeLengths.CountLengths` | src/Utility/XUnzip.cpp:1754-1769 | the counts of every length |
| `CodeLengths.Extremes` | src/Utility/XUnzip.cpp:1772-1786 | the shortest and longest length in use |
| `CodeLengths.FillUp` | src/Utility/XUnzip.cpp:1789-1795 | reports over-subscription exactly when some length has more codes than the code space leaves, otherwise how many codes are missing at the longest length |
| `CodeLengths.StartingOffsets` | src/Utility/XUnzip.cpp:1798-1803 | the number of symbols with shorter codes, per length |
| `CodeLengths.SortSymbols` | src/Utility/XUnzip.cpp:1806-1812 | every coded symbol at the rank of its length and number |
| `TableFill.TableBits` | src/Utility/XUnzip.cpp:1837-1852 | the width of a new table is the least from the code on that is a full level, reaches the longest code, or is used up by the codes up to it |
| `TableFill.FillEntries` | src/Utility/XUnzip.cpp:1889-1892 | exactly the entries whose index ends in the code are replaced |
| `TableFill.NextCode` | src/Utility/XUnzip.cpp:1894-1897 | incrementing the reversed code is adding one to the code |
| `TableFill.NextTable` | src/Utility/XUnzip.cpp:1854-1872 | a new table is taken from the free space and linked from the table before it, or the space runs out |
| `TableFill.OneTable` | src/Utility/XUnzip.cpp:1831-1872 | one more table at the next level takes the entries counted for it, or there is no room for them |
| `TableFill.MakeTables` | src/Utility/XUnzip.cpp:1831-1872 | a code makes exactly the tables that it is the first code of |
| `TableFill.BackUp` | src/Utility/XUnzip.cpp:1899-1906 | the tables left on the stack are those the next code belongs to |
| `TableFill.MakeEntry` | src/Utility/XUnzip.cpp:1874-1887 | the entry of a code: invalid, a simple value, or base and extra bits |
| `TableFill.PlaceOne` | src/Utility/XUnzip.cpp:1830-1906 | one code keeps the invariant of the tables built so far |
| `TableFill.PlaceCodes` | src/Utility/XUnzip.cpp:1824-1908 | after all codes every table entry is a leaf of the code it belongs to or a link to the table of its prefix; the space taken is the sum over all tables opened, and failure means that this sum does not fit |
| `HuffmanTables.PlaceCode` | src/Utility/XUnzip.cpp:1889-1892 | placing one code keeps everything known about the entries placed before, in this table and all others |
| `HuffmanTables.Grow` | src/Utility/XUnzip.cpp:1854-1872 | linking a new table in keeps the invariant |
| `HuffmanTables.Leave` | src/Utility/XUnzip.cpp:1899-1906 | backing out of a table that the next code does not belong to keeps the invariant, by which tables off the stack are complete |
| `HuffmanTables.Walk` | src/Utility/XUnzip.cpp:1146-1173 | in finished tables the lookup of any stream, across levels, ends at the one code the stream begins with, having used that code's bits |
| `HuftBuild.KraftDecides` | src/Utility/XUnzip.cpp:1789-1795 | over-subscription at some length is a Kraft sum above one, and no filling is a Kraft sum of exactly one |
| `HuftBuild.Build` | src/Utility/XUnzip.cpp:1718-1913 | huft_build: data error exactly for a Kraft sum above one; memory error exactly when the tables that the lengths call for do not fit; otherwise buffer error exactly for a sum below one with maximum length not 1, exactly the space called for is taken, and in an empty space the tables decode the canonical code if and only if the lengths have no gap |
| `HuftBuild.DecodeAll` | src/Utility/XUnzip.cpp:1146-1173 | every stream that begins with a symbol's canonical code gives that symbol's entry and uses exactly its length; all other streams give the invalid entry |
| `HuftBuild.CompleteHasNoGap` | src/Utility/XUnzip.cpp:1837-1852 | a complete code with fewer than 2^(l+1) symbols has no gap |
| `HuftBuild.OneLevelHasNoGap` | src/Utility/XUnzip.cpp:1837-1852 | one-level tables have no gap |
| `HuftBuild.StaleIsLost` | src/Utility/XUnzip.cpp:1837-1852 | tables that read an entry nobody wrote, in a space that was empty, do not decode |
| `HuftSpace.OneLevelSpace` | src/Utility/XUnzip.cpp:1837-1858 | a code whose longest codes fit one table takes exactly that table |
| `HuftSpace.JumpSpace` | src/Utility/XUnzip.cpp:1837-1858 | the lengths 1 to 6 and 13 take 320 entries with 6-bit tables |
| `HuftSpace.GapExample` | src/Utility/XUnzip.cpp:1837-1852 | those lengths have a gap, are incomplete, and fit the space |
| `HuftSpace.BuildJump` | src/Utility/XUnzip.cpp:1718-1913 | huft_build reports them as incomplete and leaves tables that do not decode |
| `InflateTrees.NoGapForCallers` | src/Utility/XUnzip.cpp:1943-1999 | no code that the callers of huft_build accept has a gap |
| `InflateTrees.TreesBits` | src/Utility/XUnzip.cpp:1916-1940 | accepts exactly the complete codes and the single one-bit code, reports all others as bad data, never runs out of space, and the table decodes |
| `InflateTrees.LiteralTree` | src/Utility/XUnzip.cpp:1962-1975 | the literal/length code is accepted exactly when it is usable and fits, and its tree decodes; memory error exactly when it does not fit |
| `InflateTrees.DistanceTree` | src/Utility/XUnzip.cpp:1977-1998 | the distance code is accepted exactly when it is usable or not needed and fits behind the other tree, and its tree decodes |
| `InflateTrees.TreesDynamic` | src/Utility/XUnzip.cpp:1943-1999 | which of the three results is returned, from the lengths alone; both trees decode, and inflate_codes can work with them |
| `InflateTrees.LiteralToken` | src/Utility/XUnzip.cpp:1146-1183 | a stream beginning with the code of a byte is that literal; 256 ends the block |
| `InflateTrees.MatchToken` | src/Utility/XUnzip.cpp:1663-1677 | a length symbol, its extra bits, a distance symbol and its extra bits are the match that the rule of section 3.2.5 of RFC 1951 says, stated without the constant tables |
| `InflateTrees.InvalidToken` | src/Utility/XUnzip.cpp:1180-1183 | a stream that begins with no code, or with symbol 286 or 287, is invalid |
| `InflateTrees.InvalidDistance` | src/Utility/XUnzip.cpp:1212-1215 | a length followed by no distance code is invalid |
| `DeflateCodes.LengthTable` | src/Utility/XUnzip.cpp:1663-1669 | the tables of copy lengths and their extra bits follow the rule: each symbol begins where the one before ends |
| `DeflateCodes.OffsetTable` | src/Utility/XUnzip.cpp:1670-1677 | so do the tables of copy offsets |
| `DeflateCodes.LengthSpelled` | src/Utility/XUnzip.cpp:1663-1669 | every length from 3 to 258 is spelled by a symbol from 257 to 284 and its extra bits |
| `DeflateCodes.LengthOnce` | src/Utility/XUnzip.cpp:1663-1669 | and by only one |
| `DeflateCodes.DistanceSpelled` | src/Utility/XUnzip.cpp:1670-1677 | every distance from 1 to 32768 is spelled by a symbol and its extra bits |
| `DeflateCodes.DistanceOnce` | src/Utility/XUnzip.cpp:1670-1677 | and by only one |
| `DeflateCodes.Reach` | src/Utility/XUnzip.cpp:1663-1677 | no symbol spells anything beyond |
| `BitReader.OrNextByte` | src/Utility/XUnzip.cpp:794-799 | or-ing the next byte in above k bits extends the buffered bits, also over stale copies of the same bits |
| `BitReader.Reader.NeedBits` | src/Utility/XUnzip.cpp:794-799 | the low j bits of the buffer are the next j bits of the input, least significant first; running dry consumes nothing |
| `BitReader.Reader.DumpBits` | src/Utility/XUnzip.cpp:794-799 | the consumed position moves by j and the rest of the input is shifted by j |
| `BitReader.Reader.LoadByte` | src/Utility/XUnzip.cpp:797-798 | a byte more in the buffer, never beyond 32 bits, and the consumed position stays |
| `BitReader.Reader.GrabBits` | src/Utility/XUnzip.cpp:2021-2028 | loads at most as many bytes as j bits need |
| `BitReader.Reader.Ungrab` | src/Utility/XUnzip.cpp:2021-2028 | whole bytes go back, the consumed bit position stays, the bits left in the buffer are stale copies |
| `BitReader.Reader.ReturnByte` | src/Utility/XUnzip.cpp:1242-1249 | WASH hands one byte back without changing the consumed bit position |
| `Window.CopyBackAt` | src/Utility/XUnzip.cpp:1223-1236 | every byte of a copy is the byte d before it, also when source and target overlap |
| `Window.CopyBackAdd` | src/Utility/XUnzip.cpp:1223-1236 | a copy interrupted and resumed is one copy |
| `Window.SlidingWindow.Put` | src/Utility/XUnzip.cpp:801-806 | the history grows by the byte; nothing pending is overwritten |
| `Window.SlidingWindow.Wrap` | src/Utility/XUnzip.cpp:803-803 | going on at the start of the buffer loses nothing |
| `Window.SlidingWindow.Flush` | src/Utility/XUnzip.cpp:975-1038 | delivers the oldest pending bytes in order, as many as there is room for; delivered plus pending is the whole history |
| `Window.SlidingWindow.NeedOut` | src/Utility/XUnzip.cpp:801-806 | makes room, or the caller's room is used up while output is pending |
| `Window.SlidingWindow.Copy` | src/Utility/XUnzip.cpp:1223-1236 | the byte-wise COPY state appends the copy as far as there is room, across wrap-around |
| `Window.SlidingWindow.CopyRun` | src/Utility/XUnzip.cpp:2101-2125 | a run of the fast copy that does not go round appends the right bytes |
| `Window.SlidingWindow.FastCopy` | src/Utility/XUnzip.cpp:2101-2125 | the split copy of inflate_fast appends the same bytes |
| `InflateSpec.SpellsOnce` | src/Utility/XUnzip.cpp:1108-1262 | the input alone determines the tokens of a block and where it ends |
| `InflateSpec.TokensAreOk` | src/Utility/XUnzip.cpp:1146-1222 | every token has a length from 3 to 258 and a distance from 1 to 32768 |
| `InflateMachine.LenStep` | src/Utility/XUnzip.cpp:1146-1183 | one level of the literal/length lookup keeps the relation to the token being decoded |
| `InflateMachine.LenExtStep` | src/Utility/XUnzip.cpp:1184-1192 | so do the extra bits of a length |
| `InflateMachine.DistStep` | src/Utility/XUnzip.cpp:1193-1215 | one level of the distance lookup keeps it |
| `InflateMachine.DistExtStep` | src/Utility/XUnzip.cpp:1216-1222 | so do the extra bits of a distance |
| `InflateMachine.CopyStep` | src/Utility/XUnzip.cpp:1223-1236 | part of a copy keeps it |
| `InflateMachine.CopyDone` | src/Utility/XUnzip.cpp:1235-1236 | a finished copy completes its token |
| `InflateMachine.LitDone` | src/Utility/XUnzip.cpp:1237-1241 | a written literal completes its token |
| `InflateMachine.OutputIsMeaning` | src/Utility/XUnzip.cpp:1108-1262 | at every moment the output is the meaning of the tokens so far and a part of the next one |
| `InflateMachine.EndIsDetermined` | src/Utility/XUnzip.cpp:1108-1262 | any two ways of feeding input and taking output end with the same tokens, position and output |
| `InflateCodes.Codes.FastToken` | src/Utility/XUnzip.cpp:2064-2171 | one round entered with 10 bytes of input and room for 258 takes at most 7 bytes, stays in its room, and is one whole token |
| `InflateCodes.Codes.FastLen` | src/Utility/XUnzip.cpp:2065-2084 | the literal/length part takes at most three bytes of input |
| `InflateCodes.Codes.FastDist` | src/Utility/XUnzip.cpp:2081-2100 | the distance part takes at most four bytes of input |
| `InflateCodes.Codes.Fast` | src/Utility/XUnzip.cpp:2035-2177 | inflate_fast as a whole keeps the same relation to the reference as the slow path |
| `InflateCodes.Codes.StepWash` | src/Utility/XUnzip.cpp:1242-1253 | the end is only reached with everything flushed |
| `InflateCodes.Codes.Step` | src/Utility/XUnzip.cpp:1127-1262 | every round of the state machine refines the reference and comes nearer to an end, or waits for input or room |
| `InflateCodes.Codes.StepStart` | src/Utility/XUnzip.cpp:1129-1145 | inflate_fast is entered exactly with ten bytes of input and room for 258; what it found decides the mode and the code to return |
| `InflateCodes.Codes.Leave` | src/Utility/XUnzip.cpp:793-793 | what is pending is given as far as there is room |
| `InflateCodes.Codes.Run` | src/Utility/XUnzip.cpp:1108-1262 | inflate_codes on any split of input and output: it gives exactly the room it uses up and leaves nothing pending while there is room; it stops only at the end of the block, at an invalid code, or because input is used up or the window is full; the code for no progress is returned exactly when nothing was loaded, written or given |
| `InflateCodes.Drive` | src/Utility/XUnzip.cpp:1108-1262 | a block decoded in any number of calls with any amounts of input and room: no call gives more than its room; when the block ends, what was written is what its tokens stand for, the tokens are the only ones the input spells, and the caller has all of it once nothing is pending; when it fails, no token starts there; otherwise it is waiting for input or room |
| `BtMutexProof.StepKeeps` | thirdlib/Sqlite3/btmutex.c:40-112 | every step of every routine keeps the protocol's invariant |
| `BtMutexProof.RunKeeps` | thirdlib/Sqlite3/btmutex.c:40-112 | the invariant holds in every state of every run |
| `BtMutexTheorems.HeldBelowWaited` | thirdlib/Sqlite3/btmutex.c:40-112 | in every state of every run a waiting connection holds only mutexes of smaller address |
| `BtMutexTheorems.NoDeadlock` | thirdlib/Sqlite3/btmutex.c:40-112 | no interleaving reaches a cycle of waiting connections |
| `BtMutexTheorems.WaitEnds` | thirdlib/Sqlite3/btmutex.c:159-202 | following who waits for whom ends at a connection that is not stuck |
| `BtMutexTheorems.Progress` | thirdlib/Sqlite3/btmutex.c:40-112 | in every reachable state some connection can take a step |
| `BtMutexTheorems.EnterReturns` | thirdlib/Sqlite3/btmutex.c:40-98 | Enter returns with its Btree counted and locked and every other Btree as before, whatever was given up in between |
| `BtMutexTheorems.NestedEnterReturns` | thirdlib/Sqlite3/btmutex.c:60-63 | a nested Enter only counts |
| `BtMutexTheorems.LeaveReturns` | thirdlib/Sqlite3/btmutex.c:102-112 | Leave counts down and unlocks at zero |
| `BtMutexTheorems.EnterAllReturns` | thirdlib/Sqlite3/btmutex.c:159-185 | EnterAll returns with every sharable Btree counted once more and locked |
| `BtMutexTheorems.LeaveAllReturns` | thirdlib/Sqlite3/btmutex.c:186-202 | LeaveAll counts every Btree down and unlocks at zero |
| `BtMutexTheorems.ArrayEnterReturns` | thirdlib/Sqlite3/btmutex.c:274-291 | MutexArrayEnter returns with every Btree of the array counted and locked |
| `BtMutexRuns.EnterInRun` | thirdlib/Sqlite3/btmutex.c:40-98 | in any run a call of Enter ends with its Btree entered and everything else as at the call |
| `BtMutexRuns.EnterLeavePair` | thirdlib/Sqlite3/btmutex.c:40-112 | in any run Enter, and a Leave at any later time at which the connection has again what Enter left it, restore the counts, the locks and the mutexes owned, whatever other connections did in between |
| `BtMutexRuns.EnterAllPair` | thirdlib/Sqlite3/btmutex.c:159-202 | in any run EnterAll ends with every sharable Btree held, and a later LeaveAll from the same lists restores everything, whatever other connections did in between |
| `BtMutexRuns.ArrayPair` | thirdlib/Sqlite3/btmutex.c:274-318 | in any run MutexArrayEnter, and a later MutexArrayLeave from the same lists, restore everything, whatever other connections did in between |
| `BtMutexRuns.ArrayMoment` | thirdlib/Sqlite3/btmutex.c:274-291 | at every moment of a call of MutexArrayEnter, also one that never returns, the connection is out of order exactly when it waits for an entry below a mutex held at the call; a safe call never is |
| `BtMutexRuns.ArrayOrderIff` | thirdlib/Sqlite3/btmutex.c:274-291 | in any run, guarded or not, a call of MutexArrayEnter that returns has kept the locking order throughout if and only if at the call every mutex held is smaller than every entry that is not |
| `BtMutexProgress.TodoShrinks` | thirdlib/Sqlite3/btmutex.c:40-318 | every step of a routine leaves fewer steps of it to take |
| `BtMutexProgress.CallIsBounded` | thirdlib/Sqlite3/btmutex.c:40-318 | in any run a call that has not returned has taken fewer steps of its own than a bound fixed at the call, whatever the others do |
| `BtMutexProgress.CanEnter` | thirdlib/Sqlite3/btmutex.c:40-291 | an idle connection can make every entering call that the source allows |
| `BtMutexProgress.CanLeave` | thirdlib/Sqlite3/btmutex.c:103-318 | an idle connection can make every leaving call that the source allows |
| `BtMutexProgress.TryTakesFree` | thirdlib/Sqlite3/btmutex.c:69-72 | Enter takes a free mutex at once |
| `BtMutexTheorems.UnguardedArrayDeadlocks` | thirdlib/Sqlite3/btmutex.c:274-291 | a run of two connections that deadlocks when the array is entered while a larger mutex is held |
| `BtMutexArray.MutexArray.Insert` | thirdlib/Sqlite3/btmutex.c:241-267 | the array stays strictly ascending and gains exactly the new sharable Btree |
| `Bitvec.SomeEmpty` | thirdlib/Sqlite3/bitvec.c:150-155 | probing ends: a table with fewer members than slots has an empty slot on every way round |
| `Bitvec.Inserted` | thirdlib/Sqlite3/bitvec.c:149-170 | putting a number into the empty slot that probing found keeps every number findable |
| `Bitvec.Vec.Test` | thirdlib/Sqlite3/bitvec.c:103-122 | membership, in all three representations; absent and out-of-range numbers are not set |
| `Bitvec.Vec.Set` | thirdlib/Sqlite3/bitvec.c:129-171 | adds the number and succeeds exactly when every allocation made succeeded; none is made exactly when the place for the number is there and no hash table becomes full; otherwise the set is a subset of the old one and the number, and unchanged when the missing sub-bitmap could not be made |
| `Bitvec.Vec.Create` | thirdlib/Sqlite3/bitvec.c:87-95 | an empty bitmap, or null exactly when there is no memory |
| `Bitvec.Vec.SetBitmap` | thirdlib/Sqlite3/bitvec.c:134-138 | one bit of the bitmap |
| `Bitvec.Vec.SetHash` | thirdlib/Sqlite3/bitvec.c:150-170 | one slot of the hash table, unless it would become too full |
| `Bitvec.Vec.SetFan` | thirdlib/Sqlite3/bitvec.c:139-149 | one number of one sub-bitmap, made when needed |
| `Bitvec.Vec.Convert` | thirdlib/Sqlite3/bitvec.c:157-168 | the full hash table becomes a fan with the same members and the new one |
| `Bitvec.Vec.ClearHash` | thirdlib/Sqlite3/bitvec.c:189-200 | rebuilding the hash table without a number never converts it |
| `Bitvec.Vec.Clear` | thirdlib/Sqlite3/bitvec.c:177-201 | removes the number and nothing else; a number beyond the size that stays inside the arrays changes nothing |
| `Bitvec.LastOperationDecides` | thirdlib/Sqlite3/bitvec.c:103-201 | after any sequence of operations a number is a member exactly when the last operation on it was Set |
| `Bitvec.Replay` | thirdlib/Sqlite3/bitvec.c:103-201 | a bitmap driven through a sequence holds the set the sequence describes exactly as long as every allocation succeeds |
| `Bitvec.ReplayAndTest` | thirdlib/Sqlite3/bitvec.c:87-201 | with memory, a new bitmap driven through any sequence tests true for exactly the numbers that were set last |
| `Fts3Hash.RunsInsert` | thirdlib/Sqlite3/fts3_hash.c:166-187 | inserting before a bucket's run keeps every bucket a contiguous run of its count |
| `Fts3Hash.RunsRemove` | thirdlib/Sqlite3/fts3_hash.c:245-277 | so does removing any element |
| `Fts3Hash.Hash.InsertElement` | thirdlib/Sqlite3/fts3_hash.c:166-187 | the list stays doubly linked, every bucket a run from its chain pointer, with the new element added |
| `Fts3Hash.Link` | thirdlib/Sqlite3/fts3_hash.c:166-187 | the links next to the place change so that the list has the new element there |
| `Fts3Hash.Hash.Rehash` | thirdlib/Sqlite3/fts3_hash.c:194-211 | rebuilding the list in place keeps all elements and their data; a failed allocation changes nothing |
| `Fts3Hash.Hash.Move` | thirdlib/Sqlite3/fts3_hash.c:206-210 | one element moves to the new list and the rest of the old list stays linked |
| `Fts3Hash.Hash.FindElementByHash` | thirdlib/Sqlite3/fts3_hash.c:217-240 | finds the element of a key, or the key is in no bucket |
| `Fts3Hash.Hash.RemoveElementByHash` | thirdlib/Sqlite3/fts3_hash.c:245-277 | the map loses the key; an empty table is cleared |
| `Fts3Hash.Hash.Clear` | thirdlib/Sqlite3/fts3_hash.c:74-92 | the empty map |
| `Fts3Hash.Hash.Find` | thirdlib/Sqlite3/fts3_hash.c:283-295 | the datum the map has for the key, or 0 |
| `Fts3Hash.Hash.Insert` | thirdlib/Sqlite3/fts3_hash.c:312-372 | map insertion, replacement or removal with the old datum returned; a new key fails, with its datum returned and the map unchanged, exactly when there is no memory for its element or for the first buckets; a failed doubling does not fail |
| `Fts3Hash.Hash.Grow` | thirdlib/Sqlite3/fts3_hash.c:354-364 | eight buckets at first, twice as many when there are more elements, and as many as before without memory |
| `Fts3Hash.BucketIsLowBits` | thirdlib/Sqlite3/fts3_hash.c:283-295 | the number of buckets is a power of two, so the bucket is the low bits of the hash |
| `Fts3Hash.Replay` | thirdlib/Sqlite3/fts3_hash.c:283-372 | with memory, a table driven through any insertions and removals is the map they describe, and each call returns the datum its key had before |
| `Analyze.Compare` | thirdlib/Sqlite3/analyze.c:171-177 | the comparisons jump to the update of the first new column, or skip the updates |
| `Analyze.CompareOne` | thirdlib/Sqlite3/analyze.c:171-176 | one comparison with the last observed value; the scratch register disturbs nothing |
| `Analyze.Update` | thirdlib/Sqlite3/analyze.c:178-182 | that column and all later ones are updated by falling through |
| `Analyze.Pass` | thirdlib/Sqlite3/analyze.c:169-184 | one pass counts one row |
| `Analyze.Loop` | thirdlib/Sqlite3/analyze.c:168-185 | the loop leaves the row count and, per column, the number of rows that are new in the columns up to it |
| `Analyze.Count` | thirdlib/Sqlite3/analyze.c:134-185 | the same from any register contents, also for an empty index |
| `AnalyzeReport.AnalyzeIndex` | thirdlib/Sqlite3/analyze.c:134-223 | running the code for one index appends one sqlite_stat1 row with its statistics, or none if it is empty |
| `AnalyzeReport.PrintAll` | thirdlib/Sqlite3/analyze.c:209-218 | the text is the row count and one estimate per column, separated by blanks |
| `AnalyzeReport.AnalyzeTable` | thirdlib/Sqlite3/analyze.c:121-224 | the code for all indices reports them in turn although they share their registers |
| `AnalyzeEmit.Coder.Update` | thirdlib/Sqlite3/analyze.c:178-182 | every comparison's jump is patched to the update of its own column |
| `AnalyzeEmit.Coder.AnalyzeIndexCode` | thirdlib/Sqlite3/analyze.c:134-223 | the instructions appended are exactly the code whose runs are described, and earlier code is untouched |
| `AnalyzeEmit.Coder.AnalyzeOneTable` | thirdlib/Sqlite3/analyze.c:86-225 | the code for every index of the table, one after another; run on any registers it comes to its end and has appended the statistics rows of all indices that are not empty |
| `AnalyzeStats.StartsAreDistinct` | thirdlib/Sqlite3/analyze.c:145-157 | on a sorted index without NULLs, under any order of the columns, a counter is the number of distinct prefixes |
| `AnalyzeStats.EstimateRoundsUp` | thirdlib/Sqlite3/analyze.c:190-208 | (K+D-1)/D is K/D rounded up |
| `AnalyzeStats.EstimateShrinks` | thirdlib/Sqlite3/build.c:2790-2793 | more distinct values give no larger estimate |
| `AnalyzeLoad.Load` | thirdlib/Sqlite3/analyze.c:374-383 | the loader's loop fills aiRowEst with the numbers of the string and leaves the rest |
| `AnalyzeLoad.LoadsBack` | thirdlib/Sqlite3/analyze.c:374-383 | what was printed is read back, as 32-bit unsigned numbers |
| `AnalyzeLoad.ScanDecimal` | thirdlib/Sqlite3/analyze.c:376-380 | scanning a printed number gives its value |
| `AnalyzeLoad.LoadedAreGood` | thirdlib/Sqlite3/build.c:2790-2793 | the loaded estimates are at least 1 and never increase |
| `AnalyzeLoad.AnalyzeThenLoad` | thirdlib/Sqlite3/analyze.c:134-223 | from a sorted index to aiRowEst: the row count, then rows per distinct prefix rounded up |
| `JulianDay.RoundTrip` | thirdlib/Sqlite3/date.c:343-362 | for every date and any time of day, computeYMD undoes computeJD if and only if the date is none of the exceptions: an ancient year, a late century, 0300-03-01, or a time of day below day number zero |
| `JulianDay.RoundTripFromZero` | thirdlib/Sqlite3/date.c:343-362 | from the year 0 on every date but 0300-03-01 comes back |
| `JulianDay.JulianIsCount` | thirdlib/Sqlite3/date.c:221-243 | the Julian day is the calendar's own day number, and one or two days ahead of it in exactly known years before 0 |
| `JulianDay.CountNext` | thirdlib/Sqlite3/date.c:221-243 | the calendar's day numbers, with divisions that round down, are consecutive |
| `JulianDay.Consecutive` | thirdlib/Sqlite3/date.c:221-243 | the next calendar day has the next Julian day if and only if the code is as far ahead in both years; always so from the year 0 on |
| `JulianDay.YearBack` | thirdlib/Sqlite3/date.c:343-362 | the year comes back from a day count |
| `JulianDay.CorrectionBack` | thirdlib/Sqlite3/date.c:343-362 | from the year 0 on the century correction comes back from a quotient cut off toward zero, except where it is exactly -1 |
| `JulianDay.CorrectionNegative` | thirdlib/Sqlite3/date.c:343-362 | before the year 0 it comes back except in the first year of a century that is no leap year |
| `JulianDay.DateTime.ComputeJD` | thirdlib/Sqlite3/date.c:221-252 | the Julian day of the date, or of 2000-01-01, with time and zone; which fields stay valid |
| `JulianDay.ZoneIsTakenOff` | thirdlib/Sqlite3/date.c:244-252 | a time zone of tz minutes counts as tz minutes less on the clock |
| `JulianDay.NoonIsHalf` | thirdlib/Sqlite3/date.c:244-246 | noon is half a day |
| `JulianDay.DateTime.ComputeYMD` | thirdlib/Sqlite3/date.c:343-362 | year, month and day of the Julian day, or 2000-01-01 |
| `JulianDay.HourTwentyFour` | thirdlib/Sqlite3/date.c:179-252 | the hour 24, which the parser accepts, comes out as the next day if and only if that day comes back and the code is as far ahead on it, or it begins one of the late centuries named; from the year 0 on the one exception is 0300-03-01 |
| `JulianDay.DateTime.Recompute` | thirdlib/Sqlite3/date.c:343-362 | recomputing the date of a time stamp from hour 0 to 24 gives the date, or at hour 24 the next date, except exactly in the exceptional cases |
| `Md5.CountMore` | src/Utility/MD5Checksum.cpp:621-626 | the two counter words are the length in bits modulo 2^64, in spite of the split carry |
| `Md5.IndexIs` | src/Utility/MD5Checksum.cpp:618-619 | the buffer index taken from the low counter word is the length modulo 64 |
| `Md5.Checksum.Update` | src/Utility/MD5Checksum.cpp:616-648 | state, buffer and counter are those of one pass over everything seen so far, for every input on which the block index does not wrap around |
| `Md5.WrapGoesOn` | src/Utility/MD5Checksum.cpp:635-638 | the loop over the blocks comes to the end of the last whole block, and goes on there, with less than a block left, exactly on the other inputs |
| `Md5.WrapExample` | src/Utility/MD5Checksum.cpp:635-638 | one byte and then 2^32 - 1 bytes are such an input |
| `Md5.Checksum.Final` | src/Utility/MD5Checksum.cpp:555-572 | exactly the padded message is processed, and the words of the state are the digest |
| `Md5.PaddedParts` | src/Utility/MD5Checksum.cpp:555-565 | the padded message by sections 3.1 and 3.2 of RFC 1321: the message, 0x80, zeros, and the length in bits modulo 2^64 in eight bytes, low byte first |
| `Md5.Bytes4Is` | src/Utility/MD5Checksum.cpp:536-542 | a word comes out low byte first |
| `Md5.DigestBytes` | src/Utility/MD5Checksum.cpp:536-542 | byte 4 i + k of the digest is byte k of word i of the state |
| `Md5.InitialBytes` | src/Utility/MD5Checksum.cpp:506-509 | the words of the state start as section 3.3 of RFC 1321 lists their bytes |
| `Md5.DigestOf` | src/Utility/MD5Checksum.cpp:616-648 | the digest does not depend on how the message is cut |
| `DestroyTable.DestroyTable` | thirdlib/Sqlite3/build.c:1895-1935 | every distinct root page once, strictly descending |
| `DestroyTable.Largest` | thirdlib/Sqlite3/build.c:1914-1927 | the largest page not yet destroyed, or 0 |
| `DestroyTable.RootPageMoved` | thirdlib/Sqlite3/build.c:1833-1851 | every table and index recorded at the old page is recorded at the new one, and no other changes |
| `DestroyTable.DestroyKeeps` | thirdlib/Sqlite3/build.c:1853-1886 | destroying one page removes its entry only and keeps the recorded roots right; smaller pages stay where they are |
| `DestroyTable.DescendingIsSafe` | thirdlib/Sqlite3/build.c:1895-1935 | in descending order no page still to be destroyed is moved: exactly the table's own entries go, all others end with their true roots |
| `DestroyTable.DropTable` | thirdlib/Sqlite3/build.c:1895-1935 | running the plan made for a table and its indices removes exactly the entries on their root pages |
| `DestroyTable.AscendingFails` | thirdlib/Sqlite3/build.c:1901-1918 | destroying 4 before 5 leaves no page 5 to destroy |
| `Affinity.AffinityType` | thirdlib/Sqlite3/build.c:995-1052 | the one-pass scan gives the affinity of the documented table of substrings and priorities |
| `Affinity.Judge` | thirdlib/Sqlite3/build.c:1022-1048 | the branches on the rolling word are the words that end here; only INT stops the scan |
| `Affinity.WordMatches` | thirdlib/Sqlite3/build.c:1022-1048 | the rolling 32-bit word equals a four-letter word exactly where the text ends in it |
| `Affinity.Step` | thirdlib/Sqlite3/build.c:1022-1048 | one more byte changes the table's answer exactly as the branches do |
| `Affinity.CaseDoesNotMatter` | thirdlib/Sqlite3/build.c:1022-1024 | names that differ only in letter case have the same affinity |
| `Affinity.LowerCaseStays` | thirdlib/Sqlite3/build.c:1022-1024 | a name without capital letters is compared as it is |
| `Affinity.Letters` | thirdlib/Sqlite3/build.c:995-1052 | the words of the table are the letters that the documentation gives |
| `Adler32.RawFits` | src/Utility/XUnzip.cpp:2269-2304 | within 5552 bytes neither sum leaves 32 bits |
| `Adler32.RawReduces` | src/Utility/XUnzip.cpp:2269-2304 | reducing once per run is reducing after every byte |
| `Adler32.SumsCompose` | src/Utility/XUnzip.cpp:2269-2304 | checksums of pieces compose |
| `Adler32.Run` | src/Utility/XUnzip.cpp:2289-2302 | one run of at most 5552 bytes, sixteen at a time |
| `Adler32.Adler` | src/Utility/XUnzip.cpp:2280-2304 | the checksum of section 2.2 of RFC 1950, resumed from an earlier one; 1 for a null buffer |
| `Adler32.ResumedAppend` | src/Utility/XUnzip.cpp:2280-2304 | resuming the checksum of x over y gives the checksum of x and y together |
| `Adler32.ResumedExample` | src/Utility/XUnzip.cpp:2280-2304 | the checksum of two bytes, with the plain sum in the low half |
| `Crc32.ByteStep` | src/Utility/XUnzip.cpp:2245-2250 | eight bit-serial steps are one look-up by the low byte |
| `Crc32.UCrc32` | src/Utility/XUnzip.cpp:2247-2259 | with any table of eight-step entries the unrolled loop computes bit-serial CRC-32 |
| `Crc32.ResumedAppend` | src/Utility/XUnzip.cpp:2252-2259 | resuming over any split gives the checksum of the whole |
| `CrcConstants.ConstantsAreTable` | src/Utility/XUnzip.cpp:2187-2240 | all 256 constants of crc_table are eight bit-serial steps of their index |
| `CrcConstants.Ucrc32` | src/Utility/XUnzip.cpp:2252-2259 | with these constants the result is the bit-serial CRC-32, and 0 for a null buffer |
| `CrcConstants.CheckValue` | src/Utility/XUnzip.cpp:2252-2259 | the checksum of the digits 1 to 9 is 0xCBF43926 |
| `CrcTable.OnesComplement` | src/Utility/XUnzip.cpp:2252-2259 | exclusive or with the ones complements 32 bits |
| `CrcTable.Reflect` | src/Utility/CRCHash.cpp:32-48 | reverses the low bits |
| `CrcTable.RevForward` | src/Utility/CRCHash.cpp:23-28 | under reflection a step with 0x04C11DB7 from the top is a step with 0xEDB88320 from the bottom |
| `CrcTable.Entry` | src/Utility/CRCHash.cpp:19-29 | a table entry is eight reflected bit-serial steps |
| `CrcTable.CrcHash.InitCRC32Table` | src/Utility/CRCHash.cpp:15-30 | all 256 entries |
| `CrcTable.CrcHash.GetCRC` | src/Utility/CRCHash.cpp:50-63 | the bit-serial CRC-32 of the data |
| `ZipScan.SearchCentralDir` | src/Utility/XUnzip.cpp:2973-3004 | the greatest non-zero position of the signature in the last min(size, 65535) bytes, or 0: none is lost between chunks |
| `ZipScan.ScanChunk` | src/Utility/XUnzip.cpp:2995-2999 | the last signature of a chunk |
| `ZipScan.Settled` | src/Utility/XUnzip.cpp:2986-3001 | four bytes of overlap cover signatures across a chunk's end |
| `TxConfig.CodedTwice` | src/Utility/TxConfig.cpp:27-41 | the coding of keys and values is its own inverse |
| `TxConfig.FlippedBit` | src/Utility/TxConfig.cpp:149-152 | each bit of a coded byte is that of the byte, inverted, exclusive or both bytes of the length |
| `TxConfig.HeaderAt` | src/Utility/TxConfig.cpp:127-134 | magic number, versions and count in the header |
| `TxConfig.ItemFieldsAt` | src/Utility/TxConfig.cpp:141-168 | flag, key length and value length of an item |
| `TxConfig.LengthEnds` | src/Utility/TxConfig.cpp:43-46 | the value's length field ends the string that the key is copied from |
| `TxConfig.MakeConfig` | src/Utility/TxConfig.cpp:107-168 | the buffer has the computed size and begins with the encoded entries; it is filled exactly if and only if all lengths fit their fields; an empty map is refused |
| `TxConfig.EncodedSize` | src/Utility/TxConfig.cpp:117-168 | the cursor ends at the computed size exactly when all lengths fit their fields, and short of it otherwise |
| `TxConfig.LongKeyIsCut` | src/Utility/TxConfig.cpp:141-168 | a key of 32768 characters or more comes back cut to its length modulo 32768 |
| `TxConfig.LongKeyIsLost` | src/Utility/TxConfig.cpp:141-168 | a key of exactly 32768 characters comes back as the empty key |
| `TxConfig.PutItem` | src/Utility/TxConfig.cpp:141-168 | one item at the cursor, with the lengths its fields can hold |
| `TxConfig.Config.ParseConfig` | src/Utility/TxConfig.cpp:13-58 | what decoding a buffer in place adds to the map; a wrong magic number changes nothing |
| `TxConfig.Config.ParseItem` | src/Utility/TxConfig.cpp:25-55 | one item decoded in place; what follows it stays |
| `TxConfig.MapRoundTrip` | src/Utility/TxConfig.cpp:13-168 | a map of at most 65535 entries with keys of at most 257 non-zero characters and values under 65536 bytes is parsed back as it was |
| `TxConfig.SaveAndLoad` | src/Utility/TxConfig.cpp:13-168 | an object that parses what another wrote has the same map |
| `TxConfig.SetSaveGet` | src/Utility/TxConfig.cpp:89-168 | a value that is set, written and parsed by a new object is the value that object gives for its key |

## Left out

- Block level of inflate: `inflate_blocks` (block headers, stored blocks, the code lengths of a dynamic
  header), the constant tables of fixed blocks, the zlib header and dictionary modes. A token, its trees
  and the window are modelled; the sequence of blocks is not.
- Input of inflate is one contiguous sequence of which more and more becomes available; WASH steps one
  byte back, which in the source relies on that byte still being in front of `next_in`.
- The check callback of `inflate_flush` is left out; Adler-32 is modelled on its own.
- An invalid entry's base, which the source leaves as it was, is 0 in the model.
- Btrees that are not sharable, for which every locking routine does nothing, do not appear in the
  locking model. Locking is modelled as steps over values, since its subject is interleaving.
- Freeing memory is not modelled, so a removed element is only no longer part of its structure.
- Machine widths that do not matter are left out: sizes and counters of Bitvec, the FTS3 table and the
  ANALYZE registers are unbounded. They are kept where they matter: the MD5 counter, the Adler sums, the
  rolling word, CRC words and the loader's unsigned integers.
- DestroyTable.Destroy: what the btree layer does is taken from the comments of build.c: the largest root page
  moves into the hole. Pages that can never be roots are not modelled.
- FTS3_HASH_STRING keys, which treat lengths below 1 and embedded zeros specially; keys are of the
  binary class.
- Vdbe.Step: only the instructions ANALYZE emits, with integer arithmetic and equality of values as
  comparison; collating sequences, reals and affinity conversion are left out.
- JulianDay.RoundTrip: doubles are exact reals here, and years are unbounded.
- The MD5 block function is a parameter: Update and Final are proved for every block function, and
  `Transform` itself and the conversion to hexadecimal text are left out.
- ZipScan.SearchCentralDir: seek and read errors, which end the search.
- TxConfig.Config.ParseConfig: where the source would read outside its buffer or overrun its key array the
  model says only that the outcome is undefined. Reading and writing the file itself is left out.
- TxConfig.MakeConfig: the bytes behind the last item, when lengths were cut off, are whatever the buffer held.
- Date parsing, time zones of the operating system and the strftime functions of date.c.
- The rest of XUnzip (file handles, names, directories), of build.c and of SQLite, StringHelper, and all
  user interface, network and Win32 code.
