# Verification of libbk's algorithms and protocols

A Dafny model of the parts of libbk that carry algorithms: the Internet checksum, the link-based
file lock, MurmurHash3 with the Bloom filter on top of it, configuration loading with includes,
MD5, CRC-32, the connect failover of address groups, the error queues, the intrusive doubly linked
list, the network address list, and the timeval macros. `dafny verify dfyconfig.toml` checks it.

Code that changes fields, arrays or sums step by step is a class or a method with loops, proved
against specification functions; the theorems are lemmas about those functions. The file lock is a
concurrent protocol, so there each system call is one step of one of any number of processes.
Little-endian byte order and 8-bit bytes are taken throughout. Machine integers are modelled where
their width can matter: 16-bit size counters, 32-bit sequence numbers and bit counts, 64-bit hashes,
the `int` that `get_bit` casts to.

| file | what it models |
|---|---|
| Checksum.dfy | `bk_in_cksum` against sections 1 and 2 of RFC 1071 |
| FileLock.dfy | `bk_file_lock` and `bk_file_unlock` over a shared admin file and lock file |
| Murmur.dfy, MurmurValues.dfy, BloomFilter.dfy | `murmurhash3_x64_128`, and the filter that indexes with it |
| ConfigText.dfy | the line grammar of configuration files, and the printer |
| ConfigInclude.dfy, ConfigLoader.dfy | what a load with includes reads, and the loader with its tree of file records |
| Md5.dfy, Md5Values.dfy | `bk_MD5Init`, `bk_MD5Update`, `bk_MD5Final` against sections 3.1 to 3.5 of RFC 1321 |
| Crc32.dfy | `bk_crc32` and its table against division by the reflected polynomial (section 8 of RFC 1952) |
| Failover.dfy, ConnectState.dfy | stream connects over a list of addresses, and the state updated in place |
| ErrorQueue.dfy | error messages, repeats, the two bounded queues and their merge |
| Dll.dfy | the intrusive list on the heap, with iterators |
| Netinfo.dfy | the address list of an endpoint and its primary address |
| TimeValue.dfy | `BK_TV_*` and `BK_TS_*` |
| Options.dfy | the option datatype |

## What was found

These are places where the code does not do what it is for, or what its comments say. The model
follows the code; each has a concrete run or the exact condition.

- Checksum: the `int` accumulator never overflows up to 65027 bytes, and for every larger length
  some data overflows it (`Checksum.OverflowBoundIsExact`).
- File lock: an unlock that fails anywhere before it has truncated the admin file gives up its handle
  but leaves its line there, exactly then (`FileLock.ReleaseStep`), and the line stays for ever. If its
  own calls do not fail, that is exactly when the lock file is not free at its link, however the other
  processes move (`FileLock.ReleaseExactly`). If the line is an exclusive one, nobody ever holds the
  lock again (`FileLock.OrphanedExclusiveIsPermanent`). Two processes and no failing system call but
  the contended link are enough (`FileLock.ContentionOrphans`).
- File lock: an attempt whose own calls do not fail ends with its one link if the lock file is there.
  Otherwise it gets the lock exactly if the admin file exists at its open and the record admits its
  kind (`FileLock.LockExactly`). The file is created before the link (lib/b_fileutils.c:494), so a
  last holder that leaves in between removes it again, and the attempt fails although nobody holds
  the lock (`FileLock.VanishedFileFails`).
- File lock: the lock file is left behind exactly by a call that fails after its link and skips the
  unlink (lib/b_fileutils.c:528-560), or whose unlink fails (`FileLock.LeftBehindExactly`). From then
  on nobody ever gets the lock, and whoever holds it can only give it up by orphaning its line
  (`FileLock.LeftBehindForGood`).
- File lock: a live holder's id is not in the admin file exactly while another holder, releasing, has
  truncated it and not yet written it back (`FileLock.LiveInFile`, `FileLock.HolderMissingFromFile`).
- Bloom filter: because of the cast in `get_bit` (lib/b_bloomfilter.c:245) every added key is reported
  present exactly if the filter has at most 2^37 bits (`BloomFilter.FindsAllExactly`). Every larger one
  has a 16-byte key that it does not find after it was added, but reads outside its bitset for
  (`BloomFilter.AddedNotFound`).
- Failover: if the run loop refuses the handler of an attempt whose timer is already set, the jump to
  `error` (lib/b_addrgroup.c:964-977) does not take the timer back. A timer is left behind exactly if a
  later attempt sets its own (`Failover.TimerLeftExactly`), and it can fire on the freed state
  (`Failover.TimerFindsFreedState`).
- Error queues: `bk_error_enqueue` means to leave one free slot but keeps `be_maxsize` + 1 nodes, and
  with `be_maxsize` 65535 the size counter wraps and nothing is ever dropped
  (`ErrorQueue.BoundedExactly`). The node for a repeat carries the time and number of the original, so
  a dump from a mark in between does not show it (`ErrorQueue.RepeatAfterMark`). A dump is in the order
  of issue exactly if each node is in turn with the next one of the other queue, that is, if their
  distance in time and number is in the range that `int` arithmetic tells from its opposite
  (`ErrorQueue.MergeExactly`, `ErrorQueue.TakenExactly`); two messages 2^31 seconds apart come out the
  wrong way round (`ErrorQueue.DumpOutOfOrder`), and so do two between which the clock stepped back
  by a second (`ErrorQueue.DumpAfterStepBack`).
- Configuration: the printer escapes nothing, so what it writes is read back as the same map exactly
  if each pair is printable by itself; failures never make up for each other
  (`ConfigText.PrintedMapReadBack`, `ConfigInclude.PrintedFileLoads`).
- Murmur: the guarantee that keys differing in one block do not collide ends there. For every key,
  every change of a block is undone by some content of the next one (`Murmur.TwoBlocksCollide`).
- Address list: deleting an address that is not there reads the name of a NULL address
  (lib/b_netinfo.c:242-244), so deleting one twice does not return (`Netinfo.DeletedTwice`).
- Linked list: an insertion into an empty list leaves the links of the new element as they are; the
  list is well formed afterwards exactly if they were NULL (`Dll.Handle.Add`). Otherwise a walk goes
  on to an element that is not in it (`Dll.InsertedWithOldLink`).
- CRC-32: bursts of up to w bits are always detected exactly for w up to 32 (`Crc32.BurstExactly`).

## Model

| member | source | states |
|---|---|---|
| Checksum.InCksum | lib/b_cksum.c:83-207 | the routine with its loops, pointers and saved byte computes `Cksum`; up to 65027 bytes the result is the RFC 1071 checksum of the data and the accumulator fits an `int` |
| Checksum.CksumIsRfc1071 | lib/b_cksum.c:83-207 | for every cut into buffers, every address parity of each and every length, without overflow the result is the complement of the one's-complement sum of the concatenated bytes, an odd tail zero-padded |
| Checksum.RfcExample | lib/b_cksum.c:197-207 | the example of section 3 of RFC 1071 |
| Checksum.NeverOverflows | lib/b_cksum.c:135-192 | no accumulator value passes 2^31-1 for lengths up to 65027, whatever the buffers |
| Checksum.OverflowBoundIsExact | lib/b_cksum.c:135-192 | no data overflows a given length if and only if the length is at most 65027 |
| Checksum.SomeOverflow | lib/b_cksum.c:135-192 | for every length from 65028 on, two buffers of that many bytes overflow the accumulator |
| Checksum.ReduceKeeps | lib/b_cksum.c:27-28 | REDUCE keeps the residue modulo 65535, never grows the sum and gives zero only for zero |
| Checksum.ValueSwapped | lib/b_cksum.c:135-143 | shifting a sum by a byte is the sum of the byte-swapped words (section 2 (B) of RFC 1071) |
| Checksum.OnesSumIsValue | lib/b_cksum.c:197-207 | the one's-complement sum of RFC 1071 is the weighted byte sum modulo 65535, zero together with it |
| Checksum.BufferAdded | lib/b_cksum.c:109-191 | one buffer, with a spanning word, an odd start and an odd tail in any mix, adds exactly the value of its bytes |
| Checksum.BuffersAdded | lib/b_cksum.c:103-192 | all buffers up to the length add the value of the concatenated bytes |
| Checksum.BuffersLow | lib/b_cksum.c:135-192 | after n bytes the accumulator is below a bound that is linear in n, through every mode |
| Checksum.SumUnrolled | lib/b_cksum.c:149-164 | the two unrolled loops add all words but those of the last seven bytes |
| Checksum.SumRest | lib/b_cksum.c:170-173 | the last loop adds the words that are left and ends at -1 for an odd byte, else -2 |
| Checksum.SumEvenRun | lib/b_cksum.c:149-191 | a run from an even address leaves the specified accumulator and saves an odd last byte |
| Checksum.SumOddRun | lib/b_cksum.c:135-188 | a run from an odd address shifts, sums, shifts back, and completes or saves a word |
| Checksum.SumBuffer | lib/b_cksum.c:105-191 | one turn of the loop over buffers leaves the specified accumulator and remaining length |
| FileLock.LockIsSafe | lib/b_fileutils.c:153-283 | after any interleaving of any number of processes, at most one is between its link and its unlink; every live holder's id is in the admin file exactly unless another holder is just rewriting it, which then holds the id; an exclusive holder is the only live one |
| FileLock.LiveInFile | lib/b_fileutils.c:373-389 | a live holder's line is in the admin file if and only if the file is not truncated for rewriting |
| FileLock.HolderMissingFromFile | lib/b_fileutils.c:373-389 | a run of two shared holders in which one's line is missing while the other releases |
| FileLock.InvKept | lib/b_fileutils.c:439-614 | every system call of every process, succeeding or failing, keeps the invariant; of the calls that act on shared files only failed writes of the admin file are not steps |
| FileLock.RunKeepsInv | lib/b_fileutils.c:153-423 | every run keeps it |
| FileLock.ExclusionKept | lib/b_fileutils.c:522-526 | the lock file belongs to the one process inside |
| FileLock.WellFormedKept | lib/b_fileutils.c:187-235 | the admin file is empty or a mode line and its holders, one of them if the mode is exclusive |
| FileLock.RecordMoves | lib/b_fileutils.c:187-235 | a step adds only its own lines and removes only its own holder line |
| FileLock.RestWellFormed | lib/b_fileutils.c:353-395 | what an unlock writes back is well formed if more than one line is left |
| FileLock.OrphanStays | lib/b_fileutils.c:413-423 | no step removes the line of a holder that no process has any more, nor changes the mode |
| FileLock.OrphanStaysForever | lib/b_fileutils.c:413-423 | nor does any run |
| FileLock.OrphanedExclusiveIsPermanent | lib/b_fileutils.c:210-214 | after an exclusive line is orphaned nobody ever holds the lock again |
| FileLock.ReleaseStep | lib/b_fileutils.c:320-377 | any step of a live holder orphans its line if and only if it ends the hold without truncating the file |
| FileLock.ReleaseExactly | lib/b_fileutils.c:299-423 | over any interleaving, an unlock whose own calls do not fail takes its line out if and only if the lock file is free at its link, and otherwise orphans it |
| FileLock.LockExactly | lib/b_fileutils.c:153-283 | over any interleaving, an attempt whose own calls do not fail links once; it is over at that call, with nothing left of its id, if the lock file is there, and otherwise opens the admin file once and ends with the lock and its line in the record if and only if the file is there and the record admits its kind, and else idle with nothing left of its id |
| FileLock.VanishedFileFails | lib/b_fileutils.c:494-526 | such an attempt that fails on an empty record with the lock file free, no other call failing |
| FileLock.FailureEnds | lib/b_fileutils.c:494-614 | a failing open, mkstemp or link, and a link that finds the lock file there, end the attempt or release at once and change neither file; a later failure leaves only the unlink of the lock file to do |
| FileLock.OthersKeep | lib/b_fileutils.c:522-526 | while a process is inside, no step of another changes the record or an existing admin file |
| FileLock.GivesUp | lib/b_fileutils.c:276-283 | an id that is dropped before it was written is neither in the record nor in use |
| FileLock.GoneStays | lib/b_fileutils.c:515-526 | an id that has been released never comes back |
| FileLock.LeftBehindExactly | lib/b_fileutils.c:528-600 | the lock file is there with nobody to remove it if and only if it was before the step, or the step leaves the section between link and unlink by a failure |
| FileLock.LeftBehindForGood | lib/b_fileutils.c:522-526 | over any run it then stays: nobody gets inside or gets the lock, the record does not change, and each holder that gives up orphans its line |
| FileLock.ContentionOrphans | lib/b_fileutils.c:326-330 | a run of two processes, every system call as good as it can be, ends with both idle and an orphaned exclusive line |
| FileLock.LockAlone | lib/b_fileutils.c:153-283 | unhindered, a lock succeeds exactly if the record admits its kind, adds its own lines, and otherwise changes nothing |
| FileLock.UnlockAlone | lib/b_fileutils.c:299-423 | unhindered, an unlock removes its own line and nothing else, and the admin file when it was the last |
| FileLock.LockThenUnlock | lib/b_fileutils.c:153-423 | a lock and its unlock leave the record as it was |
| FileLock.ReadOthers | lib/b_fileutils.c:350-364 | the read loop collects exactly the other lines, counts them and says whether its own was there |
| FileLock.WithoutKeeps | lib/b_fileutils.c:350-364 | only the own line is dropped and the mode line stays first |
| Murmur.X64Hash128 | lib/b_murmur.c:251-328 | the loops and the fall-through switch compute `Hash` |
| MurmurValues.FoxValue | lib/b_murmur.c:251-328 | the pangram of 43 bytes, with two blocks and both tail words, has its published hash |
| MurmurValues.EmptyValue | lib/b_murmur.c:251-328 | the empty key with seed 1 has its published hash |
| Murmur.OneBlockNoCollision | lib/b_murmur.c:268-280 | two keys that differ only inside one 16-byte block never have the same hash |
| Murmur.TwoBlocksCollide | lib/b_murmur.c:268-280 | for every key, seed and change of one block there is a content of the next block that gives the same hash |
| Murmur.BlocksApartExactly | lib/b_murmur.c:251-328 | no two keys that differ inside m consecutive blocks collide, if and only if m is at most one |
| Murmur.TailNoCollision | lib/b_murmur.c:283-310 | two keys of one length that differ only in the tail never have the same hash |
| Murmur.MixBijectiveInState | lib/b_murmur.c:268-280 | for a fixed block the mix is a bijection of the state, with its inverse |
| Murmur.MixBijectiveInBlock | lib/b_murmur.c:268-280 | for a fixed state the mix is a bijection of the block, with its inverse |
| Murmur.BodyDiffers | lib/b_murmur.c:268-280 | a difference in one block survives all later blocks |
| Murmur.ScrambleBijective | lib/b_murmur.c:273-277 | the multiply-rotate-multiply of each word is undone by its inverse |
| Murmur.StepBijective | lib/b_murmur.c:273-279 | each half of the mix is undone given the word and the other half |
| Murmur.Fmix64Bijective | lib/b_murmur.c:77-86 | `fmix64` has a two-sided inverse |
| Murmur.FinishBijective | lib/b_murmur.c:312-328 | finalization for a fixed length has a two-sided inverse on the pair |
| Murmur.ReadTail1 | lib/b_murmur.c:301-308 | the cases 8 to 1 read the first word of the zero-padded tail |
| Murmur.ReadTail2 | lib/b_murmur.c:292-298 | the cases 15 to 9 read its second word |
| Murmur.AbsentTailIsNeutral | lib/b_murmur.c:290-310 | a word that the switch skips would have changed nothing |
| Murmur.Onto | lib/b_murmur.c:251-328 | every 128-bit value is the hash of some 16-byte key, for every seed |
| BloomFilter.IndexInRange | lib/b_bloomfilter.c:287 | the wrapped, signed remainder and `llabs` always give an index below the number of bits |
| BloomFilter.IndexExactly | lib/b_bloomfilter.c:287 | a bit is the index of the i-th hash function if and only if it is congruent, up to the sign, to the one signed 64-bit number that is h1 + i * h2 modulo 2^64 |
| BloomFilter.SumsInStep | lib/b_bloomfilter.c:287 | successive sums differ by the second hash modulo 2^64 |
| BloomFilter.AddedBits | lib/b_bloomfilter.c:265-291 | a key whose hashes are 1 and 1 sets the bits 1, 2 and 3 |
| BloomFilter.BitIsShifted | lib/b_bloomfilter.c:220-222 | bit i is the one of weight 2^(i mod 64) in its word |
| BloomFilter.Filter.Add | lib/b_bloomfilter.c:265-291 | an add sets exactly the indices of the key; refusals change nothing; the set bits stay the union over all keys added |
| BloomFilter.Filter.IsPresent | lib/b_bloomfilter.c:306-326 | for filters of any size the first bit not found set decides; up to 2^37 bits the answer is whether all indices of the key are set, and every key added is reported present |
| BloomFilter.FindsAllExactly | lib/b_bloomfilter.c:239-326 | every key added to any filter of so many bits is reported present if and only if there are at most 2^37 |
| BloomFilter.AddedNotFound | lib/b_bloomfilter.c:239-326 | in any larger filter, a key that is added and then makes the lookup read outside the bitset |
| BloomFilter.AnswerIsAll | lib/b_bloomfilter.c:318-325 | up to 2^37 bits the loop answers whether all indices are set |
| BloomFilter.Filter.SetBit | lib/b_bloomfilter.c:211-226 | exactly the one bit is added to the set, nothing if its word is past the end |
| BloomFilter.Filter.GetBit | lib/b_bloomfilter.c:239-251 | which bit is read for any index, and when the read is outside the bitset |
| BloomFilter.Filter.Create | lib/b_bloomfilter.c:66-101 | NULL exactly for non-positive parameters, else an empty filter |
| BloomFilter.CastKeepsEveryWord | lib/b_bloomfilter.c:245 | the cast to `int` keeps every word number if and only if there are at most 2^37 bits |
| BloomFilter.CastTurnsNegative | lib/b_bloomfilter.c:245 | the first bit beyond is looked up at a negative word number |
| BloomFilter.BitSet | lib/b_bloomfilter.c:217-223 | setting a bit of a word sets it and leaves the other 63 |
| ConfigText.PrintedPairReadBack | lib/b_config.c:517-602 | a printed line is read as the same pair if and only if the pair is printable: key non-empty, separator-free, not ending in a blank, the line opening neither as comment nor as include, no leading blank in the value, no CR or LF |
| ConfigText.PrintedMapReadBack | lib/b_config.c:1242-1257 | reading what was printed rebuilds the map from key to value sequence, in whatever order the keys came, if and only if every pair of it is printable |
| ConfigText.SamePairsPrintable | lib/b_config.c:517-602 | if the pairs read from a printed text are those printed, in any order, each is printable: sizes leave no room for one failure to make up for another |
| ConfigText.PairsFit | lib/b_config.c:517-602 | the pairs read take no more characters than the lines, and as many only if every line is read whole |
| ConfigText.PairsReadBack | lib/b_config.c:1242-1257 | printed pairs are read one by one in their order |
| ConfigText.ReadLine | lib/b_config.c:507-602 | the pointer moves along one line make of it what the grammar says |
| ConfigText.NamedInclude | lib/b_config.c:525-534 | for any blanks before and after the tag, an include line names exactly the rest |
| ConfigText.PairLine | lib/b_config.c:554-595 | the key goes up to the first separator, the value is all after it, and one blank at most is dropped on each side |
| ConfigText.NoPairLine | lib/b_config.c:557-587 | no separator, or nothing but a blank before it, gives nothing |
| ConfigText.CommentLine | lib/b_config.c:550-552 | a comment character after any blanks silences the line, unless it begins the include tag |
| ConfigText.BlankLine | lib/b_config.c:519-523 | a line is skipped as blank if and only if it is all blanks |
| ConfigText.NewlineDropped | lib/b_config.c:509 | the newline of a line makes no difference |
| ConfigText.FirstLine | lib/b_config.c:491-507 | the text is cut into lines at its newlines |
| ConfigInclude.LoadReadsReachable | lib/b_config.c:440-618 | for every finite include graph, cyclic or not, a load ends having read exactly the files reachable from the root through openable includes, each once, the root first |
| ConfigInclude.NewFilesExactly | lib/b_config.c:440-618 | from any state, reading a file adds to the order nothing if it was read or cannot be opened, and else the file followed by exactly the files reachable from it without passing through a file read before, each once |
| ConfigInclude.DepthFirst | lib/b_config.c:525-548 | at an include line those new files are read in one piece of the order, the named file first, between what the lines before and after it read |
| ConfigInclude.IncludedAtItsLine | lib/b_config.c:525-548 | a file with an include line between others loads the file of that name there, after the lines before it and before those after it |
| ConfigInclude.LoadAddsEachFileOnce | lib/b_config.c:491-602 | the pairs added are, as a multiset, those on the lines of each file read, each file once |
| ConfigInclude.PrintedFileLoads | lib/b_config.c:1242-1257 | a file written by the printer reads no other file and loads as the map that was printed, if and only if every pair is printable |
| ConfigInclude.FileClosed | lib/b_config.c:525-548 | reading a file reads nothing twice and all that the new files include |
| ConfigInclude.FileReachable | lib/b_config.c:525-548 | reading a file reads only files reachable around those read before |
| ConfigInclude.LinesAdd | lib/b_config.c:491-602 | reading lines adds their own pairs and those of the files newly read |
| ConfigLoader.Loader.constructor | lib/b_config.c:278-367 | loading from a file name leaves what `LoadFile` says; a root that cannot be opened is not fatal |
| ConfigLoader.Loader.Load | lib/b_config.c:440-618 | one file is loaded as specified, -1 exactly if it cannot be opened and then nothing has changed; other records and lists are left alone |
| ConfigLoader.Loader.ReadLines | lib/b_config.c:491-602 | the read loop does what `LoadLines` says and keeps the tree showing the files read |
| ConfigLoader.Loader.LoadInclude | lib/b_config.c:525-548 | an include makes a record and loads it, and takes the record back if its file cannot be opened |
| ConfigLoader.Loader.CheckForDoubleInclude | lib/b_config.c:1280-1314 | the recursive search answers 1 if and only if no other record at or under the given one is of the same file |
| ConfigLoader.Loader.Identify | lib/b_config.c:462-489 | searched from the root it answers 1 exactly if the file was not read before |
| ConfigLoader.Loader.CreateInside | lib/b_config.c:957-1000 | a new record goes to the front of its parent's list |
| ConfigLoader.Loader.Destroy | lib/b_config.c:1013-1037 | exactly the records at or under the given one are gone, and it has left its parent's list |
| ConfigLoader.Loader.Close | lib/b_config.c:380-420 | destroying the root leaves no record |
| ConfigLoader.UnderKid | lib/b_config.c:1304-1311 | what is inside a record is under one of its included files |
| Md5.DigestOfPieces | lib/b_md5.c:141-278 | for every message and every way of cutting it into updates, the digest is that of RFC 1321 |
| Md5Values.EmptyValue | lib/b_md5.c:141-278 | the digest of the empty message is that of appendix A.5 of RFC 1321 |
| Md5Values.AbcValue | lib/b_md5.c:141-278 | so is that of "abc" |
| Md5.FChooses | lib/b_md5.c:100 | F takes the bits of y where x is set and those of z elsewhere |
| Md5.GChooses | lib/b_md5.c:101 | G takes the bits of x where z is set and those of y elsewhere |
| Md5.HIsParity | lib/b_md5.c:102 | H is set where one or all three of its inputs are |
| Md5.IInverts | lib/b_md5.c:103 | I inverts y where x is set or z is not |
| Md5.MacrosAreAuxiliary | lib/b_md5.c:100-103 | the four macros are the auxiliary functions of section 3.4 |
| Md5.Context.Update | lib/b_md5.c:175-219 | an update of any length appends to the message that the context stands for: chained state, partial block, bit count modulo 2^64 |
| Md5.Context.Final | lib/b_md5.c:234-278 | padding, length and the last transform leave the RFC 1321 digest of the message |
| Md5.Context.AddByte | lib/b_md5.c:202-218 | one byte fills the block, and a full block is transformed |
| Md5.Context.Count | lib/b_md5.c:196-200 | the two words and their carry count bits modulo 2^64 |
| Md5.Context.Store | lib/b_md5.c:266-277 | the state is stored low byte first |
| Md5.Context.constructor | lib/b_md5.c:141-159 | a new context stands for the empty message |
| Md5.Transform | lib/b_md5.c:285-382 | the 64 macro calls with rotating arguments are the four rounds of section 3.4 |
| Md5.Round1 | lib/b_md5.c:289-310 | the first 16 are round 1 |
| Md5.Round2 | lib/b_md5.c:312-332 | the next are round 2 |
| Md5.Round3 | lib/b_md5.c:334-354 | the next are round 3 |
| Md5.Round4 | lib/b_md5.c:356-376 | the last are round 4 |
| Md5.FFIsOperation | lib/b_md5.c:109-113 | the FF macro is the operation of section 3.4 with F |
| Md5.GGIsOperation | lib/b_md5.c:114-118 | GG is the operation with G |
| Md5.HHIsOperation | lib/b_md5.c:119-123 | HH is the operation with H |
| Md5.IIIsOperation | lib/b_md5.c:124-128 | II is the operation with I |
| Md5.CountAdded | lib/b_md5.c:196-200 | the test for the carry, the low word and the top three bits of the length keep the 64-bit count |
| Md5.CountedBytes | lib/b_md5.c:194 | the place in the block is read from the bit count, past any wrap |
| Md5.LastBlock | lib/b_md5.c:248-263 | the padded block with the two length words is the last block of the padded message |
| Md5.NextByte | lib/b_md5.c:202-218 | a byte extends the partial block or completes it |
| Md5.ChainExtended | lib/b_md5.c:207-216 | one transform is one step of the chain over the blocks |
| Crc32.BurstDetected | lib/b_crc.c:161-172 | from one starting value, two buffers of one length that differ only within 32 consecutive bits always have different CRCs |
| Crc32.BurstExactly | lib/b_crc.c:161-172 | every burst of up to w bits is detected if and only if w is at most 32 |
| Crc32.LongerBurstUndetected | lib/b_crc.c:161-172 | a difference of 33 bits that goes unnoticed |
| Crc32.BurstBits | lib/b_crc.c:161-172 | up to 32 bits map to distinct states |
| Crc32.CheckValue | lib/b_crc.c:161-172 | the nine digits have the published check value |
| Crc32.Crc32 | lib/b_crc.c:161-172 | the table loop computes bit-at-a-time division for every starting value and buffer |
| Crc32.TableIsDivision | lib/b_crc.c:33-99 | every one of the 256 table entries is the remainder of its byte |
| Crc32.GenCrcTable | lib/b_crc.c:126-143 | the generator fills the array with the same table |
| Crc32.FeedByTable | lib/b_crc.c:168 | one table step is eight division steps |
| Crc32.BitwiseConcat | lib/b_crc.c:161-172 | the CRC of the rest, started with the CRC of the first part, is the CRC of the whole |
| Crc32.BitwiseIsBits | lib/b_crc.c:161-172 | bytes are divided bit by bit, lowest first |
| Crc32.StepInjective | lib/b_crc.c:134-139 | one division step loses nothing |
| Crc32.CrcBitsLinear | lib/b_crc.c:134-139 | the difference of two CRCs is the CRC of the difference |
| Crc32.CrcOfPacked | lib/b_crc.c:134-139 | up to 32 bits can be put into the state at once |
| Crc32.RemainderIsDivision | lib/b_crc.c:126-143 | the remainder of a byte is the sum of those of its bits |
| Failover.FailoverIsSafe | lib/b_addrgroup.c:826-979 | after any events from a pending attempt: addresses tried in list order, each at most once; one final callback at most and one when freed; no socket closed twice; when freed, all closed but the one handed over, and no handler left |
| Failover.TimerLeftExactly | lib/b_addrgroup.c:951-969 | when freed, a timer still refers to the state if and only if an attempt with its timer set was refused its handler and a later one set a timer; only then can a call reach the freed state |
| Failover.TimerFindsFreedState | lib/b_addrgroup.c:951-977 | such a run with three addresses |
| Failover.ReportedExactly | lib/b_addrgroup.c:1306-1450 | the one final callback gives the socket exactly if it is writable and the second connect went well, the state so far if the wait was broken off, and otherwise the failure of the last address, without a socket |
| Failover.LastAddressFails | lib/b_addrgroup.c:1261-1450 | when the last address fails, the user is told remote error for a refusal or an unreachable net, local error for an address in use, timeout for one, else system error, and given no socket |
| Failover.LastAttemptFails | lib/b_addrgroup.c:974-979 | so it is when the last attempt fails at once |
| Failover.FirstBrokenOff | lib/b_addrgroup.c:1306-1350 | a wait broken off before any failure reports a system error and the socket |
| Failover.ConnectReports | lib/b_addrgroup.c:974-979 | a chain of attempts that all fail is reported as the last failure |
| Failover.FailureMeansExhausted | lib/b_addrgroup.c:863-891 | unless the wait is broken off, a failure is reported only after every address was tried |
| Failover.StepKept | lib/b_addrgroup.c:1261-1450 | every timeout, readiness, error or notice keeps the invariant |
| Failover.RunKept | lib/b_addrgroup.c:1261-1450 | every order of them does |
| Failover.ConnectKept | lib/b_addrgroup.c:826-979 | a chain of attempts that fail at once ends waiting on one socket or freed |
| Failover.TryNextKept | lib/b_addrgroup.c:871-972 | one attempt, failing at any point, leaves at most its own socket to be closed |
| Failover.EndIsOver | lib/b_addrgroup.c:1117-1213 | the end calls back once, dequeues the current timer, closes what is not handed over and frees |
| Failover.OneFired | lib/b_addrgroup.c:1261-1290 | when a timer fires, another is left exactly if one had been lost |
| ConnectState.RunConnect | lib/b_addrgroup.c:826-1450 | from a pending attempt through any events, on the fields of the object: addresses tried in list order, one final callback exactly if freed, no socket closed twice and all closed but the one waiting or handed over, no handler when freed, and a timer left exactly if one was set after a refusal |
| ConnectState.Connector.Serve | lib/b_addrgroup.c:1261-1450 | any sequence of run loop events keeps the invariant of waiting or being over |
| ConnectState.Connector.ConnectNext | lib/b_addrgroup.c:826-979 | between attempts, the recursion ends with one socket waiting or all over |
| ConnectState.Connector.Try | lib/b_addrgroup.c:871-972 | one attempt leaves a waiting socket, or a state in which the next address can be tried |
| ConnectState.Connector.Finish | lib/b_addrgroup.c:1117-1213 | afterwards all is over: one final callback, nothing open but what was handed over, the state freed |
| ConnectState.Connector.Close | lib/b_addrgroup.c:1876-1911 | afterwards there is no socket, and a state ready for another attempt stays so |
| ConnectState.Connector.TimerFires | lib/b_addrgroup.c:1261-1290 | from waiting, whichever timer goes off, to waiting on another address or to being over |
| ConnectState.Connector.Activity | lib/b_addrgroup.c:1306-1450 | from waiting to waiting or to being over, whatever the socket reports |
| ErrorQueue.ErrorInfo.Print | lib/b_error.c:372-441 | a message is counted or flushed and enqueued; what was printed stays recoverable, both queues stay the newest nodes of their class |
| ErrorQueue.ErrorInfo.Flush | lib/b_error.c:283-346 | a count becomes one node with the time, number and level of the message, a copy for one repeat and the text with the count for more, and is forgotten |
| ErrorQueue.RepeatTextExample | lib/b_error.c:286 | that text for 120 repeats |
| ErrorQueue.ErrorInfo.Enqueue | lib/b_error.c:484-530 | the node goes to the front of the high queue if its level is at most the pivot and not -1, else of the low one; nodes are only dropped from that queue's end, and it holds the newest nodes of its class, be_maxsize + 1 at most if be_maxsize is below 65535 |
| ErrorQueue.ErrorInfo.EnqueueAll | lib/b_error.c:484-530 | over any run of them the bound holds, and a run of high nodes leaves exactly so many, or all with be_maxsize 65535 |
| ErrorQueue.ErrorInfo.Insert | lib/b_error.c:510-524 | the drop loop and the wrapping 16-bit counter leave the newest be_maxsize + 1 nodes, or all of them if be_maxsize is 65535 |
| ErrorQueue.ErrorInfo.Dump | lib/b_error.c:898-934 | the two-cursor merge shows each node of both queues once if nothing is filtered, whatever the times, and the retained nodes in the order of issue if and only if each is in turn, as they are when the clock never stepped back and nodes of different queues are less than 2^31 apart; the filters take away exactly what does not pass, and a minimum alone exactly the levels above it |
| ErrorQueue.ErrorInfo.MarkHolds | lib/b_error.c:922-927 | while the clock has not stepped back, and within 2^31 numbers, a mark lets through exactly the retained nodes first printed after it |
| ErrorQueue.ErrorInfo.Mark | lib/b_error.c:735-769 | a mark takes a number of its own and replaces the old one |
| ErrorQueue.NothingLost | lib/b_error.c:283-346 | if nothing was dropped, expanding what a dump shows and adding the pending count gives exactly the messages printed |
| ErrorQueue.FlushTells | lib/b_error.c:297-329 | a flush keeps the account of what was printed, for one repeat and for many |
| ErrorQueue.RepeatTells | lib/b_error.c:401-406 | counting a repeat keeps it |
| ErrorQueue.PrintTells | lib/b_error.c:416-432 | a new node keeps it |
| ErrorQueue.BoundedExactly | lib/b_error.c:510-524 | whatever is issued, a queue holds at most be_maxsize + 1 nodes, if and only if be_maxsize is below 65535 |
| ErrorQueue.KeptIsInQueues | lib/b_error.c:505-524 | the retained nodes in the order of issue are what the two queues hold |
| ErrorQueue.MergeExactly | lib/b_error.c:902-919 | the merge of the queues is the order of issue if and only if each node is in turn with the next of the other queue |
| ErrorQueue.TakenExactly | lib/b_error.c:904-909 | of two nodes of different queues the first is taken first if and only if their time and number differences modulo 2^32 are in the stated range |
| ErrorQueue.MergeIsComplete | lib/b_error.c:902-919 | whatever the times and numbers, the merge has every node exactly once |
| ErrorQueue.CloseMergesInOrder | lib/b_error.c:902-919 | while the clock does not step back, nodes of different queues less than 2^31 apart are in turn |
| ErrorQueue.FirstIsTaken | lib/b_error.c:902-919 | the merge takes the first node first if and only if it is in turn |
| ErrorQueue.DumpOutOfOrder | lib/b_error.c:898-934 | two messages 2^31 seconds apart whose dump shows the later one first |
| ErrorQueue.DumpAfterStepBack | lib/b_error.c:898-934 | two messages between which the clock steps back, whose dump shows the later one first |
| ErrorQueue.PassesMarkExactly | lib/b_error.c:922-927 | the mark filter tells what was first printed after the mark from what was before it, if and only if the node's time, or for equal times the number distance modulo 2^32, is on the same side |
| ErrorQueue.MarkShowsNewer | lib/b_error.c:922-927 | a whole dump from a mark shows exactly what was first printed after it, if and only if that is so for every node |
| ErrorQueue.RepeatAfterMark | lib/b_error.c:297-332 | a message, a mark, its repeat and another message: the dump from the mark shows only the other |
| Dll.Handle.Add | lib/b_dll.c:42-114 | insert and append, with and without unique keys, put the element at the front or the end, refuse exactly if an equal one is there and name the last such; the list stays well formed and without equal elements |
| Dll.Handle.LookForEqual | lib/b_dll.c:42-114 | the search finds the equal element nearest to the tail, if there is one |
| Dll.InsertedWithOldLink | include/libbk_inline.h:183-205 | an element with a link left over goes into an empty list, and a walk shows an element that is not in it |
| Dll.Handle.InsertBefore | include/libbk_inline.h:183-205 | the links, head and tail represent the list with the element put in; into an empty list exactly if its links were NULL |
| Dll.Handle.InsertAfter | include/libbk_inline.h:209-231 | the same after an element |
| Dll.Handle.Delete | include/libbk_inline.h:335-353 | the list without that element, its links cleared, uniqueness kept |
| Dll.Iterator.NextObj | include/libbk_inline.h:521-544 | the iterator has moved on before the element is returned |
| Dll.SweepForward | include/libbk_inline.h:472-544 | a walk from the start sees each element once while any of them are deleted as they are returned, and leaves exactly the others |
| Dll.SweepBackward | include/libbk_inline.h:472-544 | so does a walk from the end |
| Netinfo.Info.Add | lib/b_netinfo.c:145-206 | another type is refused with 1, a duplicate succeeds only with room for the old one, anything else goes where the list puts it; the first address becomes the primary |
| Netinfo.SameExactly | lib/b_netinfo.c:1473-1480 | addresses are the same if and only if type, length and so many bytes agree |
| Netinfo.Info.Delete | lib/b_netinfo.c:225-270 | the address leaves the list and the primary and secondary if it was one; the call crashes exactly if no such address is there |
| Netinfo.Info.SetPrimary | lib/b_netinfo.c:341-378 | the primary becomes the equal member, or the first address; failure changes nothing |
| Netinfo.Info.GetAddr | lib/b_netinfo.c:702-719 | the primary, or the first address, always a member |
| Netinfo.Info.Advance | lib/b_netinfo.c:1281-1320 | the primary moves one place on, and is unset after the last |
| Netinfo.Info.Enumerate | lib/b_netinfo.c:1281-1320 | a reset followed by advances gives every address exactly once, in list order, and then NULL |
| Netinfo.DeletedTwice | lib/b_netinfo.c:225-270 | an address added and deleted twice: the second call crashes |
| Netinfo.Clone | lib/b_netinfo.c:421-461 | the clone has the same addresses, wherever its list puts them, the same primary or the first of the original if there was none, and the same secondary |
| TimeValue.Rectify | include/libbk.h:962-987 | the total is kept, less than a second of sub-units is left, and its sign agrees with that of the seconds |
| TimeValue.RectifiedIsUnique | include/libbk.h:961-987 | there is one such pair of each total |
| TimeValue.Add | include/libbk.h:942-948 | the total of the result is the sum of the totals, rectified |
| TimeValue.Sub | include/libbk.h:950-956 | the total of the result is the difference, rectified |
| TimeValue.AddThenSub | include/libbk.h:942-956 | taking away what was added gives back the same pair |
| TimeValue.CompareIsOrder | include/libbk.h:958 | on rectified pairs the comparison has the sign of the difference of the totals |
| TimeValue.CompareExplicitly | include/libbk.h:1017-1029 | the timespec comparison is the sign of the same difference |

## Left out

- Allocation failure and thread locking, everywhere.
- Checksum: negative lengths, and the value computed after an overflow.
- FileLock.InvKept: failed writes of the admin file are not steps, because stdio reports them only at fclose, whose result the code ignores.
- File lock: crashes of processes, lines over 1023 characters and path length checks. The failures between the link and its use (lib/b_fileutils.c:528-560) are one step. Unlinking the unique name is not a step. Lock ids are taken to be fresh, and writing the lines of one call is one step.
- Murmur: the two 32-bit variants.
- Bloom filter: filters in files, and the false positive rate.
- Configuration: lines with NUL characters, lines over 8191 characters, which the code reads in pieces and joins in a buffer that it grows, read errors after a file was opened, replacing and deleting values, the query functions. Modification while a load runs.
- ConfigInclude.LoadReadsReachable: files are taken not to change during a load, so that one name leads to one file throughout.
- MD5: the printable form of a digest.
- Failover: datagrams, listeners, AF_LOCAL, and a first attempt that fails at once (lib/b_addrgroup.c:459-464 then aborts a state that may be freed already). The user's callback does not touch the state. Run loop calls other than refusing a handler or a timer are taken to succeed.
- Failover.FailoverIsSafe: the answers of the system are given for each address, which loses nothing since an address is tried at most once.
- Error queues: formatting, output to files and syslog, `bk_error_iflush`, changing the pivot or be_maxsize, more than 2^31 repeats in a row.
- Linked list: ordered insertion, which inserts twice when it stops inside the list (lib/b_dll.c:82-102), searching by key, destroying.
- Address list: AF_LOCAL addresses, whose comparison reads a pointer, names and services, sockaddr conversion. The list itself belongs to the CLC library, which is not part of this model: it is a sequence into which a new address goes at any place.
- Time values: overflow of the fields, and the conversions to floating point.
