# Zenbite: storage, interpreter, assembler and protocol models

A Dafny model of the parts of Zenbite in which a mistake loses data or produces wrong code, with proofs of what they are for.

- **FAT driver** (`kernel/fs/fat.c`). A volume on an array of sectors: the three table encodings, the one-sector write-back
  cache with its mirrored second table, allocation and release of chains, the directory as 32-byte slots, the calls on files
  and directories, the formatter and the mounter. `Runs.Run` is the refinement theorem: every legal run of calls answers as an
  abstract map from 8.3 names to byte strings and free clusters does. `RunLaws` proves what that abstract file system
  guarantees, `Remounts` that it survives on the device, `Excursions` that it holds in a directory just made and in its
  parent afterwards.
- **ZBC** (`shell/zbc.c`). The recursive-descent parser into an index-linked node table against a grammar on tokens, with a
  printer as its inverse and the levels of its operators written out; the flag-driven walk over that table against a structured
  semantics with outcomes, and the operators by the laws of 32-bit arithmetic.
- **ZAS** (`shell/zas.c`). The two passes over source lines, the label table, where branches land, and the finished bytes
  against a decoder of x86 instructions.
- **MBR** (`kernel/drv/mbr.c`). Table reading and writing, edits, the largest free span, and views of partitions.
- **Network** (`kernel/net/net.c`). Checksums, DNS names, and the receive path of TCP under a hostile network.
- **EHCI** (`kernel/drv/ehci.c`). The descriptors of a bulk transfer.

State that the program changes in place is a class (`Disk`, `FatVolume`, `FileSystem`, `Parser`, `Machine`, `Assembler`,
`Connection`); each method is proved against a function on values, and the laws are lemmas about these functions.

## What the driver is assumed to be given

- A volume has two tables, clusters of at most 16 sectors, regions inside the device, and table entries that are 0, a cluster
  number, or an end mark; each file and subdirectory entry has a chain of its own. These are the mounted-volume invariant;
  `FreshVolumes.FormatAndMount` establishes it and every call keeps it.
- Callers do not write to or remove a file that is open through another handle, do not let a position reach 2^32, do not use
  names whose first byte marks an unused slot, and do not rename to "." or "..".
- Allocation is bounded by the table, not by the device. Chains may therefore end in one cluster past the device; such a file
  reads and writes up to there. Where a table is so large that entry numbers reach the end mark, callers keep one such entry
  free.
- The device answers (`reliable`) for whole calls; cache and table operations are also proved for a device that fails.

## Where code and comments differ

- `kernel/fs/fat.c:14` says that the backup table is ignored for writes; the code writes it and ignores a failure of that
  write. The model follows the code, and `stale` are the sectors in which the copies may differ.
- `kernel/fs/fat.c:982-1000` makes a FAT16 table about twice as large as needed, which is where entries past the device come
  from; volumes of 8237 to 16423 sectors are formatted but cannot be mounted, and smaller ones come back as FAT12.
- An empty write to a file without a cluster takes one, and a failing mkdir keeps one. `RunLaws.RunExact` says when files
  own exactly the clusters their size asks for, `RunLaws.RunLean` what holds of them in every run.
- The limits in the comment at the head of `shell/zbc.c` (64 functions, 4096 nodes) are not those of the code (16, 512).
- `shell/zbc.c:686-704`: `continue` in a while loop stays pending behind it; `break` and `return` run the last part of a for
  loop; a function that falls off its end returns the value of the last call in it. A plain program has none of these: continue
  only in for loops, break only in while loops and in for loops without a last part, return not inside a for loop with one.
- `shell/zas.c:226-239, 859-882`: addresses in .data count the text twice, the space for .bss is counted in both passes,
  fixups never patch anything, and a count that names a label further on is 0 in the first pass and an address in the
  second; `ZasLayout.PassesAgree` says when the passes agree nevertheless.
- `shell/zas.c:745-759` asks only whether minus the number is at least -128, so that `add eax, -0xFFFFFF00`, where that is
  256, is cut to the byte 0: `ZasDecode.InsDecodes` says for which numbers. Minus 2^31, which C leaves open, counts as 2^31.
- `kernel/fs/fat.c:986-987, 1072`: the volume sizes in the comments are half of those at which the cluster size changes.
- `kernel/net/net.c:447-462`: the next sequence number advances by a whole segment even if the ring was full, and a FIN is
  taken out of order. `Tcp.InputInStep` says that these are the only two ways to lose step.
- A view of a partition accepts a request beyond its end exactly if lba + count wraps around 32 bits.

## Model

| member | source | states |
|---|---|---|
| FatCodec.PutEntryIsArrayStore | kernel/fs/fat.c:175-223 | on the bytes of the table, for all three encodings: storing entry c and reading entry d gives the stored value (cut to the entry width) if d is c, and else what entry d was; packed 12-bit neighbours included |
| FatCodec.Neighbour12 | kernel/fs/fat.c:182-188 | the 12-bit entry that shares a byte with a stored one keeps its value |
| FatCodec.TopNibbleKept | kernel/fs/fat.c:213-222 | the top four bits of every 32-bit entry survive every store |
| FatCodec.EntriesAfterPut | kernel/fs/fat.c:194-223 | the sequence of all entries after a store is the old one updated at one index |
| FatCodec.EntryInBounds | kernel/fs/fat.c:231-237 | every entry number below max_cluster lies inside the table, and a 16- or 32-bit one inside one sector |
| FatCodec.EntryBits | kernel/fs/fat.c:225-237 | the table holds exactly the entries whose 12, 16 or 32 bits lie in its bytes one behind the other, and the last eight values an entry can have are end marks |
| FatCodec.EntryDigits | kernel/fs/fat.c:175-192 | an entry on the bytes, low byte first: three half bytes, two bytes, or four bytes without the upper half of the last |
| FatVolumes.FatVolume.constructor | kernel/fs/fat.c:478-544 | a volume as mounting leaves it: table, clusters and root are those of the device, nothing waits to be written, the recorded differences of the two tables are exactly the sectors in which they differ |
| FatVolumes.FatVolume.CacheFlush | kernel/fs/fat.c:152-161 | writing the cached sector back changes neither the table nor the data the driver sees; success means nothing is dirty; on a device that answers, the written sector of the mirror agrees again |
| FatVolumes.FatVolume.CacheLoad | kernel/fs/fat.c:163-172 | switching sectors or failing to read one loses no dirty entry: the table stays what it was, and on success the cache holds the sector asked for |
| FatVolumes.FatVolume.FatGet | kernel/fs/fat.c:175-192 | reads entry c of the table as an array; the all-ones value only where the device failed |
| FatVolumes.FatVolume.FatSet | kernel/fs/fat.c:194-223 | updates the array at c and nothing else, or on a failed load nothing at all |
| FatVolumes.FatVolume.FlushFat | kernel/fs/fat.c:272-283 | after a successful flush the first copy on the device is the table and the mirror agrees outside stale sectors; both copies equal the table if none was stale, and always after a dirty FAT12 table was written |
| FatVolumes.FatVolume.Settled | kernel/fs/fat.c:272-294 | when nothing waits in memory, the device holds table and root, and both copies of the table are equal if they were when the volume was mounted |
| FatVolumes.FatVolume.ReadCluster | kernel/fs/fat.c:260-266 | reads the bytes of a cluster of the device; numbers past its end fail |
| FatVolumes.FatVolume.WriteCluster | kernel/fs/fat.c:268-270 | changes that cluster and no other, and neither table nor root; numbers past the end of the device fail and change nothing |
| FatVolumes.FatVolume.StoreDir | kernel/fs/fat.c:320-329 | rewrites the fixed root or one cluster and nothing else; a fixed root is on the device afterwards |
| FatAlloc.AllocCluster | kernel/fs/fat.c:239-248 | takes the lowest free entry and marks it as end of a chain, or rightly reports that none is free; nothing else changes |
| FatAlloc.FreeChain | kernel/fs/fat.c:250-257 | ends on every table whose entries are in range, cyclic and cross-linked ones included, and zeroes exactly the clusters reachable from its argument |
| FatAlloc.ClusterAfter | kernel/fs/fat.c:686-689 | follows n links, stopping at the end of the chain |
| Chains.WalkChain | kernel/fs/fat.c:686-689 | walking i links from the head of a chain arrives at its i-th cluster |
| Chains.ReachIsChain | kernel/fs/fat.c:250-257 | what is reachable from the head of a chain is exactly the chain |
| Chains.NewChain | kernel/fs/fat.c:239-248 | allocation keeps the table a set of disjoint, acyclic, ended chains and adds one of a single cluster |
| Chains.ExtendChain | kernel/fs/fat.c:729-739 | linking an allocated cluster behind a chain keeps all that and lengthens this chain alone |
| Chains.DropChain | kernel/fs/fat.c:250-257 | freeing a chain from its head removes it, zeroes its entries and leaves every other chain as it is |
| Chains.Conservation | kernel/fs/fat.c:239-257 | free entries plus entries in chains always make up the whole table |
| Stores.EntryChains | kernel/fs/fat.c:140-149 | in every valid state each file or subdirectory entry names the head of a chain of its own: linked, ended, free of repetition, sharing no cluster with the chain of another entry |
| Stores.WriteContent | kernel/fs/fat.c:740-746 | writing into one cluster of a chain is overwriting the file at the corresponding position |
| Stores.OtherFile | kernel/fs/fat.c:715-763 | files of other directories read the same after any step that keeps foreign chains |
| Directory.FindIsLookup | kernel/fs/fat.c:332-348 | the slot search finds a name exactly if the directory map has it, and returns its entry |
| Directory.AddIsUpdate | kernel/fs/fat.c:772-786 | an entry stored in the first free slot adds its name to the map and keeps names unique and unused slots at the end |
| Directory.RemoveIsDelete | kernel/fs/fat.c:814-826 | marking a slot deleted removes exactly its name from the map |
| Directory.ReplaceIsUpdate | kernel/fs/fat.c:788-795 | rewriting an entry under an unused name or its own replaces it in the map |
| Directory.AttributeBits | kernel/fs/fat.c:338-342 | lookups and listings skip exactly the slots with first byte 0 or E5 or attribute bit 08; attribute bit 10 makes a subdirectory |
| Directory.SlotWords | kernel/fs/fat.c:139-144 | size and first cluster as numbers of the bytes 28 to 31, 26 and 27, and on FAT32 20 and 21 |
| Directory.FindBytes | kernel/fs/fat.c:332-348 | the slot search finds the first slot of the name that has first byte neither 0 nor E5 and attribute bit 08 clear and stands in front of the first zero slot, and fails exactly when there is none |
| Directory.ListingBytes | kernel/fs/fat.c:926-946 | on any slots: a slot is listed exactly if its first byte is neither 0 nor E5, its attribute bit 08 is clear, and it stands in front of the first zero slot |
| Directory.ReservedNames | kernel/fs/fat.c:801-802 | the names refused for new entries: the two markers, and those that begin with a blank |
| Directory.NoneUsedBytes | kernel/fs/fat.c:879-884 | a directory is empty exactly if every slot from the third to the first zero slot begins with E5 |
| Directory.WithFileKeeps | kernel/fs/fat.c:145-149 | storing cluster and size leaves all other bytes of a slot, and clears the high half of the cluster except on FAT32 |
| Directory.NewFileBytes | kernel/fs/fat.c:803-808 | a new file is its name, the attribute 20 and zeros |
| Directory.ListingIsMap | kernel/fs/fat.c:926-946 | a listing holds every live non-volume entry, nothing else, and no name twice |
| FileModel.WriteSound | kernel/fs/fat.c:715-763 | a write keeps the bytes inside the clusters, conserves clusters, reports how many bytes were taken, keeps the old tail behind them and stores a prefix when the device fills up |
| FileModel.WriteExact | kernel/fs/fat.c:715-763 | a file that owns exactly ceil(size / cluster size) clusters keeps doing so under a write exactly unless the write is empty, the file has no cluster, and one is free |
| FileModel.WriteLean | kernel/fs/fat.c:715-763 | a file that is exact, or empty with one cluster, stays so under every write, empty ones included |
| FileModel.WriteSplit | kernel/fs/fat.c:715-763 | writing in two calls gives the file, free space and number of bytes of one call, whether or not the device fills up on the way |
| FileSystems.FileSystem.WriteLoop | kernel/fs/fat.c:729-750 | the write loop over the chain does what the abstract write says to file, free space and count, and touches no other chain |
| FileSystems.FileSystem.FsOpen | kernel/fs/fat.c:660-677 | the lowest free handle at position 0 with the cluster and size of the first slot of that name; fails exactly when all eight handles are in use, no slot is found, or the one found has attribute bit 10; nothing else changes |
| FileSystems.FileSystem.FsRead | kernel/fs/fat.c:691-713 | delivers the bytes of the abstract file from the position on and moves the position; the directory, other files and the state of the cache towards the device stay as they were |
| FileSystems.FileSystem.FsWrite | kernel/fs/fat.c:715-763 | one step of the abstract file system; no chain of another directory changes; on return the table has been written back |
| FileSystems.FileSystem.FsCreate | kernel/fs/fat.c:797-812 | one step of the abstract file system: a new empty file, whose slot is its name, attribute 20 and zeros, or an error that changes nothing |
| FileSystems.FileSystem.FsUnlink | kernel/fs/fat.c:814-826 | one step of the abstract file system: the file is gone, its clusters free; no chain of another directory changes; the table has been written back |
| FileSystems.FileSystem.FsRename | kernel/fs/fat.c:828-837 | one step of the abstract file system: the entry and every handle on it have the new name, all other bytes of its slot stay, or an error that changes nothing |
| FileSystems.FileSystem.FsMkdir | kernel/fs/fat.c:839-869 | one step of the abstract file system: an empty subdirectory with a cluster of its own, which holds the entries for itself and its parent and slots never used; a call that fails for want of a slot or of clusters on the device keeps the cluster it took |
| FileSystems.FileSystem.FsRmdir | kernel/fs/fat.c:871-892 | one step of the abstract file system: an empty subdirectory is gone and its clusters are free, anything else is refused and nothing changes |
| FileSystems.FileSystem.FsReadDir | kernel/fs/fat.c:926-946 | each call passes over slots that begin with E5 or have attribute bit 08, returns the next other one unchanged, and reports the end exactly at a zero slot or behind the last; the calls together give the listing |
| FileSystems.FileSystem.FsClose | kernel/fs/fat.c:765-769 | frees the handle and nothing else |
| Runs.Run | kernel/fs/fat.c:660-892 | any legal run of the calls answers exactly as the abstract map from names to byte strings does and ends in its state; chains and bytes of files in other directories are as before; the device is up to date unless a failing mkdir has lost a cluster since the last flush |
| Runs.VisibleIsSane | kernel/fs/fat.c:660-892 | in every valid state open files exist, positions lie inside them, no name is both file and directory, and bytes fit clusters |
| Runs.NothingLost | kernel/fs/fat.c:839-869 | a run in which no mkdir fails after taking a cluster leaves the table on the device |
| RunLaws.RunSane | kernel/fs/fat.c:660-892 | every legal run keeps open files, positions and sizes consistent |
| RunLaws.RunSpares | kernel/fs/fat.c:660-892 | a run that does not write, rename or remove a file leaves its bytes alone |
| RunLaws.ReadsBack | kernel/fs/fat.c:691-763 | after a write and any run that spares the file, reading through any handle gives the old contents overwritten with the bytes accepted |
| RunLaws.AnySplit | kernel/fs/fat.c:715-763 | however data is cut into write calls, the file, the free space and the number of bytes accepted are those of one call |
| RunLaws.AnyReads | kernel/fs/fat.c:691-713 | however reading is cut into calls, the bytes delivered are those of one call |
| RunLaws.StepConserves | kernel/fs/fat.c:660-892 | each call keeps the sum of free clusters and clusters of files and subdirectories, except that a mkdir for which the directory has no slot loses one |
| RunLaws.RunConserves | kernel/fs/fat.c:660-892 | the same for whole runs |
| RunLaws.RunExact | kernel/fs/fat.c:715-763 | every file owns exactly ceil(size / cluster size) clusters all through a run exactly if no call of it is an empty write to a file without a cluster while one is free |
| RunLaws.RunLean | kernel/fs/fat.c:660-892 | after every legal run, empty writes included, a file that has bytes owns exactly ceil(size / cluster size) clusters and an empty one at most one |
| RunLaws.EmptyWriteTakesACluster | kernel/fs/fat.c:725-729 | the input that breaks exactness: an empty write to a new file takes a cluster |
| RunLaws.MkdirUndone | kernel/fs/fat.c:839-892 | rmdir after a successful mkdir restores the state before it |
| RunLaws.CreateUndone | kernel/fs/fat.c:797-826 | unlink after a successful create restores the state before it |
| RunLaws.RenameUndone | kernel/fs/fat.c:828-837 | renaming back restores the state before, open handles included |
| Remounts.Remount | kernel/fs/fat.c:478-544 | when the table has been written back, mounting the device again shows the same directory, files, free space and chains, with no file open |
| Remounts.RunAndRemount | kernel/fs/fat.c:478-892 | after any legal run at whose end the table has been written back, mounting again shows exactly the state the abstract file system ends with |
| Excursions.Entered | kernel/fs/fat.c:839-869 | the invariant of the driver holds of a directory just made, which shows its two markers, no file, and all other slots free |
| Excursions.DotBytes | kernel/fs/fat.c:846-858 | a new directory begins with two slots of attribute 10: "." names its own cluster and ".." that of its parent, both with size 0 |
| Excursions.BackInv | kernel/fs/fat.c:660-892 | whatever has been done in a new directory, the invariant holds of its parent again; the parent shows the same files and subdirectories, with the new free space and whether the new directory is empty |
| Excursions.RunInNew | kernel/fs/fat.c:660-892 | mkdir, any legal run inside the new directory, and back: the calls inside answer as those of an abstract file system that starts empty, and the parent is as after mkdir but for free space and the emptiness of that directory; chains of third directories are as before |
| Mounting.FsMount | kernel/fs/fat.c:478-544 | mounting yields the kind, cluster size and regions the boot sector describes, with tables and root as on the device, and refuses exactly the boot sectors with no shape |
| Mounting.ShapeByCount | kernel/fs/fat.c:501-537 | a boot sector without wrap-around, on its fields: where table copies, root and data lie, the root in the fewest sectors that hold it; the kind by the number of whole clusters, below 4085, below 65525 and above; and which boot sectors are refused |
| Formatting.TableSize | kernel/fs/fat.c:994-997 | the table size is the rounded-up quotient; from 2^32 - 2027 sectors on the 32-bit sum wraps and the table has one sector |
| Formatting.PlanFits | kernel/fs/fat.c:982-1000 | the planned regions fit the device; a FAT16 table has more entries than there are clusters, a FAT32 table at most two fewer |
| Formatting.ClusterBytesByVolume | kernel/fs/fat.c:985-988 | clusters of 2, 4 and 8 KiB for volumes below 16, 64 and 512 MiB, and with FAT32 of 4 KiB below 1 GiB and 8 KiB above |
| Formatting.FirstEntries | kernel/fs/fat.c:1049-1053 | the entries of a fresh table: medium, end mark, on FAT32 the chain of the root, and free clusters |
| Formatting.Classified | kernel/fs/fat.c:478-544 | mounting what was formatted finds the kind, cluster size and regions that were written exactly from 16424 sectors on; from 8237 to 16423 it refuses the volume, below it takes it for FAT12 |
| Formatting.FsFormat | kernel/fs/fat.c:972-1172 | formatting succeeds exactly from 1024 sectors on, writes a boot sector with every field the source fills in, two equal tables and an empty root, on FAT32 the information sector and both backups, and leaves the sectors behind alone |
| FreshVolumes.SpareEntries | kernel/fs/fat.c:994-997 | table entries past the end of the device exist exactly on FAT16 volumes |
| FreshVolumes.FormatAndMount | kernel/fs/fat.c:478-1172 | from 16424 sectors on, format then mount succeeds with the planned geometry, equal table copies, an empty root and every usable cluster free |
| ZbcGrammar.RoundExpr | shell/zbc.c:281-379 | printing any expression with parentheses only where precedence or left-associativity asks for them and parsing the tokens gives the same tree and consumes exactly those tokens, right-associative assignment and nested calls included; which operator binds tighter is the subject of ZbcLevels |
| ZbcGrammar.RoundLevel | shell/zbc.c:350-362 | the same at each precedence level of the climbing loop |
| ZbcGrammar.RoundArgs | shell/zbc.c:298-312 | the same for argument lists |
| ZbcLevels.OneLevel | shell/zbc.c:334-348 | every binary operator stands on exactly one of ten levels, written out in the order of C |
| ZbcLevels.RowParses | shell/zbc.c:334-362 | operands and operators in a row without parentheses are parsed to the tree in which, by these levels, nothing on the left of an operator binds looser and everything on the right binds tighter |
| ZbcLevels.TwoOperators | shell/zbc.c:350-362 | x a y b z is x a (y b z) if b stands on a tighter level than a, and (x a y) b z otherwise, two operators of one level included |
| ZbcPrinter.RoundStmt | shell/zbc.c:381-476 | printing any statement without braces of its own and parsing the tokens gives the same tree back and consumes exactly those tokens, provided that no else follows a statement that ends in an if without one |
| ZbcPrinter.RoundProgram | shell/zbc.c:492-512 | the same for whole programs |
| ZbcPrinter.IfMade | shell/zbc.c:384-396 | an else belongs to the nearest if: what is parsed between if and else never ends in an if without else |
| ZbcPrinter.ParsedIsGood | shell/zbc.c:381-512 | the programs that can be printed are exactly those that some tokens are parsed to |
| ZbcNodes.ListSnoc | shell/zbc.c:298-312 | a tree linked to the end of a list of trees in the node table is the layout of the longer list |
| ZbcParsers.Parser.NewNode | shell/zbc.c:270-279 | a new row at the end of the table, or an error when it is full |
| ZbcParsers.Parser.ParsePrimary | shell/zbc.c:281-332 | parses what the grammar says at this position, lays it out in the node table and ends on every token list |
| ZbcParsers.Parser.ParseBinop | shell/zbc.c:350-362 | the same for one level of binary operators |
| ZbcParsers.Parser.ParseExpr | shell/zbc.c:364-379 | the same for assignments and expressions |
| ZbcParsers.Parser.ParseStmt | shell/zbc.c:381-476 | the same for statements |
| ZbcParsers.Parser.ParseFunc | shell/zbc.c:492-512 | the same for functions |
| ZbcParsers.Parser.ParseProgram | shell/zbc.c:757-771 | parsing reports no error exactly if the tokens are a program of the grammar that fits the tables, and then the tables hold exactly its functions |
| ZbcForest.ProgramIsForest | shell/zbc.c:270-512 | in the node table of every program each row is the target of at most one link, and no path of links comes back to a row |
| ZbcValues.SumLaws | shell/zbc.c:607-608 | addition and subtraction of 32-bit numbers: exact where the result fits, each undoes the other, commutative, associative, and the largest number plus 1 is the least |
| ZbcValues.ProductLaws | shell/zbc.c:609 | multiplication: 0 and 1, commutative, distributive over addition |
| ZbcValues.QuotientLaws | shell/zbc.c:610-611 | a == b * (a / b) + a % b with |a % b| < |b| and the sign of a; by zero both are 0; -2^31 / -1 wraps |
| ZbcValues.OrderLaws | shell/zbc.c:612-617 | comparisons give 0 or 1; exactly one of less, equal, greater; less is transitive and a < a + 1; the other three are the negations |
| ZbcValues.ShiftLaws | shell/zbc.c:621-622 | shifting by n + 1 is doubling, or halving downwards, once more than by n; by 0 it changes nothing; counts go modulo 32 |
| ZbcValues.BitLaws | shell/zbc.c:618-620 | and, or and exclusive or, for each of the 32 bits |
| ZbcValues.OtherLaws | shell/zbc.c:592-631 | logical operators, minus, not, and every assignment operator by the operators above |
| ZbcAgreement.SameExpr | shell/zbc.c:568-680 | walking an expression gives the value, output and variables of its meaning |
| ZbcAgreement.SameStmt | shell/zbc.c:681-725 | walking a plain statement sets the flags of its outcome and gives output and variables of its meaning |
| ZbcAgreement.SameCall | shell/zbc.c:544-566 | a call has the value and output of its meaning and leaves the frames below it alone |
| ZbcQuirks.EvalFrames | shell/zbc.c:568-725 | whatever the program, walking a tree changes no frame but the top one |
| ZbcQuirks.CallFrames | shell/zbc.c:544-566 | whatever the program, a call leaves all frames of its callers as they were |
| ZbcQuirks.NativeCalls | shell/zbc.c:537-547 | print writes its number, putchar its character, getchar takes the next key, whatever functions the program has |
| ZbcQuirks.RunMeans | shell/zbc.c:773-799 | a plain program writes, reads and returns what its structured meaning says, fails if its meaning fails, and does not end if its meaning does not |
| ZbcQuirks.WhileContinueSkips | shell/zbc.c:686-692 | a while loop left after a continue makes the walk skip all statements behind it, whatever they are; their meaning is to be executed |
| ZbcQuirks.ForBreakRunsPost | shell/zbc.c:698-704 | a break runs the last part of its for loop, whatever constant is assigned to whatever variable there |
| ZbcReturns.LastHeld | shell/zbc.c:568-725 | walking a tree without return leaves in the return register the value of the last call it made, or what was there |
| ZbcReturns.FallsOffReturnsLastCall | shell/zbc.c:544-566 | a function without a return statement returns the value of the last call it makes, or 0 if it makes none; its meaning has no value |
| ZbcMachines.Machine.Eval | shell/zbc.c:568-725 | the walk over the rows of the node table does what the walk over the tree does; what the operators give is the subject of ZbcValues |
| ZbcMachines.Machine.CallFunction | shell/zbc.c:544-566 | the same for calls, with the scope stack in its array |
| ZbcReturnValues.ReturnParses | shell/zbc.c:492-512 | the tokens of int main() { return t; }, written without parentheses, are the program with exactly this body |
| ZbcReturnValues.ReturnRuns | shell/zbc.c:544-566 | running it gives the value of t by the operator laws, writes nothing and reports no error |
| ZbcRuns.ZbcRun | shell/zbc.c:757-799 | from tokens to output: refused exactly if it does not parse or fit; else output and value of the tree walk, and for plain programs with a meaning those of the meaning; a program that returns an expression of numbers and operators that fits the table reports its value |
| ZasLayout.LineGrows | shell/zas.c:369-854 | a line writes as many bytes as it stands for in either pass, up to the end of the buffer, and what was written stays |
| ZasLayout.FirstStart | shell/zas.c:859-882 | the first pass starts each line at the sum of the sizes before it, a known label as count filling the buffer and an unknown one counting 0, and its table holds the labels so far |
| ZasLayout.PassesAgree | shell/zas.c:859-882 | for every source, the second pass starts every line where the first did exactly if no times, and no resb outside .bss, in front of the end of the buffer counts with a label that comes behind it |
| ZasLayout.LateDiffers | shell/zas.c:416-428 | such a line takes nothing in the first pass and all the rest of the buffer in the second |
| ZasLayout.NamedCountDiffers | shell/zas.c:416-428 | the smallest such source: a times whose count is the label behind it |
| ZasLayout.LabelsTabled | shell/zas.c:193-201 | after any number of lines of pass 1 the table holds exactly the labels so far, each with the address it had |
| ZasLayout.LabelAddress | shell/zas.c:227-239 | the table of pass 2 has for every .text label the load address plus the offset of its line |
| ZasLayout.BranchLands | shell/zas.c:768-840 | every jmp, call and conditional jump in .text to a .text label, decoded from the finished bytes, lands on the byte behind that label |
| ZasLayout.EntryPoint | shell/zas.c:478-490 | the program is entered at _start, or at its first label if there is no such label |
| ZasLayout.AllFixupsVain | shell/zas.c:887-908 | all fixups name undefined labels, so applying them patches nothing |
| ZasLayout.DataLabelRight | shell/zas.c:227-239 | a .data label has the address of its byte exactly if the last stretch of .text before it ended at offset 0 |
| ZasLayout.DataLabelAddress | shell/zas.c:226-239 | a .data label has its offset counted from the end of the last stretch of text before it, rounded up to four |
| ZasLayout.BssDoubled | shell/zas.c:859-882 | where counts in .bss are numbers, the second pass doubles the space reserved |
| Zas.Assembler.AssembleLine | shell/zas.c:369-854 | assembling a line into the buffer is the line step on the assembler state; what its bytes mean is the subject of ZasDecode |
| Zas.Assembler.RunPass | shell/zas.c:859-882 | a pass is its lines in order from the start of the buffer |
| Zas.Assembler.Assemble | shell/zas.c:984-1021 | assembling is pass 1, then pass 2 on its labels; the fixups leave the output as it is, so that ZasDecode speaks of the finished buffer |
| ZasDecode.InsDecodes | shell/zas.c:499-765 | against a decoder made from the opcode map: every instruction, whatever is behind it, is decoded to the operation, registers and value of the source and has the length of its bytes, except exactly the subtracted numbers from 2^31 to 2^32 - 128, which are cut to one byte |
| ZasDecode.Lengths | shell/zas.c:536-748 | which numbers get the short form |
| ZasDecode.CodeDecodes | shell/zas.c:859-882 | in the finished program every instruction in front of the end of the buffer stands where the second pass starts its line, is decoded there to what the source asks for with the same exception, and ends where the next line starts |
| ZasDecode.NameDecodes | shell/zas.c:523-662 | push and mov of a label are decoded with the address the table has for it |
| ZasDecode.JmpToLands | shell/zas.c:784-788 | a jump to a number in .text lands at that address |
| ZasDecode.BranchDecodes | shell/zas.c:768-850 | under the conditions of BranchLands, what stands at the line is decoded to the jump, call or condition named, and lands on the byte behind the label |
| ZasDecode.WordsInOut | shell/zas.c:449-465 | dw and dd leave the low 16 bits and the 32 bits of their value, low byte first |
| ZasDecode.RepeatsInOut | shell/zas.c:416-475 | times and resb leave the bytes they count |
| ZasDecode.ItemsInOut | shell/zas.c:430-448 | db leaves its texts as they are and of each number the lowest byte, in order |
| MbrTables.TableBack | kernel/drv/mbr.c:48-98 | reading a written table gives its entries back, unused ones blank; no table if no entry is plausible |
| MbrTables.TableBytes | kernel/drv/mbr.c:48-70 | on the bytes: a sector holds a table exactly if it ends with 55 AA, all four entries begin with 0 or 80, and one has a kind, a start and a count |
| MbrTables.WrittenBytes | kernel/drv/mbr.c:81-95 | on the bytes: an entry with kind and count is written with 80 or 0, FE FF FF twice, its kind, start and count, any other as zeros |
| MbrTables.CreateKeepsValid | kernel/drv/mbr.c:113-131 | a partition created in a free stretch and an empty slot keeps entries disjoint, inside the disk and at most one active |
| MbrTables.DeleteKeepsValid | kernel/drv/mbr.c:133-139 | so does deletion |
| MbrTables.ActivateKeepsValid | kernel/drv/mbr.c:141-148 | so does marking a partition active |
| Mbr.MbrRead | kernel/drv/mbr.c:48-70 | succeeds exactly on sectors that hold a table, with its entries |
| Mbr.MbrWrite | kernel/drv/mbr.c:72-98 | changes sector 0 alone: table and signature stored, boot code kept, or the embedded one put in front where there was no signature |
| Mbr.MbrCreate | kernel/drv/mbr.c:113-131 | error codes and the new table of partition creation; other partitions lose the active mark if the new one has it |
| Mbr.MbrDelete | kernel/drv/mbr.c:133-139 | error code and new table of deletion |
| Mbr.MbrSetActive | kernel/drv/mbr.c:141-148 | error code and new table: one active entry |
| Mbr.SortSpans | kernel/drv/mbr.c:289-297 | the insertion sort leaves a sorted permutation |
| Mbr.MbrLargestFree | kernel/drv/mbr.c:268-318 | a span inside the disk, behind the first 2048 sectors, disjoint from every used entry and none longer, for tables in any order, overlapping or not; fails exactly when there is none |
| MbrRuns.RunEdits | kernel/drv/mbr.c:113-148 | any run of edits: every table on the way is valid and follows from the one before by the edit or its refusal, and the boot code stays |
| MbrRuns.ScanAll | kernel/drv/mbr.c:189-241 | the views are those of all acceptable partitions of all disks in order, as far as there are slots |
| MbrRuns.ScanIsolates | kernel/drv/mbr.c:189-241 | views found on valid tables share no sector and lie inside their disks |
| MbrRuns.InsideUnlessWrapped | kernel/drv/mbr.c:156-166 | a request that passes the bounds check of a view touches sectors of the view only, and those it names, exactly if lba + count fits 32 bits |
| MbrRuns.WrappedPasses | kernel/drv/mbr.c:156-166 | for every view a request of two sectors that passes the check and begins in front of the view |
| MbrRuns.PartRead | kernel/drv/mbr.c:156-160 | reads what lies at the place on the disk below, exactly for requests that pass the check and end on that disk; what the view holds, exactly for requests inside it, unless the end wraps |
| MbrRuns.PartWrite | kernel/drv/mbr.c:162-166 | changes exactly what lies at its place on the disk below; unless the end wraps, its view as asked and no other view |
| MbrUse.EditScanWrite | kernel/drv/mbr.c:113-241 | after any run of edits, a scan and any run of writes none of which wraps and yet passes the check, every view holds exactly what it would hold as a disk of its own |
| Checksum.FoldStep | kernel/net/net.c:104-105 | each round of adding the carries makes the sum smaller and keeps its one's-complement value |
| Checksum.ByteCounts | kernel/net/net.c:97-103 | the sum counts each byte at an even position 256 times and each at an odd one once, a last odd byte included |
| Checksum.FoldedIs | kernel/net/net.c:104-105 | the folded sum has the remainder of the sum modulo 65535, and is 0 only for 0 |
| Checksum.IpChecksum | kernel/net/net.c:97-107 | the loop computes the complement of the one's-complement sum without overflow of 32 bits, for even and odd lengths |
| Checksum.StoredVerifies | kernel/net/net.c:97-107 | storing the checksum in its zeroed field makes the checksum of the whole 0 (RFC 1071, section 1) |
| Checksum.SendIp | kernel/net/net.c:221-240 | an IPv4 header as sent, byte by byte, and it verifies |
| Checksum.IcmpReply | kernel/net/net.c:261-275 | an echo reply keeps the request behind the type and verifies |
| Checksum.TcpEmit | kernel/net/net.c:384-414 | a segment is sent exactly if it fits a packet; ports, numbers, header length, flags and window stand on its bytes high byte first, then the data, and its checksum over pseudo-header and segment verifies |
| Tcp.Connection.TcpInput | kernel/net/net.c:416-464 | the ring and the connection fields after a segment, state by state |
| Tcp.Connection.TcpRecv | kernel/net/net.c:509-526 | hands out the oldest bytes of the ring |
| Tcp.InputInStep | kernel/net/net.c:441-462 | one honest segment keeps bytes and sequence number in step exactly if it fits the ring when accepted and a FIN comes only in order |
| Tcp.RunInStep | kernel/net/net.c:416-526 | for every run of dropped, repeated and reordered segments and reads under these conditions, bytes handed out and bytes in the ring are the stream prefix received (RFC 9293, section 3.10.7.4); a repeated FIN after the close does no harm to the bytes |
| Tcp.HandshakeInStep | kernel/net/net.c:429-438 | the answered SYN starts the connection in step |
| Dns.DnsEncodeName | kernel/net/net.c:631-646 | writes the encoded name if it fits the buffer, else reports an error |
| Dns.EncodeIsWire | kernel/net/net.c:631-646 | encoding the dotted text of a list of labels gives the length-prefixed labels and a zero (RFC 1035, section 3.1), exactly if they fit |
| Dns.DecodeWire | kernel/net/net.c:631-646 | decoding gives the labels back, whatever follows |
| Dns.SkipWire | kernel/net/net.c:649-663 | skipping an encoded name lands right behind it if it has at most 64 labels, and fails otherwise |
| Dns.SkipEnds | kernel/net/net.c:649-663 | skipping labels with anything behind them: one byte more for a zero, two for a compression pointer, failure for everything else, for a name cut off, and for more than 64 labels |
| Dns.NameRoundTrip | kernel/net/net.c:631-663 | encode, decode and skip together, for every list of labels |
| Ehci.FillBufs | kernel/drv/ehci.c:219-237 | the page pointers of a descriptor: the first one with its offset, the others at page starts, none behind the last byte |
| Ehci.BytesListed | kernel/drv/ehci.c:219-237 | every byte of a descriptor lies in the page its pointer names (EHCI 1.0, section 3.5) |
| Ehci.ChainTiles | kernel/drv/ehci.c:369-406 | for every length and alignment the descriptors tile the buffer once in order, all but the last carry whole packets, and each is linked to the next |
| Ehci.ToggleCounts | kernel/drv/ehci.c:400-406 | each descriptor starts with the toggle (first + p) mod 2, where p is the number of packets that hold the bytes before it |
| Ehci.FillsIsLeast | kernel/drv/ehci.c:402 | that number is the least whose packets hold the bytes |
| Ehci.BulkTransfer | kernel/drv/ehci.c:362-410 | the loop builds exactly this chain in the pool if it fits, a prefix of it if not; the final toggle is (first + p) mod 2 with p packets in the transfer |
| Ehci.FlipTwice | kernel/drv/ehci.c:400-406 | the toggle after two stretches of packets is the first one plus their number, modulo 2 |

## Left out

- Path text: drive letters, splitting into components, conversion to and from 8.3 names, the current directory and fs_chdir. Calls take a directory and an 8.3 name; "." and ".." are the markers path resolution leaves.
- Directories beyond their first cluster, which the driver does not look at either; several volumes and drives at once.
- FileSystems.FileSystem.FsMkdir: the ".." entry of a directory made in the root of a FAT32 volume holds 0, as in the code; reading it back through path resolution is not modelled.
- FileSystems.FileSystem.FsReadDir: a listing over an unmodified directory; the eight directory handles and the conversion of names for display are not modelled.
- Excursions.RunInNew: going to and fro between directories that exist already, with files open in several of them; a run works in one directory, or in its parent, a directory made there, and the parent again.
- Runs.Run: failures of the device in the middle of a call; the cache, table and cluster operations below it are proved for them.
- Mounting.FsMount: boot sectors with another number of tables, clusters of more than 16 sectors, or regions outside the device; sector numbers do not wrap at 32 bits.
- Formatting.FsFormat: the boot code copied by the installer and the volume label text beyond its eleven bytes.
- The tokeniser of ZBC, printf (a plain program does not call it, because its format text is not part of this model), line numbers and error messages; a token list ends in end-of-file tokens; output is a sequence of events and keys are a sequence of inputs.
- ZbcMachines.Machine.Eval: programs that do not end are walks that use up any amount of fuel; 32-bit arithmetic wraps around and shift counts are taken modulo 32, where C leaves both open.
- The lexer of ZAS with the names of registers and instructions (jz is je, and so on), %define, memory operands, label names cut to 63 characters and the ELF header; lines come as parsed directives and instructions, names in operands only where the listed instructions take them.
- ZasLayout.BranchLands: sources that the passes lay out differently, whose labels repeat or overflow the table, or whose output overflows the buffer.
- ZasLayout.BssDoubled: sources that count with labels in .bss.
- MBR: mbr_init_disk, names of views, a sector 0 without embedded boot code to put in front.
- Tcp.RunInStep: streams of 2^32 - 1 bytes and more, sequence numbers that come round; parsing of TCP headers, ports and addresses, acknowledgements, retransmission, and the call back into the poll loop while a segment is sent.
- ARP, UDP, the HTTP client, DNS answers behind the name.
- Ehci.BulkTransfer: registers, waiting and cancelling; packet sizes above what five pages hold.
- Everything that touches other hardware, boot code, paging, the user interface and the installer; easy members such as the heap, clipboard, history and string routines.
