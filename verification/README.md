# VDK verification model

A Dafny model of parts of the Via Dynamic Kernel, a small x86 kernel: its storage stack,
terminal, number formatting, keyboard and shell, and the FAT-12 extraction tool that comes
with it. Code that updates state in place is modelled by classes and methods on arrays and
fields; each method is proved against a function or predicate of its inputs, and the laws
are lemmas about those functions. `dafny verify dfyconfig.toml` checks everything.

| file | what it models |
|---|---|
| `Bytes.dfy` | bytes, 16- and 32-bit wrap-around, little-endian words, C strings, overwriting part of a buffer, the pigeonhole principle |
| `Fat12Table.dfy` | the packed 12-bit links, cluster chains, when a walk ends |
| `Fat12Volume.dfy` | the boot fields, the regions they delimit, what it means for a disk to hold a file |
| `Fat12Reader.dfy` | the reader and its main program |
| `Fat12Format.dfy` | a formatter for any files in any clusters, and recovery of every file from what it writes |
| `AtaDevice.dfy` | an ATA channel as a state machine behind its ports, and what a command does to a drive |
| `AtaDriver.dfy` | the PIO driver, one port access at a time, against two such channels |
| `AtaSectors.dfy` | what the sector calls mean for plain maps from sector number to sector |
| `DriveTable.dfy` | the table of detected drives and their model strings |
| `VdSpec.dfy` | the VD file system on a map of sectors: entry format, table, runs |
| `VdFs.dfy` | the same file system as the kernel runs it, on the driver |
| `Terminal.dfy` | the 80 by 25 screen as a window on an unbounded page |
| `Numbers.dfy` | three digit-and-reverse routines and the numerals they write |
| `Printf.dfy` | the format state machine against a recursive grammar |
| `Strings.dfy` | the C string routines |
| `Keyboard.dfy` | scan codes to characters |
| `Shell.dfy` | the line editor and the command loop |
| `Messages.dfy` | the messages of the main routine, printed through `printf` on the screen |
| `System.dfy` | the main routine from power-on: drive table, file system, startup, keyboard, loop and screen together |

The device follows ATA/ATAPI-6, section 6.2 (sector addressing), section 6.20 (48-bit
addresses) and sections 9.5 and 9.6 (PIO data-in and data-out). The volume layout follows
the Microsoft FAT specification, "FAT Data Structure" and "FAT Directory Structure".

How the device's freedom is modelled: a *plan* is an arbitrary finite list of phases, each
an arbitrary finite busy period, the status it ends with and the error register. The
driver's theorems hold for every plan, so they cover every fault at every sector. When the
list is used up the device is fault-free and immediate. The host may write the command block
only while the device is neither busy nor in the middle of a transfer. Other writes are
counted (`Channel.early`), and the plan says whether the device takes or loses them; so that
every write of a call comes in time is a matter of proof, and it is proved, but for the flush.

What the main program of the reader needs of its input is `Fat12Reader.Defined`: no division
by zero, no signed overflow, and a walk over the file found (the ghost parameter `run`, which
the FAT determines) that ends inside the FAT and inside the buffer. `OutcomeIff` says exactly
when there is such a walk, and `HeldFileNeedsRoom` exactly when for a file that the disk
holds. `InstanceIsFormattable` gives a volume with two interleaved chains that meets the
formatter's conditions, and `InstanceBoots` a machine that meets those of the main routine.

## Where the code falls short of its promise

Where a promise fails, the exact condition under which it holds is proved, with an input on
which it does not; the last entries are behaviour that the model follows.

- The loop over a file's clusters ends inside the FAT exactly when, going only through
  clusters that can be read, it neither comes back to a cluster nor comes to one that the FAT
  has no link for (`LoopEndsIff`). The links alone lead to an end mark exactly when no cluster
  repeats and none lies outside the FAT (`WalkEndsIffNoRepeat`); when they repeat, only a failed
  read stops the loop (`RepeatStopsOnFailedRead`). The reader checks none of this.
  `CycleHasNoChain` is a cyclic FAT, `FailedReadStopsCycle` an image on which it does no harm.
- The reader allocates one sector more than the file's size. That holds every cluster the loop
  writes with one sector per cluster; with more, exactly when the last cluster's slack is at
  most one sector (`BufferHoldsChain`). `HeldFileNeedsRoom` adds the wrap of the allocation
  size. `WideInstanceOverflows` is a formattable volume whose one-byte file does not fit.
- The CHS branch keeps the cylinder in 16 bits: the device is asked for the sector wanted
  unless that branch is taken with a sector number of 65536 * 1008 or more (`AddressSentIsLba`).
  A write to the first such sector replaces sector 0 (`WriteWrapsToZero`).
- The cache flush is written right behind the last word of a write, without a poll. It meets a
  busy device exactly when the device has taken every sector and has a busy period after the
  last (`LeftBusyIff`, `WriteChangesRange`; `BusyAfterWrite` is such a device). Every other
  command-block write of a call meets a ready device.
- `ide_write_sectors` returns 0 whatever the device reports, because the write loop polls
  without looking. The whole range is written exactly when the device grants every sector
  and reports no fault after it (`WriteCompletesIff`, `WriteChangesRange`). `UnnoticedFailure`
  runs the call against a device that fails the command.
- A call with a count of 0 moves no sector and returns 0, and the device, which takes the count
  for 256 or 65536, is left in the middle of a transfer exactly when it grants the first
  sector and, for a write, does not take the early flush (`IsLeftAsked` in the contracts of
  `ReadSectors` and `WriteSectors`). `CountOfZero` is such a read.
- `ata_init` passes 0x3F6 and 0x376 as control bases, so the device-control writes go to
  0x3F8 and 0x378. Neither those nor 0x3F4 and 0x374 disturb the two channels' transfers
  (`AtaInitIsWired`).
- `VD_Write` on a full table reports success and leaves the table as it is (`FullTableStays`):
  of any thirteen files created in order the last is not found and the others are
  (`ThirteenthIsLost`, with the files of `ThirteenFiles`). `VD_ReadData` of an unknown name
  reads sector 0 (`VdSpec.DataSector`).
- The model field of a drive reads as the model looked for also when its text goes on behind a
  zero byte (`FieldReadsAsModel`).
- A number conversion of `printf` prints the address of its argument and uses none up
  (`Printf.AddressText`); the model does what the code does.
- In `libsa/stdio.c`, `intToStr` leaves zero without a terminator and turns a negative number
  into the empty string (`Numbers.IntToStr`).
- A blank row that scrolls in has the colour current at that moment, not the one the screen
  was cleared with (`Terminal.CellAt`).
- A line that is an argument is looked up among the commands as well (`Shell.LineEvents`); the
  test `!CMDecho || !CMDread` in front of the complaint is always true.

## Model

| member | source | states |
|---|---|---|
| Fat12Table.EntryNibbles | tools/fat/fat.c:116-120 | the 16-bit read of link c is made of one whole byte and one nibble of the other, which one depending on the parity of c |
| Fat12Table.PackRoundTrip | tools/fat/fat.c:116-120 | packing any sequence of links and reading index i by the even/odd rule gives link i |
| Fat12Table.StoreChangesOneLink | tools/fat/fat.c:116-120 | storing one link leaves every other link as it was although neighbours share a byte |
| Fat12Table.ChainsAreDistinct | tools/fat/fat.c:109-122 | a chain that reaches an end mark visits no cluster twice |
| Fat12Table.ChainLength | tools/fat/fat.c:109-122 | a chain that reaches an end mark has at most one cluster per FAT entry |
| Fat12Table.WalkEndsIffNoRepeat | tools/fat/fat.c:109-122 | of the links alone, from any cluster, for any FAT: an end mark is reached if and only if no cluster repeats and none lies outside the FAT |
| Fat12Table.CycleHasNoChain | tools/fat/fat.c:109-122 | two clusters linked to each other: the links repeat and never reach an end mark |
| Fat12Table.EndMarks | tools/fat/fat.c:122 | the links 0xFF8 to 0xFFF end a file and every other link leads on |
| Fat12Volume.BootRoundTrip | tools/fat/fat.c:11-22 | a boot sector laid out field by field, jump and name first, is read back as its geometry |
| Fat12Volume.RootEndIsLeast | tools/fat/fat.c:82-91 | the sector after the root directory is the least boundary with room for all its entries |
| Fat12Volume.ClustersAreDisjoint | tools/fat/fat.c:112 | different clusters are disjoint sector ranges behind the root directory |
| Fat12Volume.FatPrecedesRoot | tools/fat/fat.c:84-90 | reserved sectors, FAT and root directory follow one another |
| Fat12Volume.ReadableIff | tools/fat/fat.c:68-74 | a read is whole if and only if its bytes from the offset counted in 32 bits on are all in the image, and then it delivers them |
| Fat12Volume.ChainDeliversContent | tools/fat/fat.c:106-125 | the concatenated clusters of a held file's chain start with its content |
| Fat12Volume.BufferHoldsChain | tools/fat/fat.c:166 | exactly when a buffer of Size + BytesPerSector holds the chain's clusters; always with one sector per cluster |
| Fat12Reader.Reader.ReadSectors | tools/fat/fat.c:68-74 | puts what the image has at the wrapped 32-bit offset into the buffer, nothing else; succeeds exactly when nothing is missing |
| Fat12Reader.Reader.ReadFat | tools/fat/fat.c:76-80 | loads the FAT region |
| Fat12Reader.Reader.ReadRootDirectory | tools/fat/fat.c:82-93 | loads the root region and records the sector behind it |
| Fat12Reader.Reader.FindFile | tools/fat/fat.c:95-104 | the first slot with the 11 bytes of the name, or none exactly when no slot has them |
| Fat12Reader.Reader.NextCluster | tools/fat/fat.c:116-120 | the link of the cluster in the packed table |
| Fat12Reader.Reader.ReadFile | tools/fat/fat.c:106-125 | appends exactly the clusters of the walk to the buffer, the rest unchanged; succeeds exactly when the last of them could be read |
| Fat12Reader.Reader.Extract | tools/fat/fat.c:127-185 | the program's outcome: each error code exactly in its case, else Size bytes of the chain |
| Fat12Reader.RunIsShort | tools/fat/fat.c:109-122 | every run of the loop, whether it stops at an end mark or at a failed read, visits no cluster twice and takes at most one round per FAT entry |
| Fat12Reader.RepeatStopsOnFailedRead | tools/fat/fat.c:109-122 | when the links repeat, a run of the loop has stopped on a failed read |
| Fat12Reader.LoopEndsIff | tools/fat/fat.c:109-122 | for any image, FAT and first cluster: the loop ends inside the FAT if and only if, through readable clusters, it neither comes back to a cluster nor comes to one outside the FAT |
| Fat12Reader.OutcomeIff | tools/fat/fat.c:127-185 | for any image and name: the program has a defined outcome if and only if its sizes can be computed and, when the file is found, the loop ends and the buffer has room for every cluster on the way |
| Fat12Reader.FailureCodes | tools/fat/fat.c:140-173 | each failure has its number, exactly: -2 boot sector, -3 FAT, -4 root directory, -5 file or one of its clusters |
| Fat12Reader.FailedReadStopsCycle | tools/fat/fat.c:122 | an image with cyclic links on which the loop stops at a failed read |
| Fat12Reader.ChainIsRun | tools/fat/fat.c:106-125 | for a held file the walk is its chain and no other |
| Fat12Reader.HeldFileIsFound | tools/fat/fat.c:95-104 | the lookup gives a held file's first cluster and size |
| Fat12Reader.HeldFileNeedsRoom | tools/fat/fat.c:166 | for a held file nothing undefined happens if and only if the 32-bit buffer size covers the chain and the content |
| Fat12Reader.HeldFileIsDelivered | tools/fat/fat.c:127-185 | then the program delivers exactly the file's content |
| Fat12Format.LinkedFiles | tools/fat/fat.c:109-122 | linking any number of interleaved disjoint chains makes each whole and changes no other link |
| Fat12Format.FormattedVolumeHolds | tools/fat/fat.c:11-54 | every file of every volume given by its boot fields, however fragmented, is held by the disk formatted from them |
| Fat12Format.FormattedFileIsRecovered | tools/fat/fat.c:82-125 | end to end, from the boot fields and the files: the program's outcome on the formatted disk is the file's content |
| Fat12Format.FormattedFileFits | tools/fat/fat.c:166 | with one sector per cluster nothing undefined happens on the way |
| Fat12Format.WideInstanceOverflows | tools/fat/fat.c:166 | a formattable volume with four sectors per cluster and a file of one byte, for which no run fits the buffer |
| Fat12Format.UnknownNameIsNotFound | tools/fat/fat.c:95-104 | a name that no file has is not found on a formatted disk |
| AtaDriver.AtaInitIsWired | libkern/ide.c:517-519 | the ports passed at startup, and those with the control base two lower, keep the channels apart and control writes off the command blocks |
| AtaDriver.IdeDriver.ReadRegister | libkern/ide.c:17-39 | one read of the selected channel's register, the other channel untouched; only high registers cause port writes, those of the control register around the read |
| AtaDriver.IdeDriver.WriteRegister | libkern/ide.c:42-60 | one write to the selected channel's register, the other channel untouched; the exact port writes, with those of the control register around a high register |
| AtaDriver.IdeDriver.Polling | libkern/ide.c:128-157 | ends for every finite busy period, uses it up, writes no port, and gives 2 for the error bit and 1 for the fault bit without it |
| AtaDriver.AddressSentIsLba | libkern/ide.c:350-384 | the address sent is the one wanted if and only if it is not a CHS request past cylinder 65535 |
| AtaDriver.ModeChosen | libkern/ide.c:350-374 | 48-bit addressing exactly from sector 2^28 on; below, LBA exactly when bit 9 of the capabilities is set, else CHS |
| AtaDriver.AddressRoundTrip | libkern/ide.c:350-409 | in each mode the device reads back from its registers exactly the drive, the mode, the address and the count, 0 being the most there can be |
| AtaDriver.RegisterContents | libkern/ide.c:350-409 | what each register holds in each mode, in byte arithmetic on the sector number |
| AtaDriver.IdeDriver.WriteParameters | libkern/ide.c:393-409 | on a ready device every parameter write is taken; afterwards the two-deep registers hold address and count, nothing else of the channel changes |
| AtaDriver.IdeDriver.IssueCommand | libkern/ide.c:348-424 | after the wait every write meets a ready device; interrupts are turned off first, the command byte comes last, and it starts the command for exactly the drive, mode and sectors asked for, a count of 0 standing for the most there can be |
| AtaDriver.IdeDriver.ReceiveSector | libkern/ide.c:438-444 | 256 words make up exactly one sector at its place in the buffer and move the device to the next sector |
| AtaDriver.IdeDriver.SendSector | libkern/ide.c:450-454 | 256 words hand the device exactly one slice of the buffer |
| AtaDriver.IdeDriver.PioIn | libkern/ide.c:432-445 | delivers the sectors up to the first the device does not grant, with that poll's code |
| AtaDriver.IdeDriver.PioOut | libkern/ide.c:446-459 | the drive changes by the sectors taken before the first fault; the command is over after the flush, which comes too early exactly when the device is still busy with the last sector and which otherwise a fault-free device takes without an error |
| AtaDriver.IdeDriver.AtaAccess | libkern/ide.c:338-462 | for any count: a call is one run of a command on one drive, from idle to idle, the other channel and the device table untouched; no command-block write comes too early but the flush when the device is still busy with the last sector; a count of 0 moves nothing and leaves the device where its first grant has brought it |
| AtaDriver.IdeDriver.PrintError | libkern/ide.c:159-214 | 19 for a fault, 23 without a request for data, 8 for 4, and the error register's code for an error; nothing changes |
| AtaDriver.IdeDriver.MediaErrorCode | libkern/ide.c:167-200 | later tests override earlier ones |
| AtaDriver.IdeDriver.ReadSectors | libkern/ide.c:474-494 | -1 for a drive that is not there and -2 past its size, touching nothing; otherwise k of n sectors come, the code is 0 exactly for all, and else it is told by the bits of the refused sector's status: for bit 0 the code of the error register's highest bit, for bit 5 without it 19, without bits 0, 5 and 3 it is 23; with a count of 0 it is 0 |
| AtaDriver.IdeDriver.WriteSectors | libkern/ide.c:497-515 | -1 for a drive that is not there and -2 past its size, touching nothing; otherwise 0, and the drive changes as the run does, early flush counted; with a count of 0 nothing changes on it |
| AtaDriver.IdeDriver.GetDriveByModel | libkern/ide.c:521-528 | the least index whose C string is the model, else -1 |
| AtaDevice.ReadRunRefinesMap | libkern/ide.c:432-445 | the sectors read are those of the map from the first on; code 0 exactly when all are there |
| AtaDevice.ReadStopsAt | libkern/ide.c:434-436 | a read stops at the first sector the device does not grant, with its code |
| AtaDevice.PollCodes | libkern/ide.c:138-156 | the poll's code from the bits of the status: 2 for bit 0, 1 for bit 5 without it, 3 without either and without bit 3, else 0 |
| AtaDriver.CodesTell | libkern/ide.c:138-207 | poll and translation together, from the bits of status and error register to the caller's number |
| AtaDevice.WriteRunRefinesMap | libkern/ide.c:446-455 | a write replaces exactly the sectors it completes by the first slices |
| AtaDevice.WriteCompletesIff | libkern/ide.c:446-461 | every sector is completed if and only if each is granted and followed by no fault |
| AtaDevice.LeftBusyIff | libkern/ide.c:446-457 | the flush sent at once behind the last word meets a busy device if and only if every sector was taken and the phase after them has a busy period |
| AtaSectors.ReadFillsBuffer | libkern/ide.c:432-445 | a read that stops at sector k returns the matching code, fills exactly the first 512*k bytes with the map's sectors, changes no drive, and writes no command too early |
| AtaSectors.WriteChangesRange | libkern/ide.c:446-459 | a write changes the range lba..lba+k-1 to the buffer's slices and no other sector of any drive; k is the count exactly when nothing failed; exactly when the device takes every sector and is busy after the last does one command, the flush, come too early |
| AtaSectors.WriteReadRoundTrip | libkern/ide.c:338-515 | what a completed write stored a successful read returns, even in different addressing modes |
| AtaSectors.HealthyAccess | libkern/ide.c:338-462 | without faults and inside the drive, reads succeed and writes complete |
| AtaSectors.WriteWrapsToZero | libkern/ide.c:372-383 | without LBA, a write to sector 65536*1008 replaces sector 0 |
| AtaSectors.UnnoticedFailure | libkern/ide.c:446-461 | a device that fails the command: the call returns 0 and no sector has changed |
| AtaSectors.CountOfZero | libkern/ide.c:424-445 | a read with a count of 0 returns 0 and leaves the device waiting to send 256 sectors |
| DriveTable.ReadModel | libkern/ide.c:306-319 | the two in-place loops leave the byte-swapped field without its longest run of trailing spaces, zero-filled |
| DriveTable.TrimmedLength | libkern/ide.c:312-319 | nothing but spaces is cut off, and no space is left at the end |
| DriveTable.DetectedAreResponders | libkern/ide.c:242-323 | the table is exactly the drives that answer, each once, by channel and then by drive |
| DriveTable.KindOfAnswer | libkern/ide.c:257-284 | which answers are plain drives, which are packet drives by their two signature bytes, and which are none |
| DriveTable.RecordFields | libkern/ide.c:289-319 | where a table entry comes from, byte by byte of the 512 sent: capabilities, size by bit 26 of the command sets, model |
| DriveTable.DetectDrives | libkern/ide.c:242-323 | given the drives' answers, the probe loops build that table compacted, with at most four entries, the slots behind it unchanged but for a cleared flag |
| DriveTable.IdeInit | libkern/ide.c:223-323 | brings up a valid driver on the channels given, its table the detected drives followed by entries never filled |
| VdSpec.EntryRoundTrip | osfs/fs.h:6-13 | an entry's sector reads back as the entry |
| VdSpec.EntryLayout | osfs/fs.h:6-13 | where each field of an entry lies in its sector, low byte first, and zeros behind |
| VdSpec.TextRoundTrip | osfs/fs.c:83-96 | a text's sector reads back as the text |
| VdSpec.TextLayout | osfs/fs.c:88-93 | a text's sector is the text and then zeros |
| VdSpec.RunsAgree | osfs/fs.c:58-96 | after any run of the two write calls on files with distinct names two sectors apart: occupied slots are a prefix in order of creation, every entry sector and every data sector is as last written, no other file changes |
| VdSpec.LookupFindsCreated | osfs/fs.c:24-41 | a file is found if and only if it is among the first twelve created, and its sector deserialises to the entry found |
| VdSpec.RunsRefineMap | osfs/fs.c:43-96 | runs refine a map from name to text: reading a file gives the text last stored to it |
| VdSpec.FullTableStays | osfs/fs.c:71-78 | an entry leaves the table unchanged if and only if twelve were created before (or it is the empty entry) |
| VdSpec.SectorRead | osfs/fs.c:43-56 | a name is read from the sector behind the first entry with it, counted in 32 bits, and a name without an entry from sector 0 |
| VdSpec.ThirteenthIsLost | osfs/fs.c:71-80 | of any thirteen files created in order, a file is found if and only if it is not the last |
| VdFs.FileSystem.VdRead | osfs/fs.c:8-22 | the entry stored in the sector, no state changed |
| VdFs.FileSystem.VdOpen | osfs/fs.c:24-41 | the earliest entry with the name, or the NULL entry exactly when there is none |
| VdFs.FileSystem.VdReadData | osfs/fs.c:43-56 | the text behind the entry found, or in sector 0 when there is none, copied with its terminator; nothing else changes |
| VdFs.FileSystem.VdWrite | osfs/fs.c:58-81 | on the real driver, exactly the specified change of table and disk |
| VdFs.FileSystem.AddToTable | osfs/fs.c:71-78 | the first nameless slot takes the entry, a full table stays |
| VdFs.FileSystem.VdWriteData | osfs/fs.c:83-96 | on the real driver, the sector behind the entry's becomes the zero-padded text and nothing else changes |
| VdFs.FileSystem.Perform | osfs/fs.c:58-96 | any run of write calls through the driver is the run of the specification |
| VdFs.FileSystem.PerformAndRead | osfs/fs.c:43-96 | any run of write calls through the driver and then a read by name: the text stored last |
| VdFs.ChosenIsFirst | libkern/ide.c:521-528 | on the table of the probe the drive looked up is the first that answers and has the model, none exactly when there is none |
| VdFs.FieldReadsAsModel | libkern/ide.c:306-319 | the field reads as the model if and only if the swapped and trimmed text is the model or continues it behind a zero byte |
| VdFs.SectorWritten | osfs/fs.c:69 | against a sound drive one sector call is one update of the map, whatever the addressing mode |
| VdFs.SectorRead | osfs/fs.c:18 | and one read a lookup in it |
| Terminal.LayoutAppends | libsa/stdio.c:89-108 | laying out a text with one more character changes only the end of the page |
| Terminal.PageKeepsText | libsa/stdio.c:89-114 | the page's rows in order are the printing characters of the text |
| Terminal.PageShowsText | libsa/stdio.c:18-21 | over the whole page the low bytes of the cells, in order, are the printing characters and the high bytes their colours |
| Terminal.WindowOfNewRow | libsa/stdio.c:70-87 | a row opened below the screen moves the window up by one row and blanks the last |
| Terminal.Screen.Initialize | libsa/stdio.c:31-43 | the cursor at home and every cell a space in light grey on black, 0x0720 |
| Terminal.Screen.BsodInitialize | libsa/stdio.c:45-57 | the cursor at home and every cell a space in white on blue, 0x1F20 |
| Terminal.Screen.Scroll | libsa/stdio.c:70-87 | in place, every row moves up and the last is spaces in the current colour |
| Terminal.Screen.PutChar | libsa/stdio.c:89-108 | after any sequence of calls the cells are the last 25 rows of the page and the cursor is the page's, on the screen; the cell at the old cursor has the character in its low byte and the colour in its high byte; newline and column 79 go to the next row, at most 24 |
| Terminal.Screen.Write | libsa/stdio.c:110-114 | the same for a string |
| Numbers.TextRoundTrip | libsyscall/vSh/term/vSh/info.h:23-40 | in every base from 2 to 16 the numeral of n has no superfluous zero and reads back as n |
| Numbers.DigitsAre | libsa/string.c:88-91 | the digits in ASCII, with lower- or upper-case letters from ten on |
| Numbers.NumeralIsText | libsyscall/vSh/term/vSh/info.h:23-40 | every numeral is the one of its value |
| Numbers.TextIsInjective | libsyscall/vSh/term/vSh/info.h:23-40 | different numbers have different numerals |
| Numbers.IntFitsTemp | libsyscall/vSh/term/vSh/info.h:23-33 | at most 31 digits, so the 32-byte buffer has room for them and the terminator |
| Numbers.DecimalFits | libsa/stdio.c:259-267 | at most 10 decimal digits, so 12 bytes suffice |
| Numbers.Itoa | libsa/string.c:73-106 | the digit loop and the swapping reversal leave sign, numeral and terminator in place, the rest of the buffer unchanged |
| Numbers.ItoaRoundTrip | libsa/string.c:73-106 | its text is a minus sign and the number without its sign for a negative number in base 'd', else the numeral of the number modulo 2^32, in base 16 for 'x' and 10 otherwise |
| Numbers.IntToStr | libsa/stdio.c:134-152 | the decimal numeral of a positive number; what zero and negative numbers get |
| Numbers.IntToStrBase | libsyscall/vSh/term/vSh/info.h:8-41 | the numeral in bases 2 to 16 through the copying reversal, the empty string in others |
| Numbers.DecimalsAgree | libsyscall/vSh/term/vSh/info.h:26-27 | upper- and lower-case decimal numerals are the same, so for a positive number the three routines write the same string |
| Printf.OneCharacter | libsa/stdio.c:165-254 | one step of the machine, jump included, is one step of the grammar |
| Printf.FormatsAre | libsa/stdio.c:167-209 | a percent sign, one of the modifiers h, hh, l, ll or none, and one more byte are a conversion; any other byte stands for itself |
| Printf.ConversionsAre | libsa/stdio.c:212-245 | what each conversion byte prints, and that only c and s use an argument |
| Printf.AddressReads | libsa/stdio.c:259-267 | the text of an address reads back as it below 2^31 and is empty from there on |
| Printf.Print | libsa/stdio.c:155-255 | the one-pass machine prints what the recursive reading of the format means and goes past exactly the arguments of its c and s conversions |
| Printf.PrintNumber | libsa/stdio.c:259-267 | the text of the address it is given |
| Printf.DoubledPrintsItself | libsa/stdio.c:222-223 | a text with every percent sign doubled prints as the text |
| Messages.PlainPrintsItself | libsa/stdio.c:165-177 | a text without percent signs prints as it is |
| Messages.AroundArgument | libsa/stdio.c:165-220 | a format with one c or s conversion prints its argument between the two plain parts |
| Messages.PrintAround | libsa/main.c:126-132 | a string in a message appears as it is, whatever percent signs it has |
| Messages.ShowEvent | libsa/main.c:112-180 | every message of the loop goes to the screen with its wording |
| Messages.Wording | libsa/main.c:77-181 | the wording of every message |
| Messages.EchoedLineIsRow | libsa/main.c:122-126 | an echoed line of less than 80 bytes is a row of its own on the page |
| Strings.StrCmp | libsa/string.c:29-37 | 0 exactly for equal C strings |
| Strings.StrCpy | libsa/string.c:39-44 | the string and its terminator at the front, the rest unchanged |
| Strings.StrCat | libsa/string.c:46-51 | the concatenation, terminated |
| Strings.MemCpy | libsa/string.c:10-17 | the n bytes at their place, the rest unchanged |
| Keyboard.Driver.KeyboardHandler | libkern/keyboard.c:67-121 | one step of the decoder for every scan code |
| Keyboard.Driver.Type | libkern/keyboard.c:67-137 | the text a reader that keeps up gets from any scan codes |
| Keyboard.ReleasesDoNotMatter | libkern/keyboard.c:73-74 | key releases, wherever they come, change nothing |
| Keyboard.TypingRoundTrip | libkern/keyboard.c:40-121 | with caps lock off, the strokes for a text type exactly that text and leave shift off: one shift press serves one key |
| Keyboard.TypeableTexts | libkern/keyboard.c:14-121 | without caps lock, the texts that any scan codes can type are exactly those made of characters that single strokes give |
| Keyboard.CapsLockRaises | libkern/keyboard.c:78-106 | one caps-lock press in front takes 0x20 from every byte 0x61 to 0x7A that plain keys type and keeps the others; a second press gives the plain text again |
| Keyboard.NumberKeys | libkern/keyboard.c:14-21 | each key from 1 to the equals sign: alone, after shift, after caps lock and after both |
| Keyboard.UpperKeys | libkern/keyboard.c:14-21 | the same for the row from Q on |
| Keyboard.MiddleKeys | libkern/keyboard.c:14-21 | the same for the row from A on |
| Keyboard.LowerKeys | libkern/keyboard.c:14-21 | the same for the row from the backslash and Z on |
| Keyboard.OtherKeys | libkern/keyboard.c:14-21 | escape, backspace, tab, enter, space and the signs of the keypad |
| Keyboard.SilentKeys | libkern/keyboard.c:14-21 | every other scan code types nothing |
| Keyboard.ShiftPending | libkern/keyboard.c:93-116 | shift is pending after a run if and only if some shift press has had no plain key after it |
| Shell.TranscriptAppends | libsa/main.c:108-182 | what one more character adds to the transcript of a stream, and to the line and the previous line it leaves |
| Shell.LinesAreAnswered | libsa/main.c:115-135 | over any stream: a line is echoed exactly when the one before it was "echo", and the file it names is shown exactly when that was "read"; each line is its first 99 characters |
| Shell.TranscriptIsAnswers | libsa/main.c:108-182 | over any stream of lines, what is printed is line by line the editing (99 bytes shown, the rest complained about) and the answer from the bytes of the line and the one before: greeting, list, request for an argument, complaint, echo, file, prompt, each exactly for its lines |
| Shell.Loop.HandleChar | libsa/main.c:108-182 | after any stream the output is the transcript, the buffer is the line so far, and the flags say which command the previous line was, never two at once |
| Shell.Loop.EndLine | libsa/main.c:111-169 | the newline branch prints what the line means after the previous one and leaves the buffer empty |
| Shell.Loop.GiveArgument | libsa/main.c:115-135 | the argument goes to the command that waits for it, and no command waits afterwards |
| Shell.Loop.LookUp | libsa/main.c:137-163 | the chain of comparisons picks the command's answer and its flag |
| System.Startup | libsa/main.c:58-103 | from an empty table on a sound drive, both files are found and read back as written |
| System.StartupIsReadable | libsa/main.c:43-103 | after startup every name leads to a terminated string, given that sector 0 has one |
| System.StartupSectors | libsa/main.c:58-103 | startup leaves the entries in sectors 1 and 3, each text behind its entry, and every other sector as it was |
| System.Boot | libkern/ide.c:517-528 | from power-on: driver and file system come up valid, with an empty table, on the first drive that answers with the model |
| System.Interact | libsa/main.c:108-182 | scan codes through decoder, loop and screen: the loop has handled exactly the text typed, and the screen shows its messages after what it showed before |
| System.Session | libsa/main.c:58-182 | the whole routine from power-on: for the strokes of any text, the screen is the window on the page of the startup messages, the prompt and the transcript of that text over the two files |

## Left out

- AtaDriver.IdeDriver.ReadSectors: drive index 5 passes the source's guard but has no table entry, and for drives that are not plain ATA the result is an uninitialised variable; both are excluded by `IsUsable`.
- AtaDriver.IdeDriver.ReadRegister: the high-order-byte bit of the control register is not modelled, so registers 0x08 to 0x0B read the current byte; nothing in the source reads them.
- AtaDriver.IdeDriver.PioOut: a flush that comes too early is taken or lost, and nothing worse; what it does to data still in the device's cache is not modelled.
- AtaDriver.IdeDriver.ReceiveSector: the buffer is an array with an offset in place of a 32-bit address; `rep insw` and `rep outsw` are 256 word accesses.
- DriveTable.DetectDrives: the port conversation of IDENTIFY is replaced by what each drive answers; a drive that never answers keeps the source in its probe loop forever.
- DriveTable.IdeInit: the channels are given as the probes leave them, idle.
- DriveTable.DetectedAreResponders: the signature and the command sets of a drive are not kept in its table entry.
- Fat12Reader.Reader.Extract: images on which `Defined` fails for every run have no outcome; `OutcomeIff` says which. The argument count and the opening of the image are not modelled, nor what the console does to control characters.
- Fat12Reader.Reader.ReadSectors: the image is a sequence of bytes and a short read delivers all bytes there are.
- VdFs.FileSystem.Valid: the drive found by its model string is fault-free, plain ATA, and small enough for the addressing its features allow; with faults the file system loses writes unnoticed, because it ignores every code.
- VdSpec.EntryRoundTrip: the three padding bytes of the structure are zero.
- VdFs.FileSystem.VdReadData: the sector read holds a terminated string that fits the destination, as the source's unbounded copy needs.
- Numbers.IntToStrBase: negative numbers, for which the source writes characters below '0'.
- Printf.Print: a missing argument is excluded; arguments lie at a non-zero address and do not wrap.
- Keyboard.TypingRoundTrip: caps lock stays off; with caps lock and shift together the source never clears the shift flag, so no such law holds, and the layout lemmas say what each key gives.
- Keyboard.Driver.GetChar: the wait for a character becomes a condition on the caller; interrupts that come faster than the reader takes characters are not modelled.
- Shell.Loop.HandleChar: output is a sequence of events, which `Messages` prints after each character; the character 0, which the keyboard never gives, is excluded.
- System.Session: the initialisation of the other devices and the banner in front of the startup files.
- ATAPI transfers, DMA, interrupt waits, soft reset and other device commands.
- File attributes, dates and long names in FAT directories; FAT types other than FAT-12.
- Descriptor tables, the interrupt controller, the mouse, system calls and the other shell headers: packing and tables whose members would be easy.
