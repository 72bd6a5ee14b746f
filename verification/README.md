# Verified models of the camera application's common components

This project models, in Dafny 4.11, the parts of the application under `common/` that carry
state, text formats or concurrency, and proves what they are for. `dafny verify dfyconfig.toml`
checks everything.

| module | models | main results |
|---|---|---|
| `Slots`, `Dictionary`, `DictionaryRuns` | the string dictionary of `common/param/dictionary.c` | every run of set, unset and get is indistinguishable from a plain map; runs without unset keep first-insertion order over any number of growths |
| `Text`, `IniLoad`, `IniQuery`, `IniDump`, `IniRoundTrip`, `IniStable`, `IniLines` | the INI parser, printer and section queries of `common/param/iniparser.c` | loading a dump gives the dictionary back; an entry, or a section, survives its printed line if and only if a stated condition on its name and value holds; dumping a loaded dump gives the same bytes; what hand-written lines store, with blanks, upper case, comments, quotes, continuation and errors; entries split exactly over sections |
| `ListHead` | the circular intrusive list of `common/list.h` | each operation turns the rings it is given into exactly the rings it names; cut and splice undo each other |
| `Player`, `PlayerSafety`, `PlayerSound`, `PlayerRuns` | the control API and the two stream threads of `common/player/player.c` | in every interleaving: no demuxer call without the mutex or outside init and deinit, at most one delivery from a pause or stop to the next play or seek, a played stream runs on until something ends it, joins sound exactly when pipeline and thread were created, no call ever stuck, nothing after destroy |
| `Utf8`, `Gbk`, `GbkTable` | the codecs of `common/network` | the validator accepts exactly the concatenations of blocks; encoder and decoder are inverse; GBK to UTF-8 and back is the identity if and only if the tables agree; the code table is read in code order; exactly which texts are looked up inside the other table |
| `Bmp`, `Bmp24`, `BmpHeader` | the bitmap writer and reader of `common/osd/bmp_reader.c` | save then load keeps every pixel in its place with its bytes reversed; twice is the identity; padded 24-bit files load pixel by pixel; exactly which files are accepted |
| `Jpeg` | the marker walk of `common/player/player.c` | it terminates and reads inside the buffer; a size is found if and only if a chain of segments leads to a frame header, and it is the one in it |
| `NetString`, `Roi` | bounded append, rectangle fitting | exact results of the chained appends; the largest aligned rectangle that fits |

## How the model is built

State that the source changes in place is changed in place here: the dictionary is a class over
three arrays, list nodes are heap objects with `next` and `prev`, `strstrip`, `strlwc`, the
conversions, `net_stringcopy` and the pixel loops write arrays. Each such method is proved equal to
a function of its inputs or of the old state, and the theorems are proved about those functions.
The player is a transition system: a step is one access to shared state, a run is any list of
steps, and the results of foreign calls are arguments of the step.

Conventions and assumptions:

- Allocation succeeds (creating a thread may fail); files are character or byte sequences; logging and event callbacks are not
  modelled.
- Strings are sequences of `char`; `tolower` and `isspace` are those of the C locale; the hash adds
  the code of a character, so bytes above 127 are not sign-extended.
- The player has one control thread that makes its calls one after another, and shared reads and
  writes are sequentially consistent. `rkdemuxer` and hardware results are arbitrary.
- The two code tables are parameters of the text codecs.
- Integers are unbounded where the cited bounds (`Fits`, the bound on a JPEG buffer) keep the
  source's own integers from overflowing; bytes, hashes and code points are bit-vectors of the
  source's width.

Where code and documentation disagree the code is followed:

- The comment on `dictionary_set` (common/param/dictionary.c:242-246) says that a NULL value equals
  deletion. The code keeps the key present with a NULL value, and section entries rely on it.
- An empty section header `[]` leaves the section buffer as it was and only shortens it to one
  character less than the length of the line (common/param/iniparser.c:639-644).
- `list_cut_position` says nothing of a single-entry list whose entry is elsewhere; the code leaves
  both lists alone.

Four expected properties hold only under a condition. Each condition is exact, and each failure is
shown at concrete inputs:

- Reading the printed line of an entry stores that entry if and only if its key is lower-case and
  trimmed, has no `=` and starts no comment, its value is trimmed, has no `;` or `#`, is not taken
  for quoted text and does not end in a backslash, the two together do not look like a section
  header, and the whole line, newline included, is shorter than the 1024 characters of the line
  buffer (`EntrySurvivesIff`, with `LostValues` and `LostNames`). Values that start with a quote, and
  keys that start with a bracket, can therefore still survive. A longer line makes the whole load
  fail (`LongEntryFails`). `SectionSurvivesIff` is the same for section headers.
- Between calls a stream is enabled exactly when it has a status and a thread, if and only if the
  pipeline of a file that names the stream, and its thread, were created (`InStepIffBuilt`, with
  the failing runs `FailedPipeJoinsNothing` and `LostThreadJoinsNothing`).
- After destroy the demuxer handle is still initialised if and only if the file behind it has neither
  a video nor an audio codec (`ReleasedUnlessBare`, `InitOverwritesIffBare`, with the runs
  `BareFileLeaks` and `BareFileOverwritten`): no status is ever set for such a file, so nothing
  releases the handle.
- `utf8_to_gbk` reads inside its table if and only if every three-byte character it gets to is one
  of U+4E00 to U+9FA5 (`ReadsInsideIff`, with U+3002 in `FullStopOutside`).

## Model

| member | source | states |
|---|---|---|
| `Slots.SetRefines` | common/param/dictionary.c:251-298 | set is a map update; keys stay distinct, the table never shrinks, and the count grows by one exactly for a new key |
| `Slots.UnsetRefines` | common/param/dictionary.c:311-345 | unset removes exactly the key from the map and one from the count when it was there |
| `Slots.GrownHasRoom` | common/param/dictionary.c:279-291 | after the growth test there is a free slot and the probe from `n` reaches one |
| `Dictionary.Hash` | common/param/dictionary.c:116-134 | the loop computes the recursive hash in 32-bit arithmetic; NULL hashes to 0 |
| `Dictionary.HashValues` | common/param/dictionary.c:116-134 | the hash of three literal keys |
| `Dictionary.Dictionary.constructor` | common/param/dictionary.c:147-163 | a valid empty table of at least 128 slots |
| `Dictionary.Dictionary.Scan` | common/param/dictionary.c:211-221 | skipping free slots and comparing the cached hash first finds the same slot as comparing keys |
| `Dictionary.Dictionary.Get` | common/param/dictionary.c:206-223 | returns the value of the map the table stands for, or the default when the key is absent |
| `Dictionary.Dictionary.Grow` | common/param/dictionary.c:67-99 | twice the slots, the old ones in front with their hashes, free ones after |
| `Dictionary.Dictionary.FirstEmpty` | common/param/dictionary.c:285-291 | the wrap-around probe passes occupied slots only and ends at a free slot in fewer than `size` steps |
| `Dictionary.Dictionary.Set` | common/param/dictionary.c:251-298 | keeps the invariant (count, distinct keys, cached hashes) and has the effect of `SetSlots`; a NULL key changes nothing and gives -1 |
| `Dictionary.Dictionary.Unset` | common/param/dictionary.c:311-345 | keeps the invariant and has the effect of `UnsetSlots`; an absent or NULL key changes nothing |
| `DictionaryRuns.RunRefinesMap` | common/param/dictionary.c:206-345 | after any run of set, unset and get the table stands for the map that the same run computes, with one occupied slot per key |
| `DictionaryRuns.AnswersAgree` | common/param/dictionary.c:206-345 | every lookup made at any point of any run gives the answer of the plain map |
| `DictionaryRuns.InsertionOrder` | common/param/dictionary.c:251-298 | without unset, slots 0 to n-1 hold the keys in order of first insertion and all further slots are free, over any number of growths |
| `DictionaryRuns.SetAllRefines` | common/param/dictionary.c:251-298 | a list of set calls on a new table stands for the map in which the last call for a key wins |
| `Text.StrStrip` | common/param/iniparser.c:90-109 | the buffer ends up holding the trimmed string, and its length is returned |
| `Text.StripIs` | common/param/iniparser.c:97-103 | trimming keeps exactly the part between leading and trailing white space |
| `Text.SpacesAre` | common/param/iniparser.c:97-100 | white space is the blank and the codes 9 to 13 |
| `Text.LettersAre` | common/param/iniparser.c:52-52 | the letters with codes 65 to 90 become those from 97 on, all else stays |
| `Text.StrLwc` | common/param/iniparser.c:45-57 | at most len-1 characters, lower-cased and terminated, also when input and output are the same buffer |
| `IniLoad.Dispatch` | common/param/iniparser.c:763-786 | what one parsed line does to the dictionary, the current section and the error count |
| `IniLoad.ReadLine` | common/param/iniparser.c:734-793 | one turn of the loop: one bounded `fgets` on top of a continued line, the length test, trimming, continuation or parsing, with the effect on dictionary, section and error count |
| `IniLoad.Load` | common/param/iniparser.c:700-799 | fails exactly when the file cannot be opened, a line is too long or malformed; otherwise the table results from the set calls of the text, continued lines included |
| `IniQuery.GetNSec` | common/param/iniparser.c:162-177 | the number of stored keys without a colon |
| `IniQuery.GetSecName` | common/param/iniparser.c:193-213 | the n-th such key in slot order, NULL for any n out of range |
| `IniQuery.FindEntry` | common/param/iniparser.c:573-579 | whether the lower-cased name is a stored key, whatever its value |
| `IniQuery.CaseIgnored` | common/param/iniparser.c:326-350 | presence and key count of a section do not depend on the case of the name asked for |
| `IniQuery.GetSecNKeys` | common/param/iniparser.c:326-350 | the number of stored keys with the prefix of the section, 0 when the section entry is absent |
| `IniQuery.GetSecKeys` | common/param/iniparser.c:368-393 | fills exactly as many cells as `iniparser_getsecnkeys` counts, with those keys in slot order, and leaves all others alone |
| `IniQuery.MatchesIffSectionOf` | common/param/iniparser.c:345-346 | the prefix test of a section accepts exactly its own entries, so no entry counts for two sections |
| `IniQuery.SectionsAre` | common/param/iniparser.c:193-213 | the listed sections are exactly the stored keys without a colon |
| `IniQuery.SectionsNoRepeats` | common/param/iniparser.c:193-213 | no section is listed twice |
| `IniQuery.EntriesSplit` | common/param/iniparser.c:162-350 | n is the number of sections plus the sum of `iniparser_getsecnkeys` over all sections plus the entries without a section entry |
| `IniQuery.SectionsFirstSeen` | common/param/iniparser.c:193-213 | after any run of set calls sections are listed in the order in which they were first set |
| `IniDump.DumpSection` | common/param/iniparser.c:294-316 | header line, one padded line per entry of the section in slot order, blank lines around; nothing for an absent section |
| `IniDump.SignColumn` | common/param/iniparser.c:311-311 | the printed line of any entry: name, blanks, the sign in column 31 or after a longer name, value |
| `IniDump.DumpExample` | common/param/iniparser.c:256-316 | the whole text for a dictionary of one section with one entry |
| `IniDump.FlatExample` | common/param/iniparser.c:265-272 | the whole text for an entry without any section, with a value and with none |
| `IniDump.DumpIni` | common/param/iniparser.c:256-280 | all sections in slot order and a blank line; all entries flat when there is no section |
| `IniRoundTrip.ParseSection` | common/param/iniparser.c:639-644 | a printed section header parses to its name |
| `IniRoundTrip.ParseEntry` | common/param/iniparser.c:645-676 | a printed entry that survives parses to its key and value through whichever of the five formats takes it |
| `IniRoundTrip.ParsedKey` | common/param/iniparser.c:645-676 | whatever a line parses to, the key is non-empty, trimmed and lower-case, has no `=` and starts no comment |
| `IniRoundTrip.SectionSurvivesIff` | common/param/iniparser.c:639-644 | reading the printed header stores exactly that section if and only if the name is trimmed and lower-case and has no bracket, or is empty while the section buffer is blank, and the line is shorter than 1024 characters |
| `IniRoundTrip.NeverABracket` | common/param/iniparser.c:639-644 | loading any text never puts a bracket into the section buffer |
| `IniRoundTrip.EntrySurvivesIff` | common/param/iniparser.c:624-747 | for every key and value without newline, and whatever follows, reading the printed line stores exactly that entry if and only if key and value survive, do not look like a section header together, and the line is shorter than 1024 characters |
| `IniRoundTrip.LongEntryFails` | common/param/iniparser.c:739-747 | a printed line of 1024 characters or more makes the whole load fail |
| `IniRoundTrip.LostValues` | common/param/iniparser.c:645-662 | the values `a;b`, `"a"`, `a\`, ` a` and 2000 times `a` are not stored from their printed lines, whatever follows |
| `IniRoundTrip.LostNames` | common/param/iniparser.c:636-662 | nor are the keys `K`, `#k` and `k=`, nor the key `[k` with the value `a]` |
| `IniRoundTrip.DumpLoads` | common/param/iniparser.c:256-316 | loading a dump succeeds and replays each section followed by its entries |
| `IniRoundTrip.RoundTrip` | common/param/iniparser.c:256-316 | the loaded dictionary stands for the original map restricted to sections and to entries whose section entry exists |
| `IniStable.DumpIsStable` | common/param/iniparser.c:256-316 | dumping the loaded dictionary writes the same text again, character for character, although slots and table size may differ |
| `IniLines.NothingStored` | common/param/iniparser.c:633-638 | blank lines and lines that start with a comment mark store nothing |
| `IniLines.HeaderRead` | common/param/iniparser.c:639-644 | a header stores its name trimmed and lower-case, with blanks around it or in it |
| `IniLines.ValueRead` | common/param/iniparser.c:652-665 | a key with a bare value, blanks anywhere, stores the key trimmed and lower-case and the value trimmed |
| `IniLines.CommentIgnored` | common/param/iniparser.c:652-665 | a value followed by any comment is stored without it, if and only if it is not a single quote mark |
| `IniLines.NoValue` | common/param/iniparser.c:666-676 | nothing but a comment after the sign stores an empty value |
| `IniLines.QuotesKeep` | common/param/iniparser.c:645-651 | text in double or single quotes is stored as it is, blanks and comment marks included, whatever follows the second quote |
| `IniLines.EmptyQuotes` | common/param/iniparser.c:658-664 | two quotes with nothing between them store an empty value, with or without a comment |
| `IniLines.ContinuedLine` | common/param/iniparser.c:748-762 | a line that ends in a backslash loads together with the next one as one line without the backslash |
| `IniLines.LastLine` | common/param/iniparser.c:734-747 | the last line needs no newline; a single character is dropped, and 1023 characters or more make the load fail |
| `IniLines.MalformedIff` | common/param/iniparser.c:633-680 | a line is an error if and only if it is no comment, no header, and has no sign or no key before it |
| `IniLines.MalformedFileFails` | common/param/iniparser.c:777-798 | a file with such a line is not loaded |
| `ListHead.InitListHead` | common/list.h:44-47 | a ring of one |
| `ListHead.InsertBetween` | common/list.h:61-70 | the ring with the new node at that place, also when both neighbours are the same node |
| `ListHead.ListAdd` | common/list.h:80-82 | the new node right after any given node |
| `ListHead.ListAddTail` | common/list.h:92-94 | the new node at the tail |
| `ListHead.Unlink` | common/list.h:103-106 | the ring without the node, whose own links are untouched |
| `ListHead.ListDel` | common/list.h:134-138 | the ring without the node, whose links are cleared |
| `ListHead.ListDelInit` | common/list.h:185-188 | the ring without the node, which becomes a ring of its own |
| `ListHead.ListReplace` | common/list.h:147-152 | the new node in the old one's place, also in a ring of one |
| `ListHead.ListReplaceInit` | common/list.h:161-164 | the same, and the old node becomes a ring of its own |
| `ListHead.TakePlace` | common/list.h:174-175 | the first half of a swap: the second node has left its place for that of the first |
| `ListHead.ListSwap` | common/list.h:171-179 | in one ring exactly the two nodes change places, neighbours in either order, first and last, and rings of two included; so they do in two rings unless the second node is alone, which then ends up before the first in the first ring |
| `ListHead.ListMove` | common/list.h:195-198 | the node leaves its ring and comes right after a node of what is left or of another ring |
| `ListHead.ListMoveTail` | common/list.h:205-208 | the same, at the tail |
| `ListHead.ListBulkMoveTail` | common/list.h:219-229 | the range goes to the tail in order, also when it is the tail already |
| `ListHead.ListEmpty` | common/list.h:255-255 | true exactly for a list without entries |
| `ListHead.ListIsSingular` | common/list.h:261-263 | true exactly for a list with one entry |
| `ListHead.CutThrough` | common/list.h:265-274 | prefix up to the entry in one ring, the rest in the other |
| `ListHead.ListCutPosition` | common/list.h:290-300 | prefix and suffix concatenate to the old list; an empty list, or a single one not holding the entry, is left alone |
| `ListHead.ListCutBefore` | common/list.h:316-328 | the entries before the given one are cut off; all of them when it is the head |
| `ListHead.SpliceBetween` | common/list.h:330-340 | the entries of one list between two neighbours of another ring, in order |
| `ListHead.ListSplice` | common/list.h:347-350 | the entries go to the front; an empty list changes nothing |
| `ListHead.ListSpliceTail` | common/list.h:357-360 | the entries go to the end |
| `ListHead.ListSpliceInit` | common/list.h:369-374 | the entries go to the front and the source list is empty after |
| `ListHead.CutThenSplice` | common/list.h:290-350 | cutting at any entry or at the head and splicing back restores the list |
| `ListHead.CutBeforeThenSplice` | common/list.h:316-350 | the same for the cut before an entry |
| `ListHead.RingWalk` | common/list.h:44-47 | following `next` visits every node of a ring in order and returns to the start |
| `ListHead.RingMirror` | common/list.h:103-106 | `x.next.prev == x` and `x.prev.next == x` for every node |
| `PlayerSafety.StreamSteps` | common/player/player.c:707-736 | what one step of a stream thread can do to its stream |
| `PlayerSafety.MutexSteps` | common/player/player.c:715-733 | a stream thread takes the mutex only when it is free, gives back only its own, and holds it exactly inside its critical section |
| `PlayerSafety.RunInv` | common/player/player.c:689-1204 | every state of every run satisfies the invariant on mutex, stream life, handle, and what each call has made of the statuses |
| `PlayerSafety.DemuxerCallsSafe` | common/player/player.c:717-728 | in every interleaving each call on the context's demuxer handle is made by the holder of the mutex and between a successful init and its deinit |
| `PlayerSafety.LiveTracksCalls` | common/player/player.c:939-977 | the handle becomes live exactly by a successful init and stops being live exactly by a deinit |
| `PlayerSafety.InStepIffBuilt` | common/player/player.c:1002-1045 | between calls, enabled, status set and thread not joined coincide for a stream if and only if its thread, and the pipeline of a file that names it, were created |
| `PlayerSafety.JoinsAreSound` | common/player/player.c:1014-1017 | a join targets a missing or already joined thread if and only if the thread of the stream, or the pipeline of a file that names it, could not be created |
| `PlayerSafety.FlagsAreHistory` | common/player/player.c:1027-1041 | the two flags in these conditions hold if and only if some action of the run is a pipeline, or a thread of that stream, that could not be created |
| `PlayerRuns.FailedPipeJoinsNothing` | common/player/player.c:1027-1031 | a run in which the pipeline fails and the next set_file joins a missing thread |
| `PlayerRuns.LostThreadJoinsNothing` | common/player/player.c:1032-1041 | a run in which `pthread_create` fails unnoticed and the next set_file joins a missing thread |
| `PlayerSound.SilentStep` | common/player/player.c:706-736 | every step but the start of a play or seek keeps a silent stream silent, and every delivery spends a packet that was on its way |
| `PlayerSound.PauseIsQuiet` | common/player/player.c:1075-1101 | in every run, from the return of any pause up to the next play or seek of the stream, the stream does not run and at most one packet of it is delivered, whatever pauses, stops and files come in between |
| `PlayerSound.StopIsQuiet` | common/player/player.c:1103-1136 | the same from the return of any stop |
| `PlayerSound.StopRewinds` | common/player/player.c:1117-1129 | when a stop has returned, it has rewound every enabled stream |
| `PlayerSound.SetFileIsSilent` | common/player/player.c:1032-1041 | from the return of any set_file nothing is delivered before the next play or seek |
| `PlayerSound.FailedReadIsLast` | common/player/player.c:718-722 | after a failed read nothing of the stream is delivered before the next play or seek |
| `PlayerSound.EndOfFileIsLast` | common/player/player.c:723-728 | at the end of the file the stream is rewound in the same critical section and pauses; nothing but that packet is delivered before the next play or seek |
| `PlayerSound.EndPacketIsDelivered` | common/player/player.c:734-735 | the packet that marks the end is itself delivered |
| `PlayerSound.ThreadsEnter` | common/player/player.c:700-705 | a new thread enters its loop, except a video thread without a frame rate |
| `PlayerSound.ThreadsLive` | common/player/player.c:706-713 | a thread in its loop does not leave it while `thread_running` holds |
| `PlayerSound.PlayRuns` | common/player/player.c:1047-1073 | when a play, or a seek of the stream, has returned, the stream runs if it is enabled and has a status |
| `PlayerSound.PlaysOn` | common/player/player.c:1047-1073 | from then on it runs until its own thread pauses it or a pause, stop, set_file or destroy begins |
| `PlayerSound.SeekSeeks` | common/player/player.c:1158-1204 | when a seek has returned, it has sought the stream if that is enabled and has a status |
| `PlayerSound.DeliversOne` | common/player/player.c:706-736 | a running stream, of either kind, delivers a packet within six steps of its thread once the mutex is free |
| `PlayerRuns.EitherStreamPlays` | common/player/player.c:1002-1073 | a run that sets a file with one stream, plays it and delivers a packet, for either stream |
| `PlayerRuns.PauseBoundIsReached` | common/player/player.c:706-736 | a run in which that one packet is delivered after a pause, so the bound is exact |
| `PlayerSafety.ThreadsSeeAStatus` | common/player/player.c:708-710 | a thread that has not been joined never sees the status UNINITIALIZED |
| `PlayerSafety.InitOverwritesIffBare` | common/player/player.c:939-943 | an init overwrites a live handle if and only if the file behind it has no codec |
| `PlayerSafety.ReleasedUnlessBare` | common/player/player.c:971-983 | after destroy the handle is still live if and only if the file behind it has no codec |
| `PlayerRuns.BareFileLeaks` | common/player/player.c:971-983 | a run that sets a file without codec and destroys the player with the handle still live |
| `PlayerRuns.BareFileOverwritten` | common/player/player.c:939-943 | a run in which the second set_file initialises over a live handle |
| `PlayerSafety.DestroyedIsFinal` | common/player/player.c:1138-1156 | after destroy no stream thread exists, the mutex is free and no step is possible, so nobody touches the freed context |
| `PlayerSafety.JoinWaitsBounded` | common/player/player.c:1013-1017 | while a call waits to join, each thread step brings the threads closer to their exit |
| `PlayerSafety.HolderReleases` | common/player/player.c:715-733 | a stream thread that holds the mutex can always step and gives it back after at most three steps of its own |
| `PlayerSafety.HolderUndisturbed` | common/player/player.c:715-733 | no step of anybody else takes the mutex from it or moves it |
| `PlayerSafety.CallsNeverStuck` | common/player/player.c:1002-1204 | a call in progress can step, or waits for a certain stream thread, as holder of the mutex or to be joined; that thread, or the one that holds the mutex it needs, can step whatever the demuxer answers |
| `Utf8.DecodeEncode` | common/network/gbk_to_utf8.c:2026-2062 | for every code point from 1 to 2^31-1 the bytes form one block that decodes to it |
| `Utf8.EncodeIsShortest` | common/network/gbk_to_utf8.c:2026-2062 | no block for the code point is shorter |
| `Utf8.EncodeDecode` | common/network/gbk_to_utf8.c:2026-2062 | encoding a decoded block gives it back if and only if its code point is at least the first that needs that many bytes |
| `Utf8.EncodeBytes` | common/network/gbk_to_utf8.c:2029-2058 | the nested branches append exactly the bytes of the encoding |
| `Utf8.UnicodeToUtf8` | common/network/gbk_to_utf8.c:2026-2062 | bytes and terminator written at the place given, nothing else touched, their number returned |
| `Utf8.CountOnes` | common/network/RK_encode.c:27-37 | the inner loop counts leading ones and gives up after more than six |
| `Utf8.RunCounter` | common/network/RK_encode.c:18-43 | the counter loop accepts what the automaton accepts |
| `Utf8.AcceptsIffWellFormed` | common/network/RK_encode.c:18-43 | the automaton accepts exactly the concatenations of blocks of section 2 of RFC 2279 |
| `Utf8.IsUtf8` | common/network/RK_encode.c:9-45 | true exactly for an empty buffer, one that starts with NUL, or a concatenation of blocks |
| `Gbk.IndexInTable` | common/network/gbk_to_utf8.c:2020-2024 | the two bounds on the bytes keep the index inside the table |
| `GbkTable.ThreeEntries` | common/network/gbk_to_utf8.c:2020-2024 | the codes 81 40, B0 A1 and FE FE read the entries 0, 9074 and 24065 |
| `GbkTable.NextEntry` | common/network/gbk_to_utf8.c:2020-2024 | in every table the next code reads the next entry: the second byte runs from 40 to FE, then the first moves on |
| `GbkTable.DistinctEntries` | common/network/gbk_to_utf8.c:2020-2024 | no two codes read the same entry |
| `GbkTable.NoCode` | common/network/gbk_to_utf8.c:2020-2024 | all other pairs of bytes give 0x1FFF |
| `Gbk.GbkToUtf8Buffer` | common/network/gbk_to_utf8.c:2064-2081 | the output buffer holds the encoded text; a last byte that is a lead byte is paired with the byte after the buffer |
| `GbkTable.ConvertsText` | common/network/gbk_to_utf8.c:2064-2081 | any GBK text becomes the encodings of the code points of its characters, in order |
| `Gbk.OutputWellFormed` | common/network/gbk_to_utf8.c:2064-2081 | for every table and every input the output is well-formed |
| `Gbk.Utf8ToGbkBuffer` | common/network/utf8_to_gbk.c:1752-1779 | -1 exactly for text with other than one-byte and complete three-byte characters; otherwise the converted bytes and their number; and which table entries are read |
| `GbkTable.ConvertsBlocks` | common/network/utf8_to_gbk.c:1752-1779 | well-formed text is converted if and only if its characters have one byte or three, and then each to itself or to the two bytes of its table entry |
| `Gbk.ReadsInsideIff` | common/network/utf8_to_gbk.c:1767-1770 | on well-formed text all reads are inside the 20902 entries if and only if every three-byte character up to the first unsupported one is one of U+4E00 to U+9FA5 |
| `Gbk.FullStopOutside` | common/network/utf8_to_gbk.c:1767-1770 | the encoding of U+3002 is looked up before the start of the table |
| `Gbk.GbkRoundTrip` | common/network/utf8_to_gbk.c:1752-1779 | on ASCII and ideographs the way there and back keeps the length, and gives the text again if and only if the tables return every code in it |
| `Gbk.RoundTripIffInverse` | common/network/utf8_to_gbk.c:1752-1779 | all such texts survive if and only if the tables are inverse on U+4E00 to U+9FA5 |
| `Gbk.BackReadsInside` | common/network/utf8_to_gbk.c:1767-1769 | on such texts the way back reads the 20902 entries of its table only |
| `Bmp.SaveBmp` | common/osd/bmp_reader.c:151-180 | header fields least significant byte first, then the rows bottom up |
| `BmpHeader.SavedHeaders` | common/osd/bmp_reader.c:153-171 | the bytes of the saved headers: the length of the file itself, 40, one plane, zero elsewhere |
| `Bmp.FlippedAt` | common/osd/bmp_reader.c:176-178 | where each pixel of the buffer ends up in the file |
| `Bmp.HeaderBack` | common/osd/bmp_reader.c:57-83 | the check accepts the writer's header and reads back offset, width, height and depth |
| `Bmp.FillPixels` | common/osd/bmp_reader.c:37-55 | both conversion loops fill the whole buffer, row by row |
| `Bmp.LoadBmp` | common/osd/bmp_reader.c:85-149 | -1 for a bad signature, depth or offset, or when no data follows; otherwise width, height and pixels |
| `BmpHeader.LoadedIff` | common/osd/bmp_reader.c:57-121 | on the bytes of any file with whole headers: it is loaded if and only if it has the signature, 24 bits or more, its data offset from 52 on and inside the file, and a size with a positive amount of data |
| `BmpHeader.LoadedSize` | common/osd/bmp_reader.c:137-138 | and then with the width and height of the header |
| `Bmp.PixelBack` | common/osd/bmp_reader.c:45-54 | each pixel of a saved file is read at its own place with its four bytes reversed |
| `Bmp.SaveLoad` | common/osd/bmp_reader.c:85-180 | save then load keeps width, height and every position, with reversed bytes |
| `Bmp.SaveLoadTwice` | common/osd/bmp_reader.c:85-180 | doing it twice gives the original buffer |
| `Bmp24.PitchIs` | common/osd/bmp_reader.c:12-20 | the computed row length is three bytes for each pixel plus the padding to a whole 32-bit word |
| `Bmp24.Load24` | common/osd/bmp_reader.c:14-35 | a file with 24-bit pixels in padded rows, bottom up, loads with every pixel at its own place, opaque or, in the key colour, transparent, whatever the padding holds |
| `Jpeg.GetJpegResolution` | common/player/player.c:367-393 | terminates and reads inside the buffer for every buffer of two bytes or more; the result is that of the marker walk |
| `Jpeg.FindsFrameSize` | common/player/player.c:367-393 | for any chain of marker segments other than C0 and C2 and a SOF0 or SOF2 frame header (sections B.1.1.4 and B.2.2 of ITU-T T.81), with anything after it, the size is the one in the header |
| `Jpeg.SizeIff` | common/player/player.c:367-393 | a size is found if and only if the buffer starts with SOI and a chain of marker segments leads to a SOF0 or SOF2 marker with room for the size, and it is the one there |
| `NetString.NetStringCopy` | common/network/network.c:147-171 | copies what fits, terminates it, writes nothing else and returns the full source length |
| `NetString.Append` | common/network/network.c:367-367 | one chained append keeps: the buffer holds the first L-1 characters, the position is the full length |
| `NetString.AppendAll` | common/network/network.c:367-372 | the same for any list of strings, after truncation too |
| `NetString.DnsText` | common/network/network.c:354-372 | the text that is built for two name servers, cut at 63 characters |
| `Roi.UpAlign16` | common/common.h:32-35 | the smallest multiple of 16 not below the value, negative values included |
| `Roi.LargestFitIsLargest` | common/roi/roi.c:73-78 | the shrunk length is the largest that fits among those below the request by multiples of 16 |
| `Roi.Shrink` | common/roi/roi.c:73-75 | the loop terminates with the largest length that fits |
| `Roi.FitRoi` | common/roi/roi.c:63-83 | exactly which requests are passed on, and that the rectangle passed on is aligned, inside the picture and the largest that fits |

## Left out

- `IniLoad.Load`: `iniparser_line` and the `sscanf` formats are functions on string values; only `strstrip` and `strlwc` are modelled on their buffers.
- `IniQuery.GetSecNKeys`: asks for a section name of at most 1024 characters, and so does `IniQuery.GetSecKeys`; for longer names the source writes the colon outside its buffer.
- `IniDump.DumpIni`: asks for section names of fewer than 1024 characters, as the source's own buffer does; a NULL value in the flat form prints as `(null)`, as the GNU C library does.
- `IniRoundTrip.RoundTrip`: dictionaries outside `Printable`, which the code does not preserve; exactly which of their printed lines are read back is stated line by line in `EntrySurvivesIff` and `SectionSurvivesIff`; a line that continues takes the next one with it (`ContinuedLine`). Names and values with a newline are printed as several lines and are not treated.
- `ListHead.ListCutPosition`: on lists of two or more entries the entry has to be on the list, as the source demands.
- `ListHead`: `list_splice_tail_init`, `list_is_first`, `list_is_last`, `__list_del_clearprev` and the iteration macros are not modelled; they would only add easy members.
- `PlayerSafety.DemuxerCallsSafe`: the temporary handle of `read_duration_unlocked`, used and released inside one call, is not part of the state.
- Player: sleeping, time stamps, current positions, event callbacks, the range check of seek and the individual calls that build the pipeline; a pipeline is created or fails as one step, and reads of shared state between control calls are sequentially consistent.
- Player: more than one caller at a time, and calls after destroy.
- `Gbk.Utf8ToGbkBuffer`: what the source finds when it reads outside its table; the model's table answers for every index, and `ReadsInsideIff` says when that matters.
- Code tables: their 20,000 entries are parameters, not constants.
- `Gbk.GbkToUtf8Buffer`: asks for an output buffer of more than three bytes for each input byte, because the source does not check its size.
- `Bmp.SaveLoad`: sizes for which an `int` of the source overflows are outside `Fits`.
- `Bmp.LoadBmp`: products in the reader are unbounded integers, memory that a short file leaves unread is an arbitrary function, and for depths other than 24 and 32 the 32-bit loop runs on, as in the source.
- `Jpeg.GetJpegResolution`: buffers within 65545 bytes of 4 GiB, where the 32-bit offset could wrap, and buffers of fewer than two bytes, which the source reads beyond.
- `NetString.AppendAll`: a size above `INT_MAX`, which the source treats as no room.
- `Roi.FitRoi`: starts from the scaled integers; the floating-point scaling and integer overflow are not modelled.
- `dictionary_del`, `dictionary_dump`, `iniparser_dump`, the typed getters of `iniparser.c`, `iniparser_set` and `iniparser_unset`, and the wrappers in `param.c`: one call each to what is modelled.
- OSD drawing, regions, audio, storage, RTSP, wireless and network configuration: calls into hardware, sockets and other processes.
