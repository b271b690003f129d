# Verified models of eight programs

This project models the parts of the repository where state, protocols or arithmetic make
correctness hard to see, and proves what those parts are for. Run `dafny verify dfyconfig.toml`
to verify all of it.

| part | files | source |
|---|---|---|
| termbox2: the diff renderer | `Terminal`, `TermboxSpec`, `TermboxRows`, `TermboxPaint`, `TermboxRuns`, `TermboxLimits`, `TermboxFront`, `TermboxCells`, `TermboxFrugal`, `Termbox` | stage0/life/termbox2.h |
| termbox2: the input decoder | `Utf8`, `ByteBuf`, `CapTrie`, `Mouse`, `InputSpec`, `InputCuts`, `InputReads`, `InputKeys`, `InputDecoder` | stage0/life/termbox2.h |
| inotify_dtree: a cache of watched directories | `PathNames`, `InotifySpec`, `InotifyProofs`, `InotifyAgreement`, `InotifyRenames`, `InotifyMoves`, `InotifyRoots`, `InotifyReplace`, `InotifyRuns`, `InotifyHarm`, `InotifyQueue`, `InotifyRewrite`, `InotifyTree` | stage0/tlpi/tlpi-dist/inotify/inotify_dtree.c |
| message-queue notification | `MqQueue`, `MqThread`, `MqSignal` | stage0/tlpi/tlpi-dist/pmsg |
| namespaces_of: the namespace forest, and text wrapping | `NamespacesSpec`, `NamespacesProofs`, `NamespacesOrder`, `Namespaces`, `WrapText` | stage0/tlpi/tlpi-dist/namespaces/namespaces_of.go |
| ns_capable: the ancestor walk | `NsCapable` | stage0/tlpi/tlpi-dist/namespaces/ns_capable.c |
| life | `LifeSpec`, `Life` | stage0/life/main.c |
| heron | `Heron` | stage0/modern_c/control/heron.c |

Code that changes state step by step is a class or a method with loops (`Termbox.Renderer`,
`InputDecoder.Decoder`, `CapTrie.Trie`, `ByteBuf.Buffer`, `InotifyTree.DirTree`,
`Namespaces.NamespaceInfo`, `NsCapable.Process`, `Life.Game`). Each method's contract gives its
new state as a function of the old one, and the lemmas are about those functions. The two
message-queue programs are state machines whose steps are system calls, with any number of
threads and senders. Automatic induction is off in every lemma, so each induction is written out.

**Renderer.** The model is the default build: 16-bit attributes, no grapheme clusters, the width
table as a parameter that gives -1, 0, 1 or 2. The terminal is adversarial: half of an
overwritten wide glyph, and everything after printing at an unknown cursor position, is
arbitrary. The main results are that over every run of calls and window resizes the screen after
`tb_present` is the full rendering of the back buffer, and that it is the screen a program would
get that draws every cell. The condition on the cells is exact, over every run with any cells:
all calls of `tb_present` show the buffer if and only if at each of them no cell that has to be
drawn has a zero-width code point (other than U+0000), nor is the all-ones cell in a column that
a wide glyph of the front buffer covers. The header warns of the first only. What the back
buffer holds is read off the calls: each cell what was written there last, or a space in the
attributes of the clear or of the growth of the buffer that came after.

**Input.** Text is decoded to the same code points however the bytes are cut into reads. With
escape sequences it depends on the cuts, and the condition is exact in both modes, for every
stream of bytes and every cutting. It is stated for capabilities of which none begins another
one, and this is necessary too; in ESC mode, moreover, no capability may stand for the escape
key itself. In ESC mode a cut is harmful if and only if it follows an escape character that
starts a sequence, whole or begun, in the uncut stream. In ALT mode, when the bytes behind the
last event of a read give no event yet, the escapes at their start that start no sequence are
dropped, and the ALT modifier with them; this is harmful if and only if the next event of the
stream is a character, a control key or a mouse report, which keep the modifiers set before
them, and no further dropped escape precedes it, which would set ALT again. The header promises
the modifier on the next keyboard event. `extract_esc_cap` looks only at the longest prefix of
the input that starts a capability; that it succeeds exactly when that prefix is a capability is
proved, and so is the consequence that a longer capability that was begun hides a shorter one
that is complete. Whatever is typed, in characters, control keys, keys of the terminal and mouse
reports in three forms, alone or with ALT, gives exactly its events, in order.

**inotify_dtree.** The kernel has a directory tree, watches with their masks and an event queue;
other processes make, remove and rename directories, also onto an empty one, which is replaced.
The cache agrees when its live slots are exactly the kernel's (watch descriptor, path) pairs and
exactly the directories under the roots still monitored are watched; a root need not exist. A
root that is removed, or renamed and not below another one, is no longer monitored, and the
program exits with its last one. Over every run of operations, each with its events processed,
the cache agrees all the time if and only if every operation is harmless, a condition on the
roots, the watches with their masks and the directories before the operation. As long as all the
roots exist, every operation is harmless but these:

- a root that is not below another one is renamed to below one;
- a directory that is not watched is renamed, or replaces a directory, while a root lies below it;
- a directory that is not in a watched one replaces an empty directory that is, since the old path
  is still cached when the new one arrives.

A root below another one may be renamed: the cache agrees, and the list of roots keeps an entry
for a directory that is gone. Such an entry does harm later: when a directory is made at its
place, or comes to lie there, and is not watched, or when a directory whose watch still asks for
IN_MOVE_SELF is renamed to it within the trees. Renaming that same root back is an example: the
program takes it for a root that was moved away, and stops watching it. There is an input for
each of the three kinds of harm and for this one; the comments in the source mention none of
them. Renames whose events are queued before any of them is processed come to what they come to
one by one, which rests on the comparison of cookies: all but the last may be within the trees,
out of them or elsewhere, without IN_MOVE_SELF, and none may be in a directory that has left the
trees in the meantime. Separately, the final cache does not depend on how the event stream is
cut into reads.

**Message queues.** The kernel rule is that of `mq_notify()` in the System Interfaces volume
of POSIX.1-2008, chapter 3: one registration at a time, removed when a message arrives at an
empty queue. `mq_receive` takes the oldest message of the highest priority. No message is
stranded, lost, repeated or overtaken within its priority.

**namespaces_of.** The map built by any scan is an exact forest. The default display shows
every entry once if and only if some scanned namespace has a visible topmost owner. Otherwise
`rootNS` still has its zero value, which is also the key of the invisible owner's entry: the
code then shows that tree twice, or dereferences nil when nothing was scanned. The comments
in the source do not mention this case.

**heron** is over the exact reals. The guess loop ends if and only if the argument is
positive, and the second loop takes at most five steps, which are sometimes needed.

## Model

| member | source | states |
|---|---|---|
| TermboxRuns.EveryPresentShows | stage0/life/termbox2.h:2415-2488 | over every run of set_cell, clear, clear attributes, cursor calls, invalidate, resize and present from tb_init on a terminal of any size and content, the screen after tb_present is the full rendering of the back buffer and nothing stays queued |
| TermboxRuns.PresentRefinesRedraw | stage0/life/termbox2.h:2426-2482 | skipping unchanged cells, caching attributes and eliding cursor moves leaves the same screen as drawing every cell on a screen of arbitrary content |
| TermboxLimits.PresentShowsExactly | stage0/life/termbox2.h:2446-2480 | from any state at rest, whatever the cells in the back buffer, tb_present shows the back buffer if and only if every column that no wide glyph hides can be painted |
| TermboxLimits.EveryPresentShowsExactly | stage0/life/termbox2.h:2403-2536 | over every run from tb_init with any cells, all calls of tb_present show the back buffer if and only if each of them finds cells that can be painted |
| TermboxLimits.InvalidCellIsNotShown | stage0/life/termbox2.h:2465-2478 | a run in which the all-ones cell is set under a former wide glyph, after which the screen is not the rendering |
| TermboxLimits.InvalidCellIsShown | stage0/life/termbox2.h:2446-2480 | an all-ones cell that no wide glyph covers is shown, and shown again by every later tb_present |
| TermboxPaint.PresentShows | stage0/life/termbox2.h:2415-2488 | tb_present takes any state that is at rest and whose cells can be painted to the rendering and back to rest |
| TermboxFront.PresentTwiceSendsNothing | stage0/life/termbox2.h:2451-2453 | after every run with any cells, a second tb_present changes no front cell and sends no attribute and no glyph, only the final cursor move if the cursor is shown |
| TermboxFront.FrontTiled | stage0/life/termbox2.h:2465-2478 | after every run with any cells, a wide front cell that is not in the last column is followed by the invalid cell |
| TermboxFront.InvalidMarksWide | stage0/life/termbox2.h:2465-2478 | after every run of drawable cells, a front cell is followed by the invalid cell if and only if it is wide |
| TermboxCells.RunRecorded | stage0/life/termbox2.h:2343-2536 | after every run the size, clear attributes and cursor are those last set, and each back cell is what tb_set_cell wrote there last, or a space in the clear attributes of the later clear, or of the resize that gave the buffer that cell |
| TermboxCells.WriteStays | stage0/life/termbox2.h:2403-2536 | a written cell keeps its contents until it is written again, cleared or cut off by a resize |
| TermboxCells.SetCellShows | stage0/life/termbox2.h:2415-2536 | after tb_present the screen has, where tb_set_cell wrote c last and no wide glyph is on the left, c's character in c's attributes, over two columns if it is wide and fits, a space if it is wide and does not, and U+FFFD if it cannot be printed |
| TermboxCells.WrittenShows | stage0/life/termbox2.h:2415-2488 | the same for every cell of the buffer |
| TermboxCells.CursorShows | stage0/life/termbox2.h:2484-2519 | after tb_present the terminal's cursor is where tb_set_cursor put it last, negative coordinates taken for 0 |
| TermboxFrugal.EveryPresentIsFrugal | stage0/life/termbox2.h:2426-2482 | over every run tb_present sends no attributes that the terminal has already, and no cursor move to where a glyph of one column has left the cursor, its final move aside |
| TermboxRuns.StepRests | stage0/life/termbox2.h:2403-2536 | every call keeps the invariant that ties the front buffer, cached attributes and known size to the terminal, with any cells; only tb_present needs cells that can be painted |
| TermboxRuns.RunRests | stage0/life/termbox2.h:2343-2536 | the invariant holds after every run from tb_init in which each tb_present found cells that can be painted |
| TermboxRuns.InitRests | stage0/life/termbox2.h:2362-2385 | tb_init establishes the invariant on a terminal of arbitrary content, where nothing was printed before the attributes are known |
| TermboxRuns.SendClearScreen | stage0/life/termbox2.h:3092-3106 | send_clear leaves a blank screen in the clear attributes, known attributes and an empty queue |
| TermboxRuns.ResizeCellbufsRests | stage0/life/termbox2.h:3775-3784 | tb_invalidate restores the invariant on an unknown screen of the reported size |
| TermboxRuns.ResizeRests | stage0/life/termbox2.h:3775-3784 | a window resize, which leaves arbitrary content, and the reaction to it keep the invariant |
| TermboxPaint.SendCharScreen | stage0/life/termbox2.h:3991-4016 | a glyph lands at its column with the cached attributes whether or not the cursor move before it was elided |
| TermboxPaint.SendAttrScreen | stage0/life/termbox2.h:3792-3903 | whether or not the attributes were cached, the terminal has them afterwards and nothing else has changed |
| TermboxPaint.PaintCellStep | stage0/life/termbox2.h:2434-2480 | painting one cell moves the frontier of painted columns past the cell's width, and touches no other row |
| TermboxRuns.RedrawShows | stage0/life/termbox2.h:2415-2488 | the reference program that draws every cell left to right on an arbitrary screen gives the rendering |
| Termbox.Renderer.constructor | stage0/life/termbox2.h:2362-2385 | tb_init: empty output, blank buffers of the terminal's size, a cleared terminal |
| Termbox.Renderer.Present | stage0/life/termbox2.h:2415-2488 | the loops over the buffers change the state as the specification says; from a state at rest with cells that can be painted the terminal then shows the rendering of the back buffer and the state is at rest |
| Termbox.Renderer.PaintCell | stage0/life/termbox2.h:2428-2480 | one iteration: the cell's width, and the new front row and output |
| Termbox.Renderer.PaintRow | stage0/life/termbox2.h:2427-2481 | the loop over a row, with steps of the cells' widths |
| Termbox.Renderer.SendChar | stage0/life/termbox2.h:3991-4016 | the queued cursor move, if any, and the queued glyph |
| Termbox.Renderer.SendAttr | stage0/life/termbox2.h:3792-3903 | nothing for cached attributes, else one attribute command and the new cache |
| Termbox.Renderer.SendClear | stage0/life/termbox2.h:3092-3106 | attributes, erase, cursor and flush, and a forgotten cursor position |
| Termbox.Renderer.ResizeCellbufs | stage0/life/termbox2.h:3775-3784 | both buffers get the reported size and keep the overlap, the front buffer is blank and the screen is cleared |
| Termbox.Renderer.SetCell | stage0/life/termbox2.h:2524-2536 | one back cell changes, or out of bounds is reported and nothing changes |
| Termbox.Renderer.Clear | stage0/life/termbox2.h:2403-2406 | the back buffer is blank in the clear attributes |
| Termbox.Renderer.SetCursor | stage0/life/termbox2.h:2497-2510 | the clamped position is queued and remembered |
| Termbox.CellbufResize | stage0/life/termbox2.h:4149-4187 | the overlap of old and new area is kept and the rest is blank |
| Termbox.CellbufClear | stage0/life/termbox2.h:4122-4130 | every cell is a space in the clear attributes |
| Utf8.DecodeEncode | stage0/life/termbox2.h:2760-2811 | decoding an encoded code point gives it back, whatever bytes follow |
| Utf8.RoundTripExactly | stage0/life/termbox2.h:2760-2811 | the round trip holds if and only if the code point is between 1 and 2^31 - 1 |
| Utf8.PrefixFree | stage0/life/termbox2.h:2778-2811 | no encoding is a prefix of an input that starts with another one (RFC 2279, section 2) |
| Utf8.PayloadFits | stage0/life/termbox2.h:2760-2776 | no shift of the decoder overflows, for any input bytes |
| Utf8.EncodeLayout | stage0/life/termbox2.h:2778-2811 | the length of the encoding, the mark of each byte and the six bits it holds are those of the table in section 2 of RFC 2279 |
| Utf8.ShortestForm | stage0/life/termbox2.h:2760-2811 | nothing that is decoded to a code point is shorter than its encoding |
| Utf8.DecodeOne | stage0/life/termbox2.h:2749-2776 | a byte that starts no longer encoding is decoded alone, to its low seven bits |
| Utf8.DecodeCut | stage0/life/termbox2.h:2760-2776 | an encoding cut short by the end or a NUL gives minus the number of its bytes, and no code point |
| Utf8.DecodeNothing | stage0/life/termbox2.h:2760-2763 | no bytes, or a NUL in front, give 0 |
| Utf8.CharToUnicode | stage0/life/termbox2.h:2760-2776 | the loop with its stop at a NUL byte gives the result and the code point of the specification |
| Utf8.UnicodeToChar | stage0/life/termbox2.h:2778-2811 | the buffer holds the encoding and a terminator, and nothing else in it changes |
| ByteBuf.Buffer.NPuts | stage0/life/termbox2.h:4194-4201 | the bytes are appended, and one more than the new length was reserved; at every moment the capacity is 0 or a power of two below twice the largest size ever reserved, all capacities ever requested sum to less than four times that size, and removed and held bytes are the appended ones |
| ByteBuf.Buffer.Shift | stage0/life/termbox2.h:4203-4209 | exactly the first n bytes, or all, leave the queue, in order |
| ByteBuf.Buffer.Reserve | stage0/life/termbox2.h:4223-4242 | for any size there is room afterwards, the contents survive a reallocation, and there is none if the size already fits |
| ByteBuf.Doubled | stage0/life/termbox2.h:4226-4229 | doubling reaches the size, and overshoots it by less than a factor of two |
| ByteBuf.DoubledPower | stage0/life/termbox2.h:4226-4229 | doubling keeps powers of two |
| CapTrie.FirstWins | stage0/life/termbox2.h:2979-3022 | after any sequence of adds each capability carries the key and modifier of its first insertion |
| CapTrie.AddedKeys | stage0/life/termbox2.h:2979-3022 | after any sequence of adds the capabilities are exactly the nonempty ones added |
| CapTrie.DepthIsLongest | stage0/life/termbox2.h:3024-3053 | no prefix of the input longer than the walk's depth is a prefix of a capability |
| CapTrie.FoundExactly | stage0/life/termbox2.h:3603-3624 | extract_esc_cap succeeds with n bytes if and only if these are a capability and no longer prefix of the input starts one |
| CapTrie.NeedMoreExactly | stage0/life/termbox2.h:3603-3624 | it asks for more if and only if the whole input is a proper prefix of a capability and not one itself |
| CapTrie.LongerHidesShorter | stage0/life/termbox2.h:3603-3624 | an input that starts with a capability and is not recognised, because a longer one was begun |
| CapTrie.Trie.Find | stage0/life/termbox2.h:3024-3053 | the walk over the heap nodes ends at the node of the longest prefix of the input that starts a capability |
| CapTrie.Trie.Add | stage0/life/termbox2.h:2979-3022 | the tree stays well formed with distinct siblings, the capability is added unless it is there, and a collision is reported and changes nothing |
| CapTrie.Trie.Extract | stage0/life/termbox2.h:3603-3624 | leaf flag, child count and depth decide the match as the map of capabilities says |
| CapTrie.Trie.BranchesOn | stage0/life/termbox2.h:3610-3622 | a node that is not a leaf has children exactly if it is on the way to a capability |
| Mouse.ParseSgr | stage0/life/termbox2.h:3684-3762 | a 1006 report printed for any button, modifiers, motion and place is parsed to that button's key (a release if it ends in m), the motion flag and the place counted from zero, and consumed exactly, whatever follows |
| Mouse.ParseUrxvt | stage0/life/termbox2.h:3684-3762 | the same for a 1015 report, whose button code is sent with 32 added |
| Mouse.ParseX10 | stage0/life/termbox2.h:3655-3682 | the same for the six bytes of an X10 report, whose place counts from 33 |
| Mouse.ReportsExactly | stage0/life/termbox2.h:3626-3773 | a report is found if and only if one of the three forms begins the input: six bytes, or three decimal numbers with their separators |
| Mouse.PrefixNeedsMore | stage0/life/termbox2.h:3626-3773 | every nonempty proper prefix of a printed report asks for more |
| Mouse.PrefixOfUrxvt | stage0/life/termbox2.h:3626-3773 | so does every prefix of a 1015 report |
| Mouse.PrefixOfX10 | stage0/life/termbox2.h:3626-3660 | and of an X10 report |
| Mouse.ParseRun | stage0/life/termbox2.h:3693-3701 | the parser's number for any run of digits is its decimal value |
| Mouse.DigitsValue | stage0/life/termbox2.h:4018-4031 | printed digits have the value of the number, and no leading zero |
| Mouse.ConvertNum | stage0/life/termbox2.h:4018-4031 | the in-place digits, produced backwards and reversed, are the decimal digits and fit the buffer |
| Mouse.TenDigits | stage0/life/termbox2.h:4018-4031 | no 32-bit number needs more than ten digits |
| Mouse.ReadReport | stage0/life/termbox2.h:3626-3773 | the loop with its early exits reads the report of the specification |
| InputSpec.TextArrives | stage0/life/termbox2.h:3523-3575 | text from 0x20..0x7e and 0x80..2^31-1, encoded and cut into any reads, gives exactly its code points in order and leaves an empty buffer |
| InputSpec.ReadBoundariesDoNotMatter | stage0/life/termbox2.h:3523-3575 | any escape-free bytes, valid or not, give the same events and rest for any two ways to cut them into reads |
| InputSpec.DrainConcat | stage0/life/termbox2.h:3523-3575 | draining what has arrived and then the rest is draining it all |
| InputSpec.EscapeInOneRead | stage0/life/termbox2.h:3531-3547 | a function key in one read is one event |
| InputSpec.EscapeInTwoReads | stage0/life/termbox2.h:3531-3547 | the same bytes with the escape in a read of its own are three events |
| InputCuts.GoodCutsExactly | stage0/life/termbox2.h:3523-3624 | in ESC mode every cutting of every stream whose reads do not end right after an escape (but at the end of the stream) gives the events and the rest of the uncut stream, if and only if no capability that starts with an escape and does not end in one is a proper prefix of another |
| InputCuts.CutAfterShorter | stage0/life/termbox2.h:3603-3624 | where one capability begins another, the read boundary between them changes the events |
| InputCuts.EscapeAloneExactly | stage0/life/termbox2.h:3531-3547 | in ESC mode a read of a lone escape before other bytes is harmless if and only if the escape and these bytes start no escape sequence, whole or begun; no capability stands for the escape key itself |
| InputCuts.CleanCutsDoNotMatter | stage0/life/termbox2.h:3523-3575 | in both modes and for any bytes and capabilities, all cuttings at which what is buffered settles give the same events and rest; which cuttings do is the next rows' subject |
| InputCuts.DrainCut | stage0/life/termbox2.h:3523-3575 | where what has arrived settles, draining it and then the rest is draining it all, escapes included |
| InputCuts.SteadyLocal | stage0/life/termbox2.h:3523-3575 | an event taken from input that is steady is the same when more input follows, and no bytes are dropped without an event |
| InputCuts.NothingLeft | stage0/life/termbox2.h:3459-3521 | after draining nothing more can be taken, in either mode |
| InputCuts.AltIsLost | stage0/life/termbox2.h:3546-3549 | an input in ALT mode whose modifier is lost when a read ends inside the character |
| InputReads.CutsExactly | stage0/life/termbox2.h:3459-3624 | in either mode, for any bytes and any cutting, the reads give the events and the rest of the uncut stream if and only if every cut is safe, for capabilities of which none begins another and, in ESC mode, none stands for the escape key itself; a cut is unsafe in ESC mode if it follows an escape that starts a sequence, and in ALT mode if escapes were dropped and the next event keeps the modifiers, with no further dropped escape before it |
| InputReads.SafeIsHarmlessExactly | stage0/life/termbox2.h:3459-3624 | that holds for every stream and every cutting if and only if no escape sequence begins another one |
| InputReads.AltCutExactly | stage0/life/termbox2.h:3523-3575 | in ALT mode a cut behind bytes that give no event yet is harmless if and only if no escape was dropped, or the next event of what is left and follows does not keep the modifiers, being a key of the terminal or coming after another dropped escape |
| InputReads.ModifierShows | stage0/life/termbox2.h:3523-3575 | the ALT modifier shows in the next event if and only if this is a mouse report, a control key or a complete character, with no escape before it that is dropped |
| InputReads.CutInCharacter | stage0/life/termbox2.h:3568-3575 | a cut inside a character behind an escape is harmless if and only if the character is still incomplete with all that follows |
| InputReads.AltMouseIsLost | stage0/life/termbox2.h:3531-3549 | an input in ALT mode whose modifier is lost from a mouse report, when a read ends right after the escape of the report |
| InputReads.ReadyLocal | stage0/life/termbox2.h:3523-3624 | an event taken is the same when more input follows, except the escape key taken from a lone escape |
| InputReads.StuckBare | stage0/life/termbox2.h:3546-3550 | where there is no event yet, ALT mode leaves the bytes without the escapes at their start that start no sequence |
| InputKeys.KeysDrained | stage0/life/termbox2.h:3523-3773 | what a terminal sends for any sequence of characters, control keys, its own keys and mouse reports, each alone or in ALT mode behind an escape, is decoded to exactly their events with their modifiers, and nothing stays; ALT before a key of the terminal is lost |
| InputKeys.KeysArrive | stage0/life/termbox2.h:3459-3773 | cut into reads, it is if and only if every cut is safe |
| InputDecoder.Decoder.ExtractEvent | stage0/life/termbox2.h:3523-3575 | over the queue and the trie on the heap, the event, the status and the bytes that stay are those of the specification |
| InputDecoder.Decoder.ExtractEscMouse | stage0/life/termbox2.h:3626-3773 | the report leaves the queue, or nothing does |
| InputDecoder.Decoder.ReadAll | stage0/life/termbox2.h:3459-3521 | reads and drains in turn give the events and the remaining bytes of Feed |
| PathNames.UnderIsPrefix | stage0/tlpi/tlpi-dist/inotify/inotify_dtree.c:592-620 | the byte test for "under this directory" holds if and only if the components of one path are a prefix of the other's, for all strings |
| PathNames.SplitRewrite | stage0/tlpi/tlpi-dist/inotify/inotify_dtree.c:592-620 | replacing the string prefix replaces the component prefix |
| PathNames.SplitJoin | stage0/tlpi/tlpi-dist/inotify/inotify_dtree.c:592-620 | components without slashes are recovered from the joined path |
| InotifyRewrite.ReverseRenameUndoes | stage0/tlpi/tlpi-dist/inotify/inotify_dtree.c:592-620 | the reverse rename restores the cache if and only if nothing outside the old subtree was cached under the new prefix |
| InotifyRewrite.RewriteInjective | stage0/tlpi/tlpi-dist/inotify/inotify_dtree.c:592-620 | under that condition different cached paths stay different |
| InotifyAgreement.ZapSlots | stage0/tlpi/tlpi-dist/inotify/inotify_dtree.c:626-673 | zapSubtree empties exactly the live slots of the subtree |
| InotifyAgreement.ZapCounts | stage0/tlpi/tlpi-dist/inotify/inotify_dtree.c:626-673 | when no inotify_rm_watch fails it returns their number |
| InotifyAgreement.ZapWatches | stage0/tlpi/tlpi-dist/inotify/inotify_dtree.c:626-673 | on an agreeing cache no inotify_rm_watch fails, and exactly the subtree's watches are gone |
| InotifyRuns.CacheAgreesAlways | stage0/tlpi/tlpi-dist/inotify/inotify_dtree.c:730-1022 | for different roots, which copyRootDirPaths demands: after the initial build and every sequence of harmless operations, each with its events processed, the live slots are exactly the kernel's (wd, path) pairs, the descriptors are distinct, and exactly the directories under the roots still monitored are watched |
| InotifyRuns.AgreesExactly | stage0/tlpi/tlpi-dist/inotify/inotify_dtree.c:730-1022 | over every run of mkdir, rmdir, renames and renames onto empty directories, whether or not the roots exist, the cache agrees with the directories after every operation if and only if every operation is harmless |
| InotifyRuns.OpAgrees | stage0/tlpi/tlpi-dist/inotify/inotify_dtree.c:730-1022 | after one operation and its events the program has exited if and only if it has lost its last root; otherwise exactly these roots are no longer monitored: a removed one, a renamed one that was below no other, and a dead one to whose place a directory asking for IN_MOVE_SELF was renamed within the trees; and the cache agrees if and only if the operation is harmless |
| InotifyRuns.ReplaceOutcome | stage0/tlpi/tlpi-dist/inotify/inotify_dtree.c:764-1010 | the same for a rename onto an empty directory, which drops the replaced root too unless the cache was rebuilt; the old directory's slot is there until its own events are processed |
| InotifyHarm.HarmlessWithRoots | stage0/tlpi/tlpi-dist/inotify/inotify_dtree.c:730-1022 | while all roots exist, renaming a root that is below no other is harmless if and only if it does not go to a watched directory, and any other rename if and only if it comes from a watched one or has no root below it |
| InotifyHarm.ReplaceWithRoots | stage0/tlpi/tlpi-dist/inotify/inotify_dtree.c:764-1010 | while all roots exist, a rename onto an empty directory is harmless if and only if it comes from a watched directory, or goes to one that is not watched and takes no root along but the renamed directory itself |
| InotifyHarm.MkdirWithRoots | stage0/tlpi/tlpi-dist/inotify/inotify_dtree.c:764-803 | while all roots exist, mkdir is harmless |
| InotifyHarm.RootsStay | stage0/tlpi/tlpi-dist/inotify/inotify_dtree.c:730-1022 | where all roots existed, a rename leaves the list of roots without dead entries if and only if no root moves along, or only the renamed directory, which is below no other |
| InotifyHarm.NestedReturns | stage0/tlpi/tlpi-dist/inotify/inotify_dtree.c:819-1010 | in every agreeing state with its roots there: a root below another one, whose watch asks for IN_MOVE_SELF, that is renamed within the trees leaves a cache that agrees, and renaming it back leaves one that does not |
| InotifyHarm.RootBelowRoot | stage0/tlpi/tlpi-dist/inotify/inotify_dtree.c:988-1010 | with the roots /a and /b, renaming /a to /b/a leaves a cache that does not agree |
| InotifyHarm.NestedRootMoves | stage0/tlpi/tlpi-dist/inotify/inotify_dtree.c:819-1010 | with the roots /a and /a/b, renaming /a/b to /c leaves a cache that agrees and a list of roots with the dead entry /a/b |
| InotifyHarm.NestedRootReturns | stage0/tlpi/tlpi-dist/inotify/inotify_dtree.c:988-1010 | with these roots, renaming /a/b to /a/c leaves a cache that agrees, and renaming it back one that does not |
| InotifyHarm.RootMovesAlong | stage0/tlpi/tlpi-dist/inotify/inotify_dtree.c:730-1022 | with the root /x/a, renaming /x to /y, of which the program hears nothing, leaves a cache that does not agree |
| InotifyHarm.ReplaceFromOutside | stage0/tlpi/tlpi-dist/inotify/inotify_dtree.c:764-817 | with the root /a, renaming /b onto the empty directory /a/x leaves a cache that does not agree |
| InotifyQueue.UnmatchedZaps | stage0/tlpi/tlpi-dist/inotify/inotify_dtree.c:819-946 | on an agreeing cache, with the directories perhaps ahead of it, an IN_MOVED_FROM whose next event has another cookie or is no IN_MOVED_TO consumes one event, empties exactly the slots under the path and removes exactly their watches |
| InotifyQueue.TogetherIsOneByOne | stage0/tlpi/tlpi-dist/inotify/inotify_dtree.c:730-1142 | when the events of any number of renames (all but the last within the trees, out of them or elsewhere) are in the queue before the first is processed, the outcome is that of processing each rename before the next one happens |
| InotifyQueue.OutThenOther | stage0/tlpi/tlpi-dist/inotify/inotify_dtree.c:819-946 | a directory leaves the trees and another rename follows before the event is processed: the cache agrees after both if and only if the second rename is harmless |
| InotifyQueue.OverflowRebuilds | stage0/tlpi/tlpi-dist/inotify/inotify_dtree.c:956-973 | after IN_Q_OVERFLOW the cache agrees, whatever it held and whatever was left in the buffer |
| InotifyQueue.UnknownRebuilds | stage0/tlpi/tlpi-dist/inotify/inotify_dtree.c:738-757 | so it does after an event for a watch that is not cached, or a pair whose second one is not |
| InotifyQueue.UnmountInSync | stage0/tlpi/tlpi-dist/inotify/inotify_dtree.c:975-986 | after IN_UNMOUNT the slots are in step with the kernel, which has dropped the watch |
| InotifyAgreement.MkdirExactly | stage0/tlpi/tlpi-dist/inotify/inotify_dtree.c:764-803 | after mkdir the cache fails to agree if and only if the new directory is at the place of a root that was gone and its parent is not watched |
| InotifyAgreement.RmdirAgrees | stage0/tlpi/tlpi-dist/inotify/inotify_dtree.c:805-817 | a removed directory leaves the cache with its watch |
| InotifyRoots.RmdirRootAgrees | stage0/tlpi/tlpi-dist/inotify/inotify_dtree.c:805-817 | a removed root is dropped from the roots and the cache; the program exits with the last one, and otherwise the cache agrees for the others |
| InotifyRoots.TopRootAgrees | stage0/tlpi/tlpi-dist/inotify/inotify_dtree.c:988-1010 | a renamed root that was not below another one is dropped from the roots; if others remain, the cache agrees if and only if its new parent directory is not watched and no directory comes to lie at the place of a root that was gone |
| InotifyRoots.FlaggedWithin | stage0/tlpi/tlpi-dist/inotify/inotify_dtree.c:819-1010 | a directory whose watch asks for IN_MOVE_SELF, renamed within the trees: the cache agrees if and only if the new path is not in the list of roots, and otherwise that root is dropped |
| InotifyRoots.FlaggedOut | stage0/tlpi/tlpi-dist/inotify/inotify_dtree.c:746-946 | such a directory is renamed out of them: its slot is gone by the time IN_MOVE_SELF is processed, so that the cache is rebuilt; it agrees, and no root is dropped |
| InotifyRoots.SelfAtRoot | stage0/tlpi/tlpi-dist/inotify/inotify_dtree.c:988-1010 | a directory that was renamed to the path of a root that was gone is zapped, though it is still under a root |
| InotifyRoots.RenameRootDrops | stage0/tlpi/tlpi-dist/inotify/inotify_dtree.c:988-1010 | wherever a renamed root went, its tree has lost its slots and watches and no other watch is lost |
| InotifyAgreement.ZapsRoot | stage0/tlpi/tlpi-dist/inotify/inotify_dtree.c:443-480 | the path in the cache slot finds exactly the root at that place |
| InotifyMoves.RenameAgrees | stage0/tlpi/tlpi-dist/inotify/inotify_dtree.c:730-1022 | a rename of which no IN_MOVE_SELF tells keeps the agreement if and only if it comes from a watched directory or takes no root along, and goes to a watched directory or brings none to the place of a root that was gone |
| InotifyMoves.RootMovesUnseen | stage0/tlpi/tlpi-dist/inotify/inotify_dtree.c:764-803 | a directory that is not watched is renamed with a root below it: the slot of the root keeps its old path, wherever it went |
| InotifyMoves.RenameWithinAgrees | stage0/tlpi/tlpi-dist/inotify/inotify_dtree.c:894-921 | a matched pair of events rewrites the cached subtree to its new paths, and the cache agrees |
| InotifyMoves.RenameOutAgrees | stage0/tlpi/tlpi-dist/inotify/inotify_dtree.c:922-946 | an unmatched IN_MOVED_FROM drops the subtree's slots and watches; the cache agrees if and only if no directory comes to lie at the place of a root that was gone |
| InotifyMoves.RenameInAgrees | stage0/tlpi/tlpi-dist/inotify/inotify_dtree.c:764-803 | an IN_MOVED_TO without its partner watches the subtree that arrived, and the cache agrees |
| InotifyRenames.MovesExactly | stage0/tlpi/tlpi-dist/inotify/inotify_dtree.c:819-1010 | when after a rename all or none of the moved tree is watched and elsewhere the same as before, the cache agrees if and only if the tree is watched, or is under no root |
| InotifyRenames.RewriteInSync | stage0/tlpi/tlpi-dist/inotify/inotify_dtree.c:592-620 | rewriting the cached paths is what the kernel's rename does to the directories |
| InotifyProofs.ReinitializeAgrees | stage0/tlpi/tlpi-dist/inotify/inotify_dtree.c:683-713 | a rebuilt cache agrees with the trees, whatever the old one held, and the watches of all roots ask for IN_MOVE_SELF |
| InotifyProofs.TraverseMasks | stage0/tlpi/tlpi-dist/inotify/inotify_dtree.c:505-515 | the walk makes a watch ask for IN_MOVE_SELF if its path is a root's, and makes it stop asking otherwise |
| InotifyProofs.WatchSubtreeInSync | stage0/tlpi/tlpi-dist/inotify/inotify_dtree.c:496-590 | the walk adds exactly the directories of the subtree, and caches each once |
| InotifyProofs.SamePairs | stage0/tlpi/tlpi-dist/inotify/inotify_dtree.c:200-227 | the invariant says that cache pairs and kernel pairs are the same set |
| InotifyTree.ReadBoundary | stage0/tlpi/tlpi-dist/inotify/inotify_dtree.c:894-955 | a step that does not hang is the same when more of the stream has been read |
| InotifyTree.TurnConsumes | stage0/tlpi/tlpi-dist/inotify/inotify_dtree.c:1036-1142 | a step consumes its events once and decreases what is left of the stream |
| InotifyTree.DirTree.Turn | stage0/tlpi/tlpi-dist/inotify/inotify_dtree.c:1054-1138 | a turn of the loop, with its retry, keeps the outcome of the whole stream, and either advances or clears firstTry |
| InotifyTree.DirTree.ProcessInotifyEvents | stage0/tlpi/tlpi-dist/inotify/inotify_dtree.c:1036-1142 | the loop ends and leaves exactly what the unread stream would have left |
| InotifyTree.DirTree.ProcessAll | stage0/tlpi/tlpi-dist/inotify/inotify_dtree.c:1036-1142 | however the stream is cut into reads, the final cache, roots and watches are those of the uncut stream |
| InotifyTree.DirTree.ProcessNextInotifyEvent | stage0/tlpi/tlpi-dist/inotify/inotify_dtree.c:730-1022 | the branches on the array-based cache do what the specification's step does, with the same count of consumed events |
| InotifyTree.DirTree.ZapSubtree | stage0/tlpi/tlpi-dist/inotify/inotify_dtree.c:626-673 | in-place removal, with the result -1 at the first failed inotify_rm_watch |
| InotifyTree.DirTree.RewriteCachedPaths | stage0/tlpi/tlpi-dist/inotify/inotify_dtree.c:592-620 | every slot of the subtree is rewritten in place, and no other |
| InotifyTree.DirTree.FindEmptyCacheSlot | stage0/tlpi/tlpi-dist/inotify/inotify_dtree.c:282-303 | the first free slot, or the first of the new ones after the array has grown by 200 |
| InotifyTree.DirTree.AddWatchToCache | stage0/tlpi/tlpi-dist/inotify/inotify_dtree.c:308-317 | the pair is put in a free slot and no live slot changes |
| InotifyTree.DirTree.Reinitialize | stage0/tlpi/tlpi-dist/inotify/inotify_dtree.c:683-713 | a new cache from the remaining roots, and no old event left |
| MqThread.AlwaysAttended | stage0/tlpi/tlpi-dist/pmsg/mq_notify_via_thread.c:29-98 | in every reachable state, with any number of threads, registrations and agents before notifySetup number exactly 1, mq_notify has not failed, a nonempty queue has an agent that is not done, and messages are conserved in order within each priority |
| MqThread.NothingStranded | stage0/tlpi/tlpi-dist/pmsg/mq_notify_via_thread.c:55-65 | whenever no agent can move, the queue is empty, a registration is in place, all agents are done and everything sent was received once, in order within each priority |
| MqThread.StepsBounded | stage0/tlpi/tlpi-dist/pmsg/mq_notify_via_thread.c:29-65 | every run is at most 2 + initially queued + 4 sends steps long, so that the agents come to rest when sending stops |
| MqThread.NotifyKeeps | stage0/tlpi/tlpi-dist/pmsg/mq_notify_via_thread.c:68-81 | an agent that registers never finds a registration in place |
| MqThread.SendKeeps | stage0/tlpi/tlpi-dist/pmsg/mq_notify_via_thread.c:68-81 | the invariant is kept; a message to an empty queue uses the registration up and starts exactly one agent, and any other message does neither |
| MqQueue.ReceiveInOrder | stage0/tlpi/tlpi-dist/pmsg/mq_notify_via_thread.c:44-49 | mq_receive takes the oldest message of its priority and leaves the order of all priorities alone |
| MqQueue.ReceiveConserves | stage0/tlpi/tlpi-dist/pmsg/mq_notify_via_signal.c:89-95 | sent = received then queued, per priority and as multisets, is kept by a receive |
| MqSignal.AlwaysWatched | stage0/tlpi/tlpi-dist/pmsg/mq_notify_via_signal.c:29-104 | in every reachable state exactly one of registered, signal pending and gotSig holds except between clearing gotSig and mq_notify, and outside that window and the drain a nonempty queue implies a pending signal or gotSig |
| MqSignal.NoMissedWakeUp | stage0/tlpi/tlpi-dist/pmsg/mq_notify_via_signal.c:77-104 | from every reachable state without a pending signal, once sending stops, queue length + 4 steps of the loop receive everything ever sent |
| MqSignal.Empties | stage0/tlpi/tlpi-dist/pmsg/mq_notify_via_signal.c:77-104 | each such step reduces the distance to an empty queue by exactly one, until it is zero |
| NamespacesProofs.ScanForest | stage0/tlpi/tlpi-dist/namespaces/namespaces_of.go:603-729 | after any sequence of addNamespace calls the map is closed under owners, each entry is in the children list of exactly its owner, rootNS is the visible top, and the entries are exactly the scanned namespaces and those above them |
| NamespacesProofs.ListedOnce | stage0/tlpi/tlpi-dist/namespaces/namespaces_of.go:642-729 | each entry with an owner is at exactly one place in exactly one children list |
| NamespacesProofs.PidsConserved | stage0/tlpi/tlpi-dist/namespaces/namespaces_of.go:603-622 | an entry's PIDs are exactly the positive ones added for it, in order |
| NamespacesProofs.DisplayedOnceExactly | stage0/tlpi/tlpi-dist/namespaces/namespaces_of.go:1143-1155 | the default display ends, and shows every entry of a selected kind once, indented by its depth, and nothing else, if and only if some scanned namespace has a visible topmost owner |
| NamespacesProofs.NothingScanned | stage0/tlpi/tlpi-dist/namespaces/namespaces_of.go:1143-1155 | when nothing was scanned, the display dereferences nil |
| NamespacesProofs.OrphanShownTwice | stage0/tlpi/tlpi-dist/namespaces/namespaces_of.go:1143-1155 | a namespace with an invisible owner scanned alone has every entry of a selected kind shown twice, the invisible owner's among them |
| NamespacesProofs.RootRecorded | stage0/tlpi/tlpi-dist/namespaces/namespaces_of.go:642-729 | rootNS is set if and only if some scanned namespace has a visible topmost owner |
| NamespacesProofs.TreeTimes | stage0/tlpi/tlpi-dist/namespaces/namespaces_of.go:1193-1210 | a displayed tree holds an entry once if it is at or below the tree's top, else never |
| NamespacesProofs.TreeIndented | stage0/tlpi/tlpi-dist/namespaces/namespaces_of.go:1193-1210 | every line is a selected entry, indented by the number of its owners |
| NamespacesOrder.DisplayOrdered | stage0/tlpi/tlpi-dist/namespaces/namespaces_of.go:1143-1210 | of two lines of the display the upper one is an owner of the lower one, or in the subtree of an earlier sibling, or the lower one is under the invisible owner |
| NamespacesOrder.ScanAppends | stage0/tlpi/tlpi-dist/namespaces/namespaces_of.go:642-729 | scanning on only continues the lists of children, so that siblings stand in the order in which they were found |
| NamespacesOrder.TopmostVisible | stage0/tlpi/tlpi-dist/namespaces/namespaces_of.go:642-700 | the topmost owner is visible if and only if the chain of NS_GET_USERNS or NS_GET_PARENT answers ends at a user namespace, or the hierarchy shown is that of PID namespaces |
| NamespacesProofs.ScanDescends | stage0/tlpi/tlpi-dist/namespaces/namespaces_of.go:1193-1210 | the recursion of the display goes to deeper namespaces only, so that it ends |
| NamespacesProofs.AddKeeps | stage0/tlpi/tlpi-dist/namespaces/namespaces_of.go:603-729 | one recursive addition keeps the forest while outer calls have entries that are not linked yet |
| Namespaces.NamespaceInfo.ScanAll | stage0/tlpi/tlpi-dist/namespaces/namespaces_of.go:437-485 | the object's map after a scan is an exact forest with exactly the reached namespaces and the recorded PIDs |
| Namespaces.NamespaceInfo.AddNamespaceToList | stage0/tlpi/tlpi-dist/namespaces/namespaces_of.go:642-729 | the recursive methods change the map as the specification says |
| Namespaces.NamespaceInfo.DisplayNamespaceTree | stage0/tlpi/tlpi-dist/namespaces/namespaces_of.go:1193-1210 | the recursive display prints the tree's lines in order |
| Namespaces.ShowNamespaces | stage0/tlpi/tlpi-dist/namespaces/namespaces_of.go:154-204 | a whole run shows every entry once if and only if some scanned namespace has a visible topmost owner |
| WrapText.WrapOptimal | stage0/tlpi/tlpi-dist/namespaces/namespaces_of.go:1434-1459 | no text of the same words, in order, whose lines are within the width or hold one word, has fewer lines |
| WrapText.WrapFits | stage0/tlpi/tlpi-dist/namespaces/namespaces_of.go:1434-1459 | every line starts with the indent, has no white space but spaces behind it, and beside it is within the width or is a single word |
| WrapText.FieldsExactly | stage0/tlpi/tlpi-dist/namespaces/namespaces_of.go:1438 | white space is the six ASCII characters, and the words are the runs of all others |
| WrapText.WrapKeepsWords | stage0/tlpi/tlpi-dist/namespaces/namespaces_of.go:1434-1459 | splitting the output on white space gives the original words, for a blank indent |
| WrapText.GreedyOptimal | stage0/tlpi/tlpi-dist/namespaces/namespaces_of.go:1447-1456 | every partition into fitting lines has more lines, or as many and no shorter a last line |
| WrapText.WrapText | stage0/tlpi/tlpi-dist/namespaces/namespaces_of.go:1434-1459 | the loop over result and column builds the greedy lines |
| NsCapable.Process.IsAncestorUserns | stage0/tlpi/tlpi-dist/namespaces/ns_capable.c:178-232 | -1 if and only if source is no proper ancestor of target, and then no descriptor is left; else a descriptor for source's child on the chain, the target's own or the only one left |
| NsCapable.Process.Run | stage0/tlpi/tlpi-dist/namespaces/ns_capable.c:287-375 | the verdict is that of the capability rule, and every descriptor opened is closed exactly once |
| NsCapable.OneChild | stage0/tlpi/tlpi-dist/namespaces/ns_capable.c:160-176 | a namespace has only one child on a chain |
| NsCapable.AncestorByPath | stage0/tlpi/tlpi-dist/namespaces/ns_capable.c:178-232 | the ancestors are what one or more NS_GET_PARENT steps lead to |
| NsCapable.VerdictFromChild | stage0/tlpi/tlpi-dist/namespaces/ns_capable.c:327-363 | comparing with the owner of that child decides the rule, which is stated over all children |
| LifeSpec.MirrorCommutes | stage0/life/main.c:41-86 | n generations commute with left-right and upside-down mirroring on a board of any size |
| LifeSpec.Local | stage0/life/main.c:41-86 | after n generations a cell depends only on the cells within Chebyshev distance n |
| LifeSpec.NextByBlocks | stage0/life/main.c:41-86 | a cell on the board is live next if and only if its three by three block holds three live cells, or four with the cell among them |
| LifeSpec.StillExactly | stage0/life/main.c:61-86 | nothing changes if and only if all live cells are on the board with three or four in their blocks, and no other cell on the board has three |
| Life.CountNeighbors | stage0/life/main.c:41-59 | the 3 by 3 loop with its index tests counts exactly the live neighbours on the board |
| Life.Game.Update | stage0/life/main.c:61-86 | the board becomes the next generation and living_cells is the number of its live cells |
| Life.Game.PrintChanges | stage0/life/main.c:176-184 | after printing only the differences the screen shows the back buffer |
| Life.Game.Turn | stage0/life/main.c:169-204 | the frame shows X exactly at the live cells, and one generation passes |
| Life.Game.Play | stage0/life/main.c:153-204 | over n turns frame i shows X exactly at the live cells of generation i |
| Life.DrawnShows | stage0/life/main.c:88-101 | a screen that shows the drawn buffer, blank where nothing was ever printed, has X exactly at the live cells |
| Heron.Guess | stage0/modern_c/control/heron.c:20-38 | the loop ends with x a power of two in one direction and a x in [1/2, 3/2] |
| Heron.GuessEndsExactly | stage0/modern_c/control/heron.c:22-38 | the guess loop ends if and only if a is positive |
| Heron.OneDirection | stage0/modern_c/control/heron.c:22-38 | the product never crosses 1 from below nor 3/4 from above, so the loop never turns round |
| Heron.Approximate | stage0/modern_c/control/heron.c:39-50 | every step squares 1 - a x; at most five steps, none of them needless, end with an error of at most 2^-24 |
| Heron.FiveNeeded | stage0/modern_c/control/heron.c:39-50 | for a = 1/2 four steps are not enough |
| Heron.Heron | stage0/modern_c/control/heron.c:20-50 | for positive a the result is 1 / a with a relative error of at most 2^-24 |

## Left out

- termbox2: the bytes of SGR and cursor sequences, output-mode changes, the show and hide cursor capabilities, grapheme clusters, user callbacks, raw tb_send, terminfo, termios, select, signals, allocation failure, partial writes and the literal width table.
- TermboxRuns.ResizeRests: the window change and the program's reaction to it are one step, so calls between the two are not covered.
- TermboxPaint.SendAttrScreen: the switch over output modes and the SGR bytes are one abstract attribute command.
- Termbox.Renderer.SendAttr: likewise queues that command in place of the SGR bytes.
- Termbox.Renderer.SetCursor: the show-cursor capability, sent when the cursor was hidden before, is not modelled.
- InputDecoder.Decoder.ExtractEvent: the application's own escape callbacks (extract_esc_user) are not modelled.
- termbox2: cell buffers are two-dimensional arrays, so the index y * width + x is not modelled.
- termbox2: children of a trie node are a sequence of references, where the source reallocates an array of structures.
- termbox2: mouse numbers above 2^31 - 1, where the source's signed arithmetic overflows; the parser here reads them exactly.
- inotify_dtree: logging, the command loop, symbolic links, mount points, `.` and `..` in paths, PATH_MAX, the byte size of events and buffers, and inotify_add_watch errors other than a vanished directory.
- InotifyRuns.CacheAgreesAlways: does not cover operations while earlier events are unprocessed, which the source says it does not fully handle; renames are treated in InotifyQueue.
- InotifyRuns.AgreesExactly: likewise.
- InotifyRuns.OpAgrees: likewise.
- InotifyQueue.TogetherIsOneByOne: only for renames, of which only the last may bring a directory into the trees or queue IN_MOVE_SELF, since those are processed with the directories as they are by then.
- InotifyTree.DirTree.Turn: the secondary read after a hanging IN_MOVED_FROM returns events if any are still to come; that it times out before they are queued is not covered.
- InotifyTree.DirTree.ProcessInotifyEvents: rests on the same behaviour of the secondary read.
- InotifyTree.DirTree.ProcessAll: the directory tree does not change while the stream is processed, and the secondary read behaves as in Turn.
- MqThread.AlwaysAttended: a send to a full queue is a send that has not happened yet; other processes that receive or register are excluded, as is the failure of any call but mq_notify and mq_receive.
- MqSignal.NoMissedWakeUp: that a pending signal is delivered is the kernel's part and is assumed.
- Namespaces.NamespaceInfo.ScanAll: the walk over /proc is given as the sequence of its addNamespace calls.
- Namespaces.ShowNamespaces: the command line gives only the kinds shown; --subtree and the other options are not modelled.
- namespaces_of: /proc scanning, setns, goroutines, creator UIDs, UID and GID maps, colours, the command-line options other than the kinds shown, and --subtree.
- WrapText.WrapText: text beyond ASCII, where the source counts bytes and splits at Unicode white space.
- ns_capable: reading /proc, printing capabilities, and calls that fail unexpectedly, after which the program exits.
- life: terminal setup, keys, timing and the status line; never-live cells are blank on screen rather than dots, so only the place of every X is claimed.
- Life.Game.Turn: the status line, printed on the terminal's last row, is not modelled; the terminal has at least one row below the board, for on one that ends with the board the status line would overwrite the last row.
- Life.Game.Play: likewise.
- Heron.Heron: floating-point rounding, argument parsing and printing; for a that is not positive the guess loop does not end.
- The other programs of the repository are one-shot system-call demos, near-copies of the ones above, or unfinished.
