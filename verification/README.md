# Verified models of the bulletin board

Dafny models of the parts of the board that compute something hard, with proofs that they do what the rest of the
program relies on. Each model keeps the code's branches, limits and edge cases; each loop, buffer and object is a
method or class here, proved against a specification function, and what the code promises is proved of that function
for all inputs. `dafny verify dfyconfig.toml` checks everything.

**Script machine** (`script*.dfy`, `qa_*.dfy`). Questionnaires are lists of lines run one by one, with flags and
counters for skipping and a stack of loop lines to jump back to. `Script` gives structured programs, their meaning and
their lines; `ScriptSimulation` and `ScriptTheorems` prove that the line machine computes exactly that meaning. The
commands are a parameter there; `QaCommands` gives the real ones, `QaConditions` what they mean written out as text, the
class `Vm` refines the machine, and `QaTheorems` says what holds of whole questionnaires. `ScriptCalls` and `QaCalls` are
about what is not structured: GOSUB and RETURN, GOTO, BREAK and labels.

**Telnet** (`telnet*.dfy`). A reference decoder for whole streams, the class that decodes whatever the socket delivers
into whatever buffer the caller has, and option negotiation over whole conversations and between two endpoints: what is
answered, how often, and that it ends.

**JAM message base** (`jam_*.dfy`). Four byte files as one class. The layout that a list of messages determines is
proved to be what appending builds, and every lookup, scan and fast path is proved against it. `JamFlags` follows a
draft's flags into the message that is read back, and to who may read it.

**WebSocket** (`websocket*.dfy`). Frames as bytes, frames as messages, and the connection that turns one into the other.

**CRC** (`crc*.dfy`). Both tables, the table updates and the two-zero-byte form are proved to be polynomial division
over GF(2). Words are bit vectors; the linear algebra is done once, for any register.

**ANSI** (`ansi_*.dfy`, `cursor_tracker.dfy`). The local screen's interpreter and the terminal's own cursor tracker:
each is independent of how output is cut, and they agree on where the cursor is. `AnsiEffects` says what text, colours,
erasing and the saved cursor do to the screen.

**Wrapping** (`wrap.dfy`) and the **outbound queue** (`mail_queue*.dfy`), over whole texts and whole histories.

**Records** (`code_page.dfy`, `pascal_*.dfy`, `file_records.dfy`, `record_layout.dfy`), **user search** (`user_search.dfy`,
`user_names.dfy`) and the **file catalogue** (`catalog_*.dfy`, `file_catalog.dfy`, `file_codec.dfy`). Field codecs, the
index that must never hide a user, and the three files of an area over its whole life.

Some predicates are always true (`Trusts`, `Peeks`, `Opens`, `Compares`, `Looks`, `Asks`, `At`, `Steps`, `Adds32` and
the like). They stand as triggers in front of definitions that a proof should see only where it says so: an assertion
of one opens the definition at that place. They say nothing about the program.

Assumptions made throughout: one process at a time, files as byte sequences whose reads and writes do not fail (a
missing file is an empty one), files below 2 GiB, and clocks, terminals, disks and servers as parameters.

## What the code does not do

These follow from the code and are proved here as they are, each with an input on which it shows and, where there is
something to choose, with the exact condition for it:

- Nested loops share one round counter and each WHILE clears it, so the bound of 10001 rounds holds for innermost loops
  only (`ResetCounterLoopsForever`), and six lines can run forever (`EndlessNeverStops`).
- A GOSUB made with 20 lines stored is not stored, so that its RETURN goes on somewhere else (`CallReturnsExactly`,
  `DeepestCallReturnsElsewhere`).
- BREAK leaves its loop on the stack, so that the next ENDWHILE goes back into the loop that was left while its condition
  holds (`BreakGoesBelow`, `BrokenLoopComesBack`).
- A CR whose LF or NUL comes after commands or escaped bytes loses the LF or NUL under some cuttings of the stream and
  keeps it under others (`AmbiguousStreamsDisagree`, `CutsDisagree`); text with a CR before LF or NUL does not survive
  Write and Read (`WrittenTextSurvives`, `LineEndIsAltered`).
- The negotiation rule of RFC 854 against loops holds for a peer that does not refuse, and between two such endpoints,
  but a peer that keeps changing its mind is answered every time (`FlappingIsAnswered`). The commands of two bytes that
  RFC 854 has take along the byte behind them (`ShortCommandTakesAByte`).
- With deletions, the fast path for the highest message can name a deleted last message, and on a base of more than
  131072 slots miss a live one in the middle (`FastHighExact`, `DeletedLastIsAnswered`, `MiddleIsMissed`). Below the base
  number, going backward finds a message above the number asked for (`BackwardBelowBase`, `BackFromOneGoesUp`).
- Mail to a name with outer spaces can be missed by the scan (`ScanFindsMail`, `SpacesHideMail`).
- The size limit on a WebSocket message is also applied to control frames that come inside it (`FullMessageIsRefused`).
- Wrapping loses one space at the very end of a paragraph when it falls on the last column (`DroppedExactly`,
  `LosesASpace`).
- An article of more than 5,242,880 bytes is cut when the queue is rewritten (`WholeBodyExactly`, `LongBodyIsCut`).
- A stale index can make a search return another match than the first (`LowestExactly`, `StaleIndexMisleads`).
- Rewriting a catalogue can give an entry another entry's description, if its own is blank but not absent
  (`RewriteExact`, `BlankTakesAnother`).
- The upload date in the index is not brought up to date with the header's until the catalogue is written anew
  (`DatedExactly`, `UpdatedDates`, `ReplacedDates`, `WroteDates`, `SecondUploadIsNotDated`).
- A long file name stored at the very beginning of an area's text file is not recognised, so the first file with a long
  name is catalogued a second time (`KnownExactly`, `FirstLongNameIsMissed`).
- A tracked cursor that leaves the screen is not where the screen's cursor is (`CursorsAgree`, `LastColumnDisagrees`,
  `LetterAtLineEnd`).

## Model

| member | source | states |
|---|---|---|
| `ScriptTheorems.MeaningIsReached` | internal/quest/qa.go:200-203 | where a structured script has a meaning (nested IF, ELSE and WHILE, at most five loops deep), running its lines from first to last stops with the same answers and loop counter, and with all skip flags, counters and stacks as at the start unless it stopped by QUIT |
| `ScriptTheorems.StopsOnlyWithMeaning` | internal/quest/qa.go:200-203 | conversely, if the line machine stops at all, the structured meaning exists and is what it stopped with |
| `ScriptTheorems.StacksStayBounded` | internal/quest/qa.go:574-606 | on any lines, structured or not, any number of turns keeps the loop stack at five and the GOSUB stack at twenty |
| `ScriptTheorems.InnermostLoopIsBounded` | internal/quest/qa.go:586-606 | a loop whose body holds no loop always ends, after at most 10001 rounds, whatever its condition does |
| `ScriptTheorems.UnnestedHasMeaning` | internal/quest/qa.go:586-606 | every script without loops inside loops has a meaning |
| `ScriptTheorems.UnnestedScriptsStop` | internal/quest/qa.go:200-203 | the line machine stops on every script without loops inside loops |
| `ScriptTheorems.UnnestedBlockEnds` | internal/quest/qa.go:200-203 | and wherever such a block stands in arbitrary lines, with jumps, BREAK and deeper loops elsewhere, the machine comes out below it with its meaning and every flag and stack as before, or stops in it by QUIT |
| `ScriptTheorems.EndlessConditionRunsOut` | internal/quest/qa.go:594-606 | a loop whose condition is always true makes exactly 10001 rounds and leaves the counter there |
| `ScriptTheorems.ResetCounterLoopsForever` | internal/quest/qa.go:574-584 | the bound is lost with nesting: an inner loop resets the shared counter, so an outer loop whose body always comes back with a small counter never ends |
| `QaTheorems.EndlessNeverStops` | internal/quest/qa.go:574-606 | so it is in the program: with the real commands, six given lines of two nested loops have not stopped after any number of turns, if answers 1 and 2 start empty |
| `QaTheorems.RunTouchesAnswers` | internal/quest/qa.go:200-203 | over any run of a script of the commands modelled, with any jumps and loops, nothing but answers 1 to 100 changes |
| `ScriptSimulation.Simulate` | internal/quest/qa.go:291-330 | the simulation behind these, for any part of a script at any place in the lines and at any loop depth left: skipped, entered, repeated and left blocks meet the meaning turn by turn |
| `ScriptSimulation.SkipIfLines` | internal/quest/qa.go:298-317 | skipping for IF passes any balanced lines and only counts nested IFs |
| `ScriptSimulation.SkipWhileLines` | internal/quest/qa.go:318-330 | skipping for WHILE passes any balanced lines and only counts nested WHILEs |
| `ScriptSimulation.CloseLoop` | internal/quest/qa.go:586-606 | ENDWHILE tests again, counts the round, and either jumps back below the WHILE or pops it and goes on |
| `ScriptCalls.CallReturns` | internal/quest/cmds.go:18-27 | in any lines, a GOSUB to a label that stands before a structured block and a RETURN: the machine carries out the block's meaning, out of every IF and WHILE, and unless QUIT stopped it goes on below the line stored last; with fewer than 20 lines stored that is the line of the GOSUB, and the stored lines are as they were |
| `ScriptCalls.CallReturnsExactly` | internal/quest/cmds.go:18-27 | so a call comes back below itself, with the stored lines as they were, exactly when fewer than 20 are stored |
| `ScriptCalls.JumpGoesOn` | internal/quest/qa.go:785-804 | GOTO and GOSUB to a label go on below it, out of every IF and WHILE; to a word that is no label they go nowhere, though GOSUB stores its line all the same |
| `ScriptCalls.BreakGoesBelow` | internal/quest/cmds.go:28-29 | BREAK goes on below the ENDWHILE of its loop over any lines whose loops are balanced, and leaves the line of that loop on the stack |
| `ScriptCalls.BrokenLoopComesBack` | internal/quest/qa.go:586-606 | so the next ENDWHILE tests the loop that was left, and goes back into it while its condition holds |
| `QaCalls.LabelsAre` | internal/quest/qa.go:190-199 | a label of a script is the name of some line, and leads to the last line of that name |
| `QaCalls.LabelOfWord` | internal/quest/qa.go:190-199 | a line of a colon and a word has that word, in capitals, for its name |
| `QaCalls.DeepestCallReturnsElsewhere` | internal/quest/cmds.go:18-27 | a script of 21 calls one inside the other: the RETURN of the last goes on below the call before it |
| `QaText.AtoiOfItoa` | internal/quest/qa.go:1092-1106 | reading a number the interpreter printed gives the number back |
| `QaText.TrimTakesOff` | internal/quest/qa.go:947-959 | trimming takes off blanks only, at both ends, and all of them |
| `QaText.SplitRejoins` | internal/quest/qa.go:961-983 | what leads up to the command word, the word and what follows make up the trimmed line |
| `QaText.SplitOf` | internal/quest/qa.go:961-983 | a word, a blank and an argument come apart into the word in capitals and the argument |
| `QaText.FirstWordRejoins` | internal/quest/qa.go:985-992 | the first word and what follows it make up the trimmed text, and the word ends at the first gap |
| `QaText.FirstWordOf` | internal/quest/qa.go:985-992 | a word and a rest come apart into both |
| `QaText.UnquoteOfQuoted` | internal/quest/qa.go:1066-1085 | any text comes back from its quoted form, with backslashes before backslashes and quotes |
| `QaText.IndexFromIs` | internal/quest/qa.go:844 | the place found is the first where the text occurs |
| `QaText.DoTrimRA` | internal/quest/qa.go:947-959 | trims a line as specified |
| `QaText.DoSplitCmd` | internal/quest/qa.go:961-983 | splits a line into command and rest |
| `QaText.DoFirstWord` | internal/quest/qa.go:985-992 | splits off the first word |
| `QaText.DoAtoi` | internal/quest/qa.go:1092-1106 | reads a leading number |
| `QaText.DoUnquote` | internal/quest/qa.go:1066-1085 | strips quotes |
| `QaCommands.DoParseCondition` | internal/quest/qa.go:806-895 | takes a condition apart into operator and operands |
| `QaCommands.ConditionReadsBack` | internal/quest/qa.go:806-828 | a condition written as answer number, mark for numbers, operator and right side comes apart into exactly these |
| `QaConditions.NumbersAreCompared` | internal/quest/qa.go:863-879 | a condition written out as answer, ~, operator and number holds exactly when the answer, read as a number, stands in that relation to it, for each of the ten operator words; it changes nothing |
| `QaConditions.TextsAreCompared` | internal/quest/qa.go:880-895 | without ~ two answers are compared as texts in capitals: equal, or before one another |
| `QaConditions.LessIsBefore` | internal/quest/qa.go:881-893 | before means: a shorter beginning, or the smaller character where the two first differ |
| `QaConditions.AnswersAreSearched` | internal/quest/qa.go:829-862 | IN #m AT k searches answer m and stores the place in answer k; NIN answers the opposite |
| `QaConditions.ValueOfAny` | internal/quest/qa.go:925-945 | a number stands for itself, in the range of answers or out of it |
| `QaCommands.StripDoOf` | internal/quest/qa.go:608-614 | the DO at the end of a loop condition is taken off, in any case of letters |
| `QaCommands.SearchIs` | internal/quest/qa.go:829-862 | IN finds exactly a text that occurs, whatever the case of letters, never an empty one, and stores the first position counted from 1 |
| `QaCommands.ValueOfMark` | internal/quest/qa.go:925-945 | #n stands for answer n, and %n for the answer whose number answer n holds |
| `QaCommands.TargetIs` | internal/quest/qa.go:785-795 | a jump goes to the plain label in capitals, or to the one held in the answer named |
| `QaCommands.DestinationOf` | internal/quest/qa.go:374-378 | an assignment to n goes to answer n, one to %n to the answer whose number answer n holds |
| `QaCommands.AssignCopies` | internal/quest/qa.go:373-385 | ASSIGN n #m makes answer n a copy of answer m as it is, and changes nothing else |
| `QaCommands.AddToNames` | internal/quest/qa.go:416-421 | INC and DEC work on the answer whose number they name, with or without % |
| `QaCommands.AddStepCounts` | internal/quest/qa.go:416-421 | after INC the answer reads as one more and after DEC as one less, and no other answer changes |
| `QaCommands.SubstringIs` | internal/quest/cmds.go:420-447 | how many characters a substring has, and that each is the one of the source at its place |
| `QaCommands.SubstringsRejoin` | internal/quest/cmds.go:420-447 | the first k characters and the rest are the whole text |
| `QaConditions.SubstringTakes` | internal/quest/cmds.go:420-447 | SUBSTRING n a s c takes c characters of answer a from the s-th on into answer n; SUBSTRINGVAR reads s and c from answers |
| `QaConditions.ConcatJoins` | internal/quest/qa.go:422-426 | CONCAT n a b puts answer a and answer b, in that order, into answer n |
| `QaConditions.CutAndJoined` | internal/quest/cmds.go:420-447 | an answer taken apart anywhere by two SUBSTRING lines and put together by CONCAT is itself again |
| `QaConditions.LengthCounts` | internal/quest/cmds.go:38-42 | LENGTH n a leaves in answer n a text that reads as the number of characters of answer a, and changes nothing else |
| `QaConditions.CaseChanges` | internal/quest/qa.go:458-463 | UPPERCASE makes every small letter the same capital letter and LOWERCASE the other way round |
| `QaConditions.BranchRuns` | internal/quest/qa.go:388-400 | the lines IF, a command, ELSE, a command, ENDIF run to the end with the first command carried out if the condition holds and the second if not |
| `QaConditions.LoneWords` | internal/quest/qa.go:332-412 | what each of the words that stand alone does |
| `QaConditions.LeadingWords` | internal/quest/qa.go:332-412 | and each that has something behind it |
| `QaConditions.BlankExactly` | internal/quest/qa.go:291-296 | a line does nothing exactly if it is blank or begins, blanks aside, with a semicolon or a colon |
| `QaAnswerBook.AnswerBook.constructor` | internal/quest/qa.go:897-909 | a hundred empty answers |
| `QaAnswerBook.AnswerBook.PutAnswer` | internal/quest/qa.go:904-909 | changes answer n and nothing else, and nothing at all outside 1 to 100 |
| `QaAnswerBook.AnswerBook.PutAll` | internal/quest/qa.go:183-185 | answers given in advance are stored under their numbers, and those outside 1 to 100 dropped |
| `QaAnswerBook.AnswerBook.Test` | internal/quest/qa.go:806-895 | decides a condition, which may store an answer, as the condition function says |
| `QaAnswerBook.AnswerBook.TestWhile` | internal/quest/qa.go:586-614 | the same for a loop condition, without its DO |
| `QaAnswerBook.AnswerBook.Check` | internal/quest/qa.go:806-895 | decides one comparison |
| `QaAnswerBook.AnswerBook.Find` | internal/quest/qa.go:806-895 | the search comparison and the answer it stores |
| `QaAnswerBook.AnswerBook.Do` | internal/quest/qa.go:332-485 | a simple command changes the answers as the command function says |
| `QaAnswerBook.AnswerBook.Act` | internal/quest/qa.go:373-464 | the same after the command word is known |
| `QaAnswerBook.AnswerBook.PutPart` | internal/quest/cmds.go:420-447 | the part of one answer stored in another, cut at its end |
| `QaAnswerBook.AnswerBook.Assign` | internal/quest/qa.go:373-385 | ASSIGN, with an indirect destination and the two kinds of value |
| `QaAnswerBook.AnswerBook.AddTo` | internal/quest/qa.go:416-421 | INC and DEC |
| `QaInterpreter.Vm.constructor` | internal/quest/qa.go:186-199 | lines and labels from the text, all flags clear, at the first line |
| `QaInterpreter.Vm.GotoLabel` | internal/quest/qa.go:785-804 | a jump clears the nesting state and goes to the label, or nowhere if there is none |
| `QaInterpreter.Vm.CmdWhile` | internal/quest/qa.go:574-584 | WHILE is the machine's WHILE, a sixth nested one included |
| `QaInterpreter.Vm.CmdEndWhile` | internal/quest/qa.go:586-606 | ENDWHILE is the machine's ENDWHILE |
| `QaInterpreter.Vm.SkipInIf` | internal/quest/qa.go:298-317 | a line skipped for IF |
| `QaInterpreter.Vm.SkipInWhile` | internal/quest/qa.go:318-330 | a line skipped for WHILE |
| `QaInterpreter.Vm.Exec` | internal/quest/qa.go:291-486 | one line is one step of the machine, GOSUB, RETURN and BREAK among them |
| `QaInterpreter.Vm.OneLine` | internal/quest/qa.go:200-203 | one turn of the run loop is one turn of the machine |
| `QaInterpreter.Vm.RunLoop` | internal/quest/qa.go:200-203 | the run loop is that many turns |
| `QaInterpreter.RunQuestionnaire` | internal/quest/qa.go:183-203 | for any lines, answers given in advance and caller who hangs up after any number of lines: the loop ends with what that many turns of the machine give |
| `QaInterpreter.StructuredRun` | internal/quest/qa.go:183-203 | where the lines are a structured script and it stops by itself, that is what its meaning gives |
| `TelnetDecode.ChunkIndependence` | internal/comm/telnet.go:110-198 | the bytes delivered are the same for every cutting of the input and equal the one-pass decoding, exactly when no CR is separated from a following LF or NUL by commands or escaped bytes alone |
| `TelnetDecode.AmbiguousStreamsDisagree` | internal/comm/telnet.go:130-139 | on every other input, whole delivery and some cutting differ |
| `TelnetDecode.CutsDisagree` | internal/comm/telnet.go:130-139 | such an input: CR, an escaped 255 and LF, with one cutting that keeps the LF and one that loses it |
| `TelnetDecode.ChunkingIsInvisible` | internal/comm/telnet.go:123-145 | the same from the middle of a stream, whether or not a CR is still waiting for its mate |
| `TelnetDecode.WrittenTextSurvives` | internal/comm/telnet.go:200-216 | what one end writes the other reads, however it is cut, exactly when no CR is followed by LF or NUL, not even across bytes 255 |
| `TelnetDecode.LineEndIsAltered` | internal/comm/telnet.go:130-139 | a text that does not: CR LF is read as CR |
| `TelnetDecode.ShortCommandTakesAByte` | internal/comm/telnet.go:174-177 | every command from NOP to GA takes the byte behind it along, whichever it is, and loses it |
| `TelnetDecode.BlockVanishes` | internal/comm/telnet.go:156-173 | a subnegotiation is passed over whole, whatever is in it, up to the IAC SE behind its contents |
| `TelnetDecode.CommandIsHeard` | internal/comm/telnet.go:178-195 | an option command is heard and nothing of it delivered |
| `TelnetNegotiation.RepliesAlternate` | internal/comm/telnet.go:56-102 | for every option and any commands heard, WILL and WONT strictly alternate, and so do DO and DONT |
| `TelnetNegotiation.OnlyThreeOptions` | internal/comm/telnet.go:48-50 | WILL and DO are only ever sent for the three options accepted |
| `TelnetNegotiation.EveryRequestIsAnswered` | internal/comm/telnet.go:178-195 | after any commands heard, the last of DO and DONT said of an option is what the last WILL or WONT heard for it demands: DO for a WILL of an accepted option, DONT otherwise, the opening offer if none was heard; and so for WILL and WONT from DO and DONT |
| `TelnetNegotiation.AtMost512` | internal/comm/telnet.go:178-195 | a peer that never refuses draws at most 512 commands, however long it talks |
| `TelnetNegotiation.FlappingIsAnswered` | internal/comm/telnet.go:178-195 | a peer that keeps changing its mind is answered every time: no such bound holds for it |
| `TelnetNegotiation.EndpointsGoQuiet` | internal/comm/telnet.go:38-46 | two such endpoints connected go quiet in every interleaving, after exactly twelve deliveries, agreed on the same options |
| `Telnet.Negotiator.constructor` | internal/comm/telnet.go:38-46 | the opening offers |
| `Telnet.Negotiator.SendWill` | internal/comm/telnet.go:56-66 | sends WILL once, until a WONT |
| `Telnet.Negotiator.SendDo` | internal/comm/telnet.go:68-78 | sends DO once, until a DONT |
| `Telnet.Negotiator.SendWont` | internal/comm/telnet.go:80-90 | sends WONT once, until a WILL |
| `Telnet.Negotiator.SendDont` | internal/comm/telnet.go:92-102 | sends DONT once, until a DO |
| `Telnet.Negotiator.Answer` | internal/comm/telnet.go:178-195 | one more command heard: the replies sent are those of the whole conversation, so that every request is answered as EveryRequestIsAnswered says |
| `Telnet.Endpoint.ReadByte` | internal/comm/telnet.go:113-122 | the next byte, refilling the buffer when it is empty |
| `Telnet.Endpoint.SkipBlock` | internal/comm/telnet.go:156-173 | skips to the end of a subnegotiation, or to the end of the input |
| `Telnet.Endpoint.TakeChar` | internal/comm/telnet.go:123-146 | one character: kept or dropped as the mate of a CR, with what is owed unchanged |
| `Telnet.Endpoint.TakeCommand` | internal/comm/telnet.go:147-195 | one command: an escaped byte, a block, or an option answered |
| `Telnet.Endpoint.TakeOne` | internal/comm/telnet.go:112-196 | one round of the loop keeps what is still to be delivered and heard |
| `Telnet.Endpoint.FillOne` | internal/comm/telnet.go:112-196 | the same, with the byte put into the caller's buffer |
| `Telnet.Endpoint.Fill` | internal/comm/telnet.go:110-198 | the loop over rounds |
| `Telnet.Endpoint.Read` | internal/comm/telnet.go:110-198 | fills a prefix of the buffer with exactly the next bytes owed; a failure leaves nothing owed; a non-empty buffer gets at least one byte otherwise |
| `Telnet.Endpoint.Write` | internal/comm/telnet.go:200-216 | writes the text with every 255 doubled |
| `Telnet.Endpoint.ReadSome` | internal/comm/telnet.go:110-198 | the same Read, with the bytes returned |
| `Telnet.Endpoint.ReadEach` | internal/comm/telnet.go:110-198 | reads with buffers of any sizes hand out, one after another, just what is owed |
| `Telnet.Endpoint.ReadAll` | internal/comm/telnet.go:110-198 | for buffers of any sizes, the reads together give a prefix of the one-pass decoding, and at the end of the input all of it and all its commands heard |
| `JamTheorems.AppendAll` | internal/mail/jam_rw.go:516-626 | any drafts appended to an empty base leave the layout those messages determine |
| `JamTheorems.AppendOne` | internal/mail/jam_rw.go:516-626 | one more draft extends the layout by one message and gets number base plus slot |
| `JamTheorems.EveryMessageReadsBack` | internal/mail/jam_rw.go:184-209 | on a base so built, number n is found exactly when it is in range and not deleted, in slot n minus base, and reads back as stored: same fields, same kludges, body but for line ends |
| `JamFlags.DraftBits` | internal/mail/jam_rw.go:588-604 | for every draft and each of the 32 bits: it is set in the stored attribute exactly if it is set in the draft's (local and type-local where that is zero) or belongs to one of the four flags and that flag is on |
| `JamFlags.AppendedFlags` | internal/mail/jam_rw.go:588-604 | so it is in the message that was appended last, read back from the base |
| `JamFlags.AppendedReadsBack` | internal/mail/jam_rw.go:516-626 | which has the draft's names, subject, control lines, lines and date, or the time of posting where the draft has none, and the number behind the last |
| `JamFlags.PrivateStaysPrivate` | internal/mail/jam_rw.go:404-412 | a message posted as private can be read by the system operator and those it is from and to, by name or handle, and nobody else; one that was not, by everybody |
| `JamFlags.YoursExactly` | internal/mail/jam.go:437-447 | a message is for a caller exactly if it is addressed to the name or the handle, outer spaces and case aside |
| `JamLayout.RegionsInOrder` | internal/mail/jam_rw.go:516-626 | text and header regions of different messages are disjoint and in order |
| `JamLayout.ReadWritten` | internal/mail/jam_rw.go:290-336 | a header and text lying anywhere in the files read back as their message |
| `JamText.TextReadsBack` | internal/mail/jam.go:483-495 | splitting the stored text gives back the kludges in order and the body with one kind of line end and one at its end |
| `JamText.NormOfCrlf` | internal/mail/jam_rw.go:628-641 | making every line end CR LF does not change what lines there are |
| `JamText.CrlfEndsLines` | internal/mail/jam_rw.go:628-641 | after it every LF has a CR in front |
| `JamText.CrlfAddsOnlyCr` | internal/mail/jam_rw.go:628-641 | and nothing else was added |
| `JamText.NormHasNoCr` | internal/mail/jam.go:483-486 | reading leaves no CR, and text without CR as it is |
| `JamText.NormLineEnds` | internal/mail/jam.go:483-486 | CR LF, and CR with no LF behind it, each make one LF where they stand |
| `JamText.StringsCRLF` | internal/mail/jam_rw.go:628-641 | the loop that makes every line end CR LF |
| `JamText.DoSplitJamText` | internal/mail/jam.go:483-495 | the loop that sorts kludges from body |
| `JamFormat.SubsReadBack` | internal/mail/jam.go:449-481 | sender, recipient, subject and the other subfields read back from the subfield block that was written |
| `JamFormat.DoParseSubs` | internal/mail/jam.go:449-481 | the loop over subfields, short ones included |
| `JamBase.Base.constructor` | internal/mail/jam_rw.go:31-46 | an empty base with any fixed header |
| `JamBase.BaseMsgReads` | internal/mail/jam_rw.go:31-46 | the base number stands in bytes 20 to 23 of the fixed header, lowest first; zero, negative or missing counts as 1 |
| `JamBase.Base.Match` | internal/mail/jam_rw.go:120-151 | a slot answers to a number exactly when it is live and has it |
| `JamBase.Base.FindMsg` | internal/mail/jam_rw.go:116-182 | finds a message exactly when some live slot has the number, and then such a slot, whatever the first guess hits |
| `JamBase.Base.FindInChunk` | internal/mail/jam_rw.go:161-179 | one chunk of the scan: the first slot in it that has the number, or none has |
| `JamBase.Base.ReadMsg` | internal/mail/jam_rw.go:185-209 | reads a message with the number, exactly when there is one |
| `JamBase.Base.Load` | internal/mail/jam_rw.go:290-336 | reads the article of one slot |
| `JamBase.Base.NextActive` | internal/mail/jam_rw.go:211-288 | the next live article in the wanted direction, from 1 up |
| `JamBase.Base.WalkUp` | internal/mail/jam_rw.go:235-267 | the first slot upwards that will do |
| `JamBase.Base.WalkDown` | internal/mail/jam_rw.go:268-287 | the first slot downwards that will do |
| `JamView.ForwardIsLeast` | internal/mail/jam_rw.go:211-288 | forward gives the least live number at or above the one asked for, or there is none |
| `JamView.BackwardIsGreatest` | internal/mail/jam_rw.go:211-288 | backward, from at least the base number, gives the greatest live number at or below it, or there is none |
| `JamView.BackwardBelowBase` | internal/mail/jam_rw.go:211-288 | below the base number backward finds something only when asked for 1, and never anything at or below what was asked |
| `JamTheorems.BackFromOneGoesUp` | internal/mail/jam_rw.go:211-288 | such a base: one message, number 5, on a base numbered from 5, answered to going back from 1 |
| `JamBase.Base.GetStats` | internal/mail/jam_rw.go:57-107 | count, first and highest of the live slots |
| `JamBase.Base.NumAt` | internal/mail/jam.go:289-314 | the number of a live slot as the fast path sees it |
| `JamBase.Base.ScanBack` | internal/mail/jam.go:326-355 | backward by chunks: the last numbered slot of a range |
| `JamBase.Base.ScanForward` | internal/mail/jam.go:356-383 | forward by chunks: the last numbered slot of a range |
| `JamBase.Base.HighMsg` | internal/mail/jam.go:264-406 | the capped two-way scan with its arithmetic fallback |
| `JamTheorems.FastHighUndeleted` | internal/mail/jam.go:385-406 | on any base without deletions whose later headers lie past the fixed area, of any length, the fast path is the highest number |
| `JamTheorems.FastHighExact` | internal/mail/jam.go:264-406 | with any deletions and any number of slots, the fast path is the highest number exactly if some slot of the last window is numbered; or one of the first only and nothing is live between; or of neither and the last slot is live or there is none (with over two million slots: nothing is live) |
| `JamTheorems.FastHighOfDeleted` | internal/mail/jam.go:264-406 | so it is on every base that appending built, whatever was deleted since |
| `JamTheorems.DeletedLastIsAnswered` | internal/mail/jam.go:385-406 | a base on which it is wrong: two messages with the second deleted, answered with 2 |
| `JamTheorems.MiddleIsMissed` | internal/mail/jam.go:326-383 | another: 200000 messages with two left, answered with 21 although 100001 is live |
| `JamTheorems.SparseIsBuilt` | internal/mail/jam.go:264-406 | such bases exist, for every CRC and base number |
| `JamTheorems.FastHighOfBuilt` | internal/mail/jam.go:264-406 | on every undeleted base built by appending, the fast path equals the statistics' highest number |
| `JamTheorems.StatsHighIsLast` | internal/mail/jam_rw.go:57-107 | on a base numbered by slot, the statistics' highest number is the last live slot's |
| `JamBase.Base.CollectYours` | internal/mail/jam.go:162-221 | the first max numbers the scan of all slots yields |
| `JamBase.Base.YoursHere` | internal/mail/jam.go:180-250 | what one slot adds to the scan |
| `JamMail.HashAgrees` | internal/mail/jam.go:171-197 | names that are equal but for case and have no outer spaces have equal CRCs, so the index hides no such message |
| `JamMail.ScanFindsMail` | internal/mail/jam.go:162-250 | on a built base, for any names, the scan is exactly the undeleted, unreceived messages to the name or handle whose recipient, as it was given, has the CRC of one of the two, in order |
| `JamMail.ScanFindsAll` | internal/mail/jam.go:162-250 | and with no outer spaces in them it is all such mail |
| `JamHidden.SpacesHideMail` | internal/mail/jam.go:171-250 | mail that the scan misses: on the base built from one undeleted, unreceived message to the name with a space before it, with the real CRC-32, the scan finds nothing |
| `JamHidden.SpaceChangesHash` | internal/crc/crc.go:62-71 | the two CRCs, which differ |
| `JamBase.Base.ChangeAttr` | internal/mail/jam_rw.go:377-402 | rewrites the attribute word of one slot with the number and no other byte, or nothing if there is none |
| `JamMail.SetReceived` | internal/mail/jam_rw.go:355-357 | marks exactly that message as received: the base is then as if it had been stored so |
| `JamMail.MarkedIsBuilt` | internal/mail/jam_rw.go:377-402 | patching one attribute word gives the layout of the same messages with that attribute |
| `JamMail.ChangedIsBuilt` | internal/mail/jam_rw.go:377-402 | so does changing it by number, on any built base |
| `JamMail.OnlyItLeaves` | internal/mail/jam.go:162-250 | marking a message received takes only it out of the mail, whoever it is for |
| `JamMail.MarkedScan` | internal/mail/jam.go:162-250 | for any names, the scan after marking is the scan before without that number |
| `JamBase.Base.EnsureJhd` | internal/mail/jam_rw.go:477-502 | rewrites the fixed header, word by word: signature, a creation time if there is none, one more modification, the count, a base number if there is none, zeros after them; and keeps what follows |
| `JamBase.Base.BuildText` | internal/mail/jam_rw.go:539-548 | body and kludges as one text with CR LF line ends |
| `JamBase.Base.AppendMsg` | internal/mail/jam_rw.go:516-626 | adds one text, one header and one index record at the ends of the files, and returns base plus slot; what the header says of the draft is in AppendedFlags and AppendedReadsBack |
| `JamBase.Base.WriteMsg` | internal/mail/jam_rw.go:550-622 | the records written |
| `WebSocketMessages.SessionsAreDelivered` | internal/telsrv/websocket.go:131-217 | for every well-formed client session, masked with any keys, in any length forms, cut into any fragments with control frames between, Read delivers exactly the messages in order and answers every ping and the close, exactly when each message fits with the control frames inside it; else the connection fails |
| `WebSocketMessages.KindsAreDelivered` | internal/telsrv/websocket.go:186-241 | what comes of a session of binary messages is their payloads byte for byte, of text messages what the subprotocol reads in them; the last frame sent back is a close with the client's own code, or 1000 |
| `WebSocketMessages.MessageHeard` | internal/telsrv/websocket.go:186-217 | one message with its control frames is delivered whole and its pings answered, or refused as too big |
| `WebSocketMessages.TailHeard` | internal/telsrv/websocket.go:199-217 | the same from the middle of a message |
| `WebSocketMessages.BytesMeanFrames` | internal/telsrv/websocket.go:145-217 | reading encoded bytes is handling their frames one by one |
| `WebSocketMessages.ShortMessagesAreRoomy` | internal/telsrv/websocket.go:171-174 | a message at least 125 bytes short of the limit always fits, whatever control frames come between |
| `WebSocketMessages.FullMessageWithPing` | internal/telsrv/websocket.go:171-174 | a message of exactly the limit with a one-byte ping inside it does not fit: the size test counts control frames too |
| `WebSocketMessages.FullMessageIsRefused` | internal/telsrv/websocket.go:171-174 | the connection then fails, however that session is encoded |
| `WebSocketMessages.LongFrameIsAnswered` | internal/telsrv/websocket.go:171-174 | a frame too long is answered with a close of code 1009 and ends the connection |
| `WebSocketMessages.UnmaskedEndsIt` | internal/telsrv/websocket.go:168-170 | a frame that is not masked ends it without an answer |
| `WebSocketMessages.UnknownKindEndsIt` | internal/telsrv/websocket.go:205-207 | and so does a frame of an unknown kind |
| `WebSocketFrames.TakeEncoded` | internal/telsrv/websocket.go:145-185 | a masked client frame in any of the three length forms parses back to itself, or is refused as too big |
| `WebSocketFrames.LengthReadsBack` | internal/telsrv/websocket.go:153-167 | every length reads back from its bytes, in any form that holds it |
| `WebSocketFrames.MaskedTwice` | internal/telsrv/websocket.go:183-185 | masking twice with one key is nothing |
| `WebSocketFrames.ServerFrameReadsBack` | internal/telsrv/websocket.go:261-277 | a server frame header gives back opcode and length, for every length |
| `WebSocketFrames.ShortestHolds` | internal/telsrv/websocket.go:262-271 | a length is written in the fewest bytes that hold it |
| `WebSocket.SentReadsBack` | internal/telsrv/websocket.go:261-277 | a whole sequence of server frames parses back in order |
| `WebSocket.WsConn.constructor` | internal/telsrv/websocket.go:131-143 | nothing pending, nothing of a message yet |
| `WebSocket.WsConn.ReadFull` | internal/telsrv/websocket.go:147-149 | exactly n bytes or the end |
| `WebSocket.WsConn.ReadSize` | internal/telsrv/websocket.go:153-167 | the length in its three forms |
| `WebSocket.WsConn.Unmask` | internal/telsrv/websocket.go:183-185 | unmasks the array in place |
| `WebSocket.WsConn.ReadPayload` | internal/telsrv/websocket.go:175-185 | key and payload, unmasked |
| `WebSocket.WsConn.TakeFrame` | internal/telsrv/websocket.go:145-185 | one frame off the input, or why not |
| `WebSocket.WsConn.WriteFrame` | internal/telsrv/websocket.go:261-277 | one more unmasked frame is sent |
| `WebSocket.WsConn.Handle` | internal/telsrv/websocket.go:186-217 | what one frame does to message, pending bytes and replies; the message never passes 2^20 bytes |
| `WebSocket.WsConn.ReadFrame` | internal/telsrv/websocket.go:145-217 | one frame read and handled keeps everything still to be delivered |
| `WebSocket.WsConn.Await` | internal/telsrv/websocket.go:132-139 | frames until something is pending or nothing more will come |
| `WebSocket.WsConn.Read` | internal/telsrv/websocket.go:131-143 | hands out the next bytes, at least one if there is room, or reports the end the stream determines |
| `WebSocket.WsConn.ReadSome` | internal/telsrv/websocket.go:131-143 | the same Read, with the bytes returned |
| `WebSocket.WsConn.ReadAll` | internal/telsrv/websocket.go:131-143 | for buffers of any sizes, the reads together give a prefix of what the stream means, and at the end all of it |
| `CrcTables.Table32Divides` | internal/crc/crc.go:8-41 | every entry of the 32-bit table is eight division steps by the reflected polynomial |
| `CrcTables.Table16Divides` | internal/crc/crc.go:75-108 | every entry of the 16-bit table is eight division steps by 0x1021 |
| `Crc32.ComputeCrc32` | internal/crc/crc.go:47-52 | the loop is the fold of the table update |
| `Crc32.Crc32IsRemainder` | internal/crc/crc.go:43-52 | for every string and start value, the table-driven CRC is the one remainder of polynomial division over GF(2) by 0x04C11DB7 |
| `Crc16.ComputeEmsi16` | internal/crc/crc.go:117-125 | the loop and its two zero bytes |
| `Crc16.EmsiIsDirect` | internal/crc/crc.go:111-125 | the augmented form with two zero bytes equals the direct form, for every string |
| `Crc16.EmsiIsRemainder` | internal/crc/crc.go:111-125 | and is the one remainder of polynomial division by 0x1021 |
| `CrcPolynomials.RemainderIsUnique` | internal/crc/crc.go:43-52 | a polynomial division has one remainder |
| `CrcRegister.FeedingLeavesRemainder` | internal/crc/crc.go:43-52 | feeding bits one by one into a shift register that divides leaves the remainder |
| `CrcRegister.BitsOneByOne` | internal/crc/crc.go:43-52 | n steps on a register with bits added are those bits fed one by one, by linearity |
| `CrcRegister.FoldFeeds` | internal/crc/crc.go:47-52 | the byte-wise fold is the bit-wise feeding of the whole message |
| `CrcRegister.AugmentedIsDirect` | internal/crc/crc.go:111-125 | augmented and direct byte updates agree after two more zero bytes, in any linear register |
| `AnsiScreen.SplitsAgree` | internal/comm/ansiscreen.go:47-81 | however the output is split, the screen ends in the same state |
| `AnsiScreen.FeedAll` | internal/comm/ansiscreen.go:47-81 | no output takes the cursor off the screen or changes its size |
| `AnsiScreen.WriteEach` | internal/comm/ansiscreen.go:47-81 | any number of writes leaves the emulator, cells and colours and all, as one write of everything |
| `AnsiScreen.Emulator.constructor` | internal/comm/ansiscreen.go:41-45 | light grey on black, nothing saved up |
| `AnsiScreen.Emulator.Write` | internal/comm/ansiscreen.go:47-81 | saving text up until a sequence or the end has the same effect as showing each byte at once |
| `AnsiScreen.Emulator.Take` | internal/comm/ansiscreen.go:48-79 | one byte, in text, after an escape or in a sequence of at most 32 parameter bytes |
| `AnsiScreen.Emulator.Flush` | internal/comm/ansiscreen.go:83-88 | writes the saved text out |
| `AnsiScreen.Emulator.Params` | internal/comm/ansiscreen.go:90-100 | the numbers of a sequence, zero for a bad one |
| `AnsiScreen.Emulator.Do` | internal/comm/ansiscreen.go:109-150 | one sequence: cursor moves, erasing, saving and colours; private ones are ignored |
| `AnsiScreen.Emulator.Move` | internal/comm/ansiscreen.go:117-130 | where each cursor sequence leads, kept on the screen |
| `AnsiScreen.Emulator.MoveTo` | internal/comm/ansiscreen.go:152-157 | the nearest cell of the screen |
| `AnsiScreen.Emulator.Erase` | internal/comm/ansiscreen.go:160-172 | blanks to the end, to the start or everything, always inside the grid |
| `AnsiScreen.Emulator.EraseLine` | internal/comm/ansiscreen.go:133-142 | blanks to the end, to the start or the whole of the line, always inside the grid |
| `AnsiScreen.Emulator.Sgr` | internal/comm/ansiscreen.go:174-209 | colours after a list of numbers, none meaning reset |
| `AnsiScreen.Emulator.Draw` | internal/comm/ansiscreen.go:178-206 | one number of the list |
| `CursorTracker.TrackSplits` | internal/term/io.go:299-347 | however the output is split, the tracked cursor ends at the same place |
| `CursorTracker.TrackEach` | internal/term/io.go:299-347 | any number of writes tracks the cursor as one write of everything |
| `CursorTracker.Terminal.TrackCursor` | internal/term/io.go:299-347 | scanning ahead for the end of a sequence and starting again on the next write is the byte-by-byte machine |
| `CursorTracker.Terminal.TakeSequence` | internal/term/io.go:316-327 | one sequence applied, or kept for the next write |
| `CursorTracker.Terminal.TakeOne` | internal/term/io.go:310-346 | one round of the loop, a stray escape included |
| `CursorTracker.Terminal.TrackPlain` | internal/term/io.go:330-344 | a character, CR, LF or BS |
| `CursorTracker.Terminal.ApplyCSI` | internal/term/io.go:349-391 | one sequence moves the tracked cursor |
| `CursorTracker.Replays` | internal/term/io.go:306-325 | scanning the kept beginning of a sequence again leads to the same place |
| `CursorTracker.StaysPositive` | internal/term/io.go:299-347 | the tracked cursor stays at 1 or above both ways |
| `AnsiAgreement.TokenAgrees` | internal/term/io.go:299-391 | after any one character, move or sequence from agreeing cursors, tracked and screen cursor agree again exactly when the tracked one is on the screen |
| `AnsiAgreement.CursorsAgree` | internal/term/io.go:299-391 | over any output of such pieces, the two cursors agree all along exactly when the tracked one never leaves the screen |
| `AnsiAgreement.LastColumnDisagrees` | internal/term/io.go:340-343 | a character in the last column of any screen makes them disagree |
| `AnsiAgreement.LetterAtLineEnd` | internal/term/io.go:340-343 | so on a blank screen of 80 columns and 25 lines |
| `AnsiAgreement.MirrorOutput` | internal/comm/ansiscreen.go:47-81 | the same output through emulator and tracker, each cut into writes of its own, ends with one cursor |
| `AnsiNumbers.NumbersReadBack` | internal/term/io.go:349-363 | a list of decimals is read alike by the two readers' different number parsers |
| `AnsiNumbers.LineFeedStops` | internal/term/io.go:351-361 | a list the two parsers read differently: a line feed in front of a digit |
| `AnsiColors.AnsiColor` | internal/term/io.go:1652-1674 | the sequence written for each colour attribute: reset, bright, blink and the two colours in ANSI order |
| `AnsiColors.ColorIsShown` | internal/term/io.go:1647-1674 | whatever colours the screen had, after the terminal's sequence for a colour attribute it has exactly that attribute, for all 256, and nothing else changed |
| `AnsiEffects.CursorComesBack` | internal/comm/ansiscreen.go:143-146 | whatever is written between saving and restoring the cursor, it ends where it was |
| `AnsiEffects.ReverseSwaps` | internal/comm/ansiscreen.go:174-227 | reverse swaps the two colours and leaves bright and blinking; twice is once, and 27 takes it back |
| `AnsiEffects.CodeChanges` | internal/comm/ansiscreen.go:174-227 | for every other code: which colour it sets, or bright or blinking, and that it changes nothing else |
| `AnsiEffects.RedAndBlue` | internal/comm/ansiscreen.go:39 | the colours of the sequences are those of the attribute with red and blue changed over |
| `AnsiEffects.StaysPainted` | internal/comm/ansiscreen.go:47-81 | over any output the screen writes in the colours the sequences have set |
| `AnsiEffects.SequenceErases` | internal/comm/ansiscreen.go:131-142 | J erases the screen and K the line, from the cursor on unless a number says otherwise |
| `AnsiEffects.TextStands` | internal/comm/ansiscreen.go:83-88 | text that fits in its line stands there from the cursor on, in the colours set, no other cell changes, and the cursor goes behind it or to the next line |
| `AnsiEffects.FeedsForm` | internal/comm/ansiscreen.go:51-58 | a form feed blanks the screen and goes to its first cell, and a NUL does nothing |
| `AnsiEffects.PrivateShowsNothing` | internal/comm/ansiscreen.go:110-112 | a private sequence shows nothing |
| `AnsiColors.ErasedCells` | internal/comm/ansiscreen.go:160-172 | erasing blanks exactly the cells from the cursor on in reading order, or up to it, or all of them with the cursor home |
| `AnsiColors.LineErasedCells` | internal/comm/ansiscreen.go:133-142 | erasing in a line blanks exactly the cells from the cursor on, up to it, or all of its line, and touches no other line |
| `MailWrap.WidthBound` | internal/mail/wrap.go:24-75 | every line is at most the width long |
| `MailWrap.TextConserved` | internal/mail/wrap.go:24-75 | the lines rejoined, with a space at each space break and nothing at each cut, are the paragraph without soft CR and NUL, but for one space that may end it |
| `MailWrap.WholeTextConserved` | internal/mail/wrap.go:11-22 | over a whole text: every line fits, lines come paragraph by paragraph, and the paragraphs they give back, with the spaces they dropped, are the text with one kind of line end and without soft CR and NUL |
| `MailWrap.StripCounts` | internal/mail/wrap.go:49-53 | what a paragraph keeps: no soft CR and no NUL, every other byte as often as it was there |
| `MailWrap.DroppedExactly` | internal/mail/wrap.go:31-73 | for every paragraph, a space is lost exactly when it is the last byte but for soft CRs and NULs and lands on the last column |
| `MailWrap.LosesASpace` | internal/mail/wrap.go:31-73 | a paragraph on which it is lost |
| `MailWrap.NothingLost` | internal/mail/wrap.go:24-75 | while a paragraph is being filled nothing is lost at all |
| `MailWrap.BreaksAreNeeded` | internal/mail/wrap.go:58-69 | no line is broken before it has to be |
| `MailWrap.ParagraphsHaveNoLineEnds` | internal/mail/wrap.go:11-22 | each paragraph handed on holds no line end |
| `MailWrap.RunWrapper.Flush` | internal/mail/wrap.go:31-48 | ends a line and drops the space it was broken at |
| `MailWrap.RunWrapper.Add` | internal/mail/wrap.go:49-70 | one byte |
| `MailWrap.RunWrapper.EndLine` | internal/mail/wrap.go:62-69 | breaks a full line at its last space, or cuts it |
| `MailWrap.WrapRun` | internal/mail/wrap.go:24-75 | the loop over a paragraph |
| `MailWrap.WrapLines` | internal/mail/wrap.go:11-22 | every paragraph wrapped, at 79 if the width is not positive |
| `MailQueue.EveryArticleIsAccountedFor` | internal/mail/mailer.go:271-313 | after any additions and send runs with any outcomes, each article was posted at most once and tried at most 21 times, is still queued exactly when it was neither posted nor failed 21 times, and is queued in order with its own body and count |
| `MailQueue.AlwaysAccounted` | internal/mail/mailer.go:271-313 | the account that shows this is kept by every event |
| `MailQueue.RunIsAccounted` | internal/mail/mailer.go:286-313 | one send run keeps the account |
| `MailQueue.AddIsAccounted` | internal/mail/article.go:167-179 | one new article keeps the account |
| `MailQueue.Outbox.AddMsg` | internal/mail/article.go:167-179 | appends an article to the file, which stays the encoding of the queue |
| `MailQueue.Outbox.Send` | internal/mail/mailer.go:271-313 | one run over file and queue, or nothing without a connection |
| `MailQueue.AttemptEach` | internal/mail/mailer.go:286-306 | each article tried once, its count and mark set by the outcome |
| `MailQueue.PurgeSentBase` | internal/mail/article.go:182-201 | the file is then the encoding of the articles that stay |
| `MailQueue.KeepEach` | internal/mail/article.go:186-196 | posted articles and those tried too often are dropped, the others keep order and content |
| `MailQueueFile.FileReadsBack` | internal/mail/article.go:97-164 | a whole written file reads back article for article, each as storing leaves it |
| `MailQueueFile.WholeBodyExactly` | internal/mail/article.go:97-128 | a body survives exactly when it is at most 5,242,880 bytes long with its terminator |
| `MailQueueFile.LongBodyIsCut` | internal/mail/article.go:97-128 | a body that does not: that many letters, whose terminator is cut off |
| `MailQueueFile.KeptIsSettled` | internal/mail/article.go:97-164 | what was stored once survives every later cycle unchanged |
| `MailQueueFile.EncodedArticle` | internal/mail/article.go:50-95 | one article lying anywhere in a file reads back, and the next begins where it ends |
| `MailQueueFile.ReadNews` | internal/mail/article.go:97-128 | reads a file, or fails where the code does |
| `MailQueueFile.ReadFrom` | internal/mail/article.go:97-128 | the loop over articles |
| `MailQueueFile.ReadArticle` | internal/mail/article.go:103-126 | one article, with a body cut at the limit |
| `MailQueueFile.WriteOne` | internal/mail/article.go:130-164 | one article encoded |
| `MailQueueFile.WriteNews` | internal/mail/article.go:130-164 | the file encoded |
| `UserSearch.SearchAgreesWithScan` | internal/userbase/users.go:249-284 | whatever the index holds, a search succeeds exactly when some live record matches by name or handle, and returns such a record |
| `UserSearch.LowestExactly` | internal/userbase/users.go:249-284 | it returns the lowest match exactly when the index leads to that one or to none that match |
| `UserSearch.StaleIndexMisleads` | internal/userbase/users.go:249-284 | two users of one name and an index that has only the second: the search answers with the second |
| `UserSearch.FreshSearchIsScan` | internal/userbase/users.go:416-439 | with an index just rebuilt and single-spaced names it is the scan |
| `UserSearch.FreshHits` | internal/userbase/users.go:416-439 | a fresh index leads to every matching record |
| `UserNames.FoldAlike` | internal/userbase/users.go:240-247 | two names fold alike exactly when their words between white space, in capitals, are the same |
| `UserNames.SearchFindsTheCalled` | internal/userbase/users.go:249-284 | a search finds someone exactly when some live user has a name or handle of the same words but for case, and then one who has |
| `UserNames.SameResult` | internal/userbase/users.go:249-284 | names of the same words, whatever their case, outer blanks and runs of white space, have one search result |
| `UserNames.EveryUserIsFound` | internal/userbase/users.go:249-284 | any live user is found by the name and by the handle, so written, if it is not blank |
| `UserNames.SamePersonExactly` | internal/userbase/users.go:299-312 | two records are one person exactly when a name or handle of one has the words of one of the other |
| `UserNames.SingleSpacedExactly` | internal/pascal/string.go:69-85 | folding changes only case and outer blanks exactly when words stand apart by one blank each |
| `UserSearch.SamePersonIsMutual` | internal/userbase/users.go:299-312 | two records are one person both ways round |
| `UserSearch.NoDoubleSpace` | internal/pascal/string.go:69-85 | the loop that folds runs of white space |
| `UserSearch.UserBase.Search` | internal/userbase/users.go:249-284 | index first, then all records; which users that finds is in SearchFindsTheCalled |
| `UserSearch.UserBase.SearchIndex` | internal/userbase/users.go:254-268 | the first index hit whose record matches |
| `UserSearch.UserBase.SearchRecords` | internal/userbase/users.go:269-283 | the first record that matches |
| `UserSearch.UserBase.RebuildIndex` | internal/userbase/users.go:416-439 | one entry for every record |
| `UserSearch.UserBase.Append` | internal/userbase/users.go:374-414 | one more record and an index rebuilt |
| `UserSearch.UserBase.WriteUser` | internal/userbase/users.go:318-347 | overwrites a record only if it is free, the same person's or forced |
| `CodePage.ByteReadsBack` | internal/pascal/cp437.go:30-59 | every byte survives the way to a character and back |
| `CodePage.KnownOrQuestion` | internal/pascal/cp437.go:45-59 | every character survives the way to a byte and back, or becomes a question mark |
| `CodePage.GlyphsDiffer` | internal/pascal/cp437.go:3-20 | no two places of the table hold the same character |
| `CodePage.FillTable` | internal/pascal/cp437.go:24-28 | the look-up table leads each character of the page to its place and holds no other |
| `PascalStrings.StartUp` | internal/pascal/cp437.go:22-28 | the program's page and table are what the other members take them for |
| `PascalStrings.FromCP437` | internal/pascal/cp437.go:30-43 | decodes byte by byte |
| `PascalStrings.ToCP437` | internal/pascal/cp437.go:45-59 | encodes character by character through the table |
| `PascalStrings.PutString` | internal/pascal/string.go:21-35 | length in one byte, text cut to the field, zeros to its end, in place, for a field of any size |
| `PascalStrings.String` | internal/pascal/string.go:10-19 | the text a field holds, without NULs at its end |
| `PascalStrings.StringReadsBack` | internal/pascal/string.go:10-35 | a string comes back from its field, of any size, exactly when it is in the code page, fits the field and the length byte, and does not end in NUL |
| `PascalStrings.ReadFits` | internal/pascal/string.go:10-19 | whatever was read from a field can be stored in it again |
| `PascalRecords.RecordReadsBack` | internal/cfgrec/parse.go:73-133 | for any layout of fields and any values, a record comes back exactly when every string fits its field |
| `PascalRecords.ReadRecordIsKept` | internal/cfgrec/parse.go:10-71 | what is read from any bytes at all can be written back and read again |
| `PascalRecords.FieldReadsBack` | internal/pascal/buf.go:32-105 | the same for one field |
| `PascalRecords.Buf.Slice` | internal/pascal/buf.go:18-28 | the next bytes, fewer at the end, one field further on |
| `PascalRecords.Buf.ReadU8` | internal/pascal/buf.go:32-38 | the next byte, or zero at the end |
| `PascalRecords.Buf.ReadU16` | internal/pascal/buf.go:42-48 | the next word, or zero where it is cut short |
| `PascalRecords.Buf.ReadU32` | internal/pascal/buf.go:52-58 | the next long word, or zero where it is cut short |
| `PascalRecords.Buf.ReadI32` | internal/pascal/buf.go:60 | the same, signed |
| `PascalRecords.Buf.ReadPString` | internal/pascal/buf.go:64-66 | the next string field |
| `PascalRecords.Buf.ReadBytes` | internal/pascal/buf.go:74-79 | the next raw bytes |
| `PascalRecords.Writer.Put` | internal/pascal/buf.go:85 | one more field at the end |
| `PascalRecords.Writer.WriteU8` | internal/pascal/buf.go:86 | a byte |
| `PascalRecords.Writer.WriteU16` | internal/pascal/buf.go:94 | a word |
| `PascalRecords.Writer.WriteU32` | internal/pascal/buf.go:96-98 | a long word |
| `PascalRecords.Writer.WriteI32` | internal/pascal/buf.go:99 | a signed long word |
| `PascalRecords.Writer.WritePString` | internal/pascal/buf.go:101-105 | a string field |
| `PascalRecords.Writer.WriteBytes` | internal/pascal/buf.go:85 | raw bytes |
| `FileRecords.HdrReadsBack` | internal/cfgrec/parse.go:278-332 | parsing an encoded file header gives back every field exactly when its strings fit and its name is the stored one |
| `FileRecords.ParsedHdrHolds` | internal/cfgrec/parse.go:278-300 | a header parsed from any bytes meets that condition |
| `FileRecords.IdxReadsBack` | internal/cfgrec/parse.go:334-361 | an index record gives back every field exactly when its name fits |
| `FileRecords.UserReadsBack` | internal/cfgrec/parse.go:10-133 | a user record gives back every field exactly when its strings fit and its screen has lines and columns |
| `FileRecords.UserSize` | internal/cfgrec/parse.go:73-133 | the fields of a user record take 985 of its 1016 bytes |
| `FileRecords.HdrSize` | internal/cfgrec/parse.go:302-332 | the fields of a file header take 178 of its 194 bytes |
| `RecordLayout.FieldLiesAt` | internal/cfgrec/parse.go:73-133 | in any record each field has its bytes behind those of the fields before it |
| `RecordLayout.HdrNumbersLie` | internal/cfgrec/parse.go:302-332 | at which bytes of a file header size, checksum, downloads, attribute and cost lie, lowest byte first |
| `RecordLayout.HdrDatesLie` | internal/cfgrec/parse.go:302-332 | and its dates and pointers |
| `RecordLayout.HdrTextsLie` | internal/cfgrec/parse.go:302-332 | and its name, uploader, password and keywords |
| `FileRecords.IdxSize` | internal/cfgrec/parse.go:346-361 | the fields of an index record take all its 41 bytes |
| `FileRecords.EncodeFilesHdr` | internal/cfgrec/parse.go:302-332 | writes the header field by field |
| `FileRecords.ParseFilesHdr` | internal/cfgrec/parse.go:278-300 | reads the header field by field, from any bytes |
| `FileRecords.EncodeFilesIdx` | internal/cfgrec/parse.go:346-361 | writes the index record field by field |
| `CatalogLife.RunIsHealthy` | internal/files/fdb.go:188-276 | after any uploads, deletions and other changes of headers in any order: as many index records as headers, each with its header's name, pointer and keywords; every description ends; every pointer leads into the text; no entry would lose its description by compressing |
| `CatalogDates.DatedExactly` | internal/files/fdb.go:231-276 | the other field of the index after any such history: the upload dates of an entry's two records agree exactly when its header has the time at which it was catalogued |
| `CatalogDates.IndexDates` | internal/files/fdb.go:231-276 | because the index keeps that time for every entry |
| `CatalogDates.CatalogedDates` | internal/files/fdb.go:231-244 | a new entry has its date in both records, and no old date changes |
| `FileCatalog.UpdatedDates` | internal/files/upload_add.go:203-210 | from agreeing dates, uploading a known file again leaves all agreeing but that entry's, and it too exactly if the time is the old one |
| `FileCatalog.ReplacedDates` | internal/files/fdb.go:261-276 | the same for any change of a header in place that keeps name, keywords and pointer |
| `CatalogDates.SecondUploadIsNotDated` | internal/files/upload_add.go:192-210 | a catalogue on which they do not: one file uploaded at two times, with the real record codecs |
| `CatalogLife.CompressAfterRun` | internal/files/fdb.go:320-334 | compressing after any such history, deletions included, leaves exactly the undeleted entries, in order, with the same names and descriptions, in as good a state and with every date in the index its header's |
| `CatalogLife.StepKeepsHealth` | internal/files/fdb.go:188-276 | each upload, deletion or change keeps all this, and the text file only grows |
| `CatalogLife.DeletionLeavesTheRest` | internal/ftp/server.go:698-708 | deleting an entry takes it, and nothing else, out of what compressing will keep |
| `CatalogLife.MarkedTakesPlace` | internal/ftp/server.go:700-703 | deleting and counting downloads are changes that keep name, keywords and description |
| `FileCatalog.CatalogedExtends` | internal/files/upload_add.go:126-166 | a new entry, with any name and description, leaves every old entry reading as before |
| `FileCatalog.CatalogedEntry` | internal/files/upload_add.go:140-166 | the new entry reads back with its header, if the strings fit, and its description but for line ends |
| `CatalogFields.NewEntrySays` | internal/files/upload_add.go:136-160 | what it says of the file, field by field: names, size, dates, cost, no downloads, no checksum, no password, no keywords |
| `CatalogFields.DescriptionIsRead` | internal/files/upload_add.go:159-165 | a description that is not blank and fits the code page is read as it was given, whether its lines ended in LF or in CR LF |
| `FileCatalog.UpdatedEntry` | internal/files/upload_add.go:192-210 | an update in place changes that header's size, dates and checksum, and no description or other entry |
| `CatalogFields.UploadedAgainSays` | internal/files/upload_add.go:203-210 | which fields a second upload changes, to what, and that it changes no other, in any entry |
| `FileCatalog.UpdateKeeps` | internal/files/fdb.go:261-276 | and keeps the catalogue sound and indexed |
| `FileCatalog.ReplacedEntry` | internal/files/fdb.go:261-276 | a header overwritten by any with the same name, keywords and pointer changes no description and no other entry, and reads back if its strings fit |
| `FileCatalog.ReplaceKeeps` | internal/files/fdb.go:261-276 | and keeps the catalogue sound, indexed and safe to compress |
| `FileCatalog.Fdb.Delete` | internal/ftp/server.go:691-712 | marks the first entry with the number as deleted, in place, or changes nothing if there is none |
| `FileCatalog.Fdb.FindNumber` | internal/ftp/server.go:701-707 | the first entry with the number |
| `FileCatalog.Fdb.BumpTimesDL` | internal/files/search.go:202-210 | counts one more download of an entry in place, in 16 bits |
| `CatalogFields.DownloadsAreCounted` | internal/files/search.go:202-210 | after n downloads the counter is n higher, in 16 bits, and nothing else changed |
| `CatalogFields.MarkedSays` | internal/ftp/server.go:700-703 | deleting sets one bit of the attribute and nothing else, however often |
| `FileCatalog.OldEntryStays` | internal/files/fdb.go:188-244 | records and text added at the ends leave every old entry, description and all, as it was |
| `FileCatalog.CompressKeeps` | internal/files/fdb.go:320-334 | on any catalogue whose entries are settled, compressing keeps the undeleted ones, and makes every date in the index its header's |
| `FileCatalog.WroteAll` | internal/files/fdb.go:278-310 | settled entries written anew are the same entries, with index and text to match, and every index record has its header's upload date |
| `FileCatalog.WroteDates` | internal/files/fdb.go:278-310 | the dates match whatever the entries are |
| `FileCatalog.RewriteExact` | internal/files/fdb.go:278-310 | for every entry: its description survives rewriting exactly when it is not blank, or empty and without a pointer into the old text; or the old pointer leads into the new text of some entry, which is the same from there on; or it leads nowhere and the description is empty |
| `FileCatalog.ZeroPointer` | internal/files/fdb.go:286-292 | so a blank description at the start of the old text is kept exactly when it is empty and no entry has one that is not blank |
| `FileCatalog.BlankTakesAnother` | internal/files/fdb.go:286-292 | two entries of which the first, described by a space, gets the description of the second |
| `CatalogText.DescStays` | internal/files/fdb.go:146-158 | a description in a terminated text file stays whatever is added |
| `CatalogText.DescReadsBack` | internal/files/fdb.go:286-289 | a description as it was read, written anywhere, reads back the same |
| `CatalogText.ReadIsClean` | internal/files/fdb.go:146-158 | whatever bytes it is read from, a description has no NUL, SUB or CR, no line end at its end, and survives the code page |
| `CatalogText.InkStays` | internal/files/fdb.go:188-213 | a description that is not blank and has no NUL or SUB does not read back blank |
| `CatalogText.FindEnd` | internal/files/fdb.go:146-153 | the first stop byte |
| `FileCatalog.Fdb.constructor` | internal/files/fdb.go:84-104 | an area without files has no entries |
| `FileCatalog.Fdb.ReadFDB` | internal/files/fdb.go:84-104 | every whole header record with the description it points to |
| `FileCatalog.Fdb.AppendDescription` | internal/files/fdb.go:188-213 | the text ended by a NUL at the end of the file, and where it starts |
| `FileCatalog.Fdb.AddHeader` | internal/files/fdb.go:231-258 | one header and one index record at the ends |
| `FileCatalog.Fdb.WriteHdr` | internal/files/fdb.go:261-276 | overwrites one header, refusing a negative number |
| `FileCatalog.Fdb.AddLfnPtr` | internal/files/fdb.go:215-228 | a long name goes into the text file |
| `FileCatalog.Fdb.CatalogFrom` | internal/files/upload_add.go:126-166 | refuses a name a live entry has; else adds the entry and keeps the old ones |
| `FileCatalog.Fdb.AddNew` | internal/files/upload_add.go:136-166 | pointer for pointer, what is added |
| `FileCatalog.Fdb.AfterUpload` | internal/files/upload_add.go:178-212 | updates the first live entry known by the short or long name in place, or adds a new one; which entries are known is in KnownExactly |
| `FileCatalog.Fdb.FindKnown` | internal/files/upload_add.go:196-202 | that first entry |
| `CatalogNames.LongNameIs` | internal/files/fdb.go:108-127 | the name that a pointer into the text file leads to, whatever is in front of it and behind it: the bytes up to the first NUL, at most 255, decoded and trimmed; the short name where that is blank |
| `CatalogNames.KnownExactly` | internal/files/fdb.go:108-127 | an entry whose long name was stored is known by that name exactly if its short name is the same or its pointer is above zero |
| `CatalogNames.LongNameIsFound` | internal/files/upload_add.go:192-210 | so a file with a long name, catalogued in an area whose text file is not empty, is brought up to date in place when it is uploaded again after any additions, updates and changes of other entries: that entry or an earlier one |
| `CatalogNames.FirstLongNameIsMissed` | internal/files/fdb.go:108-112 | and in an area whose text file is empty it is not: the same upload twice, with the real record codecs, is catalogued twice |
| `FileCatalog.Fdb.UpdateInPlace` | internal/files/upload_add.go:203-210 | its new header |
| `FileCatalog.Fdb.WriteFDB` | internal/files/fdb.go:278-310 | the three files written anew from entries |
| `FileCatalog.Fdb.Renew` | internal/files/fdb.go:282-303 | header and text of one entry |
| `FileCatalog.Fdb.Compress` | internal/files/fdb.go:320-334 | drops the deleted entries, counts them and writes the rest |
| `FileCodec.RealIsCodec` | internal/cfgrec/parse.go:278-365 | the record codecs have every property the catalogue relies on |

## Left out

- Sockets, TLS, SSH, menus, screen layouts, logging and path search are not part of this model.
- JamTheorems.EveryMessageReadsBack: bodies with lines that start with 0x01, kludges with line ends, and subfields over the reader's limit are outside its condition, because the format cannot tell them from its own marks.
- JamBase.Base.CollectYours: the CRC is a parameter applied to the lower-cased name; text in subfields is ASCII.
- JamTheorems.FastHighUndeleted: asks that later headers lie past the first 1024 bytes, which `FastHighOfBuilt` proves of every base built by appending.
- The last-read file of a JAM base, its locks, and moving or deleting messages are not part of this model.
- ScriptTheorems.MeaningIsReached: scripts outside the structured subset (BREAK, jumps into or out of blocks, a sixth nested loop) have no structured meaning; what each call, jump and BREAK does is proved for itself, and the bounds on stacks hold for them too.
- QaAnswerBook.AnswerBook.Do: commands other than ASSIGN, INC, DEC, CONCAT, LENGTH, the two case commands and the two substring commands are a parameter (calculation and word extraction among them), as is expansion of codes; included scripts are left out; text is ASCII.
- QaAnswerBook.AnswerBook.Act: of the commands in the cited lines the nine named above are carried out here, the others are that parameter.
- QaInterpreter.RunQuestionnaire: a caller who hangs up is the limit on the lines run; finding and reading the script file, and committing what commands left open at the end, are left out.
- QaText.DoAtoi: numbers are unbounded, so a number too big for a machine integer does not wrap around.
- Telnet.Endpoint.Read: read deadlines and errors in the middle of a command are not modelled, except for the end of the input.
- WebSocket.WsConn.Handle: decoding text messages (base64 or plain) is a parameter; the upgrade handshake and errors on writing are left out.
- Crc32.ComputeCrc32: the string forms `RA` and `Jam`, which change case first, appear as the hash parameters of the indexes; `JamHidden.NameHash` is the second one, of a name in lower case.
- AnsiScreen.Emulator.Write: the screen is the grid of the repository's own screen double, with cells, colours and wrapping; real consoles are not modelled, nor is white space beyond ASCII in parameters.
- CursorTracker.Terminal.TrackCursor: cursor positions are unbounded, so parameters that overflow a machine integer are not modelled, nor is white space beyond ASCII in parameters.
- AnsiAgreement.CursorsAgree: form feed, TAB as a tab, screen erasing and the sequences d, s and u are not among its pieces.
- MailQueue.Outbox.Send: the mail protocol itself is a parameter (which articles are accepted); the disclaimer and a crash between rewriting and purging are left out; group names are ASCII.
- UserSearch.UserBase.Search: names are ASCII.
- UserSearch.UserBase.Append: records are values here, not bytes, and the check that the first record was not overwritten, which cannot fail then, is left out.
- UserSearch.UserBase.WriteUser: records are values here, not bytes, so that it changes no byte outside its record is only what changing one value says.
- FileRecords.UserReadsBack: a user is the list of its values in record order, not named fields; its encoder and parser are given as that layout, because written out field by field they would add nothing to it.
- FileCatalog.Fdb.CatalogFrom: comparing names without regard to case, recognising long names, short names on disk, times and the disk file's size come in as values.
- FileCatalog.WroteAll: says nothing of long names, whose text rewriting drops.
- FileCatalog.Fdb.WriteFDB: writing three files one after the other is one step.
