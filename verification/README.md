# Street-light master: verified model

The firmware in the repository runs a street-light master on an ESP32.  This project models
the parts of it that carry state or a format, and proves what they keep:

- **Modem** (`ModemThread`, `ModemRecovery`, `ModemBudget`, `ModemResets`, `Modem`, `ModemSystem`,
  `ModemProgress`, `ModemOverlap`, `ModemWire`, `ModemStatus`): the AT command loop that
  re-initialises the modem after ten attempts, recursively and without bound, the two event-group
  bits that arbitrate between senders and the polling task, the one wire that all of them write
  to, and the one flag that tells all of them of an answer.  The recursion is modelled twice: as methods of `Modem.ModemDriver`, and as a work list whose single
  steps can be interleaved.  The methods are proved to follow the work list; the theorems are
  about the work list.
- **GPS** (`NmeaFields`, `NmeaParser`, `NmeaTokens`, `NmeaKinds`, `NmeaNumerals`, `NmeaTimes`,
  `NmeaItems`, `NmeaSentences`, `NmeaValues`, `NmeaPosition`, `NmeaLines`, `NmeaSatellites`,
  `NmeaPublication`, `NmeaHistory`): the byte-at-a-time parser of NMEA 0183 sentences (section 5 of
  NMEA 0183 v3.01), with its state in the fields of `NmeaParser.GpsParser` across calls; what whole
  sentences leave in the fix, and what their numerals, times and positions are worth.
- **Payloads** (`Hex`, `LppWire`, `LppEncoder`, `LppDecoder`, `LppRoundTrip`, `LampFrames`,
  `GroupCommand`): the tag-length records, the encoder's cursor, the hex printer and reader, the cut at the first
  zero byte, and the record loop of the decoder.
- **Queue and filter** (`MessageQueue`, `NodeFilter`): the bounded ring of uplink messages and
  the filter on node reports in front of it.
- **Check byte** (`Arithmetic`, `Gf2`, `Crc8`): the division loop of the humidity sensor driver, as
  polynomials over GF(2).
- **Lamp** (`Led`, `MeshId`, `Lamp`, `LampHistory`, `LampReports`, `LampProfile`): the PWM maps, the
  mesh-ID digits, and whole runs of downlink frames, Bluetooth commands and one-second ticks over
  `status_led`, its copy in flash, and the two channels; all that a run leaves behind is told from
  its events.

Acknowledgements from the modem are an oracle, one answer per UART write; the UART is a log of
writes; flash is a stored value; event bits are booleans.  Objects that the source updates in
place are classes, each with a function that gives the value it stands for; the lemmas are about
those values.

## What does not hold

Where a natural property fails, the project proves exactly when it holds.

- A payload comes back from encode, print, read and decode exactly if it has no zero byte
  (`LppRoundTrip.RoundTripIffNoZero`); brightness 0 ends the payload (`BrightnessZeroIsLost`).
  A node report whose MAC has a zero byte is dropped (`NodeFilter.KeyOfNodeFrame`), and a group
  command arrives whole exactly if three bytes are not zero (`GroupCommand.GroupCommandArrivesIff`;
  of the command for colour 2816 only the node ID arrives, `ColorWithZeroByteIsLost`).
- A position record swallows the first byte of what follows it (`LppRoundTrip.GpsSwallowsNextByte`).
- A mesh ID is read back exactly if the old one had no more digits than it
  (`MeshId.RoundTripIffNotLonger`, and on the wire `MeshIdArrivesIff`).
- The event bits do not keep a sender and the polling task apart: one interval between a wait
  and a clear is enough (`ModemOverlap.OverlapIsReachable`), and with two senders even that is not
  needed (`TwoSendersOverlapWithoutRace`).  The windows of sender k and of the polling task meet
  only after a race of the two, or after another sender set SEND_BIT in the window of k and so let
  the polling task through (`OverlapHasCause`), and from both the overlap is at most two actions
  away (`CauseLeadsToOverlap`).
- A polling task that recovers inside its own window waits for a bit that only it could set
  (`ModemSystem.ReaderRecoveryIsFinal`).  The tasks come to a stop exactly if it does so and every
  sender is idle or waits at its gate (`ModemProgress.StopsIff`), and from start-up ten unanswered
  polls are enough: a command issued meanwhile is never written (`SendNeverPasses`).
- `recv_status` does not say whose write was answered.  After a send has passed its gate the flag
  is set exactly if an answer, to whomever, came after the send had cleared it and no command has
  begun since (`ModemStatus.AcknowledgedIff`).  So a send none of whose own writes is answered is
  taken to be acknowledged exactly if such an answer came while it waited at its gate, or was meant
  for another's write and came in its window (`ForeignAnswerIff`).  Both happen: the first command
  after start-up can take the answer to a poll for its own (`PollAnswersSend`), and of two senders
  that write at the same time the one answered answers for both (`OneAnswerForTwo`).
- A downlink frame that asks for the position makes the handler follow a null pointer exactly if,
  of the records before the first zero byte, none is a node ID and not both a colour and a
  brightness are there (`Lamp.FrameFailsIff`, `LampFrames.Fatal`).  The two bytes 98 A5 are enough
  (`LampFrames.TwoBytesAreFatal`), and a request followed by the ID of its node fails all the same
  if a byte of that MAC is zero (`NamedRequestFatalIff`).  A run goes through exactly if no such
  frame is in it and the numbers of all commands fit the source's buffers (`Lamp.RunIffSafe`); this
  is what the theorems about runs of the lamp suppose.
- The brightness duty is non-negative for all inputs exactly if a ninth of the PWM span is at
  most the lower limit (`Led.BrightnessNonNegativeIff`), and within the eight bits of the timer
  exactly under the condition `FitTimer` (`BrightnessFitsIff`); limits of 0 and 255 in the wrong
  order give 283 (`LimitsThatDoNotFit`), and the channel takes it (`LampHistory.BadLimitsReachChannel`).
  The comment beside the map speaks of the range from the
  lower to the upper limit; the code subtracts 10 after inverting the percentage, so the duty runs
  from a ninth of the span below the lower limit to a ninth below the upper one (`BrightnessEnds`).
- New PWM limits reach the channel only with the next brightness: from the factory setting,
  limits of 10 and 100 leave the channel at 25 where the profile asks for 0
  (`LampHistory.NewLimitsWait`).  The channel shows the profile exactly if the limits in force at
  the last brightness and the last ones written give the same duty (`ChannelShowsProfileIff`).
- A restart loses the seconds of the minute begun: the working time is that of all ticks together
  exactly if the seconds before and after make no minute (`LampHistory.RestartLosesSeconds`).
- The header gives the speed in metres per second (`nmea_parser.h:121`).  What an RMC sentence leaves
  is 3.6 times that, since a knot is multiplied by 1.852, and what a VTG sentence with its field 7
  leaves is right; for the same movement they agree exactly at rest (`NmeaValues.SpeedsAgreeIff`).
- A time depends on the text of its item alone exactly if that has its six digits; of a shorter one,
  such as the empty one before the first fix, the source reads what older items left behind the
  terminator (`NmeaTimes.TimeDependsOnTextIff`).
- A sentence with a wrong checksum is not counted as received, but its fields are written all the
  same (`NmeaTokens.FieldsIgnoreChecksum`), and its position can be published
  (`NmeaHistory.RejectedPositionIsPublished`).
- The comment on the node filter speaks of ten tries; both of its branches do the same, so the
  counter never matters for what passes (`NodeFilter.FilterIsDedup`).

## Model

| member | source | states |
|---|---|---|
| ModemRecovery.StepKeepsRecovery | components/CM-MURATA/murata_parser.c:399-426 | whatever the modem answers, one action of a task keeps the invariant: either a reset is the next thing to be written, or the log since the last reset is made of acknowledged commands and these, with the work that remains, begin with the sixteen configuration commands and end with the call's own |
| ModemRecovery.RecoveryComplete | components/CM-MURATA/murata_parser.c:332-426 | for every pattern of answers and any nesting: a checked call that returns has, after its last unawaited write, the sixteen configuration commands acknowledged in order before any resumed command, each within fewer than ten attempts, and its last write is its own, acknowledged; ModemResets says the same of the text ATZ |
| ModemRecovery.SilentModemNeverReturns | components/CM-MURATA/murata_parser.c:409-423 | if no write is ever acknowledged, a checked command never returns |
| ModemBudget.StepKeepsBudget | components/CM-MURATA/murata_parser.c:408-423 | one action keeps the account: each recovery adds 17 checked commands and one reset and is preceded by at least nine refused attempts, and a command whose tenth attempt was answered is sent again |
| ModemBudget.WriteBudget | components/CM-MURATA/murata_parser.c:332-426 | at every moment of a call, U refused writes allow at most as many writes as the script has commands, plus U + 19 * (U / 9) (so 1 + U + 19 * (U / 9) for a single command) |
| ModemBudget.WritesOfReturnedSend | components/CM-MURATA/murata_parser.c:399-426 | on return the number of writes is exactly one, plus one for each refusal, plus 18 or 19 for each recovery, with one reset for each recovery and nine refusals at least |
| ModemBudget.InitConfigures | components/CM-MURATA/murata_parser.c:332-386 | a `lora_init` that returns has made an unawaited write and then had the complete configuration acknowledged; that the write is the text ATZ is ModemResets.ResetsComplete |
| ModemResets.ResetsComplete | components/CM-MURATA/murata_parser.c:332-426 | for every pattern of answers and every call whose own command is another: on return the text ATZ has been written exactly once for each command whose tenth attempt came after nine refusals, and once more by `lora_init`; after the last such write come the sixteen configuration commands, acknowledged and in order, before anything else |
| ModemResets.ResetsSoFar | components/CM-MURATA/murata_parser.c:408-423 | at every moment of such a call no reset has been written without a failed command or a `lora_init` that asked for it |
| Modem.ModemDriver.constructor | components/CM-MURATA/murata_parser.c:359-385 | the configuration is the sixteen commands of the source, three of them formatted from the stored profile; RECV_BIT starts set |
| Modem.ModemDriver.SendCmd | components/CM-MURATA/murata_parser.c:399-426 | the wait, the clear, the retry loop and the recursive recovery follow the work list by exactly one command, write at least once, leave SEND_BIT set, and terminate if every write from some number on is acknowledged |
| Modem.ModemDriver.Attempts | components/CM-MURATA/murata_parser.c:409-418 | the retry loop stops after an acknowledged write, after one write if the answer does not matter, or after ten of which the first nine were refused, and follows the work list step by step |
| Modem.ModemDriver.LoraRst | components/CM-MURATA/murata_parser.c:332-339 | follows the work list by AT and ATZ, and terminates with the text ATZ as its last write, directly after an acknowledged AT |
| Modem.ModemDriver.ConfigureIdentity | components/CM-MURATA/murata_parser.c:359-372 | follows the work list by the first five configuration commands |
| Modem.ModemDriver.ConfigureRadio | components/CM-MURATA/murata_parser.c:374-378 | follows the work list by the next five |
| Modem.ModemDriver.ConfigureWindows | components/CM-MURATA/murata_parser.c:379-385 | follows the work list by the last six |
| Modem.ModemDriver.LoraInit | components/CM-MURATA/murata_parser.c:341-386 | follows the work list by the whole script, terminates although it and `sendCMD` call each other, and has written the text ATZ directly after an acknowledged AT |
| Modem.ModemDriver.ReadOnce | components/CM-MURATA/murata_parser.c:428-449 | one undisturbed round of the polling task writes at most ten polls and reopens the gate exactly if one of the first nine is answered |
| Modem.ModemDriver.SendOne | components/CM-MURATA/murata_parser.c:399-426 | a top-level send ends with an acknowledged write of its own data, with every recovery completed and, unless its data is the reset, as many resets as failed commands |
| Modem.ModemDriver.InitOne | components/CM-MURATA/murata_parser.c:341-386 | a top-level `lora_init` completes its recoveries and its configuration, and has written the reset once more than commands failed |
| ModemSystem.RecvBitIsReaderWindow | components/CM-MURATA/murata_parser.c:428-449 | in every interleaving with any number of senders, RECV_BIT is clear exactly while `readCMD` is between its clear and its set |
| ModemOverlap.OneSenderBitsHold | components/CM-MURATA/murata_parser.c:405-425 | with one sender SEND_BIT is clear throughout its write window, recovering or not, and outside it only during a recovery |
| ModemOverlap.SendBitInWindow | components/CM-MURATA/murata_parser.c:405-425 | with any number of senders, SEND_BIT is set in the window of one only because another sender set it while the first stayed in its window |
| ModemOverlap.OverlapHasCause | components/CM-MURATA/murata_parser.c:405-449 | with any number of senders, recovering or not: whenever sender k and the reader are both past their gates, they have been so since a moment at which either neither had performed its clear, or the reader had just been let through by another sender's set in the window of k |
| ModemOverlap.CauseLeadsToOverlap | components/CM-MURATA/murata_parser.c:405-437 | conversely, from each such moment at most two actions of these two tasks lead to an overlap of their windows |
| ModemOverlap.OverlapNeedsRace | components/CM-MURATA/murata_parser.c:405-449 | with one sender, recovering or not, only the first cause is left: both had passed their wait and neither had performed its clear |
| ModemOverlap.OverlapIsReachable | components/CM-MURATA/murata_parser.c:405-437 | from start-up, for any command, an overlap is five actions away |
| ModemOverlap.TwoSendersOverlapWithoutRace | components/CM-MURATA/murata_parser.c:405-437 | the second cause happens: with two senders an overlap in a run without any race |
| ModemSystem.SenderKeepsRecovery | components/CM-MURATA/murata_parser.c:399-426 | whatever the other tasks do, a sender's call keeps the recovery invariant at every later moment |
| ModemSystem.SenderRecoveryComplete | components/CM-MURATA/murata_parser.c:332-426 | in every interleaving, a call that has returned has completed its recoveries |
| ModemSystem.ReaderRecoveryIsFinal | components/CM-MURATA/murata_parser.c:444-449 | once `readCMD` calls `lora_init` in its own window, RECV_BIT stays clear in every later state, no send waiting at its gate ever passes it, and no task writes more than ten times again |
| ModemSystem.AnsweredPollReopens | components/CM-MURATA/murata_parser.c:437-449 | in every interleaving, a poll answered before the tenth restores RECV_BIT within two actions of the reader |
| ModemSystem.UnansweredPollsRecover | components/CM-MURATA/murata_parser.c:437-446 | in every interleaving, a window whose first nine polls go unanswered ends in the recovery |
| ModemProgress.StopsIff | components/CM-MURATA/murata_parser.c:399-449 | in every interleaving with any number of senders: no task can act without a new call exactly if the reader recovers in its own window and every sender is idle or waits at its gate |
| ModemProgress.SendNeverPasses | components/CM-MURATA/murata_parser.c:402-449 | from every start-up state and for every command: a run in which it is issued, everything stops, and no continuation ever writes it |
| ModemWire.LogIsShare | components/CM-MURATA/murata_parser.c:410-410 | in every interleaving, what a sender has written is its share of the one wire, in order |
| ModemWire.SenderAlways | components/CM-MURATA/murata_parser.c:399-426 | over all the calls that a sender ever makes, not one call only, its log keeps the recovery invariant |
| ModemWire.ModemIsConfigured | components/CM-MURATA/murata_parser.c:332-426 | in every interleaving of the source's calls: once the sender that last reset the modem is idle, what it has written on the wire since then are blocks of acknowledged commands that begin with the sixteen configuration commands in order, whoever wrote in between |
| ModemWire.WireBudget | components/CM-MURATA/murata_parser.c:332-426 | in every interleaving, at every moment and over all calls: U refused writes of a sender allow it at most as many writes as commands were issued to it, plus U + 19 * (U / 9) |
| ModemWire.WireResets | components/CM-MURATA/murata_parser.c:332-426 | in every interleaving and over all calls: an idle sender has written the text ATZ once for each `lora_init` asked of it and once for each of its commands that failed |
| ModemWire.ConfiguredAfterReset | components/CM-MURATA/murata_parser.c:332-426 | in every interleaving: once the sender of the last ATZ on the wire is idle, what it has written since begins with the sixteen configuration commands, acknowledged and in order |
| ModemStatus.HistoryIsRun | components/CM-MURATA/murata_parser.c:399-454 | every history with the one flag `recv_status` is a run of the interleaved system, so that all theorems about runs hold for it |
| ModemStatus.StatusMeaning | components/CM-MURATA/murata_parser.c:402-418 | the flag is set exactly if an answer came, to whomever, that no `sendCMD` has cleared as it began |
| ModemStatus.AcknowledgedIff | components/CM-MURATA/murata_parser.c:402-418 | at every moment after a send passed its gate the flag is set exactly if an answer, to whomever, came after that send cleared it and no command has begun since |
| ModemStatus.ForeignAnswerIff | components/CM-MURATA/murata_parser.c:402-418 | a send none of whose own writes has been answered is taken to be acknowledged exactly if an answer came while it waited at its gate, or an answer to another write came in its window, and no command has begun since |
| ModemStatus.PollAnswersSend | components/CM-MURATA/murata_parser.c:402-449 | a run from start-up in which the one answer is to a poll, and acknowledges a send |
| ModemStatus.OneAnswerForTwo | components/CM-MURATA/murata_parser.c:402-418 | a run from start-up with two senders in which nothing is answered while the first waits at its gate, and the answer to the second acknowledges both |
| ModemStatus.PollsTakeTheFlag | components/CM-MURATA/murata_parser.c:437-442 | the reader clears nothing: after an acknowledged write its polls count as answered until some command begins |
| NmeaParser.FeedAppend | components/CM-GPS/nmea_parser.c:459-582 | decoding consecutive chunks is decoding their concatenation |
| NmeaParser.StepKeepsWf | components/CM-GPS/nmea_parser.c:459-582 | every byte keeps the item terminated inside its buffer, the counters in their widths, and `parsed_statement` short of all kinds |
| NmeaParser.OnlyReturnPublishes | components/CM-GPS/nmea_parser.c:459-582 | no byte but a carriage return changes what is collected or published |
| NmeaParser.GpsParser.constructor | components/CM-GPS/nmea_parser.c:663-691 | the zeroed parser is well-formed, with nothing parsed |
| NmeaParser.GpsParser.ParseCurrentItem | components/CM-GPS/nmea_parser.c:368-449 | the field assignments are those of the dispatch function, and nothing else changes; what that function does is told by NmeaKinds, NmeaSentences and NmeaSatellites |
| NmeaParser.GpsParser.EndStatement | components/CM-GPS/nmea_parser.c:500-567 | the carriage-return branch, switch and publication together, is the step of the reference machine |
| NmeaParser.GpsParser.DecodeByte | components/CM-GPS/nmea_parser.c:462-579 | one turn of the loop is one step of the reference machine and keeps the object valid |
| NmeaParser.GpsParser.GpsDecode | components/CM-GPS/nmea_parser.c:459-582 | a call feeds exactly the bytes before the NUL to the state left by the calls before |
| NmeaTokens.PlainRun | components/CM-GPS/nmea_parser.c:569-576 | ordinary bytes extend the item, are added to the checksum unless an asterisk was seen, and change nothing else |
| NmeaTokens.TokensAreFields | components/CM-GPS/nmea_parser.c:464-499 | from any state, for every sentence whose fields fit: the items handed to `parse_item` are the comma-separated fields in order, numbered from 0 modulo 256, the first with its dollar sign |
| NmeaTokens.SentenceRun | components/CM-GPS/nmea_parser.c:464-504 | at the carriage return the running checksum is the exclusive or of the body, compared with the value of the two digits, and the fields are those at the asterisk |
| NmeaTokens.AcceptedIffChecksum | components/CM-GPS/nmea_parser.c:464-567 | for every body: with the right two digits the collected kinds grow by what the sentence completes (nothing for an unknown kind or a GSV sentence with other sentences to come), and a full collection is published and cleared; with other digits nothing is collected or published |
| NmeaTokens.OwnChecksumIsAccepted | components/CM-GPS/nmea_parser.c:464-567 | a body with its own two-digit checksum has that effect from any state |
| NmeaTokens.OneByteErrorIsRejected | components/CM-GPS/nmea_parser.c:464-504 | a sentence with one body byte replaced by another ordinary byte changes neither what is collected nor what is published |
| NmeaTokens.FieldsIgnoreChecksum | components/CM-GPS/nmea_parser.c:491-504 | the fields written are the same for every checksum, right or wrong |
| NmeaPublication.PublicationHistory | components/CM-GPS/nmea_parser.c:500-567 | over any stream `parsed_statement` is the set of kinds accepted since the last publication, never all of them, and `gps_info` is the fix as it stood at that publication |
| NmeaPublication.PublishesOnlyWhenComplete | components/CM-GPS/nmea_parser.c:542-561 | `gps_info` changes only at a carriage return with which every kind has been accepted since the previous publication |
| NmeaItems.SentenceFolds | components/CM-GPS/nmea_parser.c:368-499 | from any state, whatever older items left in the buffer: the kind, the counters and all of the fix but its time and date are what the field tables make of the comma-separated fields, one after the other; the time and date too, if those among the fields have all their digits |
| NmeaKinds.KindIsFirstCode | components/CM-GPS/nmea_parser.c:368-410 | the kind of a sentence is that of the first of the six codes, in the source's order, that its first item holds anywhere, whatever the talker |
| NmeaNumerals.NumeralValue | components/CM-GPS/nmea_parser.c:142-220 | a decimal text with leading zeros, a sign, spaces in front and a tail that is no digit is worth its number, within the 32 bits of a `long` |
| NmeaTimes.TimeOfDigits | components/CM-GPS/nmea_parser.c:86-111 | six digits are the hour, minute and second, and the digits behind a point the thousandths as one number in sixteen bits |
| NmeaTimes.TimeDependsOnTextIff | components/CM-GPS/nmea_parser.c:96-111 | a time depends on the text of its item alone exactly if that has six characters at least |
| NmeaSentences.SentenceLeaves | components/CM-GPS/nmea_parser.c:118-359 | for every GGA, GSA, RMC, GLL or VTG sentence, of whatever length, by the numbers of its fields: each field it has sets its own part of the fix, and the rest stays |
| NmeaSentences.WholeSentence | components/CM-GPS/nmea_parser.c:459-582 | the same from any state for the bytes of the sentence; times and dates too, if they have their digits |
| NmeaSentences.GgaInDecimal | components/CM-GPS/nmea_parser.c:118-160 | from any state, a GGA sentence in decimal leaves its time, fix status and satellites in use as those numbers |
| NmeaSentences.GsaInDecimal | components/CM-GPS/nmea_parser.c:168-192 | from any state, a GSA sentence in decimal leaves its fix mode, and its field e + 3 in entry e of the satellites in use |
| NmeaSentences.RmcInDecimal | components/CM-GPS/nmea_parser.c:250-293 | from any state, an RMC sentence in decimal leaves its time and date |
| NmeaValues.DegreesAreWorth | components/CM-GPS/nmea_parser.c:71-78 | as real numbers: a position field of d degrees and m minutes with any decimal fraction is worth d degrees and that many sixtieths |
| NmeaValues.PositionInDecimal | components/CM-GPS/nmea_parser.c:71-331 | from any state, the bytes of a GGA, RMC or GLL sentence leave a latitude and a longitude worth the degrees and minutes of their fields, negative in the south and the west |
| NmeaValues.SpeedsAgreeIff | components/CM-GPS/nmea_parser.c:277-354 | for the same movement a VTG sentence leaves metres per second and an RMC sentence 3.6 times as much, so that they agree exactly at rest |
| NmeaValues.HeightIsSum | components/CM-GPS/nmea_parser.c:150-155 | the height of a GGA sentence is the sum of its fields 9 and 11 |
| NmeaPosition.ParseItemSetsPosition | components/CM-GPS/nmea_parser.c:118-359 | the tables of GGA, RMC and GLL set the position by one rule and differ only in the item number at which it starts; the other three leave it alone |
| NmeaPosition.PositionOfSentence | components/CM-GPS/nmea_parser.c:118-331 | from any state, a whole GGA, RMC or GLL sentence leaves exactly the latitude and longitude of its own fields, signed by their hemispheres |
| NmeaPosition.KindsAgreeOnPosition | components/CM-GPS/nmea_parser.c:118-331 | the same four fields sent in two kinds of sentence to two parsers in any states leave the same position |
| NmeaLines.SentenceCounts | components/CM-GPS/nmea_parser.c:368-449 | the kind of a whole sentence is that of its first item, and the counters of a GSV sentence are its items 1 and 2 |
| NmeaLines.LineEffect | components/CM-GPS/nmea_parser.c:459-582 | from any state, for every line given by its fields and its two digits: the fields are set in any case; the collected kinds grow by the line's own exactly if the digits are right, nothing for an unknown kind and for GSV only if items 1 and 2 agree; a full collection is published with the fix that this very line leaves, and cleared |
| NmeaLines.LineSetsFix | components/CM-GPS/nmea_parser.c:118-449 | what any line, accepted or not, makes of the fix; of its time and date, if those of the line have all their digits |
| NmeaLines.LineSetsPosition | components/CM-GPS/nmea_parser.c:118-359 | of that fix, the position follows from the position before and the line's position fields alone |
| NmeaHistory.LinesHistory | components/CM-GPS/nmea_parser.c:459-582 | over every list of lines: the collected kinds are those accepted since the last publication, and the published fix is the one that all lines up to it left, one after the other, accepted or not; its time and date too, if those of the lines have all their digits |
| NmeaHistory.PublishedPosition | components/CM-GPS/nmea_parser.c:459-582 | over every list of lines: the published position is that of the last GGA, RMC or GLL line with a position before the publication, accepted or not |
| NmeaHistory.RejectedPositionIsPublished | components/CM-GPS/nmea_parser.c:500-567 | a stream in which the position of a line with a wrong checksum is published |
| NmeaSatellites.SatellitesOfSentence | components/CM-GPS/nmea_parser.c:200-241 | from any state, a whole GSV sentence number m leaves in the table, from entry 4 * (m - 1) modulo 256 on and as far as the table goes, exactly the satellites it describes, and every other entry as it was |
| NmeaSatellites.SeriesFillsTable | components/CM-GPS/nmea_parser.c:200-241 | whatever the table held, and whether or not the checksums are right: after a series of up to four GSV sentences entry 4 * i + j is satellite j of sentence i + 1 |
| NmeaSatellites.SatellitesOfNumbers | components/CM-GPS/nmea_parser.c:200-241 | from any state, a GSV sentence whose fields are decimal texts of given numbers leaves those numbers, in the widths of their variables: the counters, the satellites in view, and its satellites in order from entry 4 * (m - 1) on; every other entry stays |
| NmeaSatellites.SeriesOfNumbers | components/CM-GPS/nmea_parser.c:200-241 | after a series of GSV sentences in decimal the table holds satellite j of sentence i + 1 in entry 4 * i + j, by its own numbers |
| Hex.HexRoundTrip | main/main.c:286-290 | what "%02X" prints, the hex reader reads back |
| Hex.MacRoundTrip | components/CM-LPP-KAMMANIT/CMLPP.c:301-309 | a MAC printed in lower case is read back |
| Hex.MacTextInjective | main/main.c:383-399 | two MACs have the same text only if they are the same, so comparing texts compares nodes |
| Hex.Str2Hex | components/CM-TOOLS/str2hex.c:33-44 | the loop computes the value of the numeral, narrowed to a byte |
| Hex.Test | components/CM-TOOLS/str2hex.c:51-76 | fills the buffer with the bytes that the pairs of the text spell, and terminates it |
| Hex.StrLen | main/main.c:368 | the length that the decoder gets is that of the bytes before the first zero |
| Hex.PrintHex | main/main.c:286-290 | the printing loop produces the hex text of the frame |
| LppWire.RecordsAreLongest | components/CM-LPPDEC/CMLPPDec.cpp:14-122 | any records at the front of a buffer are the first that the decoder takes, whatever follows |
| LppWire.RecordsArePrefix | components/CM-LPPDEC/CMLPPDec.cpp:14-122 | what the decoder takes is a prefix of the buffer, and no record begins where it stops |
| LppWire.WireAllInjective | components/CM-LPPDEC/CMLPPDec.cpp:14-122 | decoding is unique: two lists of records with the same bytes are equal |
| LppDecoder.AcceptsIffRecords | components/CM-LPPDEC/CMLPPDec.cpp:14-123 | a buffer is accepted exactly if it is a concatenation of known records, and then of one list only |
| LppDecoder.EveryPrefixIsRead | components/CM-LPPDEC/CMLPPDec.cpp:14-122 | accepted or not, every run of records at the front has been read |
| LppDecoder.ReadRecord | components/CM-LPPDEC/CMLPPDec.cpp:16-121 | one turn refuses exactly where no whole known record begins, and otherwise reports its size and fields |
| LppDecoder.ParseCMLPP | components/CM-LPPDEC/CMLPPDec.cpp:10-124 | the loop returns true exactly on concatenations of known records, and in any case reports the fields of the longest run of records at the front |
| LppEncoder.CayenneLpp.constructor | components/CM-LPP-KAMMANIT/CMLPP.c:17-29 | a new encoder is empty |
| LppEncoder.CayenneLpp.AddByte | components/CM-LPP-KAMMANIT/CMLPP.c:347-357 | appends exactly one record of one payload byte, or nothing and returns 0 |
| LppEncoder.CayenneLpp.AddWord | components/CM-LPP-KAMMANIT/CMLPP.c:334-345 | appends exactly one record with the value's two bytes, high byte first, or nothing and returns 0 |
| LppEncoder.CayenneLpp.AddMac | components/CM-LPP-KAMMANIT/CMLPP.c:294-312 | appends exactly one record with the six bytes that the MAC text spells, or nothing and returns 0 |
| LppEncoder.CayenneLpp.AddMeshId | components/CM-LPP-KAMMANIT/CMLPP.c:404-417 | appends the tag and the low 24 bits, or nothing and returns 0 |
| LppEncoder.CayenneLpp.AddActuation | components/CM-LPP-KAMMANIT/CMLPP.c:386-401 | asks for room for six bytes and appends seven |
| LppEncoder.Word48Spells | components/CM-LPP-KAMMANIT/CMLPP.c:392-398 | the six bytes of the working time, most significant first, spell its low 48 bits |
| LppRoundTrip.CutDecodes | main/main.c:366-368 | a payload cut at its first zero byte decodes to exactly the records before the one that holds it, and is accepted exactly if nothing was cut |
| LppRoundTrip.RoundTripIffNoZero | main/main.c:685-689 | the list of records comes back exactly if no byte of it is zero |
| LppRoundTrip.BrightnessZeroIsLost | main/main.c:685-689 | a colour followed by brightness 0 is received as the colour alone, and refused |
| LppRoundTrip.EncodeAll | components/CM-LPP-KAMMANIT/CMLPP.c:294-357 | any list of node-ID, colour and brightness records of at most 50 bytes is written to the buffer in order |
| LppRoundTrip.SendAndReceive | main/main.c:366-368 | encode, print, read and decode together: accepted exactly if there is no zero byte, and the fields are those of the records before the first one with a zero byte |
| LppRoundTrip.DecodeText | main/main.c:685-689 | the receiving half on any text: decodes the bytes before the first zero |
| LppRoundTrip.GpsSwallowsNextByte | components/CM-LPP-KAMMANIT/CMLPP.c:220-243 | ten bytes are written for a position and eleven consumed: the decoder takes the first byte of what follows, and refuses a position at the end |
| LampFrames.FieldFoundIff | main/main.c:706-710 | each of the five lookups finds its field exactly if some record of the frame has that field's tag |
| LampFrames.LookupSpells | components/CM-LPPDEC/CMLPPDec.cpp:55-115 | what a lookup finds is spelled by the first record of its tag: two bytes, the higher first, for a colour, the lower-case hex text for a node ID, one byte for the other three |
| LampFrames.TwoBytesAreFatal | main/main.c:802-815 | the frame 98A5 is a position request alone, and fatal |
| LampFrames.NamedRequestFatalIff | main/main.c:685-815 | a position request followed by a node ID is fatal exactly if the MAC has a zero byte and the request's own code is not zero |
| LampFrames.OrderedRequestIsHarmless | main/main.c:788-815 | a frame of colour, brightness and position request names no node and is not fatal |
| GroupCommand.PrintGroup | main/Bluetooth.c:263-267 | the text that the two number formats and the frame format print |
| GroupCommand.GroupTextSpells | main/Bluetooth.c:263-267 | for every colour and brightness the printed text is the hex of a node ID, that colour, that brightness and control type 2 |
| GroupCommand.GroupCommandArrivesIff | main/Bluetooth.c:263-267 | a receiver reads it whole exactly if neither colour byte and not the brightness is zero |
| GroupCommand.ColorWithZeroByteIsLost | main/Bluetooth.c:263-267 | of the command for colour 2816 the receiver gets the node ID alone, and refuses it |
| MessageQueue.RearIsFrontPlusSize | components/CM-QUEUE/queue.c:30-85 | rear is front + size - 1 modulo the capacity |
| MessageQueue.EnqueueRefines | components/CM-QUEUE/queue.c:56-73 | appends the text cut to 126 characters, or changes nothing when full |
| MessageQueue.DequeueRefines | components/CM-QUEUE/queue.c:77-85 | removes the first message, which is the text of the returned slot, or changes nothing when empty |
| MessageQueue.RingRefinesFifo | components/CM-QUEUE/queue.c:30-85 | every run of the ring is a run of the bounded FIFO with the same results |
| MessageQueue.Conservation | components/CM-QUEUE/queue.c:56-85 | over every run, what was delivered followed by what is queued is what was there followed by what was accepted, in order |
| MessageQueue.SlotLifetime | components/CM-QUEUE/queue.c:56-85 | the slot returned by a dequeue that saw s messages keeps its text through capacity - s accepted messages, whatever else happens, and the next accepted one replaces it |
| MessageQueue.MsgQueue.constructor | components/CM-QUEUE/queue.c:30-38 | a new queue is valid and empty, for any capacity |
| MessageQueue.MsgQueue.EnqueueMsg | components/CM-QUEUE/queue.c:56-73 | in place, the contents grow by the cut text exactly if the ring was not full |
| MessageQueue.MsgQueue.DequeueMsg | components/CM-QUEUE/queue.c:77-85 | returns the slot of the first message, still holding it, and leaves the others |
| MessageQueue.MsgQueue.FrontMsg | components/CM-QUEUE/queue.c:88-93 | the first message, or nothing |
| MessageQueue.MsgQueue.RearMsg | components/CM-QUEUE/queue.c:96-101 | the last message, or nothing |
| NodeFilter.KeyOfNodeFrame | main/main.c:366-381 | a frame that begins with a node-ID record is keyed by that node, whatever follows, exactly if its MAC has no zero byte; otherwise it has no key |
| NodeFilter.FilterTracksRun | main/main.c:381-402 | over every run the compared ID is the last one received and `retry_` is the length of the current run of duplicates modulo 256 |
| NodeFilter.FilterIsDedup | main/main.c:381-402 | over every run the node IDs that pass are those received with adjacent duplicates removed; messages without an ID change nothing |
| NodeFilter.DedupHasNoAdjacentDuplicates | main/main.c:383-399 | no two messages in a row that pass come from the same node |
| NodeFilter.OpsEnqueueWhatPasses | main/main.c:285-409 | over a run the texts handed to `enqueue` are, in order, the node reports that pass and all frames of the lamp's own |
| NodeFilter.DeliveryOfReports | main/main.c:285-409 | from start-up, over every run of node reports, own frames and uplinks: delivered and queued messages together are the accepted ones in order, a subsequence of those offered, which are the reports without adjacent duplicates and all own frames |
| NodeFilter.NodeReporter.AddQueueLppNode | main/main.c:357-409 | one call is one step of the filter, and enqueues exactly if the message passes |
| NodeFilter.DecodeNodeId | main/main.c:366-376 | the decoding half finds the node ID of the message, if any |
| Crc8.IsCrcValid | components/CM-SI7021/si_7006.c:103-128 | the shift-and-XOR loop returns true exactly if the row is a multiple of x^8 + x^5 + x^4 + 1 over GF(2) |
| Crc8.TimesLinear | components/CM-SI7021/si_7006.c:110-112 | multiplication by the polynomial distributes over exclusive or |
| Crc8.TimesDegree | components/CM-SI7021/si_7006.c:110-112 | a product has degree eight more, so a reduced row is zero or no multiple |
| Crc8.SomeCrcIsValid | components/CM-SI7021/si_7006.c:103-128 | every value has a valid check byte |
| Crc8.OnlyOneCrcIsValid | components/CM-SI7021/si_7006.c:103-128 | and only one |
| Crc8.ValidPairsAreLinear | components/CM-SI7021/si_7006.c:103-128 | valid pairs are closed under exclusive or |
| Crc8.ErrorDetection | components/CM-SI7021/si_7006.c:103-128 | an error in a valid row goes unnoticed exactly if it is a multiple itself |
| Crc8.OddFlipsDetected | components/CM-SI7021/si_7006.c:103-128 | any odd number of flipped bits in a valid row is rejected |
| Crc8.BurstDetected | components/CM-SI7021/si_7006.c:103-128 | any burst of at most eight bits in a valid row, wherever it begins, is rejected |
| Crc8.TwoFlipsDetected | components/CM-SI7021/si_7006.c:103-128 | any two flipped bits in a valid row of 24 are rejected |
| Crc8.UpToThreeFlipsDetected | components/CM-SI7021/si_7006.c:103-128 | one, two or three flipped bits anywhere in a valid row are rejected |
| Led.ColorIsMonotone | components/CM-LED-KAMMANIT/led_driver.c:47-52 | the colour duty is monotone from 2700..6500 into 0..255 |
| Led.ColorIsOnto | components/CM-LED-KAMMANIT/led_driver.c:47-52 | every duty in 0..255 is reached, with the ends at the ends |
| Led.ColorIsNearest | components/CM-LED-KAMMANIT/led_driver.c:47-52 | the duty is the whole number of 255ths of the range that the colour has passed, and 255 out of range |
| Led.BrightnessIsNearest | components/CM-LED-KAMMANIT/led_driver.c:60-67 | the duty stands off the lower limit by so many whole ninetieths of the span as the brightness is short of 90 percent, toward zero; out of range counts as full |
| Led.BrightnessIsMonotone | components/CM-LED-KAMMANIT/led_driver.c:60-67 | under C's truncating division a brighter setting never has a larger duty, and never a smaller one if the limits are in the wrong order |
| Led.BrightnessEnds | components/CM-LED-KAMMANIT/led_driver.c:60-67 | the exact duties at 10 and at 100 percent |
| Led.BrightnessBounds | components/CM-LED-KAMMANIT/led_driver.c:60-67 | for every input and all limits the duty lies between the two ends of the map |
| Led.BrightnessNonNegativeIff | components/CM-LED-KAMMANIT/led_driver.c:60-67 | for all natural limits: no input makes the duty negative exactly if a ninth of the span, rounded down, is at most the lower limit |
| Led.BrightnessFitsIff | components/CM-LED-KAMMANIT/led_driver.c:60-67 | for all natural limits: every duty lies within 0..255 exactly under a condition on the two limits alone |
| Led.LimitsThatDoNotFit | components/CM-LED-KAMMANIT/led_driver.c:60-67 | limits of 1 and 101 give -10, and limits of 255 and 0 give 283 |
| MeshId.OverwrittenSpells | main/Bluetooth.c:160-171 | writing v with k digits over digits that spell w leaves digits that spell w / 10^k * 10^k + v |
| MeshId.RoundTripIffNotLonger | main/Bluetooth.c:160-171 | the ID is read back exactly if the old one had no more digits |
| MeshId.FullLengthRoundTrips | main/Bluetooth.c:160-171 | every ID with as many digits as the row is read back |
| MeshId.ShorterIdKeepsOldDigits | main/Bluetooth.c:160-171 | writing 7 over the factory ID 123456 gives 123457 |
| MeshId.WriteDigits | main/Bluetooth.c:160-171 | the digit loop, in place, writes the digits of the value over the end of the row |
| MeshId.ArrayToNum | components/CM-TOOLS/str2hex.c:79-89 | printing the digits and reading the number gives the number that they spell |
| MeshId.MeshIdArrivesIff | main/Bluetooth.c:160-171 | from the command over the six digits to the three bytes of the report: the report spells the ID exactly if the old one had no more digits |
| MeshId.ReportWrittenId | components/CM-LPP-KAMMANIT/CMLPP.c:404-417 | the same through the three pieces of code in place: digit loop, number and record |
| Lamp.FrameFailsIff | main/main.c:677-839 | whatever the state, the handler fails exactly if the records before the first zero byte ask for the position, name no node, and do not hold both a colour and a brightness |
| Lamp.RunIffSafe | main/main.c:677-884 | whatever the state, a run goes to its end exactly if no frame in it is fatal and every command's numbers fit the source's buffers |
| Lamp.LampInvariant | main/main.c:677-884 | from start-up, over every run: flash equals `status_led`, the colour channel shows the stored colour, the brightness channel the stored brightness under the limits last in force, and the second counter is below 60 |
| Lamp.ClockCountsTicks | main/main.c:865-876 | n ticks after start-up, whatever else happened, the counter is n mod 60 and the working time has grown by n / 60 |
| Lamp.AddressedFrameSetsLamp | main/main.c:677-761 | from the wire to the lamp: a clean frame of type 1 or 2 that names this lamp sets exactly the encoded colour and brightness, and only type 2 travels on |
| LampHistory.LastOrderWins | main/main.c:677-884 | over every run the stored colour and brightness are those of the last order that the lamp obeyed, from a frame or from Bluetooth, and the colour channel shows that colour |
| LampHistory.MeshTraffic | main/main.c:677-884 | over every run the mesh gets exactly the frames that are for others and, at each tick, the last group command since the tick before, once, in the order of the events |
| LampHistory.LimitsOfRun | main/Bluetooth.c:309-331 | over every run, from the events alone: the limits that the profile holds, and those under which the brightness channel was last set |
| LampHistory.ChannelShowsProfileIff | components/CM-LED-KAMMANIT/led_driver.c:60-72 | over every run the channel shows the last ordered brightness under the limits in force when it was last set; it shows what the profile asks for exactly if these and the last limits written give the same duty, in particular if none were written since |
| LampHistory.NewLimitsWait | main/Bluetooth.c:309-331 | from the factory setting, new limits of 10 and 100 leave the channel at 25 where the profile asks for 0 |
| LampHistory.DutyFitsTimer | components/CM-LED-KAMMANIT/led_driver.c:60-72 | over every run whose limits meet the condition the channel holds the duty of the map itself, within eight bits |
| LampHistory.RestartContinues | main/main.c:907-932 | a restart between two runs loses neither orders nor limits, and puts the last limits written into force |
| LampHistory.RestartLosesSeconds | main/main.c:865-932 | over a restart the working time goes on by the whole minutes of both runs, which are those of all ticks exactly if the two remainders make no minute |
| LampHistory.BadLimitsReachChannel | main/Bluetooth.c:309-331 | from any state, limits that one command stores and the next brightness leave the channel at 283, or at 65526 |
| LampReports.ReportsOfRun | main/main.c:677-884 | over every run, from the events alone and in their order: one report of readings at every sixtieth tick, and one of the position for every frame that asks this lamp for it with code A5 and is no order of light |
| LampReports.ReportsAreCounted | main/main.c:865-876 | so many they are: a sixtieth of the ticks, and the requests |
| LampReports.RequestedPosition | main/main.c:802-826 | from the wire to the lamp: a clean frame of a node ID and a position request queues one report exactly if it names this lamp and the code is A5, travels on exactly if it names another, and changes nothing else |
| LampProfile.ProfileOfRun | main/Bluetooth.c:160-331 | over every run, from the events alone: the number that the stored mesh digits spell is what the written IDs leave one after the other, each replacing as many digits as it has; the channel, the model and the generation are the last ones written |
| LampProfile.RestartKeepsProfile | main/main.c:907-932 | a restart between two runs keeps all of them |
| LampProfile.FactoryStart | main/main.c:907-932 | a lamp with nothing stored starts with the factory values, spelled out, and the two duties that follow |
| Lamp.LampController.constructor | main/main.c:907-932 | start-up takes the stored profile or stores the factory one, and lights both channels |
| Lamp.LampController.OnLorawan | main/main.c:677-839 | the handler is the frame step of the lamp, and fails exactly on the fatal frames, before it changes anything |
| Lamp.LampController.OnBluetooth | main/Bluetooth.c:116-366 | the command switch is the command step of the lamp, of which LampHistory and LampProfile tell what runs of it leave |
| Lamp.LampController.OnSecond | main/main.c:865-884 | the periodic task is the tick of the lamp, of which ClockCountsTicks, MeshTraffic and LampReports tell what runs of it leave |

## Left out

- Modem.ModemDriver.SendCmd: the oracle answers each write, and the theorems hold for every oracle; the flag `recv_status` itself, shared by all tasks, is that of ModemStatus.
- Modem.ModemDriver.ReadOnce: covers one round while no other task acts; the rounds among other tasks are those of ModemSystem.
- LppEncoder.CayenneLpp.AddByte: that the buffer is long enough is a precondition, as is so for the other add methods: the source compares the cursor with 255, whatever it allocated.
- NmeaParser.GpsParser.GpsDecode: items of more than 15 stored characters are outside the model; the source does not bound them.
- NmeaLines.LineEffect: lines of more than 256 fields, where the item counter wraps, and lines whose checksum field is not two hex digits are covered byte by byte (NmeaParser, NmeaPublication) but not as lines.
- NmeaItems.SentenceFolds: of times and dates shorter than their digits it says nothing, since the source reads past the terminator.
- NodeFilter.NodeReporter.AddQueueLppNode: the array that keeps the last node ID is one byte too short for its terminator; the model keeps the text.
- Hex.Test: texts of more than 100 characters are outside the model, as the source's buffer has 51 bytes.
- Hex.PrintHex: the terminator that the source writes behind its buffer is not modelled.
- MeshId.WriteDigits: IDs of more digits than the row are outside the model; the source writes before the row.
- Lamp.LampInvariant: assumes that saves succeed and that handlers do not interleave.
- Lamp.LampController.OnBluetooth: takes the command as parsed; missing JSON items, replies to the phone, the LoRaWAN profile's `lora_init` (see Modem) and the firmware update are not modelled, and a restart ends a run (RestartContinues says how the next one begins).
- Floating point: a parsed number is the expression that computed it; NmeaValues says what it is worth as a real number, without rounding, exponents, hexadecimal numerals or infinities; temperature, humidity and voltage are not modelled.
- NmeaSatellites.SatellitesOfNumbers: covers sentences of four fields for each satellite; a signal number behind them, as in later versions of the standard, is covered by NmeaItems only.
- The stored LoRaWAN profile is constant during a call; a Bluetooth write of it between two configuration commands is not modelled.
- `strtol` is that of a 32-bit `long`; `char` is unsigned, as on the target.
- `nodeid` conversions of the mesh library are taken as lower-case hex of six bytes; that library is not part of this model.
- Delivery of messages in the mesh, and the mesh, Wi-Fi, OTA, HTTP, I2C, ADC, LEDC and UART drivers.
- Frame building in `add_queue_lpp_root` and `add_queue_infomation`: only the printing of the frame is modelled, since the records themselves would repeat the add methods.
- Single-record add methods of the general Cayenne LPP types, which have the shape of those modelled.
- `AT_Decode` and `print_queue`, which only print or classify; an answer is an event of ModemStatus.
- Allocation failures, task priorities and the delays between attempts.
