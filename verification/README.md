# A logger, its console program and its collector

This project models a logging library, the two-thread console program that writes through it and the collector
that receives its records over TCP, and proves what they promise each other.

- **Records** (`Text`, `LogLevel`, `Calendar`, `Escaping`, `LogRecord`).  A time, a level and a message become one
  line and come back.  `Calendar` defines calendar time from "Seconds Since the Epoch" (POSIX.1-2017, XBD, section
  4.16) and the normalisation of section 7.27.2.3 of C17, shows the two directions to be inverse on all integers,
  and that comparing fields before and after normalising accepts exactly the real dates.
- **Delivery** (`TcpSink`, `LineReader`, `TcpReceiver`, `Delivery`).  A sender that sends partial buffers, fails and
  reconnects with growing pauses; a receiver that cuts arbitrary chunks back into lines, one reader a connection.
  What the network and the clock answer is passed in and free.  The bytes `send` takes are kept in a log of their own,
  and the sender is proved to put exactly its framed lines there, and at the end at most an unfinished one.  The main
  statements hold in every reachable state of any number of senders and one receiver, with single calls of `send` as
  steps: what a connection yields is, in order and each once, a first part of the lines whose write succeeded on it, and
  of the one being written once its newline has been sent.
- **The console program** (`InputParser`, `EventQueue`, `LogWorker`, `Reasons`, `ConsoleApp`, `Interleaving`).
  `ConsoleApp` interprets the input with one thread.  `Interleaving` is the program as it is: two threads taking turns in atomic
  steps over the queue, the closed flag, the sleeping worker and its notifications, with waiting as the predicate
  loop of section 33.5.3 of ISO C++17.  Every schedule comes to what the single thread comes to.
- **The collector's accounts** (`Statistics`, `CollectorApp`).  A ring of sixty reused buckets agrees with the whole
  history; reports grow; nothing received goes uncounted.
- **All of it together** (`Pipeline`, `Session`).  Senders, network, receiver and collector, step by step: in every
  reachable state the report counts what arrived.  `Session` puts the console program in front: what arrives are the
  messages it reports as processed.
- **The logger** (`Sinks`, `Callers`).  `Sinks` is one call over a tree of sinks; `Callers` is any number of threads
  calling at once over leaves that can fail, with the lock that keeps their lines whole.

Objects that the program updates in place are classes with the same fields, and ghost fields that keep the history
(everything fed, written, counted or recorded) against which the fields are specified.  A byte is a `char`; every
statement about text covers all strings, hence all strings of bytes.  Times are integers, nanoseconds where the
program has clock ticks.

Where the code and the repository's own documentation differ, the model follows the code:

- Line 282 of the repository's README says that a line is accepted only if the library can write it.  The code also
  accepts a level in another case, unescaped control characters and unusual escapes.
  `LogRecord.LowerCaseLevelIsAccepted` is such a line and `LogRecord.AcceptedLineCanBeWrittenIff` says exactly which
  accepted lines can be written.
- Line 173 of it says that the reason of a failed write is printed at every change.  The main loop looks at the last
  reason once for every line read, so a reason can go unprinted: `Interleaving.AReasonCanGoUnprinted`.  Every change is
  printed if and only if, for each block of equal reasons, the main thread looks while the last reason recorded lies
  in this block: `Interleaving.EveryChangeIsPrintedExactlyWhen`.
- The closed form min(initial * 2^k, max) of the pauses needs initial <= max, which the code does not check:
  `TcpSink.CooldownIsCapped`.
- That one chunk makes a reader give up on at most one line holds exactly for chunk sizes up to the limit plus two
  bytes: `LineReader.OneChunkDiscardsOneIff`.
- Line 300 of the README says that an error code is empty exactly after a success, for `IReceiver::receive` too.  The
  code does not clear it: the rule holds exactly when the call fails or the code was empty before
  (`TcpReceiver.TcpReceiver.Receive`), which the collector's loop sees to.
- A line written while the clock stood before the epoch is sent and arrives, but no collector accepts it:
  `Pipeline.DatedLinesParse`.

## Model

| member | source | states |
|---|---|---|
| Text.FindIsFirst | logger/src/LogRecord.cpp:156-158 | a position with no earlier occurrence is the one a search finds, so a line is cut at the bracket or newline meant |
| Text.OneMoreDigit | logger/src/LogRecord.cpp:32-39 | digits are read with the most significant first, in base ten |
| Text.ParseIntIsExact | common/Text.hpp:43-51 | one digit or more, after an optional minus, are read exactly within 32 bits |
| Text.OtherTextIsNoInt | common/Text.hpp:43-51 | no other text is read as a number |
| Text.PaddedReadsBack | logger/src/LogRecord.cpp:118-129 | a number printed at a fixed width reads back as itself when it has no more digits |
| Text.ReadPrintsBack | logger/src/LogRecord.cpp:32-39 | a row of digits that was read is printed again digit for digit |
| Text.PrintedFits | logger/src/LogRecord.cpp:12-13 | the printf conversion gives exactly its width for a number that fits it and more for a larger one |
| LogLevel.SearchNames | logger/src/LogLevel.cpp:42-49 | the search finds an entry equal up to case, and finding none means that there is none |
| LogLevel.ParseLevelIsExact | logger/src/LogLevel.cpp:42-49 | a text yields a level exactly when the level is valid and the text is its name in any mixture of cases |
| LogLevel.LevelRoundTrip | logger/src/LogLevel.cpp:37-49 | a level's name reads back as the level exactly for valid levels; the unknown name yields none |
| LogLevel.NamesInOrder | logger/src/LogLevel.cpp:16-40 | the five names, which level has which, and the name of any other |
| LogLevel.NamesAreLetters | logger/src/LogLevel.cpp:16-22 | names are upper-case letters, so none holds a bracket, a blank or a slash |
| Calendar.YearsAreOrdered | logger/src/LogRecord.cpp:50 | with the POSIX formula a year's days end before any later year begins, leap years included |
| Calendar.MonthsAreOrdered | logger/src/LogRecord.cpp:50 | a month's days end before any later month of its year begins |
| Calendar.LeapYears | logger/src/LogRecord.cpp:50 | the leap years are those of the Gregorian calendar |
| Calendar.DaysBeforeMonthByFormula | logger/src/LogRecord.cpp:50 | days before each month by a closed formula that names no month length |
| Calendar.RealTimesByTable | logger/src/LogRecord.cpp:49-57 | a time is real exactly when its day is within the literal table of month lengths and its time of day before 24:00:00 |
| Calendar.SecondsByPosix | logger/src/LogRecord.cpp:50 | seconds since the epoch are the POSIX formula, term by term, with that day of the year |
| Calendar.Gmtime | logger/src/LogRecord.cpp:117 | every second count, negative ones too, is broken into a real date and time that stands for this very second |
| Calendar.GmtimeByPosix | logger/src/LogRecord.cpp:117 | a second is broken into exactly the real fields for which the POSIX formula yields it |
| Calendar.TheEpoch | logger/src/LogRecord.cpp:117 | second 0 is midnight of the first of January 1970 |
| Calendar.RealTimeIsUnique | logger/src/LogRecord.cpp:50 | no two real calendar times share a second |
| Calendar.CalendarBijection | logger/src/LogRecord.cpp:49-59 | breaking a time down and counting its seconds are inverse both ways on all integers and all real times |
| Calendar.TimegmOfRealTime | logger/src/LogRecord.cpp:50 | normalising a real time does not move it |
| Calendar.Normalised | logger/src/LogRecord.cpp:49-50 | whatever is passed in, what is left is a real time at the same instant |
| Calendar.NormalisingFixesExactlyRealTimes | logger/src/LogRecord.cpp:49-57 | the fields are unchanged by normalising exactly when they name a real date (month, day with leap years, hour, minute, second) |
| Escaping.EscapeMessage | logger/src/LogRecord.cpp:166-185 | the loop computes the escape whose inverse, image and injectivity the lemmas below establish |
| Escaping.UnescapeMessage | logger/src/LogRecord.cpp:187-215 | the loop with its index jumps computes the unescape that the lemmas below relate to escaping |
| Escaping.EscapeSpelling | logger/src/LogRecord.cpp:62-75 | how each character is spelt: the four short escapes, \x and two upper-case digits for the other control characters, itself otherwise |
| Escaping.EscapeOfConcat | logger/src/LogRecord.cpp:171-183 | text is escaped character by character |
| Escaping.HexValues | logger/src/LogRecord.cpp:92-97 | the value of a hexadecimal digit in either case |
| Escaping.UnescapeSpelling | logger/src/LogRecord.cpp:77-90 | what each short escape reads as, and that a last backslash is kept |
| Escaping.HexUnescapes | logger/src/LogRecord.cpp:202-209 | what \x and two hexadecimal digits read as |
| Escaping.OtherTextIsKept | logger/src/LogRecord.cpp:191-213 | anything else, a backslash that begins no escape included, is kept |
| Escaping.UnescapeUndoesEscape | logger/src/LogRecord.cpp:166-215 | unescaping an escaped text followed by anything gives the text and then what the rest gives |
| Escaping.EscapeRoundTrip | logger/src/LogRecord.cpp:166-215 | every message survives escaping and unescaping |
| Escaping.EscapeIsInjective | logger/src/LogRecord.cpp:166-185 | different messages never share an escaped text |
| Escaping.EscapedTextIsPrintable | logger/src/LogRecord.cpp:166-185 | escaped text holds no control character and is at least as long as the message and at most four times so |
| Escaping.UnescapeNeverGrows | logger/src/LogRecord.cpp:187-215 | unescaped text is never longer |
| Escaping.WellEscapedIsTheImage | logger/src/LogRecord.cpp:62-97 | the texts that unescaping and escaping give back are exactly the well-spelt ones, and exactly the outputs of escaping |
| LogRecord.ParseTimestamp | logger/src/LogRecord.cpp:23-60 | template check, reading, normalising and comparing accept exactly the texts that fit the template, name a real time and lie between the epoch and the clock's last millisecond, and give that instant |
| LogRecord.CompareAcceptsValidStamps | logger/src/LogRecord.cpp:49-59 | range test and field comparison together are the declarative condition |
| LogRecord.StampRoundTrip | logger/src/LogRecord.cpp:108-134 | a printed time reads back floored to the millisecond exactly when it lies in the clock's range after the epoch; for any other integer the stamp is rejected |
| LogRecord.StampLayout | logger/src/LogRecord.cpp:108-130 | the stamp place by place: date and time of day in UTC, each number in its digits, and the separators |
| LogRecord.LateStampIsUnknown | logger/src/LogRecord.cpp:132-134 | a year of more than four digits gives the unknown stamp |
| LogRecord.RecordLayout | logger/src/LogRecord.cpp:136-146 | stamp, level name in brackets and escaped text |
| LogRecord.ClockRange | logger/src/LogRecord.cpp:44-47 | the clock holds signed 64-bit nanoseconds, and its last millisecond |
| LogRecord.AcceptedStampIsPrintedBack | logger/src/LogRecord.cpp:23-60 | an accepted stamp is printed again byte for byte |
| LogRecord.UnknownStampIsInvalid | logger/src/LogRecord.cpp:132-134 | the stamp written for a time that cannot be formatted is never accepted |
| LogRecord.ParsedTimeIsInRange | logger/src/LogRecord.cpp:52 | an accepted time is a whole number of milliseconds within the clock's range |
| LogRecord.ParseIsExact | logger/src/LogRecord.cpp:149-164 | a line is accepted with a record exactly when it is a valid stamp, a bracketed level name and a text that stand for this record |
| LogRecord.RecordRoundTrip | logger/src/LogRecord.cpp:105-164 | for every time, level and message, formatting and parsing give the record with its time floored exactly when level and time are valid, and nothing otherwise |
| LogRecord.ParsedRecordIsStable | logger/src/LogRecord.cpp:149-164 | an accepted record can be logged, and writing and reading it again changes nothing |
| LogRecord.RecordIsOneLine | logger/src/LogRecord.cpp:136-146 | a formatted record is one line without control characters, within stated length bounds, whatever the message holds |
| LogRecord.AcceptedLineCanBeWrittenIff | logger/src/LogRecord.cpp:149-164 | an accepted line is one that formatting can produce exactly when its level is spelt as the name and its text is well escaped; formatting its record then gives this line |
| LogRecord.LowerCaseLevelIsAccepted | logger/src/LogRecord.cpp:160-163 | for every loggable time and message the line with a lower-case level is accepted though it is never written |
| InputParser.TrimIs | app/core/InputParser.cpp:9-13 | trimming takes away exactly the blanks around a text that has none at its ends |
| InputParser.SurroundingBlanksAreIgnored | app/core/InputParser.cpp:39-41 | blanks around a line never change what it means |
| InputParser.ExplicitLevelIsReached | app/core/InputParser.cpp:48-54 | every level name followed by any bare text yields that level and text under every default |
| InputParser.DoubledSlashIsAMessage | app/core/InputParser.cpp:43-46 | any bare text that starts with a slash can be logged at the default level by doubling the slash |
| InputParser.MessagesAreBare | app/core/InputParser.cpp:39-55 | a message is never empty, has no blank at either end and carries the default or a valid level |
| InputParser.DefaultIsTakenOrIgnored | app/core/InputParser.cpp:39-55 | a line either is the same message at whatever the default is, or means the same under every default |
| InputParser.DefaultTexts | app/core/InputParser.cpp:39-55 | exactly the bare non-empty texts that start with a slash or with no level name can be logged at the default level |
| InputParser.BlanksAre | app/core/InputParser.cpp:7 | blanks are the space and the tab |
| InputParser.FirstWordIs | app/core/InputParser.cpp:15-19 | the first word ends at the first blank |
| InputParser.CommandsAre | app/core/InputParser.cpp:21-36 | what every line that starts with a single slash comes to: quit, help, a level, or which error |
| InputParser.NamedLevelIsSet | app/core/InputParser.cpp:29-35 | a level name in any case after the command sets this level |
| InputParser.EveryLevelCanBeSet | app/core/InputParser.cpp:29-35 | every level can be made the default by its name |
| InputParser.IncompleteLines | app/core/InputParser.cpp:40-53 | a level name alone is an error, and an empty line nothing |
| LineReader.StreamIsItsLines | collector/core/LineReader.cpp:8-46 | every stream is its newline-free lines, framed, followed by a newline-free tail |
| LineReader.CuttingUndoesFraming | collector/core/LineReader.cpp:8-46 | cutting a framed stream gives back exactly the lines that were framed |
| LineReader.LinesOfConcat | collector/core/LineReader.cpp:8-46 | what more bytes add depends on the unfinished tail alone |
| LineReader.EmittedOnlyGrows | collector/core/LineReader.cpp:8-46 | lines handed on are never taken back as the stream grows |
| LineReader.FittingOfOne | collector/core/LineReader.cpp:33-39 | a line is handed on when it is no longer than the limit, 1 MiB by default, and given up on exactly otherwise |
| LineReader.ShortChunkDiscardsAtMostOne | collector/core/LineReader.cpp:22-35 | a chunk no longer than the limit plus two makes a reader give up on at most one more line |
| LineReader.LongerChunkCanDiscardTwo | collector/core/LineReader.cpp:22-35 | for every limit and every larger size there is a chunk of this size that makes two possible |
| LineReader.OneChunkDiscardsOneIff | collector/core/LineReader.cpp:22-35 | one chunk of a size makes a reader give up on at most one more line, whatever came before, if and only if the size is at most the limit plus two |
| LineReader.LineReader.constructor | collector/core/LineReader.cpp:6 | a new reader has been fed nothing |
| LineReader.LineReader.Feed | collector/core/LineReader.cpp:8-46 | pending text and skip mode are those of the whole stream fed so far; the new lines are what the chunk adds to the stream's fitting lines; false is returned exactly when another line was given up on |
| LineReader.FeedAll | collector/core/LineReader.cpp:8-46 | however a stream is cut, the lines and the final state are those of the whole stream; with chunks within the bound the false returns count exactly the over-limit lines, an unfinished one included |
| TcpSink.CooldownDoubles | logger/src/net/TcpSink.cpp:172 | doubling under a cap follows the closed form at every failure count |
| TcpSink.CooldownIsCapped | logger/src/net/TcpSink.cpp:168-173 | every pause is the capped power of two, the first included, exactly when the initial pause respects the cap |
| TcpSink.WritingKeepsWires | logger/src/net/TcpSink.cpp:156-166 | a success keeps the last connection open, a failure closes it after an unfinished part of the line; earlier ones stay closed |
| TcpSink.WritingExtends | logger/src/net/TcpSink.cpp:156-166 | no line accepted on a connection is ever taken back, nor the bytes the lines make |
| TcpSink.MoreIsLogged | logger/src/net/TcpSink.cpp:132-139 | after each further slice the bytes of the connection are its lines, framed, and the part of the line on its way that has gone out |
| TcpSink.WholeLineIsLogged | logger/src/net/TcpSink.cpp:161 | a line that has gone out with its newline can join the accepted ones without a change of bytes |
| TcpSink.LinesOfText | logger/src/net/TcpSink.cpp:156-166 | cut into lines, the bytes of a connection are its accepted lines, and the one on its way exactly once its newline is there |
| TcpSink.DeliveredLinesAreComplete | logger/src/net/TcpSink.cpp:130-166 | what a fresh reader cuts out of any first part of the bytes of a connection is a first part of the lines that have gone out whole; out of all bytes, exactly these; a line without its newline is never among them |
| TcpSink.AllIsTakenIff | logger/src/net/TcpSink.cpp:132-153 | everything is sent exactly when some first answers of `send` all let it go on and offer enough bytes, whatever follows |
| TcpSink.AnswersThatStop | logger/src/net/TcpSink.cpp:136-151 | which answers of `send` end sending, and with which error |
| TcpSink.ResolvesAtMultiples | logger/src/net/TcpSink.cpp:115-119 | the name is resolved again exactly at the positive multiples of the setting |
| TcpSink.TheConstants | logger/src/net/TcpSink.cpp:168-173 | the error codes, milliseconds in nanoseconds, and the doubling |
| TcpSink.TcpSink.constructor | logger/src/net/TcpSink.cpp:41-43 | a sink starts without a connection, without failures and with the initial pause |
| TcpSink.TcpSink.Connect | logger/src/net/TcpSink.cpp:45-56 | opening succeeds exactly when the name resolves and some address accepts; it then has one fresh connection to the first such address and can be written to at any later time, and an error is reported exactly on failure |
| TcpSink.TcpSink.ConnectAny | logger/src/net/TcpSink.cpp:58-105 | the connection is made to the first address in order that accepts; otherwise the last one's error is given, unreachable for an empty list, and nothing changes |
| TcpSink.TcpSink.NoteFailure | logger/src/net/TcpSink.cpp:168-173 | the next attempt waits for the pause in force, which doubles under the cap; failures in a streak stay at least their pauses apart |
| TcpSink.TcpSink.NoteSuccess | logger/src/net/TcpSink.cpp:175-180 | the streak, the error and the pause start over |
| TcpSink.TcpSink.EnsureConnected | logger/src/net/TcpSink.cpp:107-128 | before the time for it nothing is tried or changed; an attempt resolves the name exactly at a positive multiple of the setting, keeps the old addresses when that fails and connects to the first that accepts; connected, no failures and no error go together; the caller's code is cleared by an attempt only |
| TcpSink.TcpSink.Send | logger/src/net/TcpSink.cpp:134-135 | what one call takes, and nothing else, joins the bytes of the current connection |
| TcpSink.TcpSink.BeginLine | logger/src/net/TcpSink.cpp:157-160 | a write begins over the connection there is or a new one, with nothing of its line sent; or there is none, and nothing has changed on any connection |
| TcpSink.TcpSink.FrameLine | logger/src/net/TcpSink.cpp:159-160 | the frame is the line and one newline |
| TcpSink.TcpSink.SendSome | logger/src/net/TcpSink.cpp:133-151 | one turn of the loop hands over exactly the next bytes that the answer takes, and goes on or sets exactly the error of the answer |
| TcpSink.TcpSink.SendOrEnd | logger/src/net/TcpSink.cpp:133-165 | the same with its consequence: an error ends the write and the connection inside the line |
| TcpSink.TcpSink.SendAll | logger/src/net/TcpSink.cpp:130-154 | from the start of a line to as many bytes as the answers take, each once and in order; no error exactly when that is all of it, otherwise that of the first answer that ends sending |
| TcpSink.TcpSink.SendLoop | logger/src/net/TcpSink.cpp:131-151 | the loop takes as many bytes as the answers in their order give before all are sent or one ends sending |
| TcpSink.TcpSink.EndLine | logger/src/net/TcpSink.cpp:161-165 | the line is accepted when all of it was sent; otherwise the connection is given up with an unfinished part of it, and a new streak of failures begins |
| TcpSink.TcpSink.Succeed | logger/src/net/TcpSink.cpp:161 | returning true makes the line on its way an accepted one |
| TcpSink.TcpSink.LiveWiresAreSound | logger/src/net/TcpSink.cpp:130-166 | within a write and between writes the bytes of every connection are those of its lines, and only the line being written can be on its way, whole exactly when all of it has been sent |
| TcpSink.TcpSink.Disconnect | logger/src/net/TcpSink.cpp:163-165 | giving a connection up starts a streak of one failure at this time |
| TcpSink.TcpSink.WriteLine | logger/src/net/TcpSink.cpp:156-166 | true exactly when there was a connection, or its time had come and some current address accepts, and the answers take the whole line and its newline; over any connection exactly the bytes taken go out, also on failure, whose error is that of the first answer that ends sending; which addresses are current afterwards; back-off as stated |
| TcpReceiver.ProjectOfConcat | collector/core/net/TcpReceiver.cpp:49-56 | the lines of one connection are unaffected by how rounds interleave connections |
| TcpReceiver.DiscardedInUpdate | collector/core/net/TcpReceiver.cpp:79 | reading one connection changes the total of lines given up by what that connection adds |
| TcpReceiver.OneMoreRead | collector/core/net/TcpReceiver.cpp:49-56 | reading one client takes the round's invariant from the clients above it to the clients from it on |
| TcpReceiver.ErasingOne | collector/core/net/TcpReceiver.cpp:53-55 | in the downward loop an erased client leaves those still to be read in their places |
| TcpReceiver.KeptAreClients | collector/core/net/TcpReceiver.cpp:49-56 | the clients kept are among those there were, and no more |
| TcpReceiver.KeptAt | collector/core/net/TcpReceiver.cpp:53-54 | in one round a client is kept exactly when it was quiet, sent bytes or is to be tried again |
| TcpReceiver.StillOpen | collector/core/net/TcpReceiver.cpp:49-56 | after a round the clients are, in order, the connections accepted so far that have not ended |
| TcpReceiver.NewcomerIsOpen | collector/core/net/TcpReceiver.cpp:68 | so are they with one more caller |
| TcpReceiver.RoundConstants | collector/core/net/TcpReceiver.cpp:17-68 | sixteen clients, 4096 bytes at a time, and only usable callers count |
| TcpReceiver.TcpReceiver.constructor | collector/core/net/TcpReceiver.cpp:27 | a receiver starts without clients and history |
| TcpReceiver.TcpReceiver.Read | collector/core/net/TcpReceiver.cpp:72-85 | exactly the bytes received join that client's stream, its new lines are handed on, and it stays unless the stream ended or broke |
| TcpReceiver.TcpReceiver.FeedClient | collector/core/net/TcpReceiver.cpp:77-81 | the drop counter stays equal to the over-limit lines of all connections ever accepted |
| TcpReceiver.TcpReceiver.Receive | collector/core/net/TcpReceiver.cpp:29-60 | after one round each old client is there exactly if it was quiet, sent bytes or is to be tried again, its stream has grown by exactly its bytes, and over any run the clients are, in order, the connections accepted so far of which none closed or broke; the same lines go to the caller and the log, later connections first; callers are taken in while there is room; a success leaves the caller's code as it was, so the code is empty exactly on success if and only if the call fails or it was empty before |
| TcpReceiver.TcpReceiver.ReadClients | collector/core/net/TcpReceiver.cpp:49-56 | the loop reads each client once although it erases from the list it walks, and leaves exactly the surviving ones in order |
| TcpReceiver.TcpReceiver.ReadNext | collector/core/net/TcpReceiver.cpp:50-55 | one turn of that loop keeps its invariant |
| TcpReceiver.TcpReceiver.Erase | collector/core/net/TcpReceiver.cpp:54 | removing a client disturbs no other client's reader or stream |
| TcpReceiver.TcpReceiver.AcceptClients | collector/core/net/TcpReceiver.cpp:62-70 | callers are taken in, each with a fresh reader and an empty stream, up to sixteen clients; unusable ones are passed over |
| TcpReceiver.TcpReceiver.AddClient | collector/core/net/TcpReceiver.cpp:68 | a new connection starts with nothing received, handed on or dropped |
| Delivery.RecordLineParses | logger/src/LogRecord.cpp:105-164 | a line that carries a record parses as this record, its time floored, exactly when the clock showed a time that a stamp can show |
| Delivery.WritingKeepsRecords | logger/src/net/TcpSink.cpp:156-166 | if only records are written, every connection carries only records, refused ones included |
| Delivery.WritingGrows | logger/src/net/TcpSink.cpp:156-166 | a write only adds to the bytes of every connection |
| Delivery.SendingKeepsRecords | logger/src/net/TcpSink.cpp:130-166 | sending more of a line, or accepting it, puts no other line on a connection |
| Delivery.RoundStaysWithin | collector/core/net/TcpReceiver.cpp:49-56 | a round that delivers only bytes that were sent keeps each stream a first part of what was sent |
| Delivery.Network.constructor | collector/core/net/TcpReceiver.cpp:27 | freshly opened sinks and a new receiver satisfy the invariant of the network |
| Delivery.Network.Log | logger/src/net/TcpSink.cpp:156-166 | logging through any sink at any clock time keeps the invariant, changes its connections as a write does and leaves the sink ready; it succeeds exactly when the sink reaches an address and the answers take the whole line |
| Delivery.Network.Begin | logger/src/net/TcpSink.cpp:157-160 | beginning a write keeps the invariant, so that rounds of the receiver can follow |
| Delivery.Network.Advance | logger/src/net/TcpSink.cpp:133-165 | so does every single call of `send`, the one that fails included |
| Delivery.Network.Finish | logger/src/net/TcpSink.cpp:161 | so does returning true, which makes the line an accepted one |
| Delivery.Network.StreamsStayWithin | logger/src/net/TcpSink.cpp:130-166 | a step that only adds bytes to one sink keeps everything received a first part of what was sent |
| Delivery.Network.Collect | collector/core/net/TcpReceiver.cpp:29-60 | any round of the receiver over any delivered bytes keeps the invariant and hands on what it logs |
| Delivery.Network.OnlyAcceptedLinesArrive | collector/core/net/TcpReceiver.cpp:49-80 | in every reachable state, within writes and between them, a connection has yielded, in order and each once, a first part of the lines whose write succeeded on it and of the one being written once its newline was sent, over-limit ones excepted; all of them once every byte that `send` took has arrived |
| Delivery.Network.FlightIsCompletion | logger/src/net/TcpSink.cpp:156-166 | the lines that have gone out whole on a connection are the accepted ones and the one being written there once all of it was sent |
| Delivery.Network.BetweenWrites | collector/core/net/TcpReceiver.cpp:49-80 | while its sink is not writing a connection has yielded only lines whose write succeeded |
| Delivery.Network.EveryArrivalIsARecord | collector/core/LineReader.cpp:8-46 | every line that arrives was logged with success on its connection or has been sent whole by the write under way, and carries a record |
| Delivery.Network.EveryLineIsARecord | collector/core/net/TcpReceiver.cpp:49-80 | so does every line the receiver hands on, from whatever connection |
| Pipeline.DatedLinesParse | collector/core/CollectorApp.cpp:68-82 | of the lines loggers send the collector accepts exactly those written at a time that a stamp can show |
| Pipeline.RecordLinesAreCounted | collector/core/CollectorApp.cpp:68-82 | so the malformed ones among them are exactly those written at another time |
| Pipeline.Site.constructor | collector/core/CollectorApp.cpp:31-35 | opened sinks, a new receiver and a new collector start in agreement |
| Pipeline.Site.Log | logger/src/net/TcpSink.cpp:156-166 | logging anywhere keeps the agreement, succeeds exactly when the sink reaches an address and the answers take the whole line, and can be followed by the next call |
| Pipeline.Site.Begin | logger/src/net/TcpSink.cpp:157-160 | beginning a write keeps the agreement |
| Pipeline.Site.Advance | logger/src/net/TcpSink.cpp:133-165 | so does every call of `send` |
| Pipeline.Site.Finish | logger/src/net/TcpSink.cpp:161 | and the end of the write, with turns of the collector anywhere between |
| Pipeline.Site.Turn | collector/core/CollectorApp.cpp:37-62 | a turn of the loop over the real receiver keeps it: the collector has consumed exactly the lines handed on and seen exactly the drops |
| Pipeline.Site.TheCountersAreTrue | collector/core/CollectorApp.cpp:68-89 | in every reachable state of senders, network, receiver and collector, within writes too: every arrival is counted once, and as malformed exactly the over-limit lines and the undated ones |
| Pipeline.Site.WhatIsShownIsTrue | collector/core/CollectorApp.cpp:91-94 | every report ever made shows, of the first lines that had arrived by then, the number of records and of malformed ones and drops |
| Session.WritingAccepts | logger/src/net/TcpSink.cpp:156-166 | a write adds its line to all accepted ones exactly when it succeeds |
| Session.AcceptedIsPart | logger/src/net/TcpSink.cpp:156-166 | the lines of each connection are a part in a row of all accepted ones |
| Session.Session.constructor | app/core/ConsoleApp.cpp:41-49 | a session starts with nothing processed and nothing accepted |
| Session.Session.WriteRecord | logger/src/SinkLogger.cpp:22-24 | writing a record of a valid level succeeds exactly when the sink reaches an address and the answers take its line |
| Session.Session.LogOne | logger/src/SinkLogger.cpp:12-25 | one call of `log` comes to true exactly when the level is valid, the sink reaches an address and the answers take the whole line; then its message, formatted, is the sink's next accepted line |
| Session.Session.Handle | app/core/LogWorker.cpp:49-81 | an event does to the worker what the specification says with the outcome there was, and processed messages and accepted lines keep agreeing |
| Session.Session.Take | app/core/ConsoleApp.cpp:55-72 | a line of input does what it does in the interpreter with these outcomes |
| Session.Session.Turn | collector/core/net/TcpReceiver.cpp:29-60 | a turn of the collector between two events changes nothing of this |
| Session.Session.Run | app/core/ConsoleApp.cpp:41-92 | the program on any input ends with the interpreter's worker for the outcomes there were |
| Session.Session.WhatArrivesWasProcessed | collector/core/net/TcpReceiver.cpp:49-80 | what arrives over each connection of the session is, in order and each once, the start of its part of the lines of the processed calls |
| Session.Session.NoMoreArrivesThanProcessed | collector/core/net/TcpReceiver.cpp:49-80 | over all its connections no more lines arrive than the session reports as processed |
| Session.Session.EveryScheduleProcessesThese | app/core/ConsoleApp.cpp:41-92 | whatever the schedule of the two threads, with these outcomes the messages processed are those whose lines were accepted, and their number is the one reported |
| Statistics.BucketHoldsItsHour | collector/core/Statistics.cpp:25-31 | a reused bucket holds exactly what its slot counted within the last sixty minutes, or nothing of it |
| Statistics.BucketsHoldOneMore | collector/core/Statistics.cpp:25-31 | one more record keeps every bucket the count of the latest minute of its slot |
| Statistics.CountSplits | collector/core/Statistics.cpp:48-51 | counts over disjoint conditions add up, so the slots partition the hour |
| Statistics.CountIsCardinality | collector/core/Statistics.cpp:48-51 | a count is the number of places in the history where the condition holds |
| Statistics.HourIs | collector/core/Statistics.cpp:48 | the last hour is the current minute and the fifty-nine before it, a minute being 60 000 000 000 nanoseconds |
| Statistics.LevelsSumToTotal | collector/core/Statistics.cpp:16-19 | the counts of the five levels add up to the number of records |
| Statistics.SumIsBounded | collector/core/Statistics.cpp:21-23 | the sum of lengths lies between the count times the shortest and times the longest |
| Statistics.AverageIsBetween | collector/core/Statistics.cpp:43-46 | the average, the number whose multiple by the count is the sum of lengths, lies between the shortest and the longest |
| Statistics.Statistics.constructor | collector/core/Statistics.hpp:40-47 | the initial fields describe an empty history |
| Statistics.Statistics.Add | collector/core/Statistics.cpp:14-32 | one record joins the history, and ring, level counts, sum, minimum and maximum remain those of the history |
| Statistics.Statistics.CountLevel | collector/core/Statistics.cpp:18-19 | the array holds for every level its number of records |
| Statistics.Statistics.CountMinute | collector/core/Statistics.cpp:25-31 | the ring in place agrees with the history after one more record |
| Statistics.Statistics.AddMalformed | collector/core/Statistics.cpp:34-36 | only the malformed count grows, by one |
| Statistics.Statistics.TakeSnapshot | collector/core/Statistics.cpp:38-54 | the loop over reused buckets gives the records of the current minute and the fifty-nine before it over the whole history; totals, level counts, extremes and average are those of the history |
| CollectorApp.WaitReachesTheDeadline | collector/core/CollectorApp.cpp:38-41 | rounded up, the remaining time never exceeds the timeout, and a wait used up ends at the deadline or less than a millisecond past it |
| CollectorApp.EveryLineIsCountedOnce | collector/core/CollectorApp.cpp:68-82 | each non-empty line is a record or malformed, never both or neither |
| CollectorApp.OneMoreLine | collector/core/CollectorApp.cpp:68-82 | what one more line adds to records, printed lines and malformed ones |
| CollectorApp.MatchingCounts | collector/core/CollectorApp.cpp:81 | the counts per level are those of the records among the lines |
| CollectorApp.MatchingExtremes | collector/core/CollectorApp.cpp:81 | so are the shortest and the longest length |
| CollectorApp.MatchingMean | collector/core/CollectorApp.cpp:81 | so is the average |
| CollectorApp.OneMoreTrue | collector/core/CollectorApp.cpp:91-94 | a true report keeps all reports true |
| CollectorApp.OneMorePaced | collector/core/CollectorApp.cpp:55-61 | a report on timeout no earlier than a timeout after the one before keeps the reports paced |
| CollectorApp.TimeoutReportsAreApart | collector/core/CollectorApp.cpp:55-61 | a report on timeout comes at least a timeout after every report before it |
| CollectorApp.CollectorApp.OneMoreReport | collector/core/CollectorApp.cpp:91-94 | a report keeps the growth law of the reports before it |
| CollectorApp.CollectorApp.constructor | collector/core/CollectorApp.cpp:21-29 | a collector starts with no line, report or drop to account for |
| CollectorApp.CollectorApp.NothingIsLost | collector/core/CollectorApp.cpp:50-53 | in every reachable state records and malformed lines together are the non-empty lines consumed and the drops seen |
| CollectorApp.CollectorApp.Consume | collector/core/CollectorApp.cpp:68-82 | one line is printed and counted as a record, counted as malformed or skipped when empty, and the accounts still balance |
| CollectorApp.CollectorApp.CountDropped | collector/core/CollectorApp.cpp:84-89 | the drops seen catch up with the receiver's counter, each counted once |
| CollectorApp.CollectorApp.MakeReport | collector/core/CollectorApp.cpp:91-94 | a report shows, number by number, the lines consumed and the drops seen so far: records, malformed ones, levels, lengths, average and the last hour as of now; unless it ends the run it shows more than the one before; on timeout it comes a timeout after the one before |
| CollectorApp.CollectorApp.RunRound | collector/core/CollectorApp.cpp:37-62 | after a round fewer than the configured number are unreported, none if the wait was used up; the deadline lies a timeout after the last report or later and at most a timeout ahead, and is renewed exactly as the triggers say; a failure reports once and counts nothing |
| CollectorApp.CollectorApp.ReportIfDue | collector/core/CollectorApp.cpp:55-61 | a report by count exactly when the configured number is reached; one on timeout only at or past the deadline, never for nothing, and surely once it has passed; until it passes and without a report the deadline stays, otherwise it is set a timeout from a reading of this turn |
| CollectorApp.CollectorApp.ReportCount | collector/core/CollectorApp.cpp:55-57 | the report by count, and the deadline it renews |
| CollectorApp.CollectorApp.ReportAtDeadline | collector/core/CollectorApp.cpp:58-61 | the report on timeout, only when due and only of something, and the deadline then renewed |
| CollectorApp.CollectorApp.SnapshotShows | collector/core/CollectorApp.cpp:92 | a snapshot of counters that match the records shows these records |
| CollectorApp.CollectorApp.ReportsAreRight | collector/core/CollectorApp.cpp:91-94 | in every reachable state all reports show the truth of their time and keep their distance |
| CollectorApp.CollectorApp.Run | collector/core/CollectorApp.cpp:31-66 | over a whole run every report shows, number by number, what had been consumed and dropped by then, every one but the last strictly more than the one before; one after a count names at least the configured number, one on timeout comes at least a timeout after every earlier one, and the last shows all lines of the run and says how it ended |
| CollectorApp.CollectorApp.RunRounds | collector/core/CollectorApp.cpp:37-62 | the loop keeps all of this over any number of rounds and stops at the first failure |
| CollectorApp.CollectorApp.Begin | collector/core/CollectorApp.cpp:32 | the first deadline lies a timeout after the start |
| Sinks.LeafSink.WriteLine | logger/src/MultiSink.cpp:9-21 | a leaf is given the line and sets an error exactly when it fails |
| Sinks.FirstErrorIsFirst | logger/src/MultiSink.cpp:16 | the error reported is that of a failing leaf before which none fails, and none exactly when none fails |
| Sinks.LeavesInOrder | logger/src/MultiSink.cpp:12 | the leaves of a tree come in the order of its sinks |
| Sinks.WriteLine | logger/src/MultiSink.cpp:9-21 | in any nesting every leaf gets the line whatever the others answer, and the first failing leaf in order gives the error |
| Sinks.WriteAll | logger/src/MultiSink.cpp:9-21 | the loop over the sinks goes on after a failure and keeps the first error |
| Sinks.WriteNext | logger/src/MultiSink.cpp:12-17 | one sink's turn touches its own leaves only |
| Sinks.SinkLogger.constructor | logger/src/SinkLogger.cpp:9-10 | a new logger has given its leaves nothing |
| Sinks.SinkLogger.SetLevel | logger/src/SinkLogger.cpp:27-29 | the threshold is the one set |
| Sinks.SinkLogger.Log | logger/src/SinkLogger.cpp:12-25 | for one call at a time: false exactly with a non-empty error; an invalid level is an error and a message under the threshold a success without a line; otherwise all leaves have seen the same history with this line added |
| Callers.StepStaysExclusive | logger/src/SinkLogger.cpp:23-24 | no two callers write at the same time |
| Callers.StepStaysWhole | logger/src/SinkLogger.cpp:23-24 | whatever a step of whichever caller hands to whichever leaf, every leaf has got what it takes of all finished lines, in order, and its part of the one being written |
| Callers.StepStaysCoded | logger/src/SinkLogger.cpp:23-24 | the writing caller holds the first error of the leaves it is done with, and every finished line has that of all leaves |
| Callers.StepStaysJudged | logger/src/SinkLogger.cpp:20-29 | every step keeps what each request met the level of the latest command before it |
| Callers.NextStaysOnCourse | logger/src/MultiSink.cpp:12-18 | one more leaf, failing or not, keeps the code the first one in order |
| Callers.StepStaysBusyRightly | logger/src/SinkLogger.cpp:12-25 | a caller is busy only with a line formatted from its own message that passed the threshold it was judged by |
| Callers.RecordingStaysComplete | logger/src/SinkLogger.cpp:22-24 | letting the lock go adds the one line that was missing, in the order of the caller's calls and with the code its call returns |
| Callers.RunsKeep | logger/src/SinkLogger.cpp:12-33 | all of this holds in every state of every run |
| Callers.LeavesGetEveryLine | logger/src/MultiSink.cpp:9-21 | under every schedule and whichever leaves fail, every leaf has got the same lines in the order of the lock, of each what it takes |
| Callers.LeavesHoldWholeLines | logger/src/SinkLogger.cpp:22-24 | under every schedule of any number of callers the text of a leaf that has not failed can be cut back into exactly the finished lines, in the order of the lock, and the one it has just got, whichever other leaves fail |
| Callers.GivenWhole | logger/src/MultiSink.cpp:9-21 | a leaf that fails on none of them takes the lines whole |
| Callers.CallsReturnTheirOwnFirstError | logger/src/SinkLogger.cpp:12-25 | under every schedule each call returns the error of the first leaf in order that failed on its own line, none if none did; an invalid level that error, and anything else success |
| Callers.MessagesMeetTheLatestLevel | logger/src/SinkLogger.cpp:12-29 | under every schedule each message met the level of the latest command of any caller before it, and became a line exactly when its level names one and is no lower |
| Callers.LatestIsLatest | logger/src/SinkLogger.cpp:27-29 | the threshold is the level of the latest command |
| Callers.LatestIsFirst | logger/src/SinkLogger.cpp:9-10 | and the one the logger was made with before any |
| Callers.RequestsMean | logger/src/SinkLogger.cpp:12-22 | the line of a message is its record formatted, only an invalid level is an error, and a line is framed by one newline |
| Callers.AnswersMean | logger/src/MultiSink.cpp:12-18 | what a leaf takes of a line and the error it sets |
| Callers.MessagesAreRecordedOnce | logger/src/SinkLogger.cpp:12-25 | under every schedule every message that passed is one line, once its call is over, those of a caller in the order of its calls, and no other line appears |
| Callers.SomeCallerCanMove | logger/src/SinkLogger.cpp:23 | the lock never blocks everybody |
| EventQueue.EventQueue.Push | app/core/EventQueue.cpp:6-14 | an open queue takes the event at its end, a closed one refuses it unchanged |
| EventQueue.EventQueue.TryPop | app/core/EventQueue.cpp:16-23 | the front event is taken even after closing; only an empty queue makes the caller wait or, once closed, stop |
| EventQueue.EventQueue.Close | app/core/EventQueue.cpp:25-32 | the queue is closed and keeps its events |
| LogWorker.HandlingKeepsCounts | app/core/LogWorker.cpp:49-72 | processed, failed and filtered messages are all the messages handled, failures are the reasons recorded, and the last error is the last reason |
| LogWorker.HandlingAllKeepsCounts | app/core/LogWorker.cpp:74-85 | the same over any number of events |
| LogWorker.QueuedLastIsHandledLast | app/core/LogWorker.cpp:74-85 | events are handled in the order in which they were queued |
| LogWorker.HandlingOnlyAdds | app/core/LogWorker.cpp:74-85 | no call, fate or reason is ever forgotten or changed |
| LogWorker.ReasonsAre | app/core/LogWorker.cpp:58-71 | what is recorded for each way a call can fail |
| LogWorker.MessagesMeetTheThreshold | app/core/LogWorker.cpp:49-80 | a message at or above the threshold is passed on in one call and its outcome counted, one below is only noted as filtered, and a level command only moves the threshold |
| LogWorker.LevelIsTheLatest | app/core/LogWorker.cpp:80 | the level in force is that of the latest command |
| LogWorker.LevelIsTheFirst | app/core/LogWorker.cpp:80 | and the first threshold before any |
| LogWorker.PassingAt | app/core/LogWorker.cpp:49-51 | each message that passes has its call after those of the earlier ones that pass |
| LogWorker.HandledLevelAndFates | app/core/LogWorker.cpp:74-85 | handling events leaves the level of the latest command and one fate for every message |
| LogWorker.HandlingObeysThresholds | app/core/LogWorker.cpp:49-85 | over any events each message is called exactly when its level is at or above that of the latest command before it, in order, and filtered exactly otherwise |
| LogWorker.LogWorker.RecordFailure | app/core/LogWorker.cpp:41-47 | the reason becomes the last error and one more failure is counted |
| LogWorker.LogWorker.WriteEvent | app/core/LogWorker.cpp:49-72 | a message under the threshold counts as neither; otherwise one call is made and its outcome, exceptions included, is counted once |
| LogWorker.LogWorker.Handle | app/core/LogWorker.cpp:77-83 | a write is counted as its one call came out, and a level command moves nothing but the threshold |
| LogWorker.LogWorker.Turn | app/core/LogWorker.cpp:76-83 | one turn takes the front event and handles it, or leaves everything alone when there is none |
| LogWorker.LogWorker.Loop | app/core/LogWorker.cpp:74-85 | from any queue, whatever the main thread pushes before each look and whenever it closes it, the loop ends with an empty, closed queue and every event handled in order |
| ConsoleApp.QuitIsFinal | app/core/ConsoleApp.cpp:51-67 | lines after the one that stops the program have no effect |
| ConsoleApp.AskedIs | app/core/ConsoleApp.cpp:57-69 | a message and a level command ask for their event, any other line for none |
| ConsoleApp.InterpretHandlesItsEvents | app/core/ConsoleApp.cpp:51-72 | the interpreter handles what the lines ask for, each with the level of the latest command as its default, up to the first line that stops it |
| ConsoleApp.InterpretObeysThresholds | app/core/ConsoleApp.cpp:51-72 | over any input each message is passed on exactly when its level is at or above that of the latest level command before it, or the first threshold, and filtered exactly otherwise |
| ConsoleApp.OneMessageTyped | app/core/ConsoleApp.cpp:55-66 | from what is typed to the call: a level and a text give one call with them when the level is at or above the threshold, and none below |
| ConsoleApp.LineKeepsDefaults | app/core/ConsoleApp.cpp:55-72 | a line keeps the default level equal to the threshold |
| ConsoleApp.InterpretKeepsDefaults | app/core/ConsoleApp.cpp:51-72 | after any input no message that left its level to the default was filtered, and the counts agree |
| ConsoleApp.SummaryNamesTheLastReason | app/core/ConsoleApp.cpp:85-92 | the summary counts every accepted message that was not filtered, and names the last reason exactly when there is one to name |
| Reasons.BlocksGrowAtChanges | app/core/ConsoleApp.cpp:74-78 | a new block of equal reasons begins exactly at a reason that is not empty and differs from the last one that is not |
| Reasons.NeighboursDiffer | app/core/ConsoleApp.cpp:74-78 | no reason is printed twice in a row |
| Reasons.ChangesAreNotEmpty | app/core/ConsoleApp.cpp:74-78 | no empty reason is printed |
| Reasons.OneMoreLookAt | app/core/ConsoleApp.cpp:74-78 | a look prints the last reason exactly when it is there and differs from the one printed last |
| Reasons.LooksShow | app/core/ConsoleApp.cpp:74-78 | at any time the block seen last is on show, no more lines than blocks seen were printed, and exactly the blocks if none was missed |
| Reasons.EveryChangeIsPrintedIff | app/core/ConsoleApp.cpp:74-78 | looking from time to time prints every change if and only if each block of equal reasons is looked into |
| ConsoleApp.Take | app/core/ConsoleApp.cpp:55-72 | what a line queues, once handled, is what the line does at once |
| ConsoleApp.LetWork | app/core/LogWorker.cpp:74-85 | turns of the worker change nothing of what its pending work comes to, and forget no reason |
| ConsoleApp.LookAt | app/core/ConsoleApp.cpp:74-78 | one look prints what printing makes of all looks so far |
| ConsoleApp.Run | app/core/ConsoleApp.cpp:41-92 | for every pace of the worker, summary and exit code are those of the single-thread interpreter, the exit code reports a failure exactly when a reason was recorded, and what is printed are the changes of its reasons that were looked at |
| Interleaving.StepKeeps | app/core/LogWorker.cpp:74-85 | every step of either thread, and every spurious wake-up, keeps the invariant: pending work comes to what the lines read come to, nobody sleeps with work and no notification under way, counts and reports agree with the history |
| Interleaving.RunsKeep | app/core/ConsoleApp.cpp:41-92 | the invariant holds in every state of every run under every schedule |
| Interleaving.LineSettles | app/core/ConsoleApp.cpp:55-66 | whatever the worker is in the middle of, finishing it, the queue and the new line's event is the interpreter's next state |
| Interleaving.WorkerFollows | app/core/LogWorker.cpp:49-85 | no step of the worker changes what its pending work comes to |
| Interleaving.OneMorePrint | app/core/ConsoleApp.cpp:74-78 | a new reason that differs from the last one printed is a later one, so the printed reasons stay a subsequence |
| Interleaving.EveryInterleavingIsSequential | app/core/ConsoleApp.cpp:41-92 | every schedule of the two threads ends with the calls, threshold, counts, fates, reasons and last error of the single-thread interpreter |
| Interleaving.EveryMomentIsOnTheWay | app/core/LogWorker.cpp:74-85 | at every moment the worker has made a first part of the calls the lines read so far come to |
| Interleaving.PendingLevelsGiveTheDefault | app/core/ConsoleApp.cpp:61-65 | in every reachable state the held and queued level commands applied to the threshold give the main thread's level |
| Interleaving.DefaultMessagesAreNeverFiltered | app/core/LogWorker.cpp:49-51 | in every reachable state no message that left its level to the default has been filtered; at the end all of them were processed or failed |
| Interleaving.ThresholdsAreObeyed | app/core/LogWorker.cpp:49-51 | in every reachable state each message dealt with was passed on exactly when its level is at or above that of the latest level command typed before it, and filtered exactly otherwise |
| Interleaving.AcceptedMessagesAreAccountedFor | app/core/LogWorker.cpp:41-85 | in every reachable state accepted messages are the processed, the failed, the filtered, the one in hand and the queued |
| Interleaving.PrintedReasonsAreStutterFree | app/core/ConsoleApp.cpp:74-78 | the reasons printed are, at increasing places, reasons recorded, none empty and no two neighbours equal |
| Interleaving.ChangesFoundArePrinted | app/core/ConsoleApp.cpp:74-78 | the main thread looks once for every line read and prints exactly the changes it finds |
| Interleaving.EveryChangeIsPrintedExactlyWhen | app/core/ConsoleApp.cpp:74-78 | at any moment of any run, every change of the reasons recorded so far has been printed if and only if, for each block of equal reasons, the main thread has looked while the last reason lay in this block |
| Interleaving.EveryChangeWasPrintedExactlyWhen | app/core/ConsoleApp.cpp:74-92 | at the end the same about the single-thread interpreter's reasons, whatever the schedule was |
| Interleaving.AReasonCanGoUnprinted | app/core/ConsoleApp.cpp:74-78 | for a single failing message there is a schedule that prints no reason although one was recorded |
| Interleaving.TheSummaryIsSequential | app/core/ConsoleApp.cpp:85-92 | under every schedule the summary is the interpreter's, its failures are the reasons recorded and it names the last one |
| Interleaving.NoWakeUpIsLost | app/core/EventQueue.cpp:6-32 | in every reachable state a worker that sleeps while the queue is not empty or closed has a notification one step away; it exits only with the queue closed and empty |
| Interleaving.SomeThreadCanMove | app/core/EventQueue.cpp:16-23 | until the main thread is done one of the threads can move without a spurious wake-up: no deadlock |
| Interleaving.MainLessensTheRank | app/core/ConsoleApp.cpp:51-83 | every step of the main thread brings the end closer |
| Interleaving.WorkerLessensTheRank | app/core/LogWorker.cpp:74-85 | every step of the worker brings the end closer |
| Interleaving.RunsAreShort | app/core/LogWorker.cpp:23-26 | no run is longer than a bound linear in the lines and the spurious wake-ups, so the program stops |
| Interleaving.ClosedRunsWindDown | app/core/EventQueue.cpp:25-32 | once the queue is closed the worker never falls asleep again and every step, a spurious wake-up included, lowers a measure of queue length and phase |
| Interleaving.AThreadMoves | app/core/LogWorker.cpp:23-26 | in every reachable state that is not final a thread can make a step that lowers the measure |
| Interleaving.EveryRunCanFinish | app/core/LogWorker.cpp:23-26 | from every reachable state the two threads can finish by themselves, without a spurious wake-up |

## Left out

- Real sockets, `poll`, `getaddrinfo`, `fcntl` and descriptors: their answers are parameters.
- `FileSink`, `UdpSink` and `LoggerFactory`: thin wrappers; a sink that delivers lines itself is `Sinks.LeafSink`. `UdpReceiver`'s splitting of datagrams is an easier form of the line cutter.
- Command-line options, usage and help text, prompts, `formatReport`, `preview`, the `level:` echo and the messages on the error stream other than the reasons of failed writes: printing and flat scanning that would only add easy members.
- TcpSink.TcpSink.SendAll: the answers of `send` are a finite list and an exhausted list counts as a failed connection; endless interruptions and endless readiness, under which the code does not stop, are not modelled.
- TcpSink.TcpSink.ConnectAny: one answer an address stands for creating the socket, connecting, waiting and asking for the pending error.
- Statistics.Statistics.TakeSnapshot: the average is a real number; the rounding of floating-point division is not modelled. Readings of the steady clock before its epoch are not modelled.
- ConsoleApp.Run: the worker takes whole turns, between a push and the look that follows; a turn taken elsewhere comes to the same looks, and steps within a turn are in module Interleaving.
- Interleaving.EveryInterleavingIsSequential: the two threads are modelled on values, not on objects, with sequentially consistent steps; weak memory effects of relaxed atomics and the starting of the thread are not modelled.
- CollectorApp.CollectorApp.Run: the stop flag is represented by the end of the list of rounds, and the receiver by what each call returns; a receiver's timeout is not narrowed to `int`.
- Sinks.SinkLogger.Log: one call after another, over objects; module Callers has many callers at once, over leaves that can fail, on values.
- Machine wrap-around of counters and sizes: counters are natural numbers.
- `gmtime_r` returning a null pointer (a year that does not fit an `int`): both it and a stamp of the wrong length give the unknown stamp, and the years where the two differ lie outside the clock.
- The clock's tick is that of libstdc++, a nanosecond in 64 bits; other ticks change only the two constants of the range.
