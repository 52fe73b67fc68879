# Exit module: a verified model

The exit module runs inside the certificate service. For each issued certificate it reads its
settings from the registry, writes the certificate to a temp file, builds a command line, starts an
external process, waits for it, reports what happened to the event log, and keeps or deletes the
temp file. This project models that pipeline in Dafny and proves what it does over every input,
every outcome of a system call and every history of notifications.

Verify with `dafny verify dfyconfig.toml`.

## How it is built

- `Wide`, `Buffers`, `StrSafe`: 16-bit characters, C strings (a block and a position in it), owned
  heap buffers over a heap that records which blocks are live and which have been released, and the
  strsafe functions. A pointer is only followed, or handed to a report, where it is proved to point
  into a block that has not been released and holds a NUL from there on.
- `Argv`, `CommandLine`: the documented Microsoft argv rules, the ideal command line, and exactly
  when the one reads back the other.
- `Processes` (Process.cpp), `TempFiles` (TempFile.cpp), `MultiSz` and `Configs`
  (EventProcessorConfig.cpp), `EventProcessors` (EventProcessor.cpp), `CertExits`
  (PMICertExit.cpp), `EventSources` (EventSource.cpp), `ExitEventSources`
  (PMIExitModuleEventSource.cpp): the source's classes and loops, proved against specification
  functions. C++ destructors are calls of `Destroy` or `Clear` at the end of the scope, in the
  order the language prescribes; a scope that can be left early is two methods, one that creates
  and destroys the locals and one with the early returns.
- `Win32`: the system calls. Each takes the outcome the system chooses as a parameter, so a theorem
  for all parameters is one for all outcomes. Files, handles and the log of actions are ghost
  state.
- `WriteLoop`, `PowerShell`, `Lifecycle`, `Notifications`: specification functions for the write
  loop, the escaping, one run and one notification, with their own theorems.
- `Answers`, `EventMessages`, and the laws of `Delivery`: what a notification does told a second
  time, from the answers of the system, literal results and the message file alone, and proved of
  the functions the code is proved against.
- `History`, `Delivery`: the main theorems. `History` folds the specification functions that
  `CertExits.CertExit.Notify` is proved to compute over any sequence of steps.

## Main results

1. One notification. `Answers.LogLaw` and `Answers.FilesLaw`: log and files of every notification
   from the raw answers, with the result of the first bad one as a number.
   `Answers.LaunchedExactly`: the answers that have to be good for a launch. `Answers.StartedLaw`:
   everything that follows a start. `Delivery.ArgvLaw` and `Delivery.LineLaw`: each text in its
   place behind its option name, exactly when everything arrives. `EventMessages.ReaderLaw`: a
   reader of the event log gets every report that gets through, in order, with all its fields.
2. Delivery. `Delivery.EndToEnd`: for every notification that launches a line, cut off or not, the
   started process reads the program, the configured arguments and the seven of the notification if
   and only if a condition on the texts and the length of the line holds. Up to 29365 characters of
   subject key identifier and serial number it is a condition on the texts alone
   (`Delivery.IdentifierBound`), and with 29366 it is not (`Delivery.DeliveryIsExact`). The line is
   whole up to 29364 (`Delivery.EveryLineFits`, exact by `Delivery.FitIsExact`); the 29365th
   character can only cut a closing quote that is not missed. Even where the list is not delivered,
   what lies before the first casualty and before the cut arrives (`Delivery.ReachedArrives`).
3. The printer. `CommandLine.CutRoundTrip`: for every program name, every list of arguments, with
   quotes or without, and every place to cut the line behind the name, exactly when the list is
   read back; `CommandLine.RoundTrip` for the whole line; `CommandLine.SurvivorsArrive` and
   `CommandLine.FirstCasualty` for what is read when it is not; `Processes.FormatCommandLine`: the
   buffer holds exactly what fits of the ideal line.
4. Temp files. `History.FilesKept`, `History.PreservedForever`, `History.TempFileFate`,
   `History.LeftBehind`.
5. Reports. `History.LogFollowsGrammar`: over every history the log falls into one part for each
   notification, each in the order the grammar asks for, with a failure event last exactly if the
   handler failed. `History.FailuresReported`, `History.ReportedFileRemains`. What gets into the
   event log: `History.FailuresRecorded`, over the invariant of `ExitEventSources.ExitEventSource`
   that the event log holds exactly the reports that got through.
6. The write loop. Restarting at the first byte is right for every certificate of a length exactly
   under the patterns in which each write moves all or nothing (`WriteLoop.PatternRightExactly`).
   For one certificate these are the only patterns exactly if no proper beginning of it is also its
   end (`WriteLoop.OnlyWholeExactly`), and every pattern is right only for certificates of at most
   one byte (`WriteLoop.AlwaysRightExactly`). The same loop with the bytes counted so far as the
   index of `Write` always is (`EventProcessors.WriteResumed`).
7. Resources. `CertExits.CertExit.Notify`: after every notification, on every path, no heap block,
   file handle or process handle is still held, and each was released once.

## What is assumed of the system

GetTempFileNameW picks a name that is not in use; a failing call leaves a non-zero 16-bit error
code; multi-strings from the registry come with their final empty string; WriteFile moves no more
than it was offered, and the outcomes of the writes of one run make up one run of the loop (when a
loop ends is `WriteLoop.HaltsExactly`); a failing CreateProcessW leaves the process information
alone; CreateProcessW leaves the line buffer it is given unchanged; the certificate has less than
2^32 bytes. An allocation without memory gives a null pointer, as the source tests for
(Buffer.h:186); where `new` throws instead, nothing is claimed of running out of memory. Where a
certificate is processed, the program name was stored with its NUL and the string properties are
not null pointers, as the code goes on to read them; loading and fetching are modelled without
that. Others may change files in between notifications and while a started process is waited for;
theorems about a file say so where nobody else touches it.

## Where code and comments part

The model follows the code. `FormatCommandLine` reports success although arguments were cut off
(Process.cpp:172-184). The write loop passes index 0 and the full length each time although `Write`
takes an index (EventProcessor.cpp:109, TempFile.h). A wait that times out returns the HRESULT of
ERROR_TIMEOUT and an abandoned one E_ABORT (Process.cpp:107-126), not the names in the comment
(Process.h:116-117). A wait that fails with the error code of a timeout is reported as one as well
(`Answers.TimedOutExactly`). The file is not always deleted when the process exits, as the README
says of -rawcertpath: it stays unless the exit code is 0. The comment in the printer says that it
does not handle embedded quotes: one at the very end of a quoted last argument is read back all the
same (`CommandLine.TrailingQuoteIsRead`).

## Model

| member | source | states |
|---|---|---|
| Wide.ToNul | src/PKI/ExitModule/Buffer.h:228-247 | the text of a C string: a NUL-free beginning of the characters, followed by a NUL if there is one |
| Buffers.HeapBuffer.Clear | src/PKI/ExitModule/Buffer.h:141-161 | releases exactly the block owned, once, and owns nothing afterwards |
| Buffers.HeapBuffer.Alloc | src/PKI/ExitModule/Buffer.h:184-196 | a fresh block of the size asked for replaces the old one, which is released; without memory nothing changes |
| StrSafe.StringCchCopyEx | src/PKI/ExitModule/Process.cpp:164-171 | the cursor copy: appends what fits, terminates it, moves onto the NUL, and fails exactly if the text with its NUL does not fit |
| StrSafe.StringCchLength | src/PKI/ExitModule/EventProcessorConfig.cpp:132-137 | the length up to the first NUL within the limit, or failure if there is none |
| Argv.ScanCost | src/PKI/ExitModule/Process.cpp:202-259 | an argument is never longer than what it takes of the line, and shorter by a character once a quote is taken |
| Argv.ScanSpaces | src/PKI/ExitModule/Process.cpp:187-200 | every space taken is read, and no other |
| Argv.SplitLeast | src/PKI/ExitModule/Process.cpp:139-185 | the least a line must hold to be read as a list: its texts, the separators, and quotes for what is empty or holds a blank, all but the last closing one |
| Argv.BackslashRules | src/PKI/ExitModule/Process.cpp:202-259 | the reader follows the documented rules: what 2n and 2n+1 backslashes before a quote, a doubled quote and backslashes elsewhere are read as, and what is read next |
| CommandLine.ScanQuoted | src/PKI/ExitModule/Process.cpp:215-255 | a quoted argument is read as itself if and only if no backslash precedes the closing quote |
| CommandLine.SpacedQuoteIsLost | src/PKI/ExitModule/Process.cpp:207-255 | a quoted argument with a quote in it is read as something else, whatever follows, unless nothing follows and the quote is its only one and its last character |
| CommandLine.PlainQuoteIsLost | src/PKI/ExitModule/Process.cpp:207-240 | a quote in an argument without blanks is lost, whatever follows |
| CommandLine.ScanCasualty | src/PKI/ExitModule/Process.cpp:187-259 | an argument with a quote or an escaped closing quote is not what is read at its place, whatever follows |
| CommandLine.SplitTail | src/PKI/ExitModule/Process.cpp:157-182 | from any beginning of the text of any arguments: they are read back if and only if nothing is cut and all are delivered, or only the last closing quote is cut and all are delivered without it |
| CommandLine.CutRoundTrip | src/PKI/ExitModule/Process.cpp:139-185 | the same for the whole line, cut anywhere behind the program name |
| CommandLine.RoundTrip | src/PKI/ExitModule/Process.cpp:139-259 | for every program name and every argument list: reading the line gives the list back if and only if the name survives, every argument survives, and the last one survives or ends in its only quote |
| CommandLine.SurvivorsArrive | src/PKI/ExitModule/Process.cpp:139-185 | wherever the line is cut behind its first arguments: if these survive they are read, and then what the rest is read as |
| CommandLine.FirstCasualty | src/PKI/ExitModule/Process.cpp:202-259 | all arguments before the first with a lost quote or an escaped closing quote arrive, and something else is read in its place |
| CommandLine.LineInjective | src/PKI/ExitModule/Process.cpp:139-259 | different delivered lists are printed differently |
| CommandLine.EmbeddedQuoteIsLost | src/PKI/ExitModule/Process.cpp:207-209 | a list with a quote in any argument is not read back, unless that is the last argument and the quote trails it |
| CommandLine.TrailingQuoteIsRead | src/PKI/ExitModule/Process.cpp:207-255 | a trailing quote at the end of the line is read back |
| Processes.HasWhiteSpace | src/PKI/ExitModule/Process.cpp:187-200 | true if and only if the text holds a space |
| Processes.WriteArgument | src/PKI/ExitModule/Process.cpp:202-259 | the buffer grows by what fits of the quoted argument; fails exactly if that overflows |
| Processes.FormatCommandLine | src/PKI/ExitModule/Process.cpp:139-185 | for every buffer: its text is exactly what fits of the ideal line; only an overflowing program name makes it fail, overflowing arguments do not |
| Processes.LinePrefix | src/PKI/ExitModule/Process.cpp:158-182 | the line up to any argument begins the whole line, so an early stop leaves a beginning of it |
| Processes.Process.Create | src/PKI/ExitModule/Process.cpp:46-105 | one object starts at most one process; the line launched is what fits of the ideal line; handles are held exactly after success |
| Processes.Process.Wait | src/PKI/ExitModule/Process.cpp:107-126 | the result for each way a wait can end, as a number |
| Processes.Process.GetExitCode | src/PKI/ExitModule/Process.cpp:128-137 | the exit code or the failure of asking for it |
| Processes.Process.Destroy | src/PKI/ExitModule/Process.cpp:33-44 | closes exactly the handles held and releases the command line |
| TempFiles.TempFile.Create | src/PKI/ExitModule/TempFile.cpp:47-98 | takes the file over and empties it, or leaves object and files as they were; only once per object |
| TempFiles.TempFile.Write | src/PKI/ExitModule/TempFile.cpp:114-142 | appends the written bytes from the index given; a closed file is an error |
| TempFiles.TempFile.Close | src/PKI/ExitModule/TempFile.cpp:100-107 | closes the handle held, if any, and keeps the file |
| TempFiles.TempFile.Destroy | src/PKI/ExitModule/TempFile.cpp:24-45 | closes, then tries to delete the file held unless it is preserved |
| MultiSz.CountArguments | src/PKI/ExitModule/EventProcessorConfig.cpp:127-142 | pass one counts what the walk finds, without reading out of bounds or underflow, also if a length call fails |
| MultiSz.FillArguments | src/PKI/ExitModule/EventProcessorConfig.cpp:150-165 | pass two writes each counted slot once and in order, with the start of each string |
| MultiSz.InBoundsExactly | src/PKI/ExitModule/EventProcessorConfig.cpp:130-142 | a walk to the end of the buffer stays in bounds if and only if the buffer is not empty and either its last character is no NUL, or it starts with one, or an empty string follows |
| MultiSz.WalkStarts | src/PKI/ExitModule/EventProcessorConfig.cpp:150-165 | every position stored starts a non-empty string that ends inside the data |
| MultiSz.MultiSzRoundTrip | src/PKI/ExitModule/EventProcessorConfig.cpp:112-165 | parsing the encoding of a list gives the list up to its first empty string, so the whole list if and only if none is empty |
| MultiSz.DoubleNulWalk | src/PKI/ExitModule/EventProcessorConfig.cpp:112-165 | on data ending in two NULs the walk stays in bounds and never fails |
| MultiSz.ParsedNonEmpty | src/PKI/ExitModule/EventProcessorConfig.cpp:112-165 | no argument read from the registry is empty |
| Configs.EventProcessorConfig.Init | src/PKI/ExitModule/EventProcessorConfig.cpp:40-171 | succeeds exactly on the listed answers, among them a program that is a string but not the optional values; on a new object or one that holds settings, after success with a terminated program name it holds program, arguments (none if missing) and escaping (none if missing), each argument pointer spelling its text inside its own live data buffer, if and only if what is optional was found or nothing was held of it |
| Configs.EventProcessorConfig.StoreArguments | src/PKI/ExitModule/EventProcessorConfig.cpp:127-165 | both passes together: the slots hold exactly the parsed arguments |
| PowerShell.LiteralRoundTrip | src/PKI/ExitModule/EventProcessor.cpp:267-319 | PowerShell reads the quoted text back if and only if it holds no single quote |
| PowerShell.SingleQuotedSurvives | src/PKI/ExitModule/EventProcessor.cpp:267-319 | escaping lifts the printer's conditions except that a tab needs a space beside it and a double quote is lost anywhere |
| PowerShell.EscapeRoundTrip | src/PKI/ExitModule/EventProcessor.cpp:121-169 | for every text among any other arguments: escaping, printing, splitting and reading the literal gives the list and the text back if and only if the others are delivered and it holds no single quote, no double quote and no tab without a space |
| EventProcessors.EscapeArgumentForPS | src/PKI/ExitModule/EventProcessor.cpp:267-319 | with memory it never fails: the quoted text fills a new buffer of exactly its length and NUL and the old one is released; without, nothing changes |
| EventProcessors.EventProcessor.GetTempFilePath | src/PKI/ExitModule/EventProcessor.cpp:45-78 | makes one new empty file and names it, or none; only a folder length of 0 counts as a failure |
| EventProcessors.EventProcessor.WriteCertificate | src/PKI/ExitModule/EventProcessor.cpp:105-117 | the loop ends; the file holds the beginnings written, one after the other |
| EventProcessors.EventProcessor.AssembleArguments | src/PKI/ExitModule/EventProcessor.cpp:144-166 | the configured arguments, then the operation and the three option names, each followed by its own value, all pointers valid |
| EventProcessors.EventProcessor.RunProcess | src/PKI/ExitModule/EventProcessor.cpp:186-265 | result, exit code, reports and launch for every outcome, each report through live pointers that spell what it says; no handle or block is left |
| EventProcessors.EventProcessor.NotifyCertIssued | src/PKI/ExitModule/EventProcessor.cpp:80-184 | result, files and log are those of the specification for every outcome; every block and handle is released |
| WriteLoop.HaltsExactly | src/PKI/ExitModule/EventProcessor.cpp:105-117 | the loop ends within given outcomes if and only if one is an error or they move enough bytes |
| WriteLoop.ProgressHalts | src/PKI/ExitModule/EventProcessor.cpp:105-117 | if every success moves a byte it ends after at most as many writes as there are bytes |
| WriteLoop.WholeFirstWrite | src/PKI/ExitModule/EventProcessor.cpp:105-117 | a whole first write leaves exactly the certificate |
| WriteLoop.ShortFirstWrite | src/PKI/ExitModule/EventProcessor.cpp:105-117 | a short first write leaves something else if the byte there differs from the first byte |
| WriteLoop.WrittenMore | src/PKI/ExitModule/EventProcessor.cpp:105-117 | each write appends as much of the beginning of the certificate as it moved |
| WriteLoop.PatternRightExactly | src/PKI/ExitModule/EventProcessor.cpp:105-117 | under one pattern without errors every certificate of its length is right if and only if each write moves all or nothing |
| WriteLoop.WrittenExactly | src/PKI/ExitModule/EventProcessor.cpp:105-117 | for a certificate no proper beginning of which is also its end: the file is the certificate if and only if each write moves all or nothing |
| WriteLoop.BorderIsRight | src/PKI/ExitModule/EventProcessor.cpp:105-117 | for any other certificate two writes that move neither leave it all the same |
| WriteLoop.OnlyWholeExactly | src/PKI/ExitModule/EventProcessor.cpp:105-117 | all or nothing is the only right pattern for a certificate if and only if no proper beginning of it is also its end |
| WriteLoop.AlwaysRightExactly | src/PKI/ExitModule/EventProcessor.cpp:105-117 | right under every pattern of short writes if and only if the certificate has at most one byte |
| WriteLoop.ResumedIsRight | src/PKI/ExitModule/TempFile.cpp:114-142 | what passing the bytes counted so far as the index writes is the certificate under every pattern without errors |
| EventProcessors.WriteResumed | src/PKI/ExitModule/TempFile.cpp:114-142 | the loop that calls `Write` so leaves the certificate in the file under every pattern without errors, and a beginning of it otherwise |
| Lifecycle.PreservedExactly | src/PKI/ExitModule/EventProcessor.cpp:168-181 | the file is preserved if and only if the process was tried and did not exit cleanly |
| CertExits.CopyBstr | src/PKI/ExitModule/Buffer.h:228-247 | the copy is the BSTR up to its first NUL, its buffer is never too small and the old one is released; a null BSTR clears; without memory nothing changes |
| CertExits.CertExit.Fetch | src/PKI/ExitModule/PMICertExit.cpp:213-233 | after success each buffer spells its own property up to the first NUL, and the bytes are the certificate's |
| CertExits.CertExit.NotifyCertIssued | src/PKI/ExitModule/PMICertExit.cpp:202-259 | result, files and log for every outcome of fetching, loading and processing; nothing is left allocated |
| Answers.LogLaw | src/PKI/ExitModule/PMICertExit.cpp:97-259 | for every notification the whole log from the raw answers: what is done and reported up to the first bad one, and one event with its result as a number |
| Answers.LaunchedExactly | src/PKI/ExitModule/EventProcessorConfig.cpp:40-171 | a line is launched if and only if event, server, registry, temp file, writes and memory answer as listed; arguments and escaping may be missing |
| Answers.StartedLaw | src/PKI/ExitModule/EventProcessor.cpp:214-264 | after a start: the report with program, line and ids, and for each outcome of the wait and the exit code the report, its fields and the result of the event |
| Answers.TimedOutExactly | src/PKI/ExitModule/EventProcessor.cpp:220-234 | a started process is reported as timed out after 10 seconds, with its ids and file, if and only if the wait timed out or failed with the code 1460 |
| Answers.FilesLaw | src/PKI/ExitModule/EventProcessor.cpp:80-184 | for every notification the files left, stage by stage, from the raw answers |
| CertExits.CertExit.Notify | src/PKI/ExitModule/PMICertExit.cpp:97-158 | always S_OK; a failure of the handler becomes exactly one event; the event log holds what got through; nothing is left held |
| EventSources.EventSource.Open | src/PKI/ExitModule/EventSource.cpp:36-50 | gives up the registration held before; at most one is open |
| EventSources.EventSource.ReportEvent | src/PKI/ExitModule/EventSource.cpp:64-130 | one record or none and an error, and exactly when which; the record holds as many formatted strings, in order, as a WORD counts of them, so all of them if and only if there are fewer than 65536 |
| EventSources.EventSource.FormatAll | src/PKI/ExitModule/EventSource.cpp:111-120 | every slot is set if all arguments format, a string argument as the pointer it is; otherwise it fails |
| ExitEventSources.ExitEventSource.Send | src/PKI/ExitModule/PMIExitModuleEventSource.cpp:46-54 | the report is made; it is in the event log exactly if that is open and nothing fails on the way, with its id and strings; a failure stays here |
| ExitEventSources.ExitEventSource.ReportProcessSucceeded | src/PKI/ExitModule/PMIExitModuleEventSource.cpp:29-55 | reports the ids and the exit code, in the order of the message text |
| ExitEventSources.ExitEventSource.ReportProcessFailed | src/PKI/ExitModule/PMIExitModuleEventSource.cpp:57-86 | reports the ids, the exit code and the temp file |
| ExitEventSources.ExitEventSource.ReportProcessTimedOut | src/PKI/ExitModule/PMIExitModuleEventSource.cpp:88-117 | reports the seconds, the ids and the temp file |
| ExitEventSources.ExitEventSource.ReportProcessStartSucceeded | src/PKI/ExitModule/PMIExitModuleEventSource.cpp:119-149 | reports the program, its command line and the ids |
| ExitEventSources.ExitEventSource.ReportProcessStartFailed | src/PKI/ExitModule/PMIExitModuleEventSource.cpp:151-180 | reports the program, the command line if there is one, and the error with its message |
| ExitEventSources.ExitEventSource.ReportNotifyFailedInternalError | src/PKI/ExitModule/PMIExitModuleEventSource.cpp:182-211 | reports the event, its context and the error with its message |
| EventMessages.ReaderLaw | src/PKI/PMIExitModuleMessages/PMIExitModuleMessages.mc:34-79 | a reader that knows the message file gets, of every report that gets through and of no other, the kind of event and each field by its insert number, in the order of the reports |
| ExitEventSources.AllRecorded | src/PKI/ExitModule/PMIExitModuleEventSource.cpp:29-211 | every report is in the event log if and only if each gets through |
| ExitEventSources.RecordedFailures | src/PKI/ExitModule/PMIExitModuleEventSource.cpp:182-211 | there are as many failure records as failure reports if and only if each of these gets through, and never more |
| History.OthersFilesKept | src/PKI/ExitModule/EventProcessor.cpp:80-184 | a notification neither changes nor tries to delete a file that existed before it |
| History.ActionsOnOwnFile | src/PKI/ExitModule/EventProcessor.cpp:186-265 | the only file it tries to delete is its own, the only one its reports are handed is its own and preserved |
| History.TempFileFate | src/PKI/ExitModule/EventProcessor.cpp:90-183 | the temp file remains if and only if it was not taken over, or the process was tried without a clean exit, or deletion failed; the branch for a missing program is never taken |
| History.ReportedFileRemains | src/PKI/ExitModule/EventProcessor.cpp:220-256 | a failed or timed-out report is handed the name of a file that remains with what was written |
| History.FilesKept | src/PKI/ExitModule/TempFile.cpp:24-98 | over every history no file that was there before is overwritten or deleted |
| History.PreservedForever | src/PKI/ExitModule/EventProcessor.cpp:170-181 | over every later history a preserved file keeps what its run wrote and is never deleted |
| History.PreservedCertificate | src/PKI/ExitModule/EventProcessor.cpp:105-181 | that is the certificate if each write moved all or nothing, and only then if no proper beginning of it is also its end |
| History.LeftBehind | src/PKI/ExitModule/TempFile.cpp:24-98 | after every undisturbed history the files are those from before and exactly one for each run that kept its own |
| History.ReadRun | src/PKI/ExitModule/EventProcessor.cpp:200-264 | what each way of running a process leaves owed in the log |
| History.LogFollowsGrammar | src/PKI/ExitModule/PMICertExit.cpp:97-158 | over every history: the log is one part for each notification; there a launch is answered by a start report with its line, a start by at most one report with its ids and file, a success by an attempt to delete its file, and exactly a failed handler by one last event with its result |
| History.GrammarOwes | src/PKI/ExitModule/PMICertExit.cpp:146-154 | every log the grammar accepts holds exactly one failure event if the handler failed, and none if not |
| History.FailuresReported | src/PKI/ExitModule/PMICertExit.cpp:146-154 | over every history: as many failure events as handlers that failed |
| History.FailuresRecorded | src/PKI/ExitModule/PMICertExit.cpp:146-154 | over every history: the event log holds a record for each handler that failed if and only if each such report gets through, and never more |
| Delivery.PrintedWithinBudget | src/PKI/ExitModule/Process.cpp:202-259 | printing non-empty strings costs at most two characters each more than storing them |
| Delivery.WalkBudget | src/PKI/ExitModule/EventProcessorConfig.cpp:127-165 | the parsed strings take up no more than the data |
| Delivery.LineLength | src/PKI/ExitModule/EventProcessor.cpp:144-166 | the exact length of the command line |
| Delivery.EveryLineFits | src/PKI/ExitModule/Process.cpp:24-24 | up to 29364 identifier characters the whole line fits, whatever the registry and the path |
| Delivery.FitIsExact | src/PKI/ExitModule/Process.cpp:157-184 | with one more there is a registry and a path with which it does not |
| Delivery.LineDelivery | src/PKI/ExitModule/Process.cpp:139-185 | the list is read back from what fits of its line if and only if the line fits and every part is deliverable, or only a closing quote is cut and every part is deliverable without it |
| Delivery.EndToEnd | src/PKI/ExitModule/EventProcessor.cpp:121-169 | for every notification that launches a line, whole or cut: registry to argv, if and only if delivered |
| Delivery.ArgvLaw | src/PKI/ExitModule/EventProcessor.cpp:121-169 | for every line launched: program, stored arguments, operation, and identifier, serial number and path each behind its own option name, the first and last quoted if the registry says so, are read in their places if and only if a condition on these texts and the length of the line holds |
| Delivery.LineLaw | src/PKI/ExitModule/Process.cpp:139-185 | the line launched is the first 32767 characters of the ideal line of these texts |
| Delivery.IdentifierBound | src/PKI/ExitModule/Process.cpp:24-24 | up to 29365 identifier characters delivery is a matter of the texts alone |
| Delivery.DeliveryIsExact | src/PKI/ExitModule/Process.cpp:157-184 | with one more there is a registry, a certificate and a path, all deliverable, for which another list is read |
| Delivery.LineReached | src/PKI/ExitModule/Process.cpp:139-185 | from a line whole or cut: the program and every argument before a casualty and the cut are read in their places |
| Delivery.ReachedArrives | src/PKI/ExitModule/EventProcessor.cpp:121-169 | the same for every notification that launches a line, delivered or not |
| Delivery.IdentifierReached | src/PKI/ExitModule/EventProcessor.cpp:144-166 | the identifier is reached if and only if program, configured arguments and it survive and the line up to it fits |
| Delivery.LiteralsDelivered | src/PKI/ExitModule/EventProcessor.cpp:121-169 | with escaping on, the identifier a script reads, whenever reached, and the path, when delivered, are the original ones if and only if they hold no single quote |
| Delivery.ConfiguredArguments | src/PKI/ExitModule/EventProcessorConfig.cpp:112-165 | the configured list is the stored list if and only if that has no empty string |

## Left out

- COM and ATL plumbing, `Initialize`, the manage module and the setup tool: no algorithm.
- Property fetching in CertServerExit.cpp: the properties are inputs that may fail to arrive.
- EventProcessors.EventProcessor.WriteCertificate: an endless loop of writes that succeed with no bytes is no run of it; `WriteLoop.HaltsExactly` says when the loop ends.
- EventProcessors.EventProcessor.NotifyCertIssued: an endless loop of writes that succeed with no bytes is no run of it; `WriteLoop.HaltsExactly` says when the loop ends.
- Processes.FormatCommandLine: for buffers of at least one character, as its only caller passes 32768.
- CertExits.CertExit.NotifyCertIssued: without runs whose write loop never ends, as above.
- CertExits.CertExit.Notify: without runs whose write loop never ends, as above.
- Type and category of events. How a number is printed and what text an error has are any function and any answer of the system; the buffers event arguments format into are not modelled.
- CStaticBuffer and CRefBuffer: fixed arrays without ownership.
- Real time: a timeout is one of the outcomes of a wait. Processes that outlive the wait are part of what others do to files.
- Tracing output.
