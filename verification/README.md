# Stone Ridge: a Dafny model of its hard parts

Stone Ridge is a network test harness: daemons pass test jobs from queue to queue, a worker runs each job as
a chain of subprocesses, and a vendored copy of Web Page Replay records web pages and plays them back. This
project models the parts in which several steps must agree with each other, and proves that they do, or
states exactly when they do not. Verify with `dafny verify dfyconfig.toml`.

- **Replay data path** (`PyStrings`, `Numerals`, `HttpArchive`, `ScriptInjection`, `ChunkedCoding`,
  `HttpProxy`). A response is a list of chunks with a parallel list of delays. It is joined into text with a
  separator, edited or injected with a script, split again, and sent in the chunked coding of section 3.6.1
  of RFC 2616. `Replay.InjectedBodyArrives` runs the whole way, from the archive to what the client reads.
- **Worker** (`Worker`). `run_process` calls itself from its own error handler. The recursion is shown to
  make exactly the launches of a flat script; what holds of every run is proved about the script.
- **Servers, modes and names** (`ServerManager`, `Replay`, `DnsProxy`). The hand-written unwinding loop
  against nested context managers; mode switches through callback lists; DNS packets against a decoder
  written from sections 3.1 and 4.1.1 to 4.1.4 of RFC 1035.
- **Request keys** (`ArchivedRequest`). When a persisted request still finds itself in the archive.
- **Job pipeline** (`Pipeline`). Queues as sequences, steps of the daemons, and crashes of master and
  schedulers.
- **resolv.conf** (`ResolvConf`) and Apache's **provider registry** (`Provider`).

Objects the source changes in place are classes; each method is proved against a function of the old state,
and the properties are proved about those functions. Functions that only compute have no row below; the
lemma or method that says what they mean does.

## Where the code differs from what it says

- `set_response_from_text` calls itself the inverse of `get_response_as_text`. A text whose data holds a
  delay separator is skipped, so nothing changes (`HttpArchive.EditIsSkipped`); a response that is not text
  loses its data to one empty chunk (`HttpArchive.EditRoundTrip`, `HttpArchive.ImageLosesItsData`). The
  delays are checked against the old data, so no edit can change the number of chunks and leave delays
  that match (`HttpArchive.EditKeepsAlignment`). Delays that are rejected stay in the object.
- A chunk or script that holds the chunk separator makes injection add chunks; the sender then stops at the
  shorter list, ends the message properly, and the rest of the page is lost (`Replay.InjectedBodyArrives`,
  `Replay.SeparatorExample`).
- A chunk extension, which RFC 2616 allows, ends in a NameError, because its branch reads a variable that
  does not exist (`ChunkedCoding.ExtensionsAreFatal`, `ChunkedCoding.ExtensionExample`).
- A negative chunk size is read as an empty chunk (`ChunkedCoding.NegativeSize`), which ends the message when
  it is sent again (`ChunkedCoding.ReadBack`).
- A negative delay makes the sleep raise, which cuts the response short (`HttpProxy.NothingDropped`,
  `HttpProxy.CutShort`, `HttpProxy.NegativeDelayExample`). Such delays can arise, as the round-trip time is
  subtracted from the recorded one.
- `ServerManager.Run` calls `__exit__` also when `__enter__` raised, which `with` does not
  (`ServerManager.WithUnlessEnterFails`, `ServerManager.FailedEnterIsExited`).
- A DNS query with anything behind its question, such as an EDNS record, gets a reply that does not decode
  to the expected message (`DnsProxy.ResponseDecodes`, `DnsProxy.EdnsReplyDoesNotDecode`).
- The message of a worker error names the log of the last child that failed, which need not be the stage it
  names (`Worker.ErrorNamesOwnLog`). A DNS restore that always fails inside the window recurses without end
  (`Worker.RestoringEndsIff`, `Worker.HopelessRestoreNeverEnds`); the normal restore, if it fails, is never
  repeated (`Worker.DnsIsRestored`).
- `enqueue` accepts a nightly request with lists of netconfigs and systems, and `nightly` is its default. The
  master overwrites both lists, so such a request is run everywhere, each pair once, whatever it listed
  (`Pipeline.ClientsGetWhatWasAsked`, `Pipeline.AtLeastWhatWasAsked`, `Pipeline.NightlyListsAreOverwritten`).
- A provider whose last registration was NULL is listed but not found (`Provider.ListedIffFound`,
  `Provider.NullIsListed`).
- Forwarding DNS without private passthrough ends in an AttributeError while the server is set up, since
  there is no lookup object to register (`Replay.RegisterCallbacks`).
- A server on another port than the usual one is archived under a host that carries the port, which no DNS
  query asks for (`Replay.KeptNamesAreHostTexts`, `Replay.PortHidesHost`).
- Trimming request headers is not idempotent, for instance on `gzip,,sdch`; two entries of an archive can
  become one when it is loaded (`ArchivedRequest.DoubledCommaBreaksKey`, `ArchivedRequest.ArchiveReloads`,
  `ArchivedRequest.TwoEntriesBecomeOne`).

## Model

| member | source | states |
|---|---|---|
| PyStrings.FindSpec | wpr/httparchive.py:633 | the position a split cuts at is the leftmost occurrence of the separator, and there is none exactly when the text does not contain it |
| PyStrings.JoinSplit | wpr/httparchive.py:609-640 | joining what a split returned gives the text back, for every text and every separator |
| PyStrings.SplitPiecesFree | wpr/httparchive.py:633 | no piece of a split contains the separator |
| PyStrings.SplitGlue | wpr/httparchive.py:633 | splitting a concatenation fuses the last piece of the left with the first of the right, when no separator lies across the seam |
| PyStrings.SplitJoin | wpr/httparchive.py:609-640 | splitting a joined list splits each member, for a border-free separator |
| PyStrings.SplitUndoesJoin | wpr/httparchive.py:609-640 | for a border-free separator, splitting undoes joining if and only if the list is non-empty and its members are free of the separator |
| PyStrings.RoundTripNeedsBorderFree | wpr/httparchive.py:485-489 | separators for which all separator-free lists survive are exactly the border-free ones |
| Numerals.PrintParse | wpr/httparchive.py:639-640 | parsing a printed number gives it back, in every base up to 16 |
| Numerals.SizeLineParses | wpr/httpclient.py:138-147 | the size line `'%x\r\n'` is read by `int(line, 16)` as the size that was printed |
| HttpArchive.SetThenGet | wpr/httparchive.py:560-577 | setting a header changes what is read under its key and under no other, and never makes a second entry |
| HttpArchive.ChunkSeparatorBorderFree | wpr/httparchive.py:485 | the chunk separator has no border |
| HttpArchive.DelaySeparatorBorders | wpr/httparchive.py:488-489 | the delay separator has a border of one newline and no longer one |
| HttpArchive.ChunkCodec | wpr/httparchive.py:594-640 | the chunk text codec returns the chunks exactly for non-empty separator-free lists, and returns every text |
| HttpArchive.TextOfMeans | wpr/httparchive.py:594-609 | text types and one script type have a text form, the plain chunks joined; all others have none |
| HttpArchive.EncodingDecides | wpr/httparchive.py:585-608 | gzip, deflate or neither: which chunks are compressed, and with which flag |
| HttpArchive.TextFormSplits | wpr/httparchive.py:615-671 | the text form splits into its delays and its data, despite the self-overlap of the separator; only a separator inside the data makes more parts |
| HttpArchive.EditRoundTrip | wpr/httparchive.py:615-672 | setting any response from its own text form: skipped exactly when the data holds a delay separator, rejected exactly when the delays did not fit; the chunks stay exactly when skipped, rejected, some and separator-free and restored by compressing again, or a non-text response is one empty chunk; the delays stay unless there were none |
| HttpArchive.EditIsSkipped | wpr/httparchive.py:665-670 | an edit of a response whose data holds a delay separator is skipped, whatever was changed before or behind it |
| HttpArchive.ImageLosesItsData | wpr/httparchive.py:621-624 | an image of one chunk is left with one empty chunk |
| HttpArchive.EditKeepsAlignment | wpr/httparchive.py:642-672 | for every edit text: chunks and delays match afterwards exactly when the text is skipped or both parts number what the response had before |
| HttpArchive.EditMeans | wpr/httparchive.py:654-672 | what an edit of two parts leaves: delays kept when they cannot be parsed, replaced even when rejected, zeros when missing; rejected exactly when not one for each old chunk; chunks replaced exactly when nothing is rejected |
| HttpArchive.WithTextDeclaresLength | wpr/httparchive.py:638-640 | setting text on an unchunked response makes the first content-length tell the length of the new body; all of them do if and only if those behind the first already did; chunked responses keep their headers |
| HttpArchive.ArchivedHttpResponse.Init | wpr/httparchive.py:491-514 | a response built without an exception has one delay per chunk; the exception comes exactly on a length mismatch |
| HttpArchive.ArchivedHttpResponse.FixDelays | wpr/httparchive.py:516-529 | missing delays become zeros; it raises exactly when the numbers differ, and otherwise chunks and delays match |
| HttpArchive.ArchivedHttpResponse.SetState | wpr/httparchive.py:543-558 | unpickling either archive generation yields matching delays or raises exactly on a mismatch; the older delays win |
| HttpArchive.ArchivedHttpResponse.SetHeaderInPlace | wpr/httparchive.py:572-577 | the loop over the list replaces the first entry under the key or appends one |
| HttpArchive.ArchivedHttpResponse.SetData | wpr/httparchive.py:628-640 | new chunks and content-length as `WithText` computes them; nothing else changes |
| HttpArchive.ArchivedHttpResponse.SetDelays | wpr/httparchive.py:642-658 | text that cannot be parsed keeps the delays; a mismatch raises and leaves the new ones in place |
| HttpArchive.ArchivedHttpResponse.SetResponseFromText | wpr/httparchive.py:660-672 | skipped unless there are exactly two parts; delays first, and data only if those were accepted |
| ScriptInjection.MatchEndIsShortest | wpr/httpclient.py:28-29 | the computed end of a match is that of the shortest prefix in the language of the pattern, and there is none when none is computed |
| ScriptInjection.InjectionPointMeans | wpr/httpclient.py:71-75 | the script goes behind the shortest match of the head pattern, or of the html pattern if and only if the head pattern has none; nowhere in an empty text, one that holds it, or one with neither tag |
| ScriptInjection.TagIgnoresCase | wpr/httpclient.py:28-29 | a tag is met in small and capital letters |
| ScriptInjection.PointInMeans | wpr/httpclient.py:64-66 | only pages whose content type begins with `text/html` are injected, at the point of their plain chunks joined |
| ScriptInjection.InjectedText | wpr/httpclient.py:68-80 | an injected page is the old text with `<script>`, the script and `</script>` written at the point |
| ScriptInjection.HeadComesFirst | wpr/httpclient.py:72-74 | with `<HTML><HEAD>` the script goes behind the second tag |
| ScriptInjection.ChunkCountAfterInjection | wpr/httpclient.py:68-80 | injection keeps the number of chunks if and only if chunks and script are free of the separator, and otherwise adds some |
| ScriptInjection.InjectionGrowsOneChunk | wpr/httpclient.py:68-80 | exactly one chunk changes, by the block inserted into it, and so does the body as a whole |
| ScriptInjection.InjectKeepsHeaders | wpr/httpclient.py:79-80 | no header but content-length is changed, nor version, status, reason or delays |
| ScriptInjection.InjectKeepsAlignment | wpr/httpclient.py:64-81 | an injected response keeps its delays, and as many chunks as delays exactly when its plain chunks and the script are free of the separator |
| ScriptInjection.InjectInsertsOneBlock | wpr/httpclient.py:64-81 | an injected uncompressed response has one chunk, and so its body, grown by one script block behind the end of a tag, if and only if chunks and script are free of the separator; otherwise it has more chunks |
| ScriptInjection.InjectIsIdempotent | wpr/httpclient.py:71 | injecting twice is injecting once, for a compressed page as soon as its stored chunks uncompress to what was compressed |
| ScriptInjection.InjectScripts | wpr/httpclient.py:51-81 | the argument itself when nothing is inserted, otherwise a fresh edited copy; the argument is never changed |
| ChunkedCoding.ReadRound | wpr/httpclient.py:118-126 | a round that yields a chunk consumes input, which is why reading terminates |
| ChunkedCoding.RoundBySize | wpr/httpclient.py:118-126 | zero ends the body, a positive size takes so many bytes and two more, and fails when they are not all there |
| ChunkedCoding.NegativeSize | wpr/httpclient.py:143-147 | a negative size reads as an empty chunk |
| ChunkedCoding.NoSizeNoBody | wpr/httpclient.py:119-121 | a size line that is a word with something in it that is no digit is an incomplete read |
| ChunkedCoding.CapitalSize | wpr/httpclient.py:144 | sizes in capital digits are read |
| ChunkedCoding.ReadPrefix | wpr/httpclient.py:114-136 | chunks as the sender writes them, whatever follows: read up to the first empty one, or else all, followed by what the rest reads as |
| ChunkedCoding.ReadingConsumes | wpr/httpclient.py:117-133 | a body read to its end has used up input |
| ChunkedCoding.ReadBack | wpr/httpclient.py:114-136 | reading what the sender wrote returns exactly the chunks before the first empty one, and consumes exactly the message or up to behind that chunk |
| ChunkedCoding.RoundTripExact | wpr/httpproxy.py:106-115 | list and consumed bytes are exact if and only if no chunk is empty |
| ChunkedCoding.TrailedMessage | wpr/httpclient.py:129-133 | a message of non-empty chunks with any trailer lines reads as its chunks, and the trailers are dropped |
| ChunkedCoding.ExtensionsAreFatal | wpr/httpclient.py:138-147 | a message of non-empty chunks whose size lines may carry extensions is read exactly when none does, and ends in a NameError otherwise |
| ChunkedCoding.ExtensionExample | wpr/httpclient.py:140-142 | the size line `5;a=b` ends in a NameError |
| ChunkedCoding.DetailedHttpResponse.ReadLine | wpr/httpclient.py:118 | a line up to and including its newline, and the rest |
| ChunkedCoding.DetailedHttpResponse.SkipTrailers | wpr/httpclient.py:130-133 | reads to behind the first blank line or to the end |
| ChunkedCoding.DetailedHttpResponse.SafeRead | wpr/httpclient.py:125-126 | exactly the amount, nothing for a negative one, an error when bytes are missing |
| ChunkedCoding.DetailedHttpResponse.NextRound | wpr/httpclient.py:118-127 | size line, delay, data and line break of one round, with its three errors |
| ChunkedCoding.DetailedHttpResponse.ReadChunks | wpr/httpclient.py:91-136 | the loop computes the chunks of the body, one delay for each, and leaves the rest unread; an unchunked body is one chunk with delay 0 |
| ChunkedCoding.GapIs | wpr/httpclient.py:115-127 | the delay of a chunk is the time from the reading behind the chunk before it to the one behind its size line |
| HttpProxy.SentMeans | wpr/httpproxy.py:96-108 | a chunk is written exactly when it has a delay and no sleep before or at it fails |
| HttpProxy.ClientReads | wpr/httpproxy.py:94-115 | what a client reads of any chunked response: the written chunks before the first empty one, complete if one is empty or the sending finishes, and otherwise running on into what follows |
| HttpProxy.NothingDropped | wpr/httpproxy.py:94-115 | the client gets all archived chunks if and only if no sleep fails before the last, none lacks a delay and none is empty |
| HttpProxy.CutShort | wpr/httpproxy.py:94-122 | a response cut short by a failing sleep reads as incomplete if and only if no empty chunk was written before |
| HttpProxy.NegativeDelayExample | wpr/httpproxy.py:107-108 | a page of two chunks whose second delay is -1: the client gets the first and fails |
| HttpProxy.DeclaredLengthIsWritten | wpr/httpproxy.py:87-113 | an unchunked response loses exactly the chunks that are not reached; if recorded lengths are right, every content-length sent tells the bytes written if and only if those are empty; at most one is gained, and sending again gains none |
| HttpProxy.SentMatchesRecorded | wpr/httpproxy.py:101-103 | every header but the server name is sent as often and with the same value as recorded, and the server name never |
| HttpProxy.SentInOrder | wpr/httpproxy.py:101-103 | exactly the headers other than the server name are sent; without one, all of them in order |
| HttpProxy.SentAppend | wpr/httpproxy.py:101-103 | headers are sent one after the other |
| HttpProxy.ClientIsToldRight | wpr/httpproxy.py:87-115 | the client is told that the body is chunked exactly when the bytes are; otherwise it is told a length, which is the number of bytes written if and only if none is lost |
| HttpProxy.SendArchivedHttpResponse | wpr/httpproxy.py:77-124 | the header the response keeps, the headers sent, and the bytes written, also when a sleep fails |
| HttpProxy.SendHeaders | wpr/httpproxy.py:101-103 | all headers but `server`, in order |
| HttpProxy.SendBody | wpr/httpproxy.py:106-115 | the zipped chunks up to a failing sleep, framed, and the last chunk when none failed |
| Worker.StagesInOrder | srworker.py:188-223 | up to and including its first failure a terminating run, in any environment, launches the fourteen stages in order, and all of them if none fails |
| Worker.SavedExactlyOnce | srworker.py:121-223 | whatever fails, every terminating run launches the archiver exactly once and then the uploader exactly once |
| Worker.LogsInOrder | srworker.py:125-128 | the i-th launch of a terminating run writes log number i, however deep in the recursion |
| Worker.FailureOutsideWindow | srworker.py:141-186 | outside the DNS window the handling of a failure launches the archiver and the uploader if still due, and nothing else |
| Worker.FailedRunIsShort | srworker.py:141-223 | a terminating run whose first failing launch is no window stage ends with the archiver and the uploader, each if it has not had its turn, and nothing else |
| Worker.RestoreComesFirst | srworker.py:147-183 | inside the window a successful restore precedes every archiver and uploader launch that a failure causes |
| Worker.DnsIsRestored | srworker.py:197-209 | after a successful DNS change a restore is launched, and when a window stage fails nothing is archived or uploaded before a restore succeeded; DNS ends up restored if and only if a window stage failed or the one normal restore succeeded |
| Worker.RestoringEndsIff | srworker.py:147-162 | in any environment, restoring ends if and only if some restore among the following ones would succeed |
| Worker.HopelessRestoreNeverEnds | srworker.py:147-162 | when every restore fails, restoring ends nowhere |
| Worker.SettlingEnds | srworker.py:147-162 | when restores fail only finitely often, restoring ends where the flat script says |
| Worker.TerminatingRun | srworker.py:188-223 | a run that terminates, in whatever environment, makes the launches of a run in one where everything succeeds once it is over |
| Worker.SettlingRunEnds | srworker.py:121-223 | when restores fail only finitely often, every run terminates with the launches of the flat script |
| Worker.RunEndsIff | srworker.py:121-223 | in any environment, a run terminates if and only if for some n it would make at most n launches were everything to succeed from then on |
| Worker.QuietWindowEnds | srworker.py:147-162 | a run in whose DNS window nothing fails terminates within fourteen launches, even if no restore ever succeeds |
| Worker.ErrorNamesOwnLog | srworker.py:113-119 | in any environment, wherever the handling of a failure terminates, the error names its own stage's log if and only if everything launched to handle it succeeded |
| Worker.ErrorOfRun | srworker.py:94-119 | the error that ends a run names the log of its first failing launch if and only if nothing fails after it |
| Worker.StoneRidgeWorker.Handle | srworker.py:60-111 | from whatever state, a run launches the processes of the flat script, and the flags are reset behind it |
| Worker.StoneRidgeWorker.LaunchProcess | srworker.py:125-145 | takes the next log number and remembers the log of a failure |
| Worker.StoneRidgeWorker.RunProcess | srworker.py:121-186 | the re-entrant handler makes exactly the launches of the cascade, raises exactly on failure, and leaves the flags as stated; it terminates by a lexicographic measure |
| Worker.StoneRidgeWorker.RestoreDns | srworker.py:147-167 | restores until one succeeds, with archiving and uploading masked and then unmasked |
| Worker.StoneRidgeWorker.Step | srworker.py:188-223 | a stage of the run, which an exception leaves |
| Worker.StoneRidgeWorker.RunTest | srworker.py:188-223 | the launches of the flat script |
| Worker.StoneRidgeWorker.SetUp | srworker.py:189-197 | the stages before the DNS window |
| Worker.StoneRidgeWorker.RunWindow | srworker.py:201-205 | the stages inside the DNS window |
| Worker.StoneRidgeWorker.TearDown | srworker.py:209-223 | the stages behind the window, with the flags for archiver and uploader |
| ServerManager.WithUnlessEnterFails | wpr/servermanager.py:113-131 | the nested form differs from `with` statements if and only if a reached `__enter__` raises, by one `__exit__` call |
| ServerManager.FailedEnterIsExited | wpr/servermanager.py:116-126 | one server whose `__enter__` raises is exited, which `with` does not do |
| ServerManager.ExitsReverseInits | wpr/servermanager.py:38-42 | every initialised server is exited exactly once, in reverse order, and no other is |
| ServerManager.LastExitDecides | wpr/servermanager.py:119-131 | each exit sees, and the manager finally raises, what the last exit before that did not let the exception pass decided: nothing if it suppressed it, its own if it raised; if there is none, the first exception of an initializer or enter, or the interrupt |
| ServerManager.AllPassing | wpr/servermanager.py:123-131 | when every exit lets it pass, the first exception is seen by all and raised again |
| ServerManager.StartsInOrder | wpr/servermanager.py:114-117 | servers are started in the order of appending, none left out |
| ServerManager.ServerManager.Append | wpr/servermanager.py:38-50 | servers start in the order of appending |
| ServerManager.ServerManager.Run | wpr/servermanager.py:103-131 | the two loops make the same calls with the same exceptions in flight, and end with the same exception, as nested context managers |
| DnsProxy.DomainInvertsEncoding | wpr/dnsproxy.py:168-177 | the label loop returns the dotted name of every encoded name, whatever follows it, and succeeds on no other input |
| DnsProxy.Domain | wpr/dnsproxy.py:168-177 | the loop computes that result or ends in an IndexError |
| DnsProxy.NameIntoPointer | wpr/dnsproxy.py:188 | a record name that ends in the answer's pointer is the pointer alone, or longer than the name pointed to |
| DnsProxy.ResponseDecodes | wpr/dnsproxy.py:144-195 | for every standard one-question query with a non-root name, the reply decodes to the same id and question and one A record for that name with the address as data, if and only if nothing follows the question |
| DnsProxy.EdnsReplyDoesNotDecode | wpr/dnsproxy.py:183-194 | the reply for `www` decodes, and with an OPT record behind the question it does not |
| DnsProxy.QueryGets | wpr/dnsproxy.py:144-166 | what every datagram gets: an IndexError exactly when it breaks off, an answer for the empty name if it is no standard query, and otherwise no such name, an empty packet or the response, by its name and the lookup |
| DnsProxy.OpcodeBits | wpr/dnsproxy.py:149 | the operation code is the four bits behind the top one of the third byte |
| ArchivedRequest.EraseChanges | wpr/httparchive.py:453-454 | erasing `sdch` is the identity exactly on values without it, and shortens all others |
| ArchivedRequest.TrimTwiceIff | wpr/httparchive.py:450-457 | trimming twice equals trimming once if and only if erasing leaves neither a new `sdch` nor two commas at the end |
| ArchivedRequest.KeyMeans | wpr/httparchive.py:347-357 | requests are one entry exactly when command, host, path, body, transport and trimmed headers agree; trimming takes out exactly the undesirable headers |
| ArchivedRequest.ConditionalFindsPage | wpr/httparchive.py:465-477 | a conditional request finds the page archived without conditions if and only if the accept-encoding trims once |
| ArchivedRequest.ReloadedEqualsIff | wpr/httparchive.py:351-390 | a persisted and reloaded request equals its original if and only if its accept-encoding trims once |
| ArchivedRequest.ArchiveReloads | wpr/httparchive.py:351-390 | all requests of an archive are found under their keys after loading if and only if none has anything left to trim; entries are lost if and only if two keys fall together |
| ArchivedRequest.TwoEntriesBecomeOne | wpr/httparchive.py:450-457 | the requests of `gzip,,sdch` and `gzip,sdch` are two entries, and one when the archive is loaded |
| ArchivedRequest.TokenListsTrimOnce | wpr/httparchive.py:450-457 | for every comma-free token list: trimming once is enough if and only if erasing the word leaves it in no token and does not empty the last two of three or more |
| ArchivedRequest.ValueIsTokenList | wpr/httparchive.py:450-457 | every header value is such a list, cut at its commas |
| ArchivedRequest.CleanTokensTrimOnce | wpr/httparchive.py:450-457 | non-empty tokens that are `sdch` itself or free of it trim once unless two `sdch` close a list of at least three |
| ArchivedRequest.DoubledCommaBreaksKey | wpr/httparchive.py:455-457 | `gzip,,sdch` is a value that does not trim once |
| ArchivedRequest.TrimHeaders | wpr/httparchive.py:425-463 | returns the desirable headers, and cleans the dictionary it was given |
| Replay.RegisterCallbacks | wpr/replay.py:252-265 | the callbacks as registered one after the other; an AttributeError exactly when forwarding lacks its lookup object |
| Replay.WiredSwitches | wpr/replay.py:252-258 | run in the order of registration, the callbacks leave archive and cache empty in record mode; with forwarding, the host set is empty in record mode and holds exactly the archived hosts in replay mode |
| Replay.AlwaysConsistent | wpr/servermanager.py:91-101 | in every reachable state of every wiring manager and fetcher agree on the mode; with forwarding, the hosts kept in replay mode are exactly the archived ones |
| Replay.ArchivedHostsResolveToProxy | wpr/dnsproxy.py:104-124 | in replay mode an archived host, under the text it is archived with, resolves to the proxy and no name server is asked |
| Replay.KeptNamesAreHostTexts | wpr/dnsproxy.py:122-124 | in replay mode a name is kept if and only if it is the text of an archived host, port included |
| Replay.PortHidesHost | wpr/dnsproxy.py:112-124 | an archived host with a port leaves its bare name to the name servers |
| Replay.UnkeptHostResolves | wpr/dnsproxy.py:104-120 | in every state a host that is not kept resolves to its address if that is private, to the proxy if it is public, and to none exactly if it has none; so no answer is a public address |
| Replay.AnswersAreRemembered | wpr/dnsproxy.py:46-73 | asking again gives the same answer, whatever a name server would say, and no other host is touched |
| Replay.AddressesStay | wpr/dnsproxy.py:55-79 | a learned address is remembered over every run without a switch to record |
| Replay.RecordingFetchesOnce | wpr/httpclient.py:246-270 | a request in the archive is answered from it; any other is fetched when recording exactly if its host has an address and the fetch succeeds, and is archived then |
| Replay.ConditionalIsServed | wpr/httparchive.py:83-121 | in replay mode a request outside the archive is served exactly if it is conditional and its unconditional form is archived: the page, or the response for a status other than 200 |
| Replay.SendingLeavesLength | wpr/httpproxy.py:90-92 | an unchunked page sent as recorded declares a content-length in the archive from then on |
| Replay.CallbackOrderMatters | wpr/replay.py:252-258 | for every list of callbacks, the hosts are forgotten if and only if the archive is cleared before they are computed, or is empty |
| Replay.LengthKeepsInjection | wpr/httpproxy.py:90-92 | a content-length gained by sending changes no later reply |
| Replay.RunKeepsEntries | wpr/httpclient.py:246-331 | over steps that do not clear the archive an entry and its injected form keep everything but a content-length that sending adds |
| Replay.RecordedIsReplayed | wpr/httpclient.py:246-331 | once answered, a request key is not fetched again before the archive is cleared, keeps the response first stored, and gets the same reply in either mode, but perhaps for the content-length that sending adds |
| Replay.InjectedBodyArrives | wpr/httpproxy.py:94-115 | a chunked page reaches the client whole, with one script block in one chunk, if and only if no sleep fails, no chunk is empty, and chunks and script are free of the separator |
| Replay.SeparatorExample | wpr/httparchive.py:633-637 | a page of two chunks with the separator in one: three chunks after injection, of which the client gets two |
| Replay.InjectedLengthIsWritten | wpr/httpproxy.py:87-113 | an unchunked injected page declares exactly the bytes written if and only if no byte is lost and the lengths recorded behind the first are right; separator-free, no byte is lost exactly when none would be without injection |
| Replay.ReplayServer.Call | wpr/replay.py:252-253 | what each registered callback changes |
| Replay.ReplayServer.CallAll | wpr/servermanager.py:94-95 | callbacks run in the order of registration |
| Replay.ReplayServer.SetRecordMode | wpr/servermanager.py:91-95 | just after the switch, archive, host set and DNS cache are empty |
| Replay.ReplayServer.SetReplayMode | wpr/servermanager.py:97-101 | the state after the replay callbacks |
| Replay.ReplayServer.ResolveReal | wpr/dnsproxy.py:46-73 | a cached address is not asked for again; failures are not cached, empty answers are but are asked for again |
| Replay.ReplayServer.Resolve | wpr/dnsproxy.py:104-120 | the proxy for archived hosts, the real address for private ones, the proxy for others, none when there is no address |
| Replay.ReplayServer.Fetch | wpr/httpclient.py:246-331 | the reply and the archive afterwards, in either mode |
| Replay.ReplayServer.HandleRequest | wpr/httpproxy.py:139-153 | a fetch followed by sending, which may add a content-length to the archived object |
| Pipeline.Validated | stoneridge.py:689-719 | validation and defaults of a request; None is the ValueError |
| Pipeline.AcceptedMeans | stoneridge.py:689-719 | a request is accepted exactly when its names are known and it is nightly without ldap and sha, or has both; an empty list stands for every name once, and nothing else changes |
| Pipeline.VerdictMeans | srcloner.py:273-330 | the cloner succeeds exactly when every build asked for is listed and downloadable, defers with the next attempt exactly when one is missing, attempts are left and the deferrer starts, and sends a mail exactly when one is missing after the last attempt or is listed but empty |
| Pipeline.RunCloner | srcloner.py:292-330 | the sequential decision computes that verdict |
| Pipeline.MasterDecides | srmaster.py:28-90 | in every reachable state the head request gets one cloner run under its identifier; it is fanned out iff its builds are listed, not empty and can be downloaded, deferred for the next attempt iff one is missing, attempts are left and the deferrer starts, and otherwise dropped |
| Pipeline.RequestsGetTheirTurn | srdeferrer.py:35-39 | an accepted request, and a deferred one whose wait is over, joins the end of the incoming queue for its attempt |
| Pipeline.FanOutIsProduct | srmaster.py:83-90 | the client messages of a cloned request are the product of its valid netconfigs and systems, each as often as listed, all with its one timestamp and identifier |
| Pipeline.VerdictDefers | srcloner.py:253-271 | a deferred request is the same but for its attempt, which is one more and within the limit |
| Pipeline.MasterKeeps | srmaster.py:28-90 | handling the head of the queue keeps every request in one place, its attempts bounded and the fan-out complete, for every verdict |
| Pipeline.SubmitKeeps | stoneridge.py:689-719 | so does a new request |
| Pipeline.RetryKeeps | srdeferrer.py:25-39 | so does a deferrer whose wait is over |
| Pipeline.ScheduleKeeps | srscheduler.py:22-31 | so does a scheduler |
| Pipeline.MasterKeepsContent | srmaster.py:28-90 | handling the head of the queue keeps every request the one submitted under its ticket; only a nightly run loses its lists when it is deferred |
| Pipeline.RetryKeepsContent | srdeferrer.py:35-39 | so does a retry; a nightly run comes back with all netconfigs and systems |
| Pipeline.MasterKeepsIdentifiers | srmaster.py:30-31 | a request is handled again under the identifier of its first cloner run, or the submitted one |
| Pipeline.JobsAreConserved | srmaster.py:28-90 | in every run each request is in exactly one place, its cloner ran at most max(1, attempts) times, re-enqueueing never fails, and the client messages are the products of the cloned requests |
| Pipeline.RequestsKeepTheirContent | srcloner.py:253-271 | in every run each request, waiting, deferred or fanned out, is the one submitted under its ticket, but for the lists of a nightly run that was retried, and has one identifier |
| Pipeline.ClientsGetWhatIsDue | srmaster.py:46-90 | the client messages of a fanned-out request, in every run: the pairs of its submitted lists as often as listed, or all pairs once if it is nightly, with its one identifier and timestamp; none for any other |
| Pipeline.ClientsGetWhatWasAsked | srmaster.py:46-62 | in every run a fanned-out request becomes exactly the client messages of its submitted lists if and only if it is not nightly or lists every netconfig and every system once |
| Pipeline.NightlyListsAreOverwritten | srmaster.py:46-51 | a nightly request for GSM on Linux is run with broadband on the Mac |
| Pipeline.WorkFalls | srcloner.py:280-290 | every step that takes a message or a deferrer lowers that measure |
| Pipeline.RunsSettle | srdeferrer.py:25-39 | without new requests the steps are bounded by a measure that falls with each, and where none is left every request is given up or fanned out with all its messages sent |
| Pipeline.CrashesLoseNothing | stoneridge.py:632-639 | since a message is acknowledged after it was handled, no request is lost however often master and schedulers die |
| Pipeline.DeliveredAtLeastOnce | stoneridge.py:632-639 | with any crashes of master and schedulers, the clients of a fanned-out request get every pair at least as often as it is due |
| Pipeline.AtLeastWhatWasAsked | srmaster.py:46-51 | an accepted request gets at least what it listed, in all runs with crashes, if and only if it is not nightly or lists no pair more than once |
| Pipeline.Daemons.Enqueue | stoneridge.py:689-719 | a valid request joins the incoming queue; an invalid one changes nothing |
| Pipeline.Daemons.MasterHandle | srmaster.py:28-90 | the whole state after handling the head of the queue |
| Pipeline.Daemons.FanOut | srmaster.py:83-90 | one message for every known netconfig, in order |
| Pipeline.Daemons.SchedulerHandle | srscheduler.py:22-31 | one message for every known system, in order |
| Pipeline.Daemons.DeferrerRun | srdeferrer.py:35-39 | the deferred request is back on the queue with its attempt |
| ResolvConf.ReadLinesAreLines | srdns.py:187-188 | `readlines` gives the lines of the file |
| ResolvConf.RewriteLines | srdns.py:197-210 | rewriting raw lines and rewriting non-blank lines amounts to the same |
| ResolvConf.SetRewritesLines | srdns.py:185-217 | setting a server rewrites the non-blank lines and nothing else, if and only if the server holds no newline |
| ResolvConf.RewriteEffect | srdns.py:195-210 | one nameserver line is left, the others keep their order, and a second rewrite changes nothing |
| ResolvConf.RewritePlace | srdns.py:195-210 | the new line stands where the first nameserver line stood, and at the end if there was none |
| ResolvConf.ServersAndOthers | srdns.py:200 | the lines that go and those that stay are told apart by the keyword and its blank |
| ResolvConf.RunsKeepOtherLines | srdns.py:162-217 | after any sets and resets, whatever backup there was: other lines are those of the file up to the first reset and of the backup afterwards, exactly one nameserver line after a set, setting again changes nothing, a reset restores the backup |
| ResolvConf.LinuxDnsModifier.SaveDns | srdns.py:162-169 | an existing backup is kept |
| ResolvConf.LinuxDnsModifier.ResetDns | srdns.py:181-183 | the file is the backup again, or copying fails without one |
| ResolvConf.LinuxDnsModifier.SetDns | srdns.py:185-217 | the loop computes the rewritten file |
| Provider.StoreThenLookup | apache/src/server/provider.c:50-98 | storing under three keys changes what is found under them and nothing else |
| Provider.RegisterAgrees | apache/src/server/provider.c:35-101 | after a registration both nested tables agree with the longer list of registrations |
| Provider.ListedIffFound | apache/src/server/provider.c:103-165 | names are listed exactly when lookup finds a provider, if and only if no triple was last registered as NULL |
| Provider.NullIsListed | apache/src/server/provider.c:71-98 | after registering one NULL its name is listed and its lookup gives NULL |
| Provider.Registry.Cleanup | apache/src/server/provider.c:28-33 | both tables are forgotten |
| Provider.Registry.Register | apache/src/server/provider.c:35-101 | keeps both tables in agreement with all registrations |
| Provider.Registry.LookupProvider | apache/src/server/provider.c:103-129 | the provider last registered for the triple |
| Provider.Registry.ListProviderNames | apache/src/server/provider.c:131-165 | every name ever registered for group and version, each once |

## Left out

- HttpArchive.EditRoundTrip: zlib cannot be seen; compression appears as a pair of functions that keep the number of chunks, and errors it raises are not modelled. The JSON codec is a parameter assumed to be an inverse pair that prints no delay separator.
- ScriptInjection.InjectIsIdempotent: for a compressed page it requires that its chunks uncompress to what was compressed, which the source's deflate pair does not do.
- Replay.InjectedBodyArrives: stated for uncompressed pages whose delays match their chunks.
- Worker.StoneRidgeWorker.RunProcess: its environment is one in which DNS restores fail finitely often, so that the method terminates; terminating runs in any other environment are covered by TerminatingRun, and RestoringEndsIff says when restoring ends.
- Worker.RestoringEndsIff: restoring that never ends is unbounded recursion in the model; Python stops it at its recursion limit with a RuntimeError, which neither handler catches.
- Worker.StoneRidgeWorker.RunTest: split into three methods for the three parts of one method in the source; the unit-test mode that launches nothing, logging and the run's directories are not modelled.
- Pipeline.JobsAreConserved: the incoming queue is taken from its head, netconfig messages and deferrers in any order that a step names; the brokers' delivery, the wait loop of the deferrer and the pause before the fan-out are not modelled. Tickets, and the lists of dropped and fanned-out requests, are history that the code does not keep.
- Pipeline.CrashesLoseNothing: only master and schedulers, which acknowledge their messages, die. A deferred request exists in its deferrer alone, and is lost if that dies. The default lists of a request are taken in the order of the constants, where the source takes them in dictionary order.
- Pipeline.Validated: one failure value stands for the ValueError, and for the NameError that an unknown operating system without netconfigs causes, because the message of that error names the wrong variable.
- Pipeline.RunCloner: directory listings, downloads and the start of the deferrer are outcomes given from outside; that the argument parser accepts abbreviated options, the text of mails and the deletion of old builds are not modelled.
- Replay.RecordedIsReplayed: archived responses are values; that a reply may be the archived object itself is modelled by writing back the header that sending adds. Status of conditional requests and the responses made for them are parameters.
- Replay.AlwaysConsistent: a request or a mode switch is one atomic step, and manager, fetcher, archive and DNS lookup are fields of one object; interleavings of the server threads are not modelled.
- Replay.ReplayServer.HandleRequest: custom handlers, the replies for errors, closest-match search, request differences and cache-miss records are not modelled.
- Numerals.SizeLineParses: `int(text, 16)` is modelled with surrounding blanks, one sign and one `0x` prefix; a blank between sign and digits is refused.
- ChunkedCoding.DetailedHttpResponse.ReadChunks: the connection is the rest of its bytes; buffering, closing and the reading of an unchunked body by its length are not modelled.
- HttpProxy.SendArchivedHttpResponse: the status line's version and server name, the closing of the connection and failing sockets are not modelled.
- ArchivedRequest.TrimHeaders: the sorted list of headers is a map, which it determines and is determined by; requests of older archives without headers are not modelled.
- DnsProxy.ResponseDecodes: the reply for unknown names is built by a library and only named; an address is its four bytes, so parsing its text is not modelled. Logging is left out.
- ResolvConf.RunsKeepOtherLines: the file and its backup are strings; only the Linux modifier is modelled.
- ServerManager.ServerManager.Run: initializers are values with given outcomes; AppendStartStopFunctions adds one more server of that kind, and tracebacks are left out.
- SPDY, SSL, traffic shaping, the page loader, packet captures, the collator, cleaning of directories, the run database, daemonization and the command line tools: they would add only easy members or foreign calls.
