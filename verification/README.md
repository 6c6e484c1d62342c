# Verified models of a UPnP control point

A Dafny project beside a control point derived from libupnp. It models five parts
of it and proves what they are relied on for:

1. **The HTTP response parser** (`HttpScanner`, `HttpMatcher`, `HttpMessage`,
   `HttpStability`, `HttpFragments`, `HttpChunks`, `HttpFields`, `HttpLengths`,
   `HttpStatus`, `HttpResponse`, `HttpHeaders`, `HttpSample`, `HttpParser`,
   `HttpTables`, `StrIntMap`, `MemBuffer`): an incremental scanner and pattern matcher
   that drives a state machine and decodes chunked bodies inside the buffer it is
   scanning. How the input is cut into pieces does not matter, decoding undoes encoding,
   and every state in between is characterised.
2. **The thread pool and its timer** (`PoolSteps`, `PoolProtocol`, `PoolJobs`,
   `PoolIds`, `PoolWaiting`, `PoolMonitor`, `TimerThread`, `LinkedList`): each stretch
   of code that holds the mutex is one step, each wait on a condition variable ends a
   step and may end at any time, and the statements are about every interleaving of
   any number of workers and callers. `PoolMonitor` has the pool object itself, whose
   methods are those steps and keep the invariants of the protocol.
3. **MD5 streaming** (`Md5`), with the compression function left arbitrary.
4. **The UUID generator** (`Uuid`), for arbitrary clock readings.
5. **The subscription list of the control point against the timer queue** (`Gena`).

Code that changes things in place is modelled as classes and methods with loops,
each proved equal to a specification function on the state; the theorems are about
runs of those functions. Inputs that come from outside are parameters: octets from
the network, clock readings, random values, whether an allocation or the creation
of a thread succeeds, and what a device answers.

Where code and comments differ, the model follows the code:

- A job of the low queue is bumped after `maxIdleTime`, although the comment there
  speaks of the starvation time (threadutil/src/ThreadPool.c:373-376).
- `EMAXTHREADS`, `EOUTOFMEM`, `INVALID_JOB_ID` and `INVALID_EVENT_ID` are all
  `-k & 1<<29` and therefore one number.
- `get_current_time` saves the adjusted timestamp, not the clock reading, in
  `time_last`; uniqueness rests on that.
- `membuffer_delete` assumes that shrinking always works; what happens when it does
  not is part of the contract of `MemBuffer.Buffer.Delete`.
- `UINT4` is taken as the 32-bit word that its comment promises
  (upnp/src/inc/global.h:53), although it is declared `unsigned long`.

## Model

| member | source | states |
|---|---|---|
| `StrIntMap.MemptrCmpIsLexicographic` | upnp/src/genlib/util/membuffer.c:63-90 | for NUL-free names `memptr_cmp`, and its case-folded form, is negative, zero or positive just as the name is lexicographically before, equal to or after the C string |
| `StrIntMap.MemptrCmpReadsTheCString` | upnp/src/genlib/util/membuffer.c:63-90 | for every name, NULs or not, the comparison decides the lexicographic order of what precedes the first NUL of the name |
| `StrIntMap.WhenMemptrCmpIsEquality` | upnp/src/genlib/util/membuffer.c:63-90 | so for a name the result is 0 on just the strings it equals if and only if the name has no NUL octet |
| `StrIntMap.NulHidesTheRest` | upnp/src/genlib/util/membuffer.c:63-76 | one such name: `GET`, a NUL and an `X` compare equal to `GET` |
| `StrIntMap.MapStrToInt` | upnp/src/genlib/util/strintmap.c:64-103 | the binary search returns an index whose name matches, and -1 if and only if no entry of the table matches, on any searchable table |
| `StrIntMap.MapIntToStr` | upnp/src/genlib/util/strintmap.c:123-135 | the linear scan returns the first entry with the id, or none if there is none |
| `HttpTables.HeaderNamesInOrder` | upnp/src/genlib/net/http/httpparser.c:76-111 | the table of header names is strictly ascending |
| `HttpTables.HeaderNamesSearchable` | upnp/src/genlib/net/http/httpparser.c:76-111 | so a lookup in it is exact |
| `HttpTables.MethodNamesSearchable` | upnp/src/genlib/net/http/httpparser.c:63-73 | a lookup in the method table is exact although its last entry is out of order |
| `HttpScanner.NextToken` | upnp/src/genlib/net/http/httpparser.c:222-329 | every token that is found is at least one octet long and lies in the buffer |
| `HttpScanner.TokenStable` | upnp/src/genlib/net/http/httpparser.c:222-329 | a token or a failure on a partly loaded buffer stays what it is, with its type and length, after any octets are appended |
| `HttpMatcher.Scanner.GetToken` | upnp/src/genlib/net/http/httpparser.c:222-329 | the scanning loops find the token of the specification; the cursor moves over it on success only and never leaves the buffer |
| `HttpMatcher.Scanner.ScanQuoted` | upnp/src/genlib/net/http/httpparser.c:284-312 | the quoted-string loop, with its escapes |
| `HttpMatcher.Scanner.SkipBlanks` | upnp/src/genlib/net/http/httpparser.c:528-546 | blank lines before the status line are skipped, and skipping stops where the specification says |
| `HttpMatcher.Scanner.SkipLinearWs` | upnp/src/genlib/net/http/httpparser.c:563-600 | linear white space, including a folded line, is skipped with its look-ahead undone |
| `HttpMatcher.Scanner.MatchNonBlank` | upnp/src/genlib/net/http/httpparser.c:619-666 | the run of tokens up to white space, or no match and the cursor where it was |
| `HttpMatcher.Scanner.MatchRawValue` | upnp/src/genlib/net/http/httpparser.c:687-757 | a header value over continuation lines, trimmed; the cursor is left before the closing line end |
| `HttpMatcher.TrimTail` | upnp/src/genlib/net/http/httpparser.c:740-754 | the trimming loop removes exactly the trailing blanks and line ends |
| `HttpMatcher.Scanner.MatchInteger` | upnp/src/genlib/net/http/httpparser.c:778-814 | a number matches if and only if strtol consumes just the token and its value is neither negative nor out of range; the value is stored even when it does not match |
| `HttpMatcher.Scanner.ReadUntilCrlf` | upnp/src/genlib/net/http/httpparser.c:832-859 | everything up to the first line end |
| `HttpMatcher.Scanner.MatchChar` | upnp/src/genlib/net/http/httpparser.c:878-897 | one octet, case-sensitive or not |
| `HttpMatcher.Scanner.MatchDirective` | upnp/src/genlib/net/http/httpparser.c:981-1112 | one directive of a pattern |
| `HttpMatcher.Scanner.Vfmatch` | upnp/src/genlib/net/http/httpparser.c:955-1119 | the pattern loop returns the match of the specification and restores the cursor on every status but OK |
| `HttpMatcher.Scanner.Discard` | upnp/src/genlib/net/http/httpparser.c:1658-1660 | deleting the consumed octets from the buffer leaves the octets before and behind them in place |
| `HttpMatcher.Scanner.MatchAndDelete` | upnp/src/genlib/net/http/httpparser.c:1734-1747 | a match is deleted from the buffer being scanned; otherwise buffer and cursor are as before |
| `HttpMatcher.Scanner.KeepThenDelete` | upnp/src/genlib/net/http/httpparser.c:1639-1668 | chunk data is kept, the line end behind it deleted; otherwise buffer and cursor are as before |
| `HttpStability.MatchFormatStable` | upnp/src/genlib/net/http/httpparser.c:955-1119 | a pattern that matched or failed on a partly loaded buffer gives the same captures and length after any octets are appended |
| `HttpStability.MatchOneStable` | upnp/src/genlib/net/http/httpparser.c:981-1112 | the same for one directive |
| `HttpStability.StrToLToken` | upnp/src/genlib/net/http/httpparser.c:778-814 | strtol on the whole buffer reads the same as on the token alone |
| `HttpStability.SkipBlankLinesResumes` | upnp/src/genlib/net/http/httpparser.c:528-546 | skipping blank lines can be resumed where it ran out of input |
| `HttpMessage.StepProgress` | upnp/src/genlib/net/http/httpparser.c:1915-1955 | each continuing step of the parser lowers the phase rank or strictly shrinks the unread octets, so the nested loops terminate |
| `HttpMessage.Run` | upnp/src/genlib/net/http/httpparser.c:2016-2057 | a run ends with a status that is neither OK nor CONTINUE |
| `HttpMessage.ScanField` | upnp/src/genlib/net/http/httpparser.c:1396-1398 | where one %d conversion of the status line finds its digits |
| `HttpMessage.NameIndex` | upnp/src/genlib/net/http/httpparser.c:1502-1510 | the first table entry with the name, whatever its case, and no entry before it; -1 if and only if there is none |
| `HttpParser.ThreeNumbers` | upnp/src/genlib/net/http/httpparser.c:1396-1415 | the loop that skips three numbers stops at the octet at which the three conversions of sscanf stopped |
| `HttpParser.SkipThreeNumbers` | upnp/src/genlib/net/http/httpparser.c:1406-1415 | the digit and non-digit loops of the status line compute that position |
| `HttpParser.ReadStatusLine` | upnp/src/genlib/net/http/httpparser.c:1396-1428 | version, code and reason phrase, or failure, as specified |
| `HttpParser.RawFindStr` | upnp/src/genlib/net/http/httpparser.c:2144-2173 | the first occurrence of the needle in the lowered value, up to a NUL; the value is lowered in place |
| `HttpParser.FindHeaderId` | upnp/src/genlib/net/http/httpparser.c:1502-1514 | the header table lookup gives the id of the matching entry if and only if there is one |
| `HttpParser.HeaderLinesRun` | upnp/src/genlib/net/http/httpparser.c:1449-1576 | the header loop followed by the rest of the parser is a run of single header steps |
| `HttpParser.Parser.ParseResponseLine` | upnp/src/genlib/net/http/httpparser.c:1370-1432 | one step on the status line |
| `HttpParser.Parser.StoreHeader` | upnp/src/genlib/net/http/httpparser.c:1500-1573 | a header is appended, or its value joined to the one of the same name |
| `HttpParser.Parser.ParseHeaders` | upnp/src/genlib/net/http/httpparser.c:1449-1576 | the header loop, with the cursor restored on a partial line |
| `HttpParser.Parser.ParseClen` | upnp/src/genlib/net/http/httpparser.c:1590-1623 | a body of known length; surplus octets stay, the first of them zeroed |
| `HttpParser.Parser.ParseUntilClose` | upnp/src/genlib/net/http/httpparser.c:1775-1796 | a body that lasts until the connection closes: the step of the specification that `HttpHeaders.CloseResponse` is about |
| `HttpParser.Parser.ParseChunkBody` | upnp/src/genlib/net/http/httpparser.c:1639-1668 | chunk data and the line end behind it |
| `HttpParser.Parser.ParseChunkLine` | upnp/src/genlib/net/http/httpparser.c:1724-1762 | the size line; size zero ends the entity |
| `HttpParser.Parser.ParseTrailers` | upnp/src/genlib/net/http/httpparser.c:1684-1708 | the trailers, deleted from the buffer |
| `HttpParser.Parser.ReadMethod` | upnp/src/genlib/net/http/httpparser.c:1812-1897 | how the body is delimited |
| `HttpParser.Parser.ParseEntity` | upnp/src/genlib/net/http/httpparser.c:1915-1955 | the entity loop computes the run of the specification |
| `HttpParser.Parser.Parse` | upnp/src/genlib/net/http/httpparser.c:2016-2057 | the parser loop computes the run of the specification |
| `HttpParser.Parser.Append` | upnp/src/genlib/net/http/httpparser.c:2078-2096 | `parser_append` computes the specification on which the theorems below are stated |
| `HttpFragments.StepInv` | upnp/src/genlib/net/http/httpparser.c:1590-1955 | every step keeps the entity inside the buffer, and in the chunked modes from its start exactly to the cursor |
| `HttpFragments.RunInv` | upnp/src/genlib/net/http/httpparser.c:2016-2057 | so does every run |
| `HttpFragments.StepStable` | upnp/src/genlib/net/http/httpparser.c:1370-1955 | a continuing or failing step is the same step after any octets are appended |
| `HttpFragments.SuccessStable` | upnp/src/genlib/net/http/httpparser.c:1590-1955 | a message that is complete is observed the same whatever follows it |
| `HttpFragments.StepResumes` | upnp/src/genlib/net/http/httpparser.c:1370-1955 | a step that ran out of input, resumed with more, runs as if it had been there from the start |
| `HttpFragments.RunExtends` | upnp/src/genlib/net/http/httpparser.c:2016-2096 | a whole run, stopped and resumed, ends like the run on all the input |
| `HttpFragments.FragmentationIndependence` | upnp/src/genlib/net/http/httpparser.c:1989-2096 | for a response parser and any cutting of the octets into pieces, status, status line, headers and entity equal those of one append |
| `HttpChunks.SizeLineMatches` | upnp/src/genlib/net/http/httpparser.c:1734-1747 | every size line of section 4.1 of RFC 7230, in any spelling of the size and with any extension, is read with its value |
| `HttpChunks.ChunksDecode` | upnp/src/genlib/net/http/httpparser.c:1639-1762 | any list of chunks is decoded into their data, and nothing else of their coding stays in the buffer |
| `HttpChunks.EveryIntermediateState` | upnp/src/genlib/net/http/httpparser.c:1639-2096 | whenever the parser waits inside a chunked body, after any pieces, there is a k such that the buffer holds, from the start of the entity to the cursor, exactly the data of the first k chunks, and behind the cursor the unread coding of the others as far as it has arrived |
| `HttpChunks.NextIntermediateState` | upnp/src/genlib/net/http/httpparser.c:1639-2096 | a further piece never takes that k back |
| `HttpChunks.DecodedAtBoundary` | upnp/src/genlib/net/http/httpparser.c:1639-1762 | after exactly the coding of some chunks the parser waits with all of them decoded and nothing unread |
| `HttpChunks.EntityIsAlwaysAPrefix` | upnp/src/genlib/net/http/httpparser.c:1639-2096 | with the coding cut off anywhere, the entity so far is a prefix of the data |
| `HttpChunks.TrailersKeepBody` | upnp/src/genlib/net/http/httpparser.c:1684-1708 | whatever trailers follow, the entity stays |
| `HttpChunks.DecodingUndoesEncoding` | upnp/src/genlib/net/http/httpparser.c:1639-1762 | a chunked body that completes has the concatenated data as its entity, and without trailers it completes |
| `HttpChunks.ChunkedResponseInPieces` | upnp/src/genlib/net/http/httpparser.c:1989-2096 | header text that announces chunks and then the coding of some data, in any pieces, ends in success with exactly that data |
| `HttpFields.FieldMatches` | upnp/src/genlib/net/http/httpparser.c:1494-1497 | the pattern of a header line reads any value of plain octets and quoted-strings, on one line or folded over several, up to its line end, without the blanks and line ends around it |
| `HttpFields.ReadsField` | upnp/src/genlib/net/http/httpparser.c:1449-1576 | one turn of the header loop reads one line of section 3.2 of RFC 7230 and adds its name and value to the headers |
| `HttpFields.TrailersComplete` | upnp/src/genlib/net/http/httpparser.c:1684-1708 | any sequence of header lines and an empty line complete a chunked body; the trailers become headers and are cut out of the buffer |
| `HttpFields.LwsBeforeValue` | upnp/src/genlib/net/http/httpparser.c:563-600 | linear white space in front of a value ends where its blanks and folds end |
| `HttpFields.RawScanText` | upnp/src/genlib/net/http/httpparser.c:687-757 | a raw value ends at its first line end that is not followed by a blank |
| `HttpFields.TokenOctets` | upnp/src/genlib/net/http/httpparser.c:118-185 | the octets of a name are those of a token in section 3.2.6 of RFC 7230 |
| `HttpFields.DecodingWithTrailers` | upnp/src/genlib/net/http/httpparser.c:1639-1762 | so a chunked body with any such trailers completes, with exactly its data as the entity and the trailers among the headers |
| `HttpFields.TrailedResponseInPieces` | upnp/src/genlib/net/http/httpparser.c:1989-2096 | the same for header text and coding that arrive in any pieces |
| `HttpLengths.EnoughIsComplete` | upnp/src/genlib/net/http/httpparser.c:1590-1623 | after headers with length n, n octets or more complete the body, which is exactly the first n |
| `HttpLengths.SurplusStays` | upnp/src/genlib/net/http/httpparser.c:1603-1612 | the surplus stays in the buffer, its first octet zeroed |
| `HttpLengths.FewerIsIncomplete` | upnp/src/genlib/net/http/httpparser.c:1590-1623 | with fewer the parser waits and the entity is what has arrived |
| `HttpLengths.LengthResponseInPieces` | upnp/src/genlib/net/http/httpparser.c:1989-2096 | header text that announces n octets, the data and any surplus, in any pieces, end in success with exactly the n octets |
| `HttpLengths.AppendAfterEnd` | upnp/src/genlib/net/http/httpparser.c:2016-2096 | octets behind the end of a response in the same append change nothing that is seen of it |
| `HttpLengths.LaterAppendFails` | upnp/src/genlib/net/http/httpparser.c:2041-2045 | those of a later append make it fail, and leave entity and headers as they are |
| `HttpResponse.BlankLinesSkipped` | upnp/src/genlib/net/http/httpparser.c:528-546 | blanks and line ends before the status line, however many, are skipped |
| `HttpResponse.StatusLineMatches` | upnp/src/genlib/net/http/httpparser.c:1370-1390 | the status line pattern reads HTTP in any case, a slash and plain octets, and captures what follows the slash |
| `HttpStatus.StatusIs` | upnp/src/genlib/net/http/httpparser.c:1396-1428 | the version numbers, the code and the phrase that are read are just those the line spells |
| `HttpStatus.StatusNeedsBlank` | upnp/src/genlib/net/http/httpparser.c:1396-1428 | without a blank behind the code the line is refused |
| `HttpResponse.HeadRuns` | upnp/src/genlib/net/http/httpparser.c:1370-1576 | any blank lines, status line and header lines, followed by an empty line, bring the parser to the body with just these headers |
| `HttpResponse.ChoiceStep` | upnp/src/genlib/net/http/httpparser.c:1812-1897 | how the body is delimited: chunks if the Transfer-Encoding mentions them, else by the Content-Length if there is one, else by the close of the connection |
| `HttpResponse.LoweredIs` | upnp/src/genlib/net/http/httpparser.c:2144-2173 | looking for chunks lowers the value of the Transfer-Encoding up to its first NUL, and changes nothing else |
| `HttpResponse.HeadAnnouncesChunks` | upnp/src/genlib/net/http/httpparser.c:1370-1955 | after any head whose headers announce chunks the parser waits for the first one |
| `HttpResponse.HeadAnnouncesLength` | upnp/src/genlib/net/http/httpparser.c:1370-1955 | after any head with a Content-Length and no chunks it waits for just so many octets, or is done if there are none |
| `HttpResponse.HeadWithoutBody` | upnp/src/genlib/net/http/httpparser.c:1370-1955 | after a head that excludes a body the response is complete and its entity empty |
| `HttpHeaders.IdOfName` | upnp/src/genlib/net/http/httpparser.c:1502-1514 | every spelling of a name of the header table has its id |
| `HttpHeaders.JoinedToItsOwn` | upnp/src/genlib/net/http/httpparser.c:1500-1573 | a repeated header is joined only to one of the same id |
| `HttpHeaders.FieldsFind` | upnp/src/genlib/net/http/httpparser.c:1449-1576 | what the parser finds under an id is the value of the one line that has it, wherever it stands |
| `HttpHeaders.FieldsKeep` | upnp/src/genlib/net/http/httpparser.c:1449-1576 | lines of other names never change what it finds under an id |
| `HttpHeaders.AddedByName` | upnp/src/genlib/net/http/httpparser.c:1500-1573 | one line: its value is joined to that of its name by a comma and a space, and the values of other names stay |
| `HttpHeaders.FieldsCollect` | upnp/src/genlib/net/http/httpparser.c:1449-1576 | after any header lines the parser has under each name the values of all lines with that name, whatever its case, in order, joined by commas |
| `HttpHeaders.SameIdSameName` | upnp/src/genlib/net/http/httpparser.c:76-111 | a known id is that of one name only |
| `HttpHeaders.SaysChunkedMeans` | upnp/src/genlib/net/http/httpparser.c:2144-2173 | a Transfer-Encoding mentions chunked if and only if the word stands in front of its first NUL, in any case |
| `HttpHeaders.DecimalValue` | upnp/src/genlib/net/http/httpparser.c:2110-2129 | a Content-Length in digits is read with its value |
| `HttpHeaders.JunkIsRejected` | upnp/src/genlib/net/http/httpparser.c:2110-2129 | anything behind the digits makes it -1 |
| `HttpHeaders.ChunkedResponse` | upnp/src/genlib/net/http/httpparser.c:1989-2096 | end to end: any blank lines, any status line whose code allows a body, any header lines with one Transfer-Encoding that mentions chunked, any chunks and any trailers, in any pieces, end in success with exactly the data |
| `HttpHeaders.LengthResponse` | upnp/src/genlib/net/http/httpparser.c:1989-2096 | end to end: the same with one Content-Length in digits, no Transfer-Encoding, that many octets and any surplus |
| `HttpHeaders.CloseResponse` | upnp/src/genlib/net/http/httpparser.c:1775-1796 | end to end: the same with neither header; all that has come is the entity, and the parser waits for the close of the connection |
| `HttpSample.ChunkedSample` | upnp/src/genlib/net/http/httpparser.c:1989-2096 | an instance: an empty line, HTTP/1.1 200 OK and one Transfer-Encoding header |
| `HttpSample.LengthSample` | upnp/src/genlib/net/http/httpparser.c:1989-2096 | an instance: HTTP/1.1 200 OK and a Content-Length of 200 |
| `MemBuffer.Buffer.SetSize` | upnp/src/genlib/util/membuffer.c:104-150 | out of memory only if a block is needed and both reallocs fail; otherwise there is room, and every octet that still fits is kept |
| `MemBuffer.Buffer.Assign` | upnp/src/genlib/util/membuffer.c:170-193 | the contents become the data, terminated by a NUL when there is any, or stay when it fails |
| `MemBuffer.Buffer.Insert` | upnp/src/genlib/util/membuffer.c:212-238 | the data is spliced in at the index; a failed call changes neither contents nor block |
| `MemBuffer.Buffer.Append` | upnp/src/genlib/util/membuffer.c:200-205 | the data follows the old contents; out of memory only if a bigger block is needed and both reallocs fail |
| `MemBuffer.Buffer.Delete` | upnp/src/genlib/util/membuffer.c:240-271 | at most so many octets are cut out, on every shrink path; the one path that fails leaves the octets moved and the length as it was |
| `LinkedList.FreeList.Alloc` | threadutil/src/FreeList.c:51-69 | the head of the chain is reused, or a new node made if malloc succeeds |
| `LinkedList.FreeList.Free` | threadutil/src/FreeList.c:71-90 | the node joins the chain, linked through its first pointer, while the length stays below the maximum less one |
| `LinkedList.FreeList.Destroy` | threadutil/src/FreeList.c:92-110 | the loop empties the chain |
| `LinkedList.LinkedList.constructor` | threadutil/src/LinkedList.c:84-107 | an empty list between two sentinels |
| `LinkedList.LinkedList.CreateListNode` | threadutil/src/LinkedList.c:64-82 | the node is in neither the list nor the chain |
| `LinkedList.LinkedList.AddAfter` | threadutil/src/LinkedList.c:129-151 | the item is inserted behind the node; size, both directions and the free chain stay right; NULL only when there is no memory, and then nothing changes |
| `LinkedList.LinkedList.AddBefore` | threadutil/src/LinkedList.c:153-175 | the same in front of the node |
| `LinkedList.LinkedList.AddHead` | threadutil/src/LinkedList.c:109-117 | the item becomes the first |
| `LinkedList.LinkedList.AddTail` | threadutil/src/LinkedList.c:119-127 | the item becomes the last |
| `LinkedList.LinkedList.DelNode` | threadutil/src/LinkedList.c:177-198 | the node and its item leave the list, the node joins the free chain if there is room, and a sentinel is left alone |
| `LinkedList.LinkedList.Destroy` | threadutil/src/LinkedList.c:200-217 | list and chain end empty, and free_func gets every item once, in order |
| `LinkedList.LinkedList.Head` | threadutil/src/LinkedList.c:219-230 | the first node, or NULL for an empty list |
| `LinkedList.LinkedList.Tail` | threadutil/src/LinkedList.c:232-243 | the last node, or NULL for an empty list |
| `LinkedList.LinkedList.Next` | threadutil/src/LinkedList.c:245-256 | the next node of the list, or NULL |
| `LinkedList.LinkedList.Prev` | threadutil/src/LinkedList.c:258-270 | the previous node of the list, or NULL |
| `LinkedList.LinkedList.Find` | threadutil/src/LinkedList.c:272-299 | the first match behind the start, or NULL if there is none |
| `LinkedList.LinkedList.Forward` | threadutil/src/LinkedList.c:219-256 | walking forward yields the items |
| `LinkedList.LinkedList.Backward` | threadutil/src/LinkedList.c:232-270 | walking backward yields the items in reverse |
| `PoolMonitor.NextSound` | threadutil/src/ThreadPool.c:446-1053 | each atomic step keeps all of this together: counters in agreement with the threads, every job in one place, jobs of ThreadPoolAdd clear of the persistent slot, ids given back in order; `Valid()` of the pool object is this, and every method below keeps it |
| `PoolMonitor.ThreadPool.constructor` | threadutil/src/ThreadPool.c:700-766 | the object starts out empty, as the initial state of the protocol; a first worker is started if minThreads asks for one, the pool has room for it and a thread can be created |
| `PoolMonitor.ThreadPool.BumpPriority` | threadutil/src/ThreadPool.c:347-384 | the loop computes the specified queues and terminates |
| `PoolMonitor.ThreadPool.WorkerStart` | threadutil/src/ThreadPool.c:446-467 | a new worker ends the start-up handshake: it is counted, and no other thread is left that was created and has not registered |
| `PoolMonitor.ThreadPool.WorkerLoop` | threadutil/src/ThreadPool.c:469-587 | after its job a worker without anything to do quits if it is beyond maxThreads, or beyond minThreads after a wait in vain, and sleeps otherwise; on shutdown it quits; else it serves the persistent job, or else the first of high ++ medium ++ low with the others left in order |
| `PoolMonitor.ThreadPool.WorkerWake` | threadutil/src/ThreadPool.c:490-587 | the same when it wakes up in its wait, with or without a timeout |
| `PoolMonitor.ThreadPool.Add` | threadutil/src/ThreadPool.c:816-865 | the job is accepted if and only if there is room and memory; its record has the priority of the request, the time of the call and the next id; it joins the tail of the queue of its priority and no other queue changes; a worker is started exactly if there is no regular one, or the jobs reach jobsPerThread for each, or all are busy, and one may be started now; a call that returns gives 0 exactly for an accepted job |
| `PoolMonitor.ThreadPool.AddPersistent` | threadutil/src/ThreadPool.c:768-814 | no queue changes; below maxThreads it first sees to one more worker; at maxThreads it refuses exactly if one thread is not persistent; an accepted job fills the slot and what it displaces is recorded as lost |
| `PoolMonitor.ThreadPool.Remove` | threadutil/src/ThreadPool.c:867-922 | the search loops take the first job with the id out of all that waits, and nothing else changes; without one the pool stays as it is |
| `PoolMonitor.ThreadPool.SetAttr` | threadutil/src/ThreadPool.c:937-967 | the attributes are set, no job moves, the call returns 0 at once if and only if there are minThreads threads already, and otherwise starts one if it may |
| `PoolMonitor.ThreadPool.Shutdown` | threadutil/src/ThreadPool.c:978-1041 | afterwards nothing waits, free_func has been called for each job that waited and has one, in order, and the call returns at once if and only if there is no thread |
| `PoolMonitor.ThreadPool.Wake` | threadutil/src/ThreadPool.c:645-668 | a caller that wakes up in any of its waits moves no queue; it waits on while a worker is starting, creates one in its turn if the pool has room and a thread can be created, and after a birth goes on to a further worker exactly if its loop still asks for one; ThreadPoolShutdown returns only without threads, ThreadPoolAddPersistent waits for the slot to be taken, and a call whose job was accepted gives back the next number when it returns |
| `PoolProtocol.HandshakeAndCounters` | threadutil/src/ThreadPool.c:446-670 | in every reachable state of every interleaving: one created thread has not registered exactly when pendingWorkerThreadStart is set, and busyThreads = workers running jobs = workerThreads + persistentThreads <= totalThreads |
| `PoolProtocol.NextCounted` | threadutil/src/ThreadPool.c:446-1053 | each atomic step keeps all counters equal to what the threads are doing |
| `PoolProtocol.NeverTooManyThreads` | threadutil/src/ThreadPool.c:631-670 | with fixed attributes totalThreads + pendingWorkerThreadStart never exceeds maxThreads |
| `PoolProtocol.KeepsTheMinimum` | threadutil/src/ThreadPool.c:490-511 | once there are minThreads threads there always are, until shutdown |
| `PoolProtocol.WhyWorkersQuit` | threadutil/src/ThreadPool.c:495-566 | a worker quits only on shutdown, or with nothing to do and either a timeout and more than minThreads threads or more than maxThreads: the branch marked as never reached is not |
| `PoolProtocol.ShutdownWaitsForWorkers` | threadutil/src/ThreadPool.c:1036-1041 | `ThreadPoolShutdown` returns only with totalThreads = 0, when every thread that registered is gone |
| `PoolProtocol.BumpKeepsOrder` | threadutil/src/ThreadPool.c:347-384 | BumpPriority leaves high ++ medium ++ low unchanged |
| `PoolJobs.PickIsHead` | threadutil/src/ThreadPool.c:532-559 | the job picked is the head of high ++ medium ++ low, and the others stay in order |
| `PoolJobs.BumpKeepsTheNextJob` | threadutil/src/ThreadPool.c:516-559 | so bumping never changes which job is picked |
| `PoolJobs.RemoveTakesTheFirst` | threadutil/src/ThreadPool.c:867-922 | ThreadPoolRemove takes the first job with the id out of all that waits, and fails if and only if there is none |
| `PoolJobs.NextConserved` | threadutil/src/ThreadPool.c:446-1053 | each atomic step moves jobs between places without losing or doubling one |
| `PoolJobs.AddedJobInOnePlace` | threadutil/src/ThreadPool.c:446-1053 | in every reachable state before the shutdown each job that ThreadPoolAdd accepted is in exactly one of: a queue, one running worker, finished, removed; afterwards it can also have been discarded, and nothing else; it was handed to a worker once or never |
| `PoolJobs.EveryJobInOnePlace` | threadutil/src/ThreadPool.c:446-1053 | in every reachable state each job accepted by either call is in exactly one of these, the persistent slot, or overwritten there by an overlapping ThreadPoolAddPersistent; no other job is anywhere |
| `PoolJobs.FreedExactlyOnce` | threadutil/src/ThreadPool.c:978-1037 | over a whole run free_func is called once for each discarded job that has one, and for no other |
| `PoolIds.IdsGivenBackAreDistinct` | threadutil/src/ThreadPool.c:808-859 | in every reachable state all ids that were given back to callers are pairwise distinct, and none is less than the id in the record of its job |
| `PoolIds.WhenTheIdIsTheRecords` | threadutil/src/ThreadPool.c:795-859 | over any run, a call that waits gives back an id that exceeds the one in the record of its job by the number of ids that other calls have given back since the step that made the record; so the two are equal if and only if there was none |
| `PoolIds.TheAnswerIsKept` | threadutil/src/ThreadPool.c:816-865 | whatever comes in between, a call that waits with its record made returns 0 if its job was accepted when it was made, and fails otherwise |
| `PoolIds.WhenRecordIdsAreDistinct` | threadutil/src/ThreadPool.c:795-859 | over any run the ids in the records of the accepted jobs are pairwise distinct if and only if between any two acceptances some call gave its id back |
| `PoolIds.SerialCallsGetDistinctIds` | threadutil/src/ThreadPool.c:768-865 | in particular if no call that adds a job begins inside another |
| `PoolIds.WhenTheNextIdDiffers` | threadutil/src/ThreadPool.c:836-859 | seen before the call: the next job gets another id if and only if ThreadPoolAdd returns at once, that is, it needs no worker, or none is starting and it is refused one |
| `PoolIds.TwoJobsWithOneId` | threadutil/src/ThreadPool.c:816-865 | a run in which two overlapping calls of ThreadPoolAdd have their jobs accepted under one id |
| `PoolIds.TheIdMissesTheJob` | threadutil/src/ThreadPool.c:816-922 | the same run to the return of both calls: the second is given an id that no job has, and ThreadPoolRemove with it fails although both jobs wait |
| `PoolIds.OverlapComesBack` | threadutil/src/ThreadPool.c:816-865 | an instance: to the second call of that run WhenTheIdIsTheRecords applies, with another id given back in between |
| `PoolWaiting.BumpSettles` | threadutil/src/ThreadPool.c:347-384 | afterwards the head of the medium queue is younger than starvationTime and that of the low queue younger than maxIdleTime |
| `PoolWaiting.BumpMovesTheStarved` | threadutil/src/ThreadPool.c:347-384 | only jobs that have waited their time are moved: starvationTime to join the high queue, maxIdleTime to leave the low one |
| `PoolWaiting.MillisPassed` | threadutil/src/ThreadPool.c:57-72 | a positive limit is reached when that many thousand microseconds have passed |
| `PoolWaiting.BoundedOvertaking` | threadutil/src/ThreadPool.c:446-922 | over any run the number of jobs ahead of one in the high queue never grows and every pick lowers it, until the job has left |
| `PoolWaiting.NextHigh` | threadutil/src/ThreadPool.c:446-922 | the same for one step |
| `PoolWaiting.RunLow` | threadutil/src/ThreadPool.c:347-922 | with a clock that never goes back the low queue is sorted by request time |
| `PoolWaiting.NoLowJobStarves` | threadutil/src/ThreadPool.c:357-381 | and whenever a worker leaves its wait loop no job left in the low queue has waited maxIdleTime |
| `TimerThread.TimerThread.Schedule` | threadutil/src/TimerThread.c:245-312 | one event with the next id joins the queue, due after the timeout from now if it is relative and at the given time otherwise; it fails, and queues nothing, exactly without memory; the queue stays ordered and in agreement with the pending events |
| `TimerThread.TimerThread.Place` | threadutil/src/TimerThread.c:276-296 | the search loop finds the place before the first event that is not earlier |
| `TimerThread.TimerThread.Remove` | threadutil/src/TimerThread.c:314-350 | the search loop takes out the event with the id, and no other, and gives back its job; the answer is 0 if and only if one is queued, that is, pending |
| `TimerThread.TimerThread.WorkerRound` | threadutil/src/TimerThread.c:74-123 | a round exits exactly on shutdown and dispatches exactly when something in the queue is due, then the first event, whose fate becomes handed over or refused and nothing else changes; when it sets a time to wait for, nothing in the queue is due before it |
| `TimerThread.TimerThread.Shutdown` | threadutil/src/TimerThread.c:352-383 | every event is dropped and free_func called for those that have one, in order |
| `TimerThread.FreedArgsIs` | threadutil/src/TimerThread.c:365-379 | one call of free_func for each event that has one, with its argument, in order |
| `TimerThread.NextInv` | threadutil/src/TimerThread.c:60-400 | each call keeps the queue strictly ordered by time ascending and id descending, and the queued events those that are pending |
| `TimerThread.RunInv` | threadutil/src/TimerThread.c:60-400 | so does every sequence of calls |
| `TimerThread.WorkerIsPunctual` | threadutil/src/TimerThread.c:74-123 | no event is dispatched before its time; when the worker blocks nothing in the whole queue is due at the clock value just read; a refused job is released as the code says |
| `TimerThread.BurstDispatchesWhatIsDue` | threadutil/src/TimerThread.c:74-123 | before it blocks the worker dispatches exactly the events that are due, in order |
| `TimerThread.ShutdownDiscardsPending` | threadutil/src/TimerThread.c:365-379 | shutdown discards just the pending events |
| `TimerThread.FatesAreFinal` | threadutil/src/TimerThread.c:60-400 | the fate of an event that is no longer pending never changes: one that was removed is never dispatched, and none is dispatched twice |
| `TimerThread.IdsAreFresh` | threadutil/src/TimerThread.c:276-308 | an id that is given out was never given out before |
| `Md5.Md5.constructor` | upnp/src/uuid/md5.c:109-118 | a context that has seen nothing |
| `Md5.Md5.Update` | upnp/src/uuid/md5.c:127-157 | after a call the state is the fold of the transform over the complete blocks of all octets seen, the buffer holds the tail, and the two words hold 8 times their number modulo 2^64 |
| `Md5.Md5.Absorb` | upnp/src/uuid/md5.c:143-149 | the block loop |
| `Md5.Md5.Count` | upnp/src/uuid/md5.c:136-140 | the carry between the two count words |
| `Md5.Md5.Final` | upnp/src/uuid/md5.c:163-186 | the digest is the fold over the message padded per sections 3.1 and 3.2 of RFC 1321, and the context is zero |
| `Md5.DigestInPieces` | upnp/src/uuid/md5.c:109-186 | however a message is cut into calls of MD5Update, the digest is that of the whole message |
| `Md5.DigestOctets` | upnp/src/uuid/md5.c:163-186 | the sixteen octets are those of the state words a, b, c and d, in this order, each lowest first |
| `Md5.DigestBeginsWith` | upnp/src/uuid/md5.c:109-118 | for a transform that leaves the state alone they are the octets of section 3.3 of RFC 1321 |
| `Md5.PaddedLayout` | upnp/src/uuid/md5.c:163-186 | the padded message: whole blocks, as few as will do; the message, 0x80, zeros, and the number of its bits in eight octets |
| `Md5.FoldLastBlock` | upnp/src/uuid/md5.c:127-157 | the blocks are transformed one after another |
| `Md5.WrappedLoopNeverEnds` | upnp/src/uuid/md5.c:145-147 | the block loop has no value at which it stops if and only if the buffered octets and the input together reach 2^32, which is what Update excludes |
| `Md5.CountStep` | upnp/src/uuid/md5.c:136-140 | the two words after a call hold 8 times the new number |
| `Md5.FoldResumes` | upnp/src/uuid/md5.c:127-157 | state and tail are all that later calls depend on |
| `Md5.Encode` | upnp/src/uuid/md5.c:298-309 | the octets of the words, lowest first |
| `Md5.Decode` | upnp/src/uuid/md5.c:316-328 | the words of the octets |
| `Md5.DecodeUndoesEncode` | upnp/src/uuid/md5.c:298-328 | Decode undoes Encode |
| `Md5.EncodeUndoesDecode` | upnp/src/uuid/md5.c:298-328 | Encode undoes Decode |
| `Uuid.Generator.GetCurrentTime` | upnp/src/uuid/uuid.c:171-199 | the spinning loop over any readings: those it passes over repeat the last timestamp when 1024 were given out; to the reading it takes it adds how many were given out for it |
| `Uuid.Generator.UuidCreate` | upnp/src/uuid/uuid.c:53-115 | the fields of the UUID, read back as numbers, are the timestamp modulo 2^60, the clock sequence modulo 2^14 and the saved node, with version 1 and the variant of RFC 4122; the clock sequence is random at first, one more when the clock went back, and else the last one |
| `Uuid.HistoryCarries` | upnp/src/uuid/uuid.c:53-199 | so it is for every UUID of a run, with one node for all |
| `Uuid.TimestampsChange` | upnp/src/uuid/uuid.c:171-199 | whatever the clock says, a timestamp differs from the one before it, which is the one saved |
| `Uuid.FormatDetermines` | upnp/src/uuid/uuid.c:101-115 | two packed version 1 UUIDs are equal if and only if timestamp modulo 2^60, clock sequence modulo 2^14 and node are (section 4.1.2 of RFC 4122) |
| `Uuid.CreateGrows` | upnp/src/uuid/uuid.c:53-83 | the pair of unwrapped clock sequence and timestamp grows lexicographically with every UUID |
| `Uuid.HistoryGrows` | upnp/src/uuid/uuid.c:53-199 | so it does over any sequence of calls |
| `Uuid.WhenUuidsCollide` | upnp/src/uuid/uuid.c:53-199 | two UUIDs of a run are equal exactly when timestamps agree modulo 2^60 and unwrapped clock sequences modulo 2^14 |
| `Uuid.UuidsAreUnique` | upnp/src/uuid/uuid.c:53-199 | they differ if fewer than 2^14 increments of the clock sequence separate them and timestamps are below 2^60, for repeated and backward readings alike |
| `Gena.ControlPoint.Remove` | upnp/src/genlib/client_table/client_table.c:266-290 | just the first subscription with the SID is unlinked, and its event is not queued any more |
| `Gena.ControlPoint.Find` | upnp/src/genlib/client_table/client_table.c:293-309 | the first subscription with the SID |
| `Gena.ControlPoint.ScheduleGenaAutoRenew` | upnp/src/gena/gena_ctrlpt.c:137-209 | nothing for an infinite timeout; else, unless memory is out, an event due at now + timeout - 10 joins the queue and its id becomes the RenewEventId |
| `Gena.ControlPoint.Subscribe` | upnp/src/gena/gena_ctrlpt.c:566-592 | the new subscription is the first of the list, the others stay, and its renewal is due ten seconds before it ends |
| `Gena.ControlPoint.BeginRenew` | upnp/src/gena/gena_ctrlpt.c:607-650 | the subscription stays listed without an event, and its old event is not queued any more; a SID that is not listed is refused |
| `Gena.ControlPoint.EndRenew` | upnp/src/gena/gena_ctrlpt.c:658-696 | on success the new SID of the device is stored and the next renewal is due ten seconds before the end; on failure no subscription with the SID is left |
| `Gena.ControlPoint.UnregisterRound` | upnp/src/gena/gena_ctrlpt.c:425-441 | one locked round removes the first subscription with its event, or finds the list empty, and then no renewal is pending |
| `Gena.ControlPoint.UnregisterClient` | upnp/src/gena/gena_ctrlpt.c:420-462 | the loop when no other call comes in between its rounds: it terminates with an empty list and no renewal event pending |
| `Gena.UnregisterEnds` | upnp/src/gena/gena_ctrlpt.c:425-455 | whatever calls come in between the rounds, genaUnregisterClient returns after at most as many rounds as there were subscriptions and were added meanwhile, and one more |
| `Gena.NonePendingAtReturn` | upnp/src/gena/gena_ctrlpt.c:432-459 | and at that moment no renewal event is pending |
| `Gena.AfterInv` | upnp/src/gena/gena_ctrlpt.c:420-702 | each step of every interleaving keeps list and timer in agreement |
| `Gena.PendingRenewalsAreListed` | upnp/src/gena/gena_ctrlpt.c:137-702 | in every reachable state each pending renewal event is the RenewEventId of exactly one listed subscription, the one with its SID, whenever the timer fires |
| `Gena.RenewalsAreInTime` | upnp/src/gena/gena_ctrlpt.c:137-702 | in every reachable state each pending renewal is queued ten seconds before its subscription ends by the last answer of the device |
| `Gena.WhenRenewalAgrees` | upnp/src/gena/gena_ctrlpt.c:658-696 | the end of a renewal keeps the agreement if and only if the old event of the subscription is not pending any more |
| `Gena.OverlappingRenewalsLoseAnEvent` | upnp/src/gena/gena_ctrlpt.c:607-702 | two overlapping renewals of one SID that leave a pending event no subscription refers to |

## Left out

- Requests: `parser_request_init` and the request line. The request line is not fragmentation-independent, since a prefix that ends between CR and LF can already fail its second pattern.
- `matchstr`, the loaded-message mode of the scanner, and the directives `%U`, `%P` and `%0`, which no response pattern uses.
- Buffer contents after trailers that came in pieces: the position from which trailers are deleted is local to one call, so octets of earlier pieces stay behind the entity. Fragmentation independence is about status, status line, headers and entity.
- Texts captured by a pattern that then fails, and the partial stores of a failing `sscanf`: no caller reads them.
- `http_error_code`, and the rewriting of the request method on a SOAPACTION header.
- `strtol` and `sscanf` are those of a 64-bit little-endian glibc system: `long` is clamped, `int` gets the low 32 bits, and the chunk size is written through an `int *`.
- The parser's buffer is a sequence field. That a growable block behaves like one is proved in `MemBuffer`; the two are not linked, and an allocation failure inside the parser is not modelled.
- `membuffer_attach`, `membuffer_detach`, and `size_t` arithmetic that wraps around.
- The queues of the pool and the timer are sequence fields; that the linked lists behave like sequences is proved in `LinkedList`.
- Unique ids in the job records: they are not unique when calls overlap (`PoolIds.TwoJobsWithOneId`), and the id given back may be another one (`PoolIds.TheIdMissesTheJob`); `PoolIds` proves exactly when. Jobs are told apart by a ticket that only the history uses.
- Integer overflow of `lastJobId`, `lastEventId` and the thread counters.
- Liveness of the pool and the timer: a wait may end at any time, so which signal ends it is not modelled, nor scheduling policies, priorities and statistics beyond the counters of workers and idle threads.
- A pool or a timer that is used after its shutdown has begun, except by calls that were already waiting.
- The body of `MD5Transform`; the input of `MD5Update` is a value, so aliasing with the context is not captured.
- `next_save` in `write_state`, which guards an empty branch; UUIDs of versions other than 1; the random values themselves.
- A failed allocation in `genaSubscribe`, which deletes a subscription it has already linked; event URLs, callbacks, and what becomes of the list when a handle is freed.
- Sockets, select loops, the mini server, URI parsing, message building, the web server, the sample program.
