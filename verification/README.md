# Verification of the FTP engine

A Dafny model of the parts of the FTP server in which state and parsing are hardest, with
proofs of what they promise. `dafny verify dfyconfig.toml` checks everything.

| file | models |
|---|---|
| `MappedFile.dfy` | a file read and written through a sliding window (`WfdeFile`) |
| `AsciiFile.dfy` | the end-of-line mapping layered over it (`WfdeAsciiFile`) |
| `FileTransfer.dfy` | the send and receive loops over both |
| `VirtualPath.dfy`, `PathLaws.dfy` | splitting, normalizing and printing virtual paths, and the laws they keep |
| `Permissions.dfy` | the permission table: ordered longest-prefix scan, insertion, merge |
| `Resolution.dfy` | from a requested path to a physical one |
| `CommandFramer.dfy` | cutting commands out of the fixed input buffer |
| `DirectoryListing.dfy` | listings in batches of 16K |
| `FtpSession.dfy`, `FtpSafety.dfy` | the session as two coroutines that interleave at yields, and what every run keeps |
| `FtpHistory.dfy` | every setting of the session, from the events of its run; which commands are executed, and what the replies mean |
| `FtpOutcomes.dfy` | the replies of a transfer, from what became of it |
| `FtpSessionObject.dfy` | the session as an object whose methods keep the invariant, in every schedule |
| `SessionManager.dfy`, `SessionManagerSafety.dfy` | index, stubs, timers and posted closes between threads, and what every run keeps |
| `SessionManagerObject.dfy` | the manager as objects whose methods keep the invariant, in every schedule |

Code that changes state is a class with methods, proved against a function of the old state;
what the code is for is proved about those functions, for every input and every run. The disk
file is a byte sequence that the mapped window aliases. The segment size is a parameter, at
least 2 where a line end can be written, with the code's 8 and 1024 segments as limit and growth.

## Where the code does less than one would expect

Each of these is proved with the exact condition under which the expectation is met.

- `Write` asserts that the buffer has the requested size. It has exactly if the request fits the
  region limit together with the part of its first segment before it; seven segments always fit,
  eight do not (`WriteAssertHolds`, `WriteAssertCanFail`). Both callers stay below.
- A failed upload leaves over-allocated zeros behind the data exactly if every piece received filled its
  windows and, in ASCII type, there was one (`Upload`, `StoreFile`; `FailedUploadLeavesZeros` has an
  input).
- Normalizing is idempotent for a current directory exactly if none of its components ends in a
  dot: the scanner drops that dot when it meets it again in front of a slash (`IdempotentExactly`).
  RNFR keeps a resolved path that RNTO normalizes once more.
- The permission scan compares characters. A request for `/homework` against an entry `/home`
  resolves to `work` below it (`ResolvedCanBeAnother`); the resolved path is the requested one
  exactly if the match ends at a component (`ResolvedIsRequest`).
- A command is returned as soon as its CR is there. The session runs on to the client's close exactly if
  no read ends between CR and LF and no line has more than 16382 bytes (`FetchAll`). After a read that
  does, the count of left-over bytes wraps around below zero and the next fetch starts outside of the
  buffer; `ATornLineEnd` has such an input. A client that sends whole lines in pieces of at most 16K,
  arriving as sent, is safe (`FetchLines`).
- The name of a virtual entry is a view of a string that the iterator takes off its list, and so destroys,
  in the same step (`FileListIterator.Advance`). Its characters are read later; a short one may still be
  in place, and nothing is promised of it. A listing reads only names that are there exactly if the
  directory or the set of virtual entries is empty (`ListDirectory`; `AVirtualName` has an input). What is
  listed of the directory itself is right in any case.
- No virtual entry comes up in a directory in which `readdir` finds nothing, not even `.`
  (`VirtualEntriesListed`); a listing of given entries comes to an end exactly if every estimate is below
  16K (`ListingEndsExactly`).
- After a refused accept the abort callback stays behind and is called later without an acceptor, exactly
  under the condition of `AcceptorIsMissed`; `AbortMissesAcceptor` has a run.
- `remaining->empty()` tests and does not clear, so on an exact match the argument keeps its value
  (`Permissions.GetPath`). `WfdeFile::Close` sets `closed_` to false, so the destructor runs it
  again; that changes nothing (`MappedFile.Close`).

## Model

| member | source | states |
|---|---|---|
| MappedFiles.GrownSizeHasRoom | src/wfde/WfdeFile.cpp:108-126 | the grown file has room for the request and one more segment, never shrinks, and grows by at least 1024 segments exactly if that room was missing |
| MappedFiles.WriteAssertHolds | src/wfde/WfdeFile.cpp:137-137 | the size assert holds if and only if offset in the first segment plus request fit 8 segments; always for up to 7 segments |
| MappedFiles.WriteAssertCanFail | src/wfde/WfdeFile.cpp:137-137 | a request of 8 segments from inside a segment does not get a buffer of that size |
| MappedFiles.MappedFile.constructor | src/wfde/WfdeFile.h:62-81 | a mapped file at position 0 whose size and real end are the length of the disk file |
| MappedFiles.MappedFile.Open | src/wfde/WfdeFile.cpp:35-89 | which node and operation give which error, exactly; otherwise what is on the disk then and where the position is |
| MappedFiles.MappedFile.Seek | src/wfde/WfdeFile.cpp:222-234 | moves to any position up to the end of the file and fails beyond it without moving |
| MappedFiles.MappedFile.MapRegion | src/wfde/WfdeFile.cpp:191-220 | the region starts at the segment boundary below the position, lies inside the file, contains the position, and is at most 8 segments |
| MappedFiles.MappedFile.GetBufferValues | src/wfde/WfdeFile.cpp:161-188 | the window starts at the position, lies in the region, has exactly the stated length, and the position moves behind it |
| MappedFiles.MappedFile.Read | src/wfde/WfdeFile.cpp:96-101 | the bytes handed out are the file from the old to the new position, never none before the end |
| MappedFiles.MappedFile.Write | src/wfde/WfdeFile.cpp:103-139 | the window is at the old position with the whole length that the region limit allows, the file keeps its bytes and has grown as needed |
| MappedFiles.MappedFile.SetBytesWritten | src/wfde/WfdeFile.cpp:141-159 | rolls the position back over the unused part, records a short write, advances the real end |
| MappedFiles.MappedFile.Append | src/wfde/WfdeFile.cpp:103-159 | a window handed out at the end and partly filled adds exactly the stored bytes to what the file keeps |
| MappedFiles.MappedFile.Close | src/wfde/WfdeFile.cpp:236-256 | cuts the over-allocation off if a short write is on record; afterwards the file can be closed again, and that changes nothing |
| AsciiFiles.MapLinesAppend | src/wfde/WfdeAsciiFile.cpp:29-50 | the mapping does not depend on where the text is cut |
| AsciiFiles.MapLinesAtMostDoubles | src/wfde/WfdeAsciiFile.cpp:66-95 | the mapped text is at most twice as long, so the inner buffer has room for the worst case |
| AsciiFiles.DownloadIsNetworkText | src/wfde/WfdeAsciiFile.cpp:28-50 | whatever the file holds, an ASCII download has CR and LF only as CR LF (section 3.1.1.1 of RFC 959) |
| AsciiFiles.DownloadThenUpload | src/wfde/WfdeAsciiFile.cpp:28-98 | uploading a download stores the file in the local convention: with LF, the file without its CRs |
| AsciiFiles.UploadThenDownload | src/wfde/WfdeAsciiFile.cpp:28-98 | downloading an upload gives the client its text back if and only if that was in network form |
| AsciiFiles.MapLinesTwice | src/wfde/WfdeAsciiFile.cpp:28-98 | mapping to one line end and then to another is mapping to the other |
| AsciiFiles.MapLinesWithLf | src/wfde/WfdeAsciiFile.cpp:75-85 | with LF as local line end the stored text is the received one without CRs |
| AsciiFiles.AsciiFile.Read | src/wfde/WfdeAsciiFile.cpp:28-50 | hands out the CR LF form of exactly the part of the file that was read |
| AsciiFiles.AsciiFile.Write | src/wfde/WfdeAsciiFile.cpp:52-59 | the intermediate buffer has the request's length, at most half a segment |
| AsciiFiles.AsciiFile.PutMapped | src/wfde/WfdeAsciiFile.cpp:69-87 | the mapping loop stores the mapped bytes, nothing before them changes, and it stays inside the window |
| AsciiFiles.AsciiFile.SetBytesWritten | src/wfde/WfdeAsciiFile.cpp:61-98 | adds the mapped bytes to what the file keeps; a call with 0 makes the inner file record a short write |
| FileTransfers.CurrentFile.LeavesGapSplit | src/wfde/ftp/WfdeFtpSession.cpp:694-743 | a piece received in two reads leaves an unfilled window if and only if one of its halves does |
| FileTransfers.CurrentFile.NextPiece | src/wfde/ftp/WfdeFtpSession.cpp:694-700 | one read takes a prefix of what is still to arrive, and the loop makes progress |
| FileTransfers.CurrentFile.ReceiveBinary | src/wfde/ftp/WfdeFtpSession.cpp:694-743 | one round, binary: exactly the bytes read are added to what the file keeps |
| FileTransfers.CurrentFile.ReceiveAscii | src/wfde/ftp/WfdeFtpSession.cpp:694-743 | one round, ASCII: exactly the mapped bytes are added |
| FileTransfers.ReceiveLoop | src/wfde/ftp/WfdeFtpSession.cpp:694-743 | the loop ends, and the file keeps what it had followed by everything received, for any pieces |
| FileTransfers.ReceiveFile | src/wfde/ftp/WfdeFtpSession.cpp:675-764 | it succeeds exactly if the stream ended and was shut down in order |
| FileTransfers.Upload | src/wfde/ftp/WfdeFtpSession.cpp:675-764 | after the clean-up the disk has exactly the old content and the received data if the stream ended; after a failure the data is there, and the over-allocation is cut off if and only if some piece left a gap |
| FileTransfers.StoreFile | src/wfde/ftp/WfdeFtpSession.cpp:464-585 | STOR, STOU, APPE: for every way in which the data arrives and ends, the disk file begins with the old content if appending, else nothing, followed by the data in the form of the transfer type; and it is exactly that if and only if the stream ended in order or some piece left a gap |
| FileTransfers.FailedUploadLeavesZeros | src/wfde/ftp/WfdeFtpSession.cpp:694-730 | one full segment and then a fault, in binary type: the file is longer than the data |
| FileTransfers.SendFile | src/wfde/ftp/WfdeFtpSession.cpp:587-651 | the loop ends; it delivers the file from its position to its end if and only if the connection carries that much and the session does not expire with a write; otherwise a prefix was sent, all that the connection carries or up to the write with which the session expired |
| FileTransfers.SendNext | src/wfde/ftp/WfdeFtpSession.cpp:604-628 | one round sends the next part of the file and moves behind it, and notices a broken connection or an expired session |
| FileTransfers.RetrieveFile | src/wfde/ftp/WfdeFtpSession.cpp:464-651 | RETR: the client gets the whole file in the form of the transfer type, or a prefix if its connection breaks or its session expires; the file is unchanged |
| VirtualPaths.DoSplit | src/wfde/WfdePath.cpp:151-185 | the loop computes the non-empty segments |
| VirtualPaths.ToVpath | src/wfde/WfdePath.cpp:378-407 | the loop prints the parts with slashes between them |
| VirtualPaths.SplitAtSeparator | src/wfde/WfdePath.cpp:151-185 | splitting at a separator splits both sides |
| VirtualPaths.SplitYieldsSegments | src/wfde/WfdePath.cpp:151-185 | segments are not empty, hold no slash, and hold only characters of the text |
| VirtualPaths.SplitJoin | src/wfde/WfdePath.cpp:151-185 | splitting undoes printing, for all parts without slashes |
| VirtualPaths.TokensAtName | src/wfde/WfdePath.cpp:346-363 | a name ends where the scan stops, and what follows means what it means without the name |
| VirtualPaths.TokensAtBackslash | src/wfde/WfdePath.cpp:348-351 | a backslash inside a name makes the path malformed at that point |
| VirtualPaths.ScanName | src/wfde/WfdePath.cpp:346-357 | the inner loop finds the end of the first token or a backslash |
| VirtualPaths.NormalizeAndSplit | src/wfde/WfdePath.cpp:281-370 | the scanner ends, never reaches its closing assert, and computes the resolution, of which the rows below say what it means, with the same error |
| PathLaws.TokenNamesAreClean | src/wfde/WfdePath.cpp:344-363 | a name is not empty, not ".", holds no "..", slash or backslash, and can end in a dot only at the end of the path |
| PathLaws.WalkKeeps | src/wfde/WfdePath.cpp:299-367 | what holds of the start and of every name holds of all parts |
| PathLaws.ResolvedPartsAreSafe | src/wfde/WfdePath.cpp:281-370 | every part of a result is non-empty and holds no "..", slash or backslash, and is not "." |
| PathLaws.WalkOutcome | src/wfde/WfdePath.cpp:325-341 | a path is accepted if and only if every token can be followed; otherwise the first that cannot decides between access-denied (a step up from the root) and bad-path |
| PathLaws.ResolveRelative | src/wfde/WfdePath.cpp:290-293 | a relative path in a directory whose components are clean and end in no dot is the absolute path that is written behind the text of the directory |
| PathLaws.ResolveInDirectory | src/wfde/WfdePath.cpp:284-337 | for every directory: the empty path is the directory, a clean name is that entry of it, a name behind a slash is that entry of the root, and ".." is the directory above, or denied at the root |
| PathLaws.NameThenUp | src/wfde/WfdePath.cpp:325-337 | a name and a step up behind it can be taken out of any path anywhere |
| PathLaws.BadExactly | src/wfde/WfdePath.cpp:325-351 | a malformed token comes from a text if and only if that holds a backslash, or ".." with something other than a slash behind it |
| PathLaws.RefusedExactly | src/wfde/WfdePath.cpp:325-351 | a path is refused as bad only if its text is malformed, a malformed one is always refused, and any other refusal is access-denied |
| PathLaws.TokensOfJoin | src/wfde/WfdePath.cpp:281-407 | what a printed path means to the scanner |
| PathLaws.ResolveJoin | src/wfde/WfdePath.cpp:281-407 | resolving a printed path gives the parts back if and only if no part but the last ends in a dot |
| PathLaws.JoinIsInjective | src/wfde/WfdePath.cpp:378-407 | different parts are printed differently |
| PathLaws.NormalizeIdempotent | src/wfde/WfdePath.cpp:372-376 | normalizing twice is normalizing once, for every absolute path that is accepted and every relative one if no component of the current directory ends in a dot |
| PathLaws.IdempotentExactly | src/wfde/WfdePath.cpp:353-356 | a current directory makes normalizing idempotent if and only if none of its components ends in a dot |
| PermissionTables.PrefixesSortByLength | include/wfde/multipaths.h:40-47 | prefixes of one string are ordered by length in the index |
| PermissionTables.LessIsTotal | include/wfde/multipaths.h:40-47 | the index order is total and strict |
| PermissionTables.InsertKeepsSorted | include/wfde/multipaths.h:40-47 | insertion keeps the index ordered and adds exactly the entry |
| PermissionTables.LongestIsLongest | src/wfde/WfdePermissions.cpp:66-108 | the specification: the longest non-empty entry that is a character prefix, if there is one |
| PermissionTables.LongestIsUnique | src/wfde/WfdePermissions.cpp:66-108 | it does not depend on the order of the table |
| PermissionTables.LookupExactly | src/wfde/WfdePermissions.cpp:88-113 | the specification of a lookup answers an entry if and only if it is the longest match and covers the path, being exact or recursive; else access-denied |
| PermissionTables.RemainingExactly | src/wfde/WfdePermissions.cpp:89-118 | what is left is a suffix of the path with only slashes between it and the entry and none in front; the argument keeps its value on an exact match or a failure |
| PermissionTables.NextLongest | src/wfde/WfdePermissions.cpp:72-108 | in the ordered index a later match is a longer one |
| PermissionTables.ExactIsLongest | src/wfde/WfdePermissions.cpp:88-93 | an entry that is the path itself is the longest match |
| PermissionTables.Permissions.Compare | src/wfde/WfdePermissions.cpp:78-84 | the comparison reaches the end of the entry if and only if that is a prefix, also past the end of the path |
| PermissionTables.Permissions.GetPath | src/wfde/WfdePermissions.cpp:56-119 | one ordered scan answers an entry if and only if it is the longest match and is the path itself or recursive, and access-denied otherwise; it leaves the path behind the entry and its slashes, or the given value on an exact match or a failure |
| PermissionTables.Permissions.AddPath | src/wfde/WfdePermissions.cpp:121-147 | which paths are refused and why, physical paths being compared by their elements; otherwise the table is extended at its end; both indexes stay unique |
| PermissionTables.Permissions.Copy | src/wfde/WfdePermissions.cpp:48-53 | a copy has the same entries in the same order |
| PermissionTables.Permissions.Merge | src/wfde/WfdePermissions.cpp:164-191 | the loop computes the merge and keeps both indexes, physical paths being compared by their elements |
| PermissionTables.DoubledSlashIsSame | include/wfde/multipaths.h:40-47 | a doubled slash makes no other physical path for the index |
| PermissionTables.SamePpathExactly | include/wfde/multipaths.h:40-47 | two physical paths are the same for the index if and only if both or neither start at the root and their names are the same, a slash at the end counting as a name "." |
| PermissionTables.MergeLaws | src/wfde/WfdePermissions.cpp:164-191 | a merge keeps uniqueness, adds only entries of the other table, and leaves out only those whose virtual or physical path is taken |
| PermissionTables.MergeOneByOne | src/wfde/WfdePermissions.cpp:174-190 | one more entry in the other table is added at the end if and only if the merge of those before it has neither its virtual nor its physical path |
| PermissionTables.MergeIsIdempotent | src/wfde/WfdePermissions.cpp:164-191 | merging again changes nothing |
| PermissionTables.MergedLookup | src/wfde/WfdePermissions.cpp:56-191 | the own match goes on answering if and only if every added entry matches less of the path |
| PermissionTables.UserTableWins | src/wfde/WfdeSession.cpp:57-63 | where the user's longest match is at least as long as every match of the session's table, the merged table answers or fails as the user's |
| Resolution.JoinIsNeat | src/wfde/WfdePath.cpp:378-407 | printed safe parts have a slash in front of each, none elsewhere, and no ".." or backslash |
| Resolution.NormalizeIsNeat | src/wfde/WfdeSession.cpp:326-327 | what the session asks the table for is normalized, and splits into the resolved parts |
| Resolution.CreateSubpath | src/wfde/WfdePath.cpp:116-149 | the loop ends with a physical path whose text is the path's, a slash unless there is one, and the segments with slashes between, so that its components are the path's and then the segments; permissions are kept and the type is the one asked for |
| Resolution.AppendNodesJoins | src/wfde/WfdePath.cpp:131-135 | appending nodes one by one gives the text with one slash between each |
| Resolution.BelowHasComponents | src/wfde/WfdePath.cpp:131-135 | such a text splits into the components of the path and then the nodes |
| Resolution.SubpathIsBelow | src/wfde/WfdePath.cpp:116-149 | so a sub-path lies below its path, by text and by components |
| Resolution.AppendVnodesJoins | src/wfde/WfdePath.cpp:131-146 | the virtual path is extended by the printed nodes, with one slash between unless it is the root |
| Resolution.ResolveAtSlash | src/wfde/WfdePermissions.cpp:94-118 | a match in front of a slash leaves exactly the components behind it |
| Resolution.ResolveInside | src/wfde/WfdePermissions.cpp:94-118 | a match inside a component resolves to another path |
| Resolution.ResolveExactly | src/wfde/WfdeSession.cpp:319-335 | for entries in normal form the resolved virtual path is the request if and only if the match ends at a component, and then the physical path is the entry's followed by exactly the remaining components |
| Resolution.ResolvedIsRequest | src/wfde/WfdeSession.cpp:319-335 | the same for every request that is resolved, from its text to the text and the components of the physical path |
| Resolution.ResolvedCanBeAnother | src/wfde/WfdePermissions.cpp:78-106 | an entry /home makes /homework resolve to /home/work |
| Resolution.ResolvedStaysBelow | src/wfde/WfdeSession.cpp:319-335 | for any table the text of a resolved physical path is an entry's, a slash and nodes that cannot step up; it has the permissions of the entry |
| Resolution.ResolvedIsCovered | src/wfde/WfdeSession.cpp:319-335 | a request is resolved if and only if it can be normalized and the longest match is the request itself or recursive; then it is at or below that entry with its permissions, and otherwise it is denied or keeps the error of normalizing |
| Resolution.Session.GetPath | src/wfde/WfdeSession.cpp:319-335 | the composition meets the asserts of the table and of the sub-path; what it answers is below the longest match, which is the request itself or recursive, with its permissions |
| Resolution.Session.SetCwd | src/wfde/WfdeSession.cpp:293-312 | the directory changes exactly if it is resolved, may be entered and exists, and stays one that requests can be relative to |
| Resolution.Session.MergeLogin | src/wfde/WfdeSession.cpp:57-63 | after a login the session has a merged copy; the user's own table is unchanged |
| CommandFramer.LinesOfRender | src/wfde/ftp/WfdeFtpSession.cpp:84-107 | if CR and LF occur only as line ends (section 5.3 of RFC 959) the commands are the lines |
| CommandFramer.Input.FindBreak | src/wfde/ftp/WfdeFtpSession.cpp:85-87 | finds the first CR or LF, or the end |
| CommandFramer.Input.MoveLeftover | src/wfde/ftp/WfdeFtpSession.cpp:48-54 | the left-over bytes are at the front of the buffer |
| CommandFramer.Input.Cut | src/wfde/ftp/WfdeFtpSession.cpp:99-107 | the command, and the unsigned count of what is behind its line end, which wraps if only one byte of that was read |
| CommandFramer.ServedBytes | src/wfde/ftp/WfdeFtpSession.cpp:122-126 | reads take the pieces of the stream in order, and nothing is lost or added |
| CommandFramer.Input.Search | src/wfde/ftp/WfdeFtpSession.cpp:79-107 | a command if a CR or LF is in the buffer, overflow if there is none in a buffer full up to one byte, else nothing yet |
| CommandFramer.Input.Fetch | src/wfde/ftp/WfdeFtpSession.cpp:56-108 | the loop answers a command exactly if a CR or LF is found, overflow exactly if the buffer is full up to one byte without one; it reads no further than the first CR or LF and no more than the buffer holds |
| CommandFramer.Input.FetchNextCommand | src/wfde/ftp/WfdeFtpSession.cpp:45-109 | the same from the left-over bytes of the command before; every read gets what it has room for of the next piece; a start outside of the buffer exactly after a torn line end |
| CommandFramer.EarlierEnds | src/wfde/ftp/WfdeFtpSession.cpp:56-97 | of the reads of one fetch only the last can end between the two bytes of a line end |
| CommandFramer.CommandIsCut | src/wfde/ftp/WfdeFtpSession.cpp:99-107 | a command whose line end was read is the next line, and the rest has the lines, the line ends and the long lines of the rest of the stream |
| CommandFramer.FetchKeepsAligned | src/wfde/ftp/WfdeFtpSession.cpp:45-109 | if whole lines are pending and whole lines of at most 16K arrive at a time, a fetch neither fails nor tears a line end |
| CommandFramer.FetchedReads | src/wfde/ftp/WfdeFtpSession.cpp:45-109 | the reads of a fetch are the first of those that follow from the pending bytes and the pieces to come |
| CommandFramer.FetchAll | src/wfde/ftp/WfdeFtpSession.cpp:146-194 | for any chunking: the reads are those that follow from what is pending and from the pieces; the session ends outside of the buffer if and only if one of them ends between CR and LF; otherwise it goes on to the client's close if and only if no line has more than 16382 bytes, and then the commands are the lines of the stream in order; before an early end they are the lines up to there |
| CommandFramer.ShortRender | src/wfde/ftp/WfdeFtpSession.cpp:90-92 | a rendered stream has no long line if and only if each of its lines and its tail have at most 16382 bytes |
| CommandFramer.FetchLines | src/wfde/ftp/WfdeFtpSession.cpp:45-109 | a client whose lines arrive in pieces of whole lines of at most 16K has exactly these lines executed |
| CommandFramer.ATornLineEnd | src/wfde/ftp/WfdeFtpSession.cpp:102-105 | the pieces "A" CR and LF: the command is returned, and the next fetch is outside of the buffer |
| DirectoryListing.LineFitsEstimate | include/wfde/file_listing.h:56-57 | an entry never prints more bytes than its estimate |
| DirectoryListing.DecimalLength | src/wfde/ftp/WfdeFtpList.h:56-58 | a number below a power of ten has at most that many digits |
| DirectoryListing.EnoughBatches | include/wfde/file_listing.h:138-172 | if all estimates are below 16K, as many batches as entries are enough |
| DirectoryListing.NeverPast | include/wfde/file_listing.h:50-53 | an entry whose estimate is not below 16K is never passed |
| DirectoryListing.ListingEndsExactly | src/wfde/ftp/WfdeFtpList.h:315-323 | listing ends if and only if every estimate is below 16K, that is, every name is shorter than 16382 bytes in a short and 16320 in a long listing |
| DirectoryListing.LineSays | src/wfde/ftp/WfdeFtpList.h:37-125 | a short line is the name; a long line tells a directory from a file by its mode, and holds the decimal numeral of the size, right-justified in eight columns, the date and the name |
| DirectoryListing.DecimalReadsBack | src/wfde/ftp/WfdeFtpList.h:56-58 | the printed digits read back as the number, without a leading zero |
| DirectoryListing.VisibleOfOne | include/wfde/file_listing.h:145-153 | an entry is listed if and only if hidden entries are shown, its name has no leading dot, or it is "." or ".." |
| DirectoryListing.ReverseAt | include/wfde/nix/FileListIterator.h:184-187 | the virtual entries come up the last added first |
| DirectoryListing.VirtualEntriesListed | include/wfde/nix/FileListIterator.h:74-76 | virtual entries come up behind the physical ones if and only if there is a physical one or no virtual one is visible; not that their names can be read |
| DirectoryListing.FileListIterator.constructor | include/wfde/nix/FileListIterator.h:33-49 | the first entry is read at once |
| DirectoryListing.FileListIterator.GetName | include/wfde/nix/FileListIterator.h:124-126 | the name has its length, and its characters if the string that it refers to is still there |
| DirectoryListing.FileListIterator.Advance | include/wfde/nix/FileListIterator.h:154-190 | moves to the next entry of the directory, then to the virtual entries, the last added first; behind it the name is there if and only if it has not moved to a virtual entry |
| DirectoryListing.AVirtualName | include/wfde/nix/FileListIterator.h:184-187 | an empty directory with one virtual entry: the iterator stands at that, and the string of its name is gone |
| DirectoryListing.DirLister.constructor | include/wfde/file_listing.h:78-127 | what is there to list: the directory in order and the virtual entries in reverse |
| DirectoryListing.DirLister.PrintIt | src/wfde/ftp/WfdeFtpList.h:37-125 | writes exactly the formatted line behind the cursor, inside the buffer |
| DirectoryListing.DirLister.Print | include/wfde/file_listing.h:45-63 | prints, or resets the cursor and leaves the buffer alone, exactly as the estimate decides |
| DirectoryListing.DirLister.List | include/wfde/file_listing.h:138-172 | in the directory a batch is the text of the next visible entries, as many as the estimates let in, and the one that did not fit is the first of the next batch; all names that it reads are there if and only if there are no virtual entries or it ends inside the directory |
| DirectoryListing.ReadAll | src/wfde/ftp/WfdeFtpList.h:315-323 | all batches together begin with the text of each visible entry of the directory, each once and in order, and are just that if no virtual entries come up; all names that are read are there if and only if none come up; the client gets the batches in the form of the transfer type |
| DirectoryListing.ListDirectory | include/wfde/file_listing.h:78-172 | the same from the opening of the directory on: the names are all there if and only if the directory or the set of virtual entries is empty |
| DirectoryListing.ListingInAscii | src/wfde/WfdeAsciiFile.cpp:28-50 | a listing in ASCII type reaches the client as it was printed if and only if in every name CR and LF occur only as CR LF |
| FtpSafety.ControlKeepsInv | src/wfde/ftp/WfdeFtpSession.cpp:238-361 | every step of the control coroutine keeps the invariant and leaves a running transfer alone |
| FtpSafety.TransferKeepsInv | src/wfde/ftp/WfdeFtpSession.cpp:490-836 | every step of the transfer coroutine keeps the invariant |
| FtpSafety.RunsKeepInv | src/wfde/ftp/WfdeFtpSession.cpp:146-836 | so does every run, however the two interleave |
| FtpSafety.InterleavingIsSafe | src/wfde/ftp/WfdeFtpSession.cpp:490-585 | in every reachable state no assert of the transfer coroutine has failed and it has used no missing acceptor; a transfer implies login, PORT or PASV and a current file of its direction; PASV implies an acceptor |
| FtpSafety.LoginNeedsCredentials | src/wfde/ftp/wfde_ftp_commands.cpp:210-264 | nobody is logged in without a USER or PASS that was accepted |
| FtpSafety.ControlLeavesTransferAlone | src/wfde/ftp/WfdeFtpSession.cpp:280-295 | during a transfer no command changes its direction, initiation, endpoint, acceptor, offsets or file |
| FtpSafety.EndingStep | src/wfde/ftp/WfdeFtpSession.cpp:497-503 | only the transfer coroutine ends a transfer, silently only on a dead or expired connection |
| FtpSafety.TransferEndsClean | include/wfde/ftp_protocol.h:215-222 | when a transfer ends, everything that belonged to it is cleared |
| FtpSafety.OutgoingRepliesInOrder | src/wfde/ftp/WfdeFtpSession.cpp:490-672 | on a live connection an outgoing transfer has sent 150 and then 226, 425, 426, or 426 and 226 (section 5.4 of RFC 959) |
| FtpSafety.AbortIsConfirmed | src/wfde/ftp/WfdeFtpSession.cpp:653-672 | the 226 behind a 426 is sent exactly if an abort is pending by then |
| FtpSafety.AnAbortedDownload | src/wfde/ftp/WfdeFtpSession.cpp:653-672 | the dialogue can take place: a run in which a download is aborted, gets 150, 426, 226, and leaves the session as after the login |
| FtpSafety.StartsAreApart | include/wfde/ftp_protocol.h:195-222 | in a trace in phase, between two starts the first ends and then PORT or PASV follows |
| FtpSafety.EachTransferHasItsOwnConnection | include/wfde/ftp_protocol.h:195-222 | so it is in every run: each transfer consumes a PORT or PASV of its own |
| FtpSafety.LeftBehindByRefusal | src/wfde/ftp/WfdeFtpSession.cpp:526-541 | in every run the callback that closes the acceptor is left behind if and only if the accept of some transfer was refused and no step has replaced the callback since then |
| FtpSafety.AcceptorIsMissed | src/wfde/ftp/WfdeFtpSession.cpp:340-345 | in every run the abort callback meets no acceptor if and only if it is called while there is none and a refused accept has left it behind |
| FtpSafety.AbortMissesAcceptor | src/wfde/ftp/WfdeFtpSession.cpp:526-541 | this can happen: a download that the client does not connect for, and then ABOR |
| FtpSafety.AssertsHold | src/wfde/ftp/WfdeFtpSession.cpp:492-494 | wherever the transfer coroutine stands, what it asserts there holds in every state that satisfies the invariant |
| FtpSafety.StartingStep | src/wfde/ftp/WfdeFtpSession.cpp:245-295 | a transfer is started only by a transfer command of a client that is logged in and has chosen PORT or PASV |
| FtpHistory.SettingsFollowEvents | src/wfde/ftp/wfde_ftp_commands.cpp:187-671 | in every run, by its events alone: the type is that of the last TYPE executed, ASCII if there was none, and binary while an MLSD runs; login follows the accepted USER or PASS; endpoint, initiation, acceptor, restart offset and ALLO are those of the last PORT, PASV, REST and ALLO executed, the latter four until a transfer ends; RETR and the listings go out, STOR, STOU and APPE come in; a file keeps the form of the type at its start |
| FtpHistory.ExecutedExactly | src/wfde/ftp/WfdeFtpSession.cpp:245-295 | in every run a command is executed if and only if it is in sequence, fits the login, does not meet a transfer and has its PORT or PASV, as the events before it decide; otherwise the first that fails is what the reply says |
| FtpHistory.RepliesAreHonest | src/wfde/ftp/wfde_ftp_commands.cpp:187-1178 | in every run the reply of an executed command tells its effect: 230 if and only if the client is logged in, 227 only with an acceptor, 350 if and only if the offset is kept, silence if and only if a transfer starts, and so on |
| FtpHistory.NothingAfterGoodbye | src/wfde/ftp/WfdeFtpSession.cpp:333-349 | behind a QUIT, an exception or the end of the input no command is read in any run |
| FtpHistory.CommandEffects | src/wfde/ftp/WfdeFtpSession.cpp:238-361 | what one command changes of type, login, endpoint, acceptor, offset and transfer, if it is executed, and nothing if it is not |
| FtpHistory.AbortCloses | src/wfde/ftp/WfdeFtpSession.cpp:340-345 | ABOR is never refused, closes the data socket that the callback is for, and calls it once |
| FtpOutcomes.MoveTells | src/wfde/ftp/WfdeFtpSession.cpp:604-743 | one round of a loop: what it replies and where it leads, by its outcome; the end of the file is no failure |
| FtpOutcomes.ShutdownTells | src/wfde/ftp/WfdeFtpSession.cpp:630-764 | 226, unless it is an upload whose connection cannot be shut down, which gets 426 |
| FtpOutcomes.TransferIsTold | src/wfde/ftp/WfdeFtpSession.cpp:490-764 | in every run, on a line alive to the end, the replies of a transfer in either direction are 150, a 426 for every piece received through a closed socket, and the ending that its events decide |
| FtpOutcomes.DownloadIsTold | src/wfde/ftp/WfdeFtpSession.cpp:490-672 | of a download or listing: 150, 226 if and only if its loop ended with the end of the file; 150, 425 if and only if the connection was refused; 150, 426 first if and only if a write or the file failed, and then 226 if and only if a write failed and an abort was pending |
| FtpOutcomes.UploadIsTold | src/wfde/ftp/WfdeFtpSession.cpp:490-764 | of an upload without such pieces: 150, 226 if and only if the stream ended and the connection was shut down; 425 and 426 likewise |
| FtpOutcomes.ACompletedDownload | src/wfde/ftp/WfdeFtpSession.cpp:587-651 | the dialogue can take place: a run in which a download is sent to its end, gets 150, 226, and leaves the session as after the login |
| FtpSessionObject.Session.HandleCommand | src/wfde/ftp/WfdeFtpSession.cpp:238-361 | a command keeps the invariant, leaves a running transfer alone, logs in if and only if its credentials are accepted, sets the type if and only if it is a TYPE, and to what that says, records PORT and REST, closes the data connection on ABOR, and starts a transfer, in its own direction, only after login and PORT or PASV |
| FtpSessionObject.Session.CloseControl | src/wfde/ftp/WfdeFtpSession.cpp:433-461 | the end of the control coroutine keeps the invariant, ends listening for good, and closes the control connection and the data connection of a running transfer |
| FtpSessionObject.Session.BeginTransferFile | src/wfde/ftp/WfdeFtpSession.cpp:490-495 | its two asserts hold in every schedule: there is a file and no socket |
| FtpSessionObject.Session.OpenDataConnection | src/wfde/ftp/WfdeFtpSession.cpp:497-541 | it connects if and only if PORT was chosen and accepts only with an acceptor; it ends silently, leaving no transfer, if and only if the control connection is gone |
| FtpSessionObject.Session.DataConnectionDecided | src/wfde/ftp/WfdeFtpSession.cpp:522-556 | the assert of `GetPortEndpoint` holds; data moves only with a socket and a file of the transfer's direction |
| FtpSessionObject.Session.MoveData | src/wfde/ftp/WfdeFtpSession.cpp:604-743 | one round of either loop: its asserts hold; on a live connection it goes on to the shutdown if and only if the end of the file was reached, without a reply, and a failed write or file is told with 426 |
| FtpSessionObject.Session.ConfirmPendingAbort | src/wfde/ftp/WfdeFtpSession.cpp:666-671 | on a live connection an aborted download has sent 150, 426, and 226 if and only if the abort was asked for; the request is cleared |
| FtpSessionObject.Session.EndShutdown | src/wfde/ftp/WfdeFtpSession.cpp:630-764 | its asserts hold; on a live connection a download has sent 150 and 226, and an upload is told 226 or 426 by whether the shutdown worked |
| FtpSessionObject.Session.EndTransferFile | src/wfde/ftp/WfdeFtpSession.cpp:582-584 | nothing of the transfer is left, and its replies were in order |
| FtpSessionObject.RunSchedule | src/wfde/ftp/WfdeFtpSession.cpp:146-836 | an object driven through any schedule of the two coroutines: no assert fails, and a transfer is under way only for a client that is logged in and chose PORT or PASV, with a file of its direction |
| SessionManagerSafety.StepKeepsInv | src/wfde/WfdeSessionManager.cpp:33-170 | every lock region, timer and posted task keeps the invariant |
| SessionManagerSafety.RunsKeepInv | src/wfde/WfdeSessionManager.cpp:33-170 | so does every run, for any number of threads and sessions |
| SessionManagerSafety.IndexedIsOwnedOnce | src/wfde/WfdeSessionManager.cpp:87-114 | an indexed session is owned exactly once, by the living stub of its own thread; no slot is ever missing; what was created is owned or was detached |
| SessionManagerSafety.IndexIsOwners | src/wfde/WfdeSessionManager.cpp:33-57 | index and owners differ exactly by the sessions of calls in progress, and are equal between calls |
| SessionManagerSafety.LateCloseDoesNothing | src/wfde/WfdeSessionManager.cpp:159-166 | a late or repeated posted close finds nothing and changes nothing |
| SessionManagerSafety.PostedCloseHasItsStub | src/wfde/WfdeSessionManager.cpp:159-161 | while a task of a thread is pending its stub exists, and no step drops it, so the task reaches the manager through the stub that posted it |
| SessionManagerSafety.CreateIsWhole | src/wfde/WfdeSessionManager.cpp:33-57 | an undisturbed creation adds the session to the index and to the stub of its thread, and moves no other |
| SessionManagerSafety.CloseIsWhole | src/wfde/WfdeSessionManager.cpp:87-114 | an undisturbed close takes an indexed session out of index and stub and moves no other, and changes nothing for one that is not indexed |
| SessionManagerSafety.OneTimerPerStub | src/wfde/WfdeSessionManager.cpp:117-151 | a thread has exactly one pending timer while it has a stub and none otherwise; a timer drops exactly an empty stub |
| SessionManagerSafety.CloseDetaches | src/wfde/WfdeSessionManager.cpp:87-114 | in every reachable state an undisturbed close takes the session out of the index and its stub, and every other owned session stays owned |
| SessionManagerSafety.RemoveFirstRemoves | src/wfde/WfdeSessionManager.h:51-60 | detaching keeps the other sessions and no duplicate |
| SessionManagerSafety.IdleExactly | src/wfde/WfdeSessionManager.cpp:153-170 | closes are posted for a session if and only if it is in the stub and idle, once for each |
| SessionManagerObject.ThreadStub.DetachSession | src/wfde/WfdeSessionManager.h:51-60 | erases the first occurrence |
| SessionManagerObject.ThreadStub.OnThdTimer | src/wfde/WfdeSessionManager.cpp:153-170 | posts one close for each idle session |
| SessionManagerObject.Manager.BeginCreate | src/wfde/WfdeSessionManager.cpp:33-46 | the session is owned by a stub that has exactly one timer; the invariant is kept |
| SessionManagerObject.Manager.BeginPostedClose | src/wfde/WfdeSessionManager.cpp:159-161 | the oldest task is taken, and the stub that it goes through is there |
| SessionManagerObject.Manager.Unregister | src/wfde/WfdeSessionManager.cpp:92-107 | the asserts behind the look-up hold in every schedule: the thread of the session has a slot and a stub in it |
| SessionManagerObject.Manager.EndClose | src/wfde/WfdeSessionManager.cpp:109-113 | the missing-slot branch is dead, and behind it no stub owns the session |
| SessionManagerObject.Manager.OnTimer | src/wfde/WfdeSessionManager.cpp:129-170 | a timer never meets a missing stub, drops exactly an empty one, is set again exactly if the stub stays, and posts one close for exactly the idle sessions of the stub |
| SessionManagerObject.Manager.CreateSession | src/wfde/WfdeSessionManager.cpp:33-57 | the session is in the index and in the stub of its thread; no other session moves |
| SessionManagerObject.Manager.CloseSession | src/wfde/WfdeSessionManager.cpp:87-114 | finds exactly the indexed sessions; the session leaves index and stub and no other does |
| SessionManagerObject.RunSchedule | src/wfde/WfdeSessionManager.cpp:33-170 | objects driven through any schedule of the threads: no assert fails, and when no call is in progress the index has exactly the owned sessions |

## Left out

- TLS: AUTH, PBSZ and PROT, the encryption guard of commands, and the upgrade of either connection.
- Sockets, coroutines, the thread pool, logging, `boost::filesystem` and `mmap` are replaced by
  parameters and peers that may do anything; resizing and mapping succeed, except that an empty
  region cannot be mapped.
- The two coroutines and the threads interleave on values, as step relations. The classes cover one
  stretch between yields or lock regions each; there is no interleaving of their heaps.
- Sessions are created and closed by the thread that owns them, as `WfdeSession` asserts, and ids are
  unique. The tasks that a thread posts to itself run in their order and before the timer that is set
  behind them, 3 seconds later; the pipeline itself is not part of this model.
- A session object is gone only after its control socket was closed, which `WfdeSession::Close` does first.
- The yield in a reply to a QUIT or after an exception separates the command from the closing of the
  session; that closing runs in one stretch to the end of the control coroutine. A reply on a dead
  connection does not yield; the model lets the other coroutine in there as well.
- Replies are appended atomically, so sharing of the reply buffers between the coroutines is not seen.
- FtpSafety.OutgoingRepliesInOrder: not for incoming transfers, where a closed socket makes the receive
  loop reply 426 and go on; `TransferIsTold` has them.
- What a call of the abort callback that a refused transfer has left behind does, ABOR outside of a
  transfer, and when `abort_pending` is cleared other than by a confirmation.
- The greeting, the reply to an overlong line, `FtpReply`, command names and parameters: a command
  carries the outcome of its parsing and of the calls it makes.
- A restart offset is recorded and checked but never applied to the file, as in the code.
- MLSD and MLST facts, the names that `GetVpaths` yields, `stat` and `readdir` errors, the Windows
  iterator.
- DirectoryListing.LineFitsEstimate: the date is given, at most 18 characters long, and a file size has
  at most 14 digits, which is what the code's `snprintf` does not cut.
- Permission names, `IsSameParentDir`, authentication storage, configuration and the entity tree.
- File positions beyond 64 bits, table entries that hold a NUL character, and physical paths that begin
  with exactly two slashes, which are network names.
