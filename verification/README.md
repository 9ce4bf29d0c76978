# The SCP engine and the rate limiter of wish, in Dafny

This project models two parts of the wish SSH middleware library and proves what they promise.

**SCP.** A server that sends a directory walks it, builds a tree of entries by appending them one
at a time, prints the tree as a byte stream, and closes its files. A server that receives reads the
stream line by line, keeps a current directory and pending times in registers, and hands each
directory and file to a handler. The model holds all of it: the line formats and the regular
expressions, lexical path cleaning on strings, the path mapping of the file system handler, the
mutable entry tree, the limited reader that frames file contents in the shared stream, the receiving
loop with its acknowledgements, and the sending loops with their closers.

**Rate limiting.** A bounded cache of token buckets, one per client address.

The module order follows the program: `Text` (digits), `Paths` (Clean, Join, Dir), `Filesystem`
(the path mapping), `Cleaning` (the rules of Clean), `Headers` (lines), `Trees` and `Rebuild` (entry
trees as values), `Entries` (the same trees on the heap), `Sender` (copyToClient), `GatherLaws` (what it
gathers), `Streams` (the readers), `Parser` (the receiving
machine as a function), `Receiver` (the loop itself), `RunLaws` (every run), `PathStack` (the current
directory), `Streaming` (cut streams), `RoundTrip`, `EndToEnd`, `Operations` (the file system handler and
what it asks of the operating system), `Transfer` (both ends), `Buckets`, `RateLimiter`, `RateLaws`.

Methods in `Entries`, `Sender`, `Streams`, `Receiver` and `RateLimiter` have the loops and the
assignments of the program; each is proved equal to a function on values, and the laws are proved
about those functions. `Transfer.CopyDirectory` puts both ends together.

How things are represented:

- A byte is the `char` with its code, a Go string a `string`.
- A receiving handler is a pair of functions from the calls made so far and the present call to an
  answer, so it may keep any state. Laws about runs hold for every handler unless they say otherwise.
- A session is the bytes that come in, how they end (cleanly or with a read error), how they are
  split into reads, and the bytes that go out. A sending connection takes a given number of bytes and
  then fails.
- The file system on the sending side is a set of answers: a glob result, a walk, entries for paths.
  Opening a file may bring a closer, which is a number. On the receiving side it is a function that
  answers each operation from the operations before it.
- Time in the rate limiter is an input, and exact.

The code decides the domain of the round trip, and `RoundTrip.ExactDomain` proves that it is this one:
names are valid and on one line, permissions are at least 0100, times are not sent or have ten digits,
the size is that of the content and fits 63 bits, and the reader does not fail. Where the code does not
do what one would expect, the exact condition is proved:

- Appending by raw string prefix rebuilds a walked directory if and only if no directory's name is a
  prefix of that of a later, non-empty sibling (`a` before `ab`).
- E lines are not checked against the depth. A run stays at or below its target if and only if nothing is
  above the target, or no part of the log from its start has more E lines than D lines. A target not given
  in cleaned form may take some E lines first (`up/` takes one), and the condition says how many.
- The path mapping fails for almost every path if the root is `/` or `.`, and confines if and only if
  the root does not end with `..`.
- A globbed path leads back to its match unless it climbs or, for a relative root, repeats the root.

What a reader would otherwise have to take from a definition is stated apart from it: cleaning is what
the documented rules of `filepath.Clean` lead to, in any order (`Cleaning.CleaningIsReduction`); a limiter
lets a request through exactly when no stretch of time would hold too many (`Buckets.AllowedExactly`,
`RateLaws.DecidedExactly`); the file system handler takes a call exactly when the operating system
answered every operation it asked for (`Operations.HandlerAnswers`); and the wire format is spelled out
byte by byte (`Trees.FileFormat`, `Headers.FileLineMeans`).

## Model

| member | source | states |
|---|---|---|
| Transfer.CopyDirectory | scp/copy_to_client.go:10-63 | both ends together, on the heap: a walked directory sent over a connection with room for it is received without error, however the bytes are split, and the receiver makes exactly the calls that recreate it, paths moved to the target, if and only if no directory's name is a prefix of a later non-empty sibling's |
| EndToEnd.CopyIsFaithful | scp/scp.go:153-173 | for any forest of matches: walk, Append, Write and receive end well, and the calls are the forest's own if and only if no directory captures the parent of an entry walked after it outside of it |
| EndToEnd.CopyExactDomain | scp/scp.go:153-183 | for a separate forest everything arrives, and nothing else, if and only if every entry is printable |
| EndToEnd.CopyOfDirectory | scp/scp.go:223-243 | for one directory the condition is on names, and the calls then recreate the walk entry by entry: kind, name, permission bits, times, content, rebased path |
| EndToEnd.EventsAreTheWalk | scp/copy_from_client.go:94-105 | the calls a tree leads to are its pre-order walk with every path moved from the source directory to the target |
| EndToEnd.SameEventsAlike | scp/scp.go:200-220 | trees with the same calls have the same shape |
| EndToEnd.PrefixNamesMisplace | scp/scp.go:163-166 | the input on which Append goes wrong: the file of `ab` ends up in `a` |
| RoundTrip.ParseUndoesPrint | scp/copy_from_client.go:42-120 | for every printable forest and any bytes after it, the loop accepts the forest's items and stands at those bytes, back in its directory, with no times pending |
| RoundTrip.ReadsWholeDir | scp/copy_from_client.go:79-117 | the same for one directory, from its D line to its E line |
| RoundTrip.ReadsFile | scp/copy_from_client.go:126-166 | a file is read back whole, whatever bytes its content holds, and parsing resumes one byte after it |
| RoundTrip.PrintedRun | scp/scp.go:176-183 | a printed forest alone makes the receiver succeed with exactly the forest's calls |
| RoundTrip.CallsOfItems | scp/copy_from_client.go:144-152 | the handler calls among the accepted items are the forest's calls, in order |
| RoundTrip.UnprintableIsRefused | scp/scp.go:128-136 | an entry whose times or permissions do not fit the format, good times before bad permissions included, is refused as unhandled input before any handler call |
| RoundTrip.ExactDomain | scp/copy_from_client.go:42-120 | for every forest: it prints without error and arrives, all of it and nothing else, if and only if every entry is printable |
| Headers.TimeLineReadsBack | scp/copy_from_client.go:18 | a printed T line is read back exactly when both times have ten digits |
| Headers.FileLineReadsBack | scp/copy_from_client.go:20 | for every mode, size and name, a printed C line gives back the low nine bits of the mode, the size and the name exactly when the bits are at least 0100, the size is not negative and fits 64 bits and the name is valid; which error it gives otherwise |
| Headers.DirLineReadsBack | scp/copy_from_client.go:19 | the same for a D line |
| Headers.MatchTimeMeans | scp/copy_from_client.go:18 | the computed match is the match of the regular expression, both ways |
| Headers.MatchFileMeans | scp/copy_from_client.go:20 | the same, with the one split a greedy digit run allows |
| Headers.MatchDirMeans | scp/copy_from_client.go:19 | the same |
| Headers.FormsDisjoint | scp/copy_from_client.go:52-111 | no line matches two forms |
| Headers.OctalPermsDigits | scp/scp.go:301-303 | the printed permissions are two to four octal digits, four exactly from 0100 upwards, and parse back to the nine permission bits |
| Headers.OctalPermsShows | scp/scp.go:301-303 | digit by digit: a zero and the digits of owner, group and others, without those that lead with zero; the bits above are not printed |
| Headers.TimeLineMeans | scp/copy_from_client.go:52-62 | any T line: the first number is the time of modification, the second that of access |
| Headers.FileLineMeans | scp/copy_from_client.go:126-140 | any C line with four octal digits: the mode digit by digit, size and name; which sizes and names are errors, and which error comes first |
| Headers.DirLineMeans | scp/copy_from_client.go:79-91 | the same for any D line |
| Headers.NotOctal | scp/copy_from_client.go:84-87 | a digit 8 or 9 in the mode is a parse error, whatever follows |
| Headers.OtherLines | scp/copy_from_client.go:119 | a line of none of the four forms is unhandled input |
| Trees.FileFormat | scp/scp.go:128-146 | a file on the wire, byte by byte |
| Trees.DirFormat | scp/scp.go:200-220 | a directory on the wire, byte by byte |
| Text.ValueOfFormat | scp/scp.go:302 | parsing a printed number gives it back, in octal and decimal |
| Text.FormatLength | scp/scp.go:302 | a number has at most k digits exactly when it is below the k-th power of the base |
| Rebuild.RebuildCondition | scp/scp.go:153-173 | appending a walk one by one rebuilds the forest if and only if it is separate |
| Rebuild.RebuildByNames | scp/scp.go:229-235 | the same for one directory, with a condition on names |
| Rebuild.RebuildOrDeform | scp/scp.go:163-166 | if the condition fails the result does not even have the forest's shape |
| Rebuild.SiblingCaptures | scp/scp.go:163 | the prefix test between siblings is the prefix test between their names |
| Rebuild.CapturesExactly | scp/scp.go:157-166 | for any directory path, cleaned or not: a directory takes an entry exactly when the entry's parent goes the same way up to the directory's last name and has a name there that begins with it |
| Rebuild.EmptyCaptures | scp/scp.go:163 | the two directories without a name: `/` takes what is rooted, `.` what begins with a dot |
| Rebuild.SeparateByNames | scp/scp.go:233 | the general condition and the one on names agree for one directory |
| Trees.AppendTakes | scp/scp.go:159-162 | a directory whose path is the entry's parent takes it as its last child, unless a sibling before it captures the parent |
| Trees.AppendInserts | scp/scp.go:223-243 | for any tree and entry, Append adds the entry at the end of exactly one child list |
| Trees.InsertKeepsLists | scp/scp.go:230-242 | every other child list keeps its entries in order, so every entry keeps its parent |
| Trees.AppendSplices | scp/scp.go:153-173 | the walk of the result is the old walk with the entry's own walk put in at one place |
| Trees.PrintConcat | scp/scp.go:176-183 | printing siblings prints one after the other and stops at the first that fails |
| Entries.DirEntry.Append | scp/scp.go:223-243 | the method that mutates Children in place, through the tree, does what the function on values says |
| Entries.RootEntry.Append | scp/scp.go:153-173 | the same at the root |
| Entries.PlaceInChild | scp/scp.go:226-240 | the loop: the first capturing child takes the entry, and nothing else changes |
| Entries.DirEntry.Write | scp/scp.go:200-220 | the bytes that arrive are those of the value model, or the part that fits, and the error says which |
| Entries.WriteFile | scp/scp.go:128-146 | the same for a file, whose reader may fail |
| Entries.WriteAll | scp/scp.go:210-214 | the same for the loop over children |
| Entries.RootEntry.Write | scp/scp.go:176-183 | the same at the root |
| Sender.CopyToClient | scp/copy_to_client.go:10-63 | nothing is sent unless everything was gathered; then the printed tree is; on every way out the closers that came with opened files, and without -r also one that came with an error, are called, each in its place, after the last byte |
| Sender.Build | scp/copy_to_client.go:25-60 | the loop over matches builds the tree of what was gathered and the list of the closers to be called |
| Sender.VisitWalk | scp/copy_to_client.go:36-59 | the walk callback, and where it stops |
| Sender.CloseAll | scp/copy_to_client.go:65-71 | every closer that is not nil is called once, in order |
| Sender.ClosedExactlyOnce | scp/copy_to_client.go:27-52 | if every opening brings a closer of its own, the journal of a session holds that of an opened file exactly once, that of a failed opening once without -r and never in a walk |
| GatherLaws.GathersJobs | scp/copy_to_client.go:25-60 | with and without -r, from the handler's answers: the entries gathered are those of the matches or walked items up to the first that failed, one each, in order; gathering succeeds exactly when none failed; the answers kept are those of the openings it came to |
| Sender.WalkIsGathered | scp/copy_to_client.go:36-54 | a handler whose walk is a tree's pre-order walk makes the sender gather exactly that walk |
| Streams.LimitReader.Read | scp/limit_reader.go:22-35 | one read is one step of the value model, the rest of the buffer is untouched, and when the end is reported |
| Streams.LimitReader.Drain | scp/filesystem.go:161 | copying until the end delivers min(limit, available) bytes and leaves the stream right behind them |
| Streams.ReadsStayInside | scp/limit_reader.go:22-35 | over any sequence of reads the bytes are a prefix of the stream, and delivered plus left is the limit |
| Streams.ReadsUntilEnd | scp/limit_reader.go:26-28 | a read that had room and got nothing means min(limit, available) bytes were delivered |
| Receiver.CopyFromClient | scp/copy_from_client.go:31-124 | the loop on the shared stream has the log, answers and result of the machine on values, for every handler and stream |
| Receiver.HandleNewFile | scp/copy_from_client.go:126-166 | the same for a C line, through the limited reader |
| RunLaws.RunFrames | scp/copy_from_client.go:42-166 | every run cuts its stream into accepted items without gaps; each says what its own line says, and the handler accepted it, a file on the bytes behind its header; a run stops for the reason its error gives: a bad line, a directory the handler refused, or a file for which it failed (WriteFailed) or reported another size (ShortWrite), with the content it took |
| RunLaws.DrainedExactly | scp/copy_from_client.go:144-158 | an accepted file whose own handler call drained its reader has exactly its declared number of bytes, those behind its header |
| RunLaws.FileUses | scp/copy_from_client.go:144-162 | an accepted file uses up its header line, as many bytes as its handler took, at most its size, and one byte more; what the handler left unread is parsed as the next line |
| RunLaws.RunAcks | scp/copy_from_client.go:33-164 | a success sends 2 + #T + 2#C + #D + #E NUL bytes; what a failure has sent |
| RunLaws.EveryCall | scp/copy_from_client.go:79-152 | every call of a run, accepted or refused: its path is a valid name joined to the current directory, its times are those pending, both read off the log before the call |
| RunLaws.TimesAttach | scp/copy_from_client.go:52-105 | every call, accepted or refused, has the times of the last T line since the previous C or D line, E lines not counted, or zero |
| RunLaws.TurnsFollowLog | scp/copy_from_client.go:36-119 | at every turn the loop's path, times and remaining bytes are those that its log so far determines |
| PathStack.PathIsStack | scp/copy_from_client.go:93-112 | after a balanced log the current path is the target and the names of the open directories |
| PathStack.RunPath | scp/copy_from_client.go:36-112 | the same of the loop's own path, at every turn of every run up to which no more E than D lines were read |
| PathStack.StackCondition | scp/copy_from_client.go:111-112 | for every target string and log: the target is kept exactly when nothing is above it or the E lines are covered by D lines and, if an E line comes first, by what an uncleaned target takes |
| PathStack.RunKeepsTarget | scp/copy_from_client.go:36-112 | the same of the loop's own path over all turns of every run |
| PathStack.CleanTakesNothing | scp/copy_from_client.go:111-112 | a cleaned target takes no E line |
| PathStack.SlashTakesOne | scp/scp.go:280 | a target with a separator at its end takes one |
| PathStack.UnmatchedEndLeaves | scp/copy_from_client.go:111-112 | the input on which the target is left |
| PathStack.CallsBelowTarget | scp/copy_from_client.go:93-146 | every path the handler is given while no more E than D lines were read, in a call it accepts or refuses, is the target followed by the open directories and the name |
| PathStack.RunLands | scp/filesystem.go:140-157 | through the path mapping each of these calls lands at its own place below the mapped target, and exactly when it does not |
| Operations.OperationsConfined | scp/filesystem.go:140-169 | in every run, whatever the stream, every operation the file system handler asks of the operating system is at or below the root, with no `..` after it, and on the mapped path of a call of that run |
| Streaming.TruncationIsPrefix | scp/copy_from_client.go:43-49 | the calls on a truncated stream are a prefix of those on the whole, however the two end, except that the last Write may see less and then is an error |
| Streaming.TruncationOfAccepted | scp/copy_from_client.go:144-158 | what it saw is a prefix of the content the whole run accepted |
| Operations.FileSystemHandlerWorks | scp/filesystem.go:140-169 | the file system handler drains or fails, and accepts what the operating system accepts |
| Operations.HandlerAnswers | scp/filesystem.go:140-169 | for every operating system and call: the operations of the call are asked in order up to the first that fails, an opened file is closed once more, and the handler takes the call if and only if the path maps, all were asked and none failed, the reader included; what a failing Write has read |
| Operations.CallDone | scp/filesystem.go:140-169 | the same behind the operations of earlier calls |
| Operations.RunIsDone | scp/copy_from_client.go:94-158 | in every run the operations of accepted calls were answered without a fault, deferred Closes apart, and so were all of a run that ended well; a refused directory or file means an unmapped path, a broken reader or a failed operation |
| Operations.AcceptedTookOffer | scp/filesystem.go:161 | a file it accepted holds exactly what its reader could deliver, its declared size |
| Operations.EntryLands | scp/filesystem.go:140-169 | the operations for one received entry are those that create it at its names below the mapped target, exactly when its path does not enter the root from a target outside of it |
| Operations.CopyLands | scp/filesystem.go:140-169 | a walked directory sent and received: the operating system is asked to create exactly the walked entries, in order, with permissions, content and times, each at its names below the mapped target, if and only if that condition holds for each |
| Operations.RelativeKeepsPlace | scp/filesystem.go:45-56 | below an absolute root it holds for every relative target |
| Filesystem.PrefixedSucceeds | scp/filesystem.go:45-56 | the mapping never fails for a cleaned root other than `/` and `.`; for those exactly on the root itself |
| Filesystem.PrefixedConfines | scp/filesystem.go:47-55 | an accepted path is cleaned, at or below the root, with no `..` after it |
| Filesystem.ConfinementCondition | scp/filesystem.go:47-55 | all accepted paths are confined if and only if the root does not end with `..` |
| Filesystem.PrefixedTwice | scp/filesystem.go:82-98 | mapping a mapped path changes nothing |
| Filesystem.PrefixedFollowsNames | scp/filesystem.go:45-56 | names appended to a path are appended to its image, exactly when they do not carry it from outside the root to the inside |
| Filesystem.InsideMeansUnder | scp/filesystem.go:47 | on cleaned paths the string test is the relation on components, except below `/` and `.` |
| Filesystem.Glob | scp/filesystem.go:58-80 | the loop keeps exactly the matches at or below the root, each in its place, as the relative path that leads from the root to it |
| Filesystem.GlobRoundTrip | scp/filesystem.go:68-79 | opening what Glob returned reaches the match, if and only if the relative path does not climb and does not repeat a relative root |
| Filesystem.RelativeRootMisses | scp/filesystem.go:47-48 | the inputs on which it does not |
| Paths.AbsStr | scp/scp.go:305-311 | the string of a normal path denotes that path |
| Paths.CleanIdempotent | scp/scp.go:306 | cleaning twice is cleaning once |
| Cleaning.CleaningIsReduction | scp/filesystem.go:46-51 | the documented rules define cleaning: a path is the meaning of a string if and only if the rules lead from the string's components to the path's and none applies any more |
| Cleaning.UpTakesBack | scp/filesystem.go:46 | `..` takes back the name before it, anywhere in a path |
| Cleaning.RootUpTakesBack | scp/filesystem.go:50 | the same right below the root |
| Cleaning.FirstUpTakesBack | scp/filesystem.go:46 | the same at the start of a relative path |
| Cleaning.RootHasNoParent | scp/filesystem.go:50 | at the root `..` is dropped |
| Cleaning.StartHasParents | scp/filesystem.go:46 | a relative path keeps the `..` that climb out of its start |
| Cleaning.PrefixedTakesBack | scp/filesystem.go:45-56 | the path mapping sends `c/../t` where it sends `t`, both outside the root |
| Paths.JoinAny | scp/filesystem.go:51 | Join gives a clean path, does not depend on the form of its first element, and drops empty ones |
| Paths.DirOfJoin | scp/copy_from_client.go:93-112 | Dir undoes Join for every plain name |
| Paths.JoinName | scp/copy_from_client.go:93 | Join with a plain name adds one component to any path |
| Paths.PrefixMeansBelow | scp/filesystem.go:47 | HasPrefix with a separator means properly below |
| RateLimiter.Limiters.Allow | ratelimiter/ratelimiter.go:67-91 | the method on the mutable cache and limiters does one step of the value model |
| RateLimiter.SharedLimiters | ratelimiter/ratelimiter.go:68-74 | TCP connections share a limiter exactly when their IP addresses are equal; other addresses count as a whole |
| RateLimiter.Limiters.constructor | ratelimiter/ratelimiter.go:48-59 | an empty cache of capacity max(1, maxEntries) |
| RateLaws.CacheHoldsRecent | ratelimiter/ratelimiter.go:76-84 | the cache holds the keys used last, in order, and never more than fit |
| RateLaws.CachedCondition | ratelimiter/ratelimiter.go:77-83 | a key is cached exactly when it was requested and fewer other keys than fit came since |
| RateLaws.CacheRemembers | ratelimiter/ratelimiter.go:76-84 | for every run the cache is the unbounded map that forgets a limiter once as many other keys as fit came by |
| RateLaws.CacheRefinesMap | ratelimiter/ratelimiter.go:67-91 | while gaps are small, every request is decided as by an unbounded map of limiters |
| RateLaws.DecidedExactly | ratelimiter/ratelimiter.go:67-91 | every decision of every run: a request passes if and only if one more is covered by the burst and the rate, counted from each request of its key that passed since the key was last forgotten |
| RateLaws.UnlimitedAllows | ratelimiter/ratelimiter.go:76-82 | without a limit no request is refused |
| RateLaws.KeyIsLimited | ratelimiter/ratelimiter.go:42-48 | such a key is allowed at most its burst and what the rate gives between its first and last request |
| RateLaws.KeyIsServed | ratelimiter/ratelimiter.go:42-48 | such a key is never refused its first requests, as many as the burst |
| Buckets.BurstPasses | ratelimiter/ratelimiter.go:81-82 | a limiter lets its first requests through, as many as the burst, at whatever times |
| Buckets.RestedPasses | ratelimiter/ratelimiter.go:78-79 | after a rest worth one token a request is let through |
| Buckets.RestGivesBack | ratelimiter/ratelimiter.go:78-79 | after a rest worth k tokens k requests are let through, up to the burst |
| Buckets.AllowedExactly | ratelimiter/ratelimiter.go:78-82 | for any clock: a limiter lets a request through if and only if, from each request it let through before, one more is covered by the burst and what the rate has given since |
| Buckets.RefusedExactly | ratelimiter/ratelimiter.go:78-82 | with a steady clock it refuses exactly when there is no burst or some earlier passed request starts a stretch that would hold too many |
| Buckets.BurstAndRate | ratelimiter/ratelimiter.go:81-82 | the same for one limiter |

## Left out

- Entries.WriteFile: an entry is written once; a second Write of the same entry would find its reader at its end.
- Sender.VisitWalk: an error equal to fs.SkipDir or fs.SkipAll, which the walking library takes as a request, is not told from other errors.
- Filesystem.Glob: matches are the cleaned paths that globbing a cleaned pattern yields; matching itself is an input.
- RateLaws.KeyIsLimited: clock readings are not negative, and do not go back for the key in question.
- Concurrent use: the lock of the limited reader and the gap between Get and Add in the rate limiter; calls are sequential.
- Floating-point rounding in the token bucket, and the exact text of errors.
- The file system handler's WalkDir, which leaves out the root itself: a walk is an input.
- Symbolic links and everything else the operating system does with a path: the model ends with the operations it is asked for.
- `scp/fs.go`, and walks rooted at `.`, where an entry's parent is never found by prefix.
- The Windows branch of normalizePath.
- GetInfo's flag parsing, the middleware wrapper, SSH sessions, keys and certificates.
- The other middlewares (git, logging, elapsed, comment, activeterm, accesscontrol, recover, bubbletea) and the examples.
