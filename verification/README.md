# Verified models of the Globus Toolkit's hard cores

This project models seven components of the Globus Toolkit in Dafny and proves what they promise, over all inputs, all
runs and all interleavings. `dafny verify dfyconfig.toml` checks everything; there are no assumptions and no unproved
members.

| files | component |
|---|---|
| `Rotation.dfy`, `Getopt.dfy`, `Options.dfy` | the permuting long-option parser |
| `Handle.dfy` | the asynchronous I/O handle over XIO: references, pending operations, cancel records, callbacks |
| `Lookup.dfy`, `Numbers.dfy`, `Request.dfy`, `Response.dfy` | the MyProxy wire format |
| `Sasl.dfy` | the SASL GSSAPI security-layer negotiation |
| `Framing.dfy` | record and message framing on a byte stream |
| `Names.dfy`, `Datafile.dfy`, `Repository.dfy`, `Query.dfy` | the credential repository |
| `Serial.dfy` | certificate serial numbers shared by many processes |
| `Common.dfy` | values shared by the modules |

Code that works in place stays in place: `argv` is an array that is swapped, the parser, the I/O handle, the socket,
the data stream, the storage directory, the serial file and the SASL context are classes, and each of their methods
is proved against a function on an abstract state. The laws are then lemmas about those functions. Interleavings are
runs of a step relation, with one invariant proved for every step.

## What the proofs found

- A long option given in full is reported ambiguous when two longer names that start with it come earlier in the table
  (`Getopt.ExactWins`).
- A cancel that XIO refuses is still recorded and reported as a success (`Handle.IoHandle.DoRegisterCancel`,
  `Handle.CancelCaptures`). Re-queuing of a callback ends only because reads and writes are always registered as
  non-blocking (`Handle.BlockingIoWouldBounceForever`).
- The key table's own rule, that no key may be a suffix of another, is broken by `NAME=` and `USERNAME=`; the prefix
  under which the name is sent saves it (`Request.RawTableIsNotSuffixFree`). In responses the names of additional
  credentials become part of keys, and the rule can fail: a name ending in `CRED`, or in `CRED_` and another name,
  makes the whole response unreadable (`Response.ResponseRoundTrip`, `Response.ApartByName`), and so does a name that
  contains a whole key, such as `CRED_START_TIME=5` (`Response.EqualsNameLost`). `Response.ResponseExact` is the exact
  condition for any names and values.
- A server silently cuts passphrases to 1024 characters, and line breaks in a credential's name or description are
  dropped by the client; everything else arrives as it was sent (`Request.OrderedRoundTrip`).
- Times are printed unsigned and read through `int`: of all times a `long` can hold, those from 0 to 2^31 - 1 come
  back, negative ones make the response unreadable and the others come back truncated (`Response.TimeExact`).
- A server with a zero buffer size accepts a security layer that it did not offer (`Sasl.UnofferedLayerPasses`); the
  output size can exceed the peer's when the mechanism's limit is more than twice that size (`Sasl.OutBufBound`). A
  client without a buffer still takes a layer (`Sasl.BufferlessClient`).
- Coalesced messages are recovered if and only if all but the last in each buffer start with `VERSION`
  (`Framing.GroupedRoundTrip`). An end of stream inside the header of a later record ends a token without an error.
- Different users can share files when a name contains a dash or starts with a dot (`Names.StemsCollide`,
  `Names.CollidingPairs`). A listing takes file names apart at their first dash and is led to another file when the
  part behind it starts with a dot or is longer than the limit (`Names.ReachedExact`, `Names.DottedNotReached`,
  `Names.LimitNotReached`); a credential can then be listed twice and another never (`Query.ListedTwice`). Named
  credentials of users with over-long names are not listed (`Query.LongUserNotListed`, `Query.PassesExact`).
- The documentation of the administrative query says that the end time must be before the one asked for; the code
  also accepts an equal one, and the model follows the code. The comment in the serial number code says that an empty
  file starts at 1; the code starts at the configured skip, and so does the model.

## Model

| member | source | states |
|---|---|---|
| `Rotation.Gcd` | myproxy/source/getopt_long.c:110-123 | Euclid's loop returns the greatest common divisor: it divides both numbers, every common divisor divides it, and it is an integer combination of them |
| `Rotation.OrbitDistinct` | myproxy/source/getopt_long.c:147-161 | the first cyclelen slots of a cycle are pairwise different |
| `Rotation.OrbitReturns` | myproxy/source/getopt_long.c:147-161 | after cyclelen steps a cycle is back at its start |
| `Rotation.OrbitCovers` | myproxy/source/getopt_long.c:142-161 | every slot congruent to the start modulo the gcd is met within cyclelen steps |
| `Rotation.NumberedCycle` | myproxy/source/getopt_long.c:147-161 | the cycle started at slot panonopt_end + i visits exactly the slots with residue i |
| `Rotation.CyclePlan` | myproxy/source/getopt_long.c:142-161 | the gcd-many cycles together visit every slot of both blocks exactly once |
| `Rotation.CycleCount` | myproxy/source/getopt_long.c:142-145 | number and length of the cycles form such a plan |
| `Rotation.FollowCycle` | myproxy/source/getopt_long.c:147-161 | the inner swapping loop puts into every slot of one cycle the argument of its source slot and touches nothing else |
| `Rotation.PermuteArgs` | myproxy/source/getopt_long.c:130-162 | for any two adjacent non-empty blocks the array ends as prefix, second block, first block, suffix, each in its old order |
| `Getopt.FindLong` | myproxy/source/getopt_long.c:347-369 | the search loop finds the first exact name, else the only abbreviation, and reports an ambiguity on the second abbreviation it meets |
| `Getopt.ExactWins` | myproxy/source/getopt_long.c:352-368 | a name given in full is found if and only if at most one longer name starting with it comes earlier in the table |
| `Getopt.Parser.constructor` | myproxy/source/getopt_long.c:93-98 | the initial state stands for all arguments unread |
| `Getopt.Parser.Unskip` | myproxy/source/getopt_long.c:229-236 | moving the skipped block behind the options leaves the caller's view of the arguments unchanged; both blocks are non-empty, so the gcd never divides by zero |
| `Getopt.Parser.Finish` | myproxy/source/getopt_long.c:190-207 | at the end optind points at the first skipped argument and argv is options, skipped, rest |
| `Getopt.Parser.SkipArgument` | myproxy/source/getopt_long.c:209-225 | a non-option joins the skipped block |
| `Getopt.Parser.SeekOption` | myproxy/source/getopt_long.c:188-246 | the goto loop behaves as the recursive left-to-right scan |
| `Getopt.Parser.ScanW` | myproxy/source/getopt_long.c:257-275 | the letter W takes the rest of its argument or the next argument as a long option |
| `Getopt.Parser.ScanOptarg` | myproxy/source/getopt_long.c:279-296 | a letter with an argument takes the rest of the cluster, the next argument, or reports it missing, and optarg and optopt are what is reported |
| `Getopt.Parser.ScanCluster` | myproxy/source/getopt_long.c:247-298 | one letter of a cluster |
| `Getopt.Parser.GetoptInternal` | myproxy/source/getopt_long.c:169-299 | one short-option call on argv in place equals the scan on the abstract view |
| `Getopt.Parser.ParseNamed` | myproxy/source/getopt_long.c:340-431 | a long option's name, value and error cases |
| `Getopt.Parser.ParseLong` | myproxy/source/getopt_long.c:316-339 | a long option or the double dash |
| `Getopt.Parser.GetoptLong` | myproxy/source/getopt_long.c:305-433 | one call: the returned event, optarg, optopt and the new argv, optind and nonopt bounds stand for exactly the step of the scan |
| `Getopt.StepShrinks` | myproxy/source/getopt_long.c:169-433 | every call that does not return -1 consumes argument text, so every run of calls ends |
| `Getopt.ClusterRun` | myproxy/source/getopt_long.c:247-298 | the calls for one cluster consume exactly the arguments the reference grammar assigns to it |
| `Getopt.OptionRun` | myproxy/source/getopt_long.c:237-246 | the calls for one option argument consume exactly its span |
| `Getopt.NonOptionRun` | myproxy/source/getopt_long.c:209-228 | a non-option ends the run, is reported, or is skipped, by mode |
| `Getopt.RunPartitions` | myproxy/source/getopt_long.c:169-433 | for every argument list a whole run equals the stable partition by an independent classification of the arguments |
| `Getopt.WholeRun` | myproxy/source/getopt_long.c:169-433 | the same from the start: options with their arguments and any double dash first, then the skipped arguments, then the rest |
| `Getopt.ParseLoop` | myproxy/source/getopt_long.c:305-433 | calling until -1 yields the events and the final view of the specification |
| `Getopt.ParseAll` | myproxy/source/getopt_long.c:169-433 | after a whole parse argv itself is program name, options with arguments, non-options in their old order, and optind is on the first of those |
| `Getopt.NotMinusOne` | myproxy/source/getopt_long.c:169-433 | with non-negative long option values the return value -1 means the end and nothing else |
| `Options.KindExact` | myproxy/source/getopt_long.c:247-277 | a letter is unknown, a flag, or takes a required or optional argument exactly as the first place it is declared at in the option string says |
| `Options.Modes` | myproxy/source/getopt_long.c:70-84 | permuting, reporting in order, the option letters and the complaint about a missing argument, in terms of the first characters of the option string and the environment |
| `Options.MatchExact` | myproxy/source/getopt_long.c:347-369 | a long name means exactly: its first exact entry with at most one longer name before it, or the only entry it abbreviates |
| `Options.ItemReported` | myproxy/source/getopt_long.c:169-433 | an argument of any kind reports what it says, whatever stands behind it: its letter, its value, the next argument, or the error with its optopt |
| `Options.SpelledRun` | myproxy/source/getopt_long.c:169-433 | a list of such arguments reports exactly what they say, in order |
| `Options.EveryRun` | myproxy/source/getopt_long.c:169-433 | every argument list whatsoever is such a list, so this describes the events of all runs |
| `Options.JoinedOrApart` | myproxy/source/getopt_long.c:277-296 | a required argument can be joined to its letter or follow it: same events, and the first is the letter with exactly that text |
| `Options.ClusteredOrAlone` | myproxy/source/getopt_long.c:240-298 | a flag in a cluster is reported as if it stood alone |
| `Options.EqualsOrApart` | myproxy/source/getopt_long.c:340-431 | a long option's required argument can follow an equals sign or be the next argument: same events, and the first carries exactly that text |
| `Options.SameName` | myproxy/source/getopt_long.c:347-431 | two names that mean the same option give the same events, with or without a value |
| `Options.Abbreviation` | myproxy/source/getopt_long.c:347-369 | an abbreviation of one name only means what the full name means |
| `Options.PrefixOrDashes` | myproxy/source/getopt_long.c:257-275 | a long option behind the letter W, joined or apart, is reported as behind two dashes |
| `Options.ParseSpelled` | myproxy/source/getopt_long.c:169-433 | parsing argv in place until -1 returns the events that the arguments say |
| `Handle.InitInv` | io/compat/globus_io_xio_compat.c:363-401 | a new handle satisfies the invariant |
| `Handle.StepKeeps` | io/compat/globus_io_xio_compat.c:570-827 | every step, in every order, keeps: refs is owner plus close plus unfinished operations; the pending list is exactly the uncaptured, undecided operations; every cancel record counts the captured operations not yet through; callback bookkeeping |
| `Handle.ReachableInv` | io/compat/globus_io_xio_compat.c:363-827 | the invariant holds in every reachable state |
| `Handle.FreedOnce` | io/compat/globus_io_xio_compat.c:403-445 | the handle is freed at most once, and exactly when the close callback has run and no operation is unfinished |
| `Handle.NoUseAfterFree` | io/compat/globus_io_xio_compat.c:403-445 | no completion, callback or close step is possible after the free; user calls on a freed handle are the caller's error and excluded by the step relation itself |
| `Handle.CompletionFinds` | io/compat/globus_io_xio_compat.c:632-702 | an operation that completes uncancelled is in the pending list; a captured one has a live record that still counts it |
| `Handle.CancelFiresLast` | io/compat/globus_io_xio_compat.c:612-702 | a cancel record's count is the number of its captured operations not yet through; its callback runs at most once and only at zero |
| `Handle.CaptureIsFinal` | io/compat/globus_io_xio_compat.c:4030-4084 | a capture is never overwritten, and only pending operations are captured |
| `Handle.CallbackOnce` | io/compat/globus_io_xio_compat.c:580-610 | each operation's user callback runs at most once, and past the decision it is skipped if and only if the operation is non-blocking and captured by a cancel that suppresses callbacks |
| `Handle.BounceExact` | io/compat/globus_io_xio_compat.c:704-719 | a callback is requeued exactly when it is known not to run in the space it belongs in |
| `Handle.CallbacksAtHome` | io/compat/globus_io_xio_compat.c:612-827 | in every reachable state of a handle in a user's space, callbacks of operations and cancels run in the global space if they are blocking and in the handle's own otherwise, as far as their space is known |
| `Handle.CloseAtHome` | io/compat/globus_io_xio_compat.c:3703-3748 | so does the close callback, and it is requeued to where it belongs |
| `Handle.RequestsKept` | io/compat/globus_io_xio_compat.c:570-610 | no step changes what an operation or a cancel was registered as, and registering records it as asked for |
| `Handle.CloseIsFinal` | io/compat/globus_io_xio_compat.c:3819-3902 | after any attempt to close, successful or not, nothing can be registered or closed again; only an accepted one takes a reference |
| `Handle.BlockingIoWouldBounceForever` | io/compat/globus_io_xio_compat.c:704-827 | a callback can be requeued n times, for any n from 2 on, if and only if it is a blocking read or write in a user's space; since reads and writes are registered as non-blocking, requeuing ends |
| `Handle.CancelCaptures` | io/compat/globus_io_xio_compat.c:4024-4084 | a cancel captures operations if and only if the handle is open, XIO accepts it and something is pending; otherwise its record is queued with nothing captured; either way it records what was asked for |
| `Handle.CompleteKeeps` | io/compat/globus_io_xio_compat.c:632-702 | finishing an operation keeps the invariant and gives back exactly one reference |
| `Handle.CallbackKeeps` | io/compat/globus_io_xio_compat.c:755-828 | a whole completion callback keeps the invariant, finishes the operation and calls the user back exactly when it is to |
| `Handle.InternalStepsShrink` | io/compat/globus_io_xio_compat.c:704-827 | every completion or callback step decreases a measure |
| `Handle.NoDeadlock` | io/compat/globus_io_xio_compat.c:580-827 | a handle with anything outstanding can always take a step |
| `Handle.RestOutcome` | io/compat/globus_io_xio_compat.c:612-827 | at rest every accepted cancel has called back once, every operation has called back exactly once or, exactly when it was to be skipped, not at all, and a closing handle is freed |
| `Handle.InternalRunsEnd` | io/compat/globus_io_xio_compat.c:704-827 | without new user calls no run is longer than the measure |
| `Handle.ComesToRest` | io/compat/globus_io_xio_compat.c:580-827 | from every reachable state the outstanding deliveries lead to rest |
| `Handle.IoHandle.constructor` | io/compat/globus_io_xio_compat.c:363-401 | a new handle with one reference |
| `Handle.IoHandle.CancelInsert` | io/compat/globus_io_xio_compat.c:570-578 | an operation joins the pending list and takes a reference |
| `Handle.IoHandle.Register` | io/compat/globus_io_xio_compat.c:3021-3074 | registering an operation is the register step and keeps the invariant |
| `Handle.IoHandle.RemovePending` | io/compat/globus_io_xio_compat.c:684-698 | the list search takes out exactly the completing operation |
| `Handle.IoHandle.CancelPrecallback` | io/compat/globus_io_xio_compat.c:580-610 | the decision whether the user callback runs, which is made for good, and the bookkeeping that goes with it |
| `Handle.IoHandle.CancelCount` | io/compat/globus_io_xio_compat.c:632-682 | counting a completed operation off its cancel record |
| `Handle.IoHandle.DropReference` | io/compat/globus_io_xio_compat.c:403-445 | the last reference frees the handle |
| `Handle.IoHandle.DoRegisterClose` | io/compat/globus_io_xio_compat.c:3819-3902 | close takes a reference and refuses a closed handle |
| `Handle.IoHandle.DoRegisterCancel` | io/compat/globus_io_xio_compat.c:4000-4090 | the drain loop hands every pending operation to one new record and queues the record at once if there was none; success is reported whether or not XIO accepted the cancel, and a failure only when an empty record cannot be queued |
| `Handle.IoHandle.CancelComplete` | io/compat/globus_io_xio_compat.c:632-702 | count, fire and drop the reference, as one locked region after the other |
| `Handle.IoHandle.CompletionCallback` | io/compat/globus_io_xio_compat.c:755-828 | a completion callback on the object equals requeuing, or deciding, calling back and completing |
| `Lookup.FindIsFirst` | myproxy/source/myproxy.c:2836-2850 | the search returns the leftmost occurrence or there is none |
| `Lookup.NextValue` | myproxy/source/myproxy.c:2836-2868 | the next occurrence and the rest of its line, as the scan finds them |
| `Lookup.ConvertMessage` | myproxy/source/myproxy.c:2809-2903 | for every buffer and key the pointer scan with a growing result equals looking the key up line by line: -2 if absent, -1 if repeated without permission, else the values joined by line breaks |
| `Lookup.KeyInLine` | myproxy/source/myproxy_constants.h:29-59 | a key can occur in a line only at the end of the line's own key or inside its value |
| `Lookup.OwnKey` | myproxy/source/myproxy.c:2836-2868 | looking up a line's own key gives the whole value |
| `Lookup.OtherKey` | myproxy/source/myproxy.c:2836-2868 | looking up another key that is no suffix of the line's key searches the value alone |
| `Lookup.RenderedLookup` | myproxy/source/myproxy.c:2809-2903 | in a rendered message with suffix-free keys a lookup sees its own fields and whatever key texts other values contain |
| `Numbers.StrtolFormat` | myproxy/source/myproxy.c:3056-3074 | an integer printed in decimal is parsed back by strtol with base detection |
| `Numbers.IntRoundTrip` | myproxy/source/myproxy.c:3165-3210 | every int survives printing and string_to_int |
| `Numbers.TimeRoundTrip` | myproxy/source/myproxy.c:3165-3210 | a time survives if and only if it is below 2^31, since string_to_int truncates to int |
| `Numbers.NumberExact` | myproxy/source/myproxy.c:3165-3210 | blanks, a sign, a number of any size in decimal, octal or hexadecimal, and any text behind it: an error beyond a long, non-numeric if text follows, else the number truncated to int |
| `Numbers.NoNumber` | myproxy/source/myproxy.c:3165-3210 | text that starts with no number is non-numeric and no text is an error |
| `Numbers.ToIntWraps` | myproxy/source/myproxy.c:3205-3206 | truncation to int keeps the number modulo 2^32 |
| `Numbers.FormatExamples` | myproxy/source/myproxy.c:3056-3074 | the decimal text of some numbers |
| `Numbers.DecimalIntRoundTrip` | myproxy/source/myproxy_creds.c:758-763 | an int lifetime survives printing and strtol with base 10 |
| `Request.KeysSuffixFree` | myproxy/source/myproxy_constants.h:29-59 | no key used in requests is a suffix of another |
| `Request.RawTableIsNotSuffixFree` | myproxy/source/myproxy_constants.h:29-59 | the bare NAME= entry is a suffix of USERNAME=; only the CRED_ prefix it is sent with keeps the table's own rule |
| `Request.AppendTokens` | myproxy/source/myproxy.c:1251-1295 | the strtok loop appends one field per non-empty line of a list value |
| `Request.RequestLookup` | myproxy/source/myproxy.c:1301-1660 | each lookup in a serialized request sees its own values plus the key texts inside other values |
| `Request.OrderedRoundTrip` | myproxy/source/myproxy.c:1121-1660 | for any order of the fields the server reads what the client means if and only if no value contains another field's key text in a way that changes the outcome: passphrases cut to 1024 characters, names and descriptions without line breaks, lists without empty lines, everything else as it was |
| `Request.RequestRoundTrip` | myproxy/source/myproxy.c:1121-1660 | the same for the order in which requests are written: an exact condition for every request a client can build |
| `Request.CleanRequestRoundTrip` | myproxy/source/myproxy.c:1121-1660 | requests whose values contain no key text are read back as meant in every field, absent and empty optional fields told apart |
| `Request.ForeignTextSpoils` | myproxy/source/myproxy.c:1301-1660 | key text inside a value does spoil the round trip of the fields that are read strictly |
| `Request.ProperMeant` | myproxy/source/myproxy.c:1121-1660 | a request with single-line values that fit their buffers is meant as it is |
| `Request.WireFormat` | myproxy/source/myproxy.c:1121-1295 | the message is, field by field, the line with the protocol's key and the value, optional fields only if present, lists one line each |
| `Request.StripExact` | myproxy/source/myproxy.c:1200-1215 | cleaning a name drops its line breaks and nothing else, in order |
| `Request.TokensJoin` | myproxy/source/myproxy.c:1251-1295 | a list of non-empty lines is sent line by line as it is |
| `Request.CommandsExact` | myproxy/source/myproxy.c:2951-3000 | the eight commands can be sent and no other |
| `Response.MethodNames` | myproxy/source/myproxy_authorization.c:641-659 | the method table maps each name to its method and back |
| `Response.AuthRoundTrip` | myproxy/source/myproxy.c:3215-3300 | the authorization entries written one per line are parsed back, in order |
| `Response.StrangeAuth` | myproxy/source/myproxy.c:3215-3300 | an entry of an unknown method is passed over and a text without a colon refused |
| `Response.NamesRoundTrip` | myproxy/source/myproxy.c:57-96 | comma-joined non-empty names are split back |
| `Response.FindChr` | myproxy/source/myproxy.c:36-43 | offset of a character, 0 when it is missing |
| `Response.ParseAddCreds` | myproxy/source/myproxy.c:57-96 | the offset loop splits exactly as the recursive definition, with an empty name swallowing the rest |
| `Response.ErrorRoundTrip` | myproxy/source/myproxy.c:1916-1935 | an error text sent line by line comes back joined, without one trailing line break |
| `Response.LinesKept` | myproxy/source/myproxy.c:1865-1935 | a lock message is cut at its first line break, an error text loses only a last one |
| `Response.TimeExact` | myproxy/source/myproxy.c:2056-2110 | every time a long can hold: refused if negative, truncated to int otherwise, so it comes back if and only if it is from 0 to 2^31 - 1 |
| `Response.WireFormat` | myproxy/source/myproxy.c:1688-1945 | the message is, line by line, version, kind, authorization data, each credential's fields under CRED or CRED_ and its name, the list of names and the error lines |
| `Response.KindsExact` | myproxy/source/myproxy.c:3123-3152 | the three kinds of response can be sent and no other |
| `Response.KeySuffix` | myproxy/source/myproxy.c:1730-1890 | one response key ends in another only for the same item, and then exactly when the credential parts of the keys do |
| `Response.LookupSees` | myproxy/source/myproxy.c:2809-2903 | for every response that can be written, a lookup finds what follows the first occurrence of its key in each line that contains it |
| `Response.AloneSeen` | myproxy/source/myproxy.c:2809-2903 | a written value is found alone if and only if no other line contains its key's text |
| `Response.ReadBack` | myproxy/source/myproxy.c:2054-2378 | one credential's fields, once found, give the credential back up to the normal form |
| `Response.ReadExact` | myproxy/source/myproxy.c:2054-2378 | a credential is read back in normal form if and only if each of its lookups finds what was written, up to the three tolerated differences |
| `Response.ResponseExact` | myproxy/source/myproxy.c:1688-2391 | for every response that can be written, with any names and values: it is restored if and only if no line shows a lookup anything foreign that changes the outcome |
| `Response.EqualsNameLost` | myproxy/source/myproxy.c:1730-2378 | an additional credential whose name contains the first credential's start time key makes the whole response unreadable |
| `Response.ResponseRoundTrip` | myproxy/source/myproxy.c:1688-2391 | for names without an equals sign and values without key texts: restored if and only if no credential's key part is a suffix of another's, and rejected otherwise |
| `Response.ApartByName` | myproxy/source/myproxy.c:1730-1890 | when no credential's key part is a suffix of another's, in terms of the names: no additional name ends in CRED, equals another, or ends in CRED_ followed by another |
| `Framing.Socket.ReadAll` | myproxy/source/gsi_socket.c:84-114 | under any sizes of the pieces read: exactly the requested bytes, or end of stream with fewer left, or an error |
| `Framing.Socket.WriteAll` | myproxy/source/gsi_socket.c:116-151 | under any sizes of the pieces written: all bytes in order on success, a prefix otherwise |
| `Framing.Socket.ReadRecord` | myproxy/source/gsi_socket.c:187-239 | one record: its header checked, the limit kept, and the exact reason of every refusal |
| `Framing.Socket.ReadToken` | myproxy/source/gsi_socket.c:160-259 | success returns one or more whole records equal to the bytes consumed, except at most four header bytes dropped at the end of the stream, and never more than a positive limit; each failure has its exact cause |
| `Framing.Socket.ReadTokens` | myproxy/source/gsi_socket.c:160-259 | successive tokens concatenate to a run of whole records of the stream, and to all of it when only its end stops the calls |
| `Framing.RecordsSplit` | myproxy/source/gsi_socket.c:193-207 | two ways to cut the same bytes into records agree on where records start |
| `Framing.RecordExact` | myproxy/source/gsi_socket.c:193-207 | a record is at a place if and only if it is type 20 to 26, version 3 with any minor, a two-byte length with the high byte first, and that many bytes |
| `Framing.WrittenRecords` | myproxy/source/gsi_socket.c:193-207 | any written records in a row are whole records, each ending where its body ends |
| `Framing.ReadWritten` | myproxy/source/gsi_socket.c:160-259 | reading a stream of written records returns all of it and leaves nothing |
| `Framing.StartsExact` | myproxy/source/gsi_socket.c:1218 | the test for VERSION compares its seven letters |
| `Framing.TokensConcat` | myproxy/source/gsi_socket.c:1214-1243 | splitting a buffer neither loses nor invents bytes |
| `Framing.TokensMerged` | myproxy/source/gsi_socket.c:1214-1243 | what any coalesced messages become: leading VERSION messages one by one, everything from the first other message on as one token |
| `Framing.GroupedRoundTrip` | myproxy/source/gsi_socket.c:1214-1243 | coalesced messages come out as they went in if and only if within each group all but the last start with VERSION |
| `Framing.Connection.SafeStrlen` | myproxy/source/gsi_socket.c:1145-1155 | index of the first NUL, or the length |
| `Framing.Connection.Cut` | myproxy/source/gsi_socket.c:1214-1243 | the first token and the rest of a buffer |
| `Framing.Connection.ReadToken` | myproxy/source/gsi_socket.c:1157-1272 | for any input the returned token, the saved buffer and the input still to come are the bytes received, and the tokens are those of the splitting |
| `Framing.Connection.ReadAllTokens` | myproxy/source/gsi_socket.c:1157-1272 | calls until failure return exactly the tokens of all buffers |
| `Datafile.ParseLine` | myproxy/source/myproxy_creds.c:625-780 | a written line sets its variable to everything behind the first equals sign |
| `Datafile.DataRoundTrip` | myproxy/source/myproxy_creds.c:503-780 | reading a written data file gives back every field, for values of any length that may contain equals signs |
| `Datafile.FileFormat` | myproxy/source/myproxy_creds.c:503-528 | the file is, variable by variable, its name, an equals sign and the value, optional ones only if present, and END_OPTIONS last |
| `Datafile.StrangeLine` | myproxy/source/myproxy_creds.c:649-790 | a line with an unknown name or without an equals sign spoils the file |
| `Datafile.EndLine` | myproxy/source/myproxy_creds.c:638-658 | reading ends at END_OPTIONS, with or without a value, and never without it |
| `Datafile.SetsOne` | myproxy/source/myproxy_creds.c:667-780 | a line sets its own variable and no other, a passphrase from older files included |
| `Datafile.DataStream.Fgets` | myproxy/source/myproxy_creds.c:603 | a bounded read up to and including a line end |
| `Datafile.DataStream.ReadLine` | myproxy/source/myproxy_creds.c:603-636 | the doubling buffer loop reads one whole line of any length and ends; without a line end it fails |
| `Datafile.DataStream.ReadDataFile` | myproxy/source/myproxy_creds.c:572-796 | the line loop equals the recursive parser, with its refusals |
| `Names.DigestText` | myproxy/source/myproxy_creds.c:285-307 | the loop writes the two hexadecimal digits of every digest byte |
| `Names.HexTextSame` | myproxy/source/myproxy_creds.c:285-307 | different digests have different texts |
| `Names.SterilizeString` | myproxy/source/string_funcs.c:701-725 | the in-place loop replaces a leading dot and every slash |
| `Names.SterilizeAt` | myproxy/source/string_funcs.c:701-725 | character by character: a leading dot and every slash become dashes, the rest stays |
| `Names.SterileSame` | myproxy/source/myproxy_creds.c:337-395 | exactly when two names become the same file name part, digests and leading dots included |
| `Names.StemsCollide` | myproxy/source/myproxy_creds.c:337-448 | exactly when two keys share their files, for all names: the same sterile names, or an overlap at a dash |
| `Names.StemsApart` | myproxy/source/myproxy_creds.c:337-448 | users whose sterile names have no dash share files if and only if all sterile names agree |
| `Names.CollidingPairs` | myproxy/source/myproxy_creds.c:337-448 | concrete keys that share their files: a dash in either name, a leading dot and a leading dash |
| `Names.ReachedExact` | myproxy/source/myproxy_creds.c:1227-1247 | exactly when taking a file name apart at its first dash leads back to the same file, for all keys: both parts are their own file names |
| `Names.DashFreeReached` | myproxy/source/myproxy_creds.c:1227-1247 | it does for all users whose sterile name has no dash |
| `Names.RedirectReached` | myproxy/source/myproxy_creds.c:1227-1247 | wherever it leads, it leads back from there |
| `Names.DottedNotReached` | myproxy/source/myproxy_creds.c:1227-1247 | user a-.b is led to the files of user a's credential -b |
| `Names.LimitNotReached` | myproxy/source/myproxy_creds.c:1227-1247 | user a-b with a credential name as long as the limit allows is led elsewhere |
| `Repository.PathsApart` | myproxy/source/myproxy_creds.c:310-448 | different stems or kinds never share a file |
| `Repository.ApplyOnly` | myproxy/source/myproxy_creds.c:922-1555 | every operation changes only the files of its own stem |
| `Repository.StepAgrees` | myproxy/source/myproxy_creds.c:922-1555 | one operation on files and on the map keeps them in step, and deletion succeeds exactly on stored keys |
| `Repository.RunAgrees` | myproxy/source/myproxy_creds.c:922-1555 | so does every run of store, delete, lock and unlock over keys that do not collide |
| `Repository.BehavesAsMap` | myproxy/source/myproxy_creds.c:922-1555 | after any such run existence, retrieval and ownership answer from the map: every field of the record last stored |
| `Repository.RunMirrors` | myproxy/source/myproxy_creds.c:922-1555 | after any run the files are exactly those of the map's keys and no others |
| `Repository.Directory.Store` | myproxy/source/myproxy_creds.c:922-1000 | store writes data, credential and lock files or refuses an incomplete deposit |
| `Repository.Directory.Delete` | myproxy/source/myproxy_creds.c:1445-1487 | delete removes the three files, or fails without a data file, or stops half way without a credential file |
| `Repository.Directory.SetLock` | myproxy/source/myproxy_creds.c:1489-1521 | a lock file with the reason, whether or not a credential exists |
| `Repository.Directory.Unlock` | myproxy/source/myproxy_creds.c:1523-1555 | the lock file goes |
| `Repository.Directory.Exist` | myproxy/source/myproxy_creds.c:1322-1398 | both the credential and the data file exist |
| `Repository.Directory.Retrieve` | myproxy/source/myproxy_creds.c:1003-1081 | the parsed record, the first line of the lock, and the caller's user name if the file has none |
| `Repository.Directory.IsOwner` | myproxy/source/myproxy_creds.c:1400-1443 | owner, someone else, or unreadable |
| `Repository.LockComesBack` | myproxy/source/myproxy_creds.c:1044-1058 | a one-line reason comes back unchanged, a longer one up to and including its first line break |
| `Repository.ExistExact` | myproxy/source/myproxy_creds.c:1322-1398 | a credential exists if and only if its .creds and .data files do |
| `Repository.DeletedIsGone` | myproxy/source/myproxy_creds.c:1445-1487 | after a delete the credential neither exists nor can be retrieved, and the delete succeeds exactly on an existing one |
| `Repository.UnnamedUser` | myproxy/source/myproxy_creds.c:1060-1066 | a data file without a user name gets the one it was asked for with |
| `Query.RetrieveAll` | myproxy/source/myproxy_creds.c:1119-1274 | the list-building scan and its count equal the recursive answer |
| `Query.FetchStored` | myproxy/source/myproxy_creds.c:1013-1081 | fetching any key gives the credential stored under its stem, or nothing |
| `Query.ListingKeys` | myproxy/source/myproxy_creds.c:1213-1214 | any repeat-free enumeration of the files lists each stored key once |
| `Query.AnswerExact` | myproxy/source/myproxy_creds.c:1119-1274 | for every query, repository and limit: the answer is what the user's prefix leads to, then what each data file leads to, in directory order |
| `Query.FirstExact` | myproxy/source/myproxy_creds.c:1188-1206 | what comes first is the user's unnamed credential and nothing else |
| `Query.DefaultSeenExact` | myproxy/source/myproxy_creds.c:1146-1206 | exactly when the unnamed credential is looked up under the user's own stem |
| `Query.PassesExact` | myproxy/source/myproxy_creds.c:1216-1225 | exactly when a user's own file passes the comparison of names, over-long names, leading dots and short limits included |
| `Query.ShownOwn` | myproxy/source/myproxy_creds.c:1213-1262 | for every query and limit, exactly when a credential is listed from its own file |
| `Query.QueryExactAlways` | myproxy/source/myproxy_creds.c:1086-1274 | for every limit and every user the answer is exactly the stored credentials that match, each once, if and only if the unnamed one is looked up under its own stem and each other one is shown by exactly one file |
| `Query.QueryExact` | myproxy/source/myproxy_creds.c:1086-1274 | with room for a digest and a user within the limit or with a slash, if and only if every credential to be listed is reached and no unreached file leads to one |
| `Query.QueryAfterRun` | myproxy/source/myproxy_creds.c:922-1274 | all this after any run of store, delete, lock and unlock from an empty repository, for any order of the directory |
| `Query.NamedQuery` | myproxy/source/myproxy_creds.c:1086-1274 | asking for a user's credential by name gives that credential and no other, or nothing if there is none, if and only if the files are sound in that sense |
| `Query.ExpiryQuery` | myproxy/source/myproxy_creds.c:1086-1104 | asking for an expiry between two times gives exactly the credentials that expire then, both ends included, if and only if the files are sound in that sense |
| `Query.QueryAsks` | myproxy/source/myproxy_creds.c:1086-1104 | any query gives exactly the credentials whose user, owner, name and expiry are those asked for, each once, if and only if the files are sound for it |
| `Query.OwnerQuery` | myproxy/source/myproxy_creds.c:1276-1300 | asking for a user and an owner gives exactly that user's credentials with that owner, each once, if and only if the files are sound for it |
| `Query.ListedTwice` | myproxy/source/myproxy_creds.c:1213-1262 | with user a-.b and user a's credential -b stored, a listing of everything shows the latter twice and the former never |
| `Query.LongUserNotListed` | myproxy/source/myproxy_creds.c:1146-1262 | for an over-long user name that does not start with its own digest and a dash, no named credential is ever listed, whatever is stored |
| `Serial.DecodeWritten` | myproxy/source/certauth_extensions.c:351-387 | a file that starts with the text written for a number is read as that number, whatever follows |
| `Serial.WrittenGrows` | myproxy/source/certauth_extensions.c:386-387 | the text of a larger number is never shorter |
| `Serial.NextFile` | myproxy/source/certauth_extensions.c:382-387 | the untruncated overwrite of any file leaves one that reads as the next number |
| `Serial.NextExact` | myproxy/source/certauth_extensions.c:382-387 | from a file holding one number it leaves exactly the next number's text |
| `Serial.StepKeeps` | myproxy/source/certauth_extensions.c:243-399 | every step of every process keeps lock, file and log consistent |
| `Serial.DrawnInOrder` | myproxy/source/certauth_extensions.c:243-399 | over every interleaving the numbers drawn strictly increase in lock order in steps of skip, and the file holds the next one |
| `Serial.NeverRepeats` | myproxy/source/certauth_extensions.c:243-399 | no two processes ever get the same number |
| `Serial.MutualExclusion` | myproxy/source/certauth_extensions.c:243-260 | at most one process is between locking and overwriting |
| `Serial.FileExact` | myproxy/source/certauth_extensions.c:310-399 | the shared file is at all times empty, its first content, or exactly the text of the next number |
| `Serial.ZeroSkipRepeats` | myproxy/source/certauth_extensions.c:243-399 | with a zero skip every process draws the same number in every run |
| `Serial.SoloRun` | myproxy/source/certauth_extensions.c:310-399 | a process left alone draws the file's number |
| `Serial.FromEmptyFile` | myproxy/source/certauth_extensions.c:351-360 | from an empty file the i-th number drawn in any run is (i + 1) times the skip |
| `Serial.FromNumber` | myproxy/source/certauth_extensions.c:351-387 | from a file that holds a number the i-th is that number plus i times the skip |
| `Serial.OverwriteExact` | myproxy/source/certauth_extensions.c:382-387 | the new text, then what the old file has beyond it, no more and no less |
| `Serial.StaleTail` | myproxy/source/certauth_extensions.c:382-387 | a stale tail remains if and only if the old file was longer than the new text |
| `Serial.DecodeExact` | myproxy/source/certauth_extensions.c:351-380 | a file is a number if and only if it starts with whole bytes in hexadecimal that end cleanly; an odd digit spoils it |
| `Serial.ReadEitherCase` | myproxy/source/certauth_extensions.c:351-380 | digits are read in either case |
| `Serial.WrittenExamples` | myproxy/source/certauth_extensions.c:386-387 | the text of some numbers |
| `Serial.SerialFile.LockFile` | myproxy/source/certauth_extensions.c:243-260 | waiting starts over after every interruption and ends with the first real answer |
| `Serial.SerialFile.AssignSerialNumber` | myproxy/source/certauth_extensions.c:268-399 | one call draws the current number, or skip from an empty file, and overwrites the file with the text of the next |
| `Sasl.SizeRoundTrip` | myproxy/source/gssapi.c:942-951 | the three size bytes read back as the size capped at 0xFFFFFF |
| `Sasl.SizeOrder` | myproxy/source/gssapi.c:942-951 | the higher bytes of the size come first |
| `Sasl.AcceptableExact` | myproxy/source/gssapi.c:932-941 | a layer is acceptable exactly when its strength and the external one together reach the minimum and, unless it adds nothing, do not exceed the maximum |
| `Sasl.OfferExact` | myproxy/source/gssapi.c:933-973 | the mask lists exactly the layers within the server's bounds that it has a buffer for; a refusal means none |
| `Sasl.RefusedExact` | myproxy/source/gssapi.c:953-958 | no offer is made exactly when a layer is needed and there is no buffer for one |
| `Sasl.ChooseStrongest` | myproxy/source/gssapi.c:1505-1556 | whatever the mask, the client takes the strongest layer in it within its own bounds |
| `Sasl.BadParamExact` | myproxy/source/gssapi.c:1505-1509 | contradictory bounds are reported exactly when the mechanism is not too weak anyway |
| `Sasl.VerdictBeyondOffer` | myproxy/source/gssapi.c:1034-1063 | an accepted layer was on offer if and only if the server has a buffer or the layer is none |
| `Sasl.UnofferedLayerPasses` | myproxy/source/gssapi.c:1034-1063 | a server without a buffer accepts a layer it did not offer |
| `Sasl.Negotiation` | myproxy/source/gssapi.c:933-1556 | offer, choice and verdict end in the strongest mutually acceptable layer, if and only if that layer is it |
| `Sasl.NegotiationFails` | myproxy/source/gssapi.c:1505-1556 | too weak is reported exactly when no layer suits both |
| `Sasl.OutBufBound` | myproxy/source/gssapi.c:1115-1130 | the outgoing size respects the peer's if and only if the mechanism's limit is at most twice it |
| `Sasl.OutBufPlain` | myproxy/source/gssapi.c:1115-1130 | without a layer the size is the peer's, with one it is the mechanism's limit if that does not exceed it |
| `Sasl.OutBufFits` | myproxy/source/gssapi.c:1115-1130 | for any mechanism whose wrapped sizes grow with their input: if the limit is the largest input that fits the peer's buffer, a message fits if and only if it is within the size |
| `Sasl.OutBufOverhead` | myproxy/source/gssapi.c:1120-1128 | a limit given as an overhead on top of the buffer is taken off it, one given as the room left is used as it is |
| `Sasl.ServerDecidesExact` | myproxy/source/gssapi.c:1018-1143 | a choice authenticates exactly when it has four bytes, an acceptable user and asks for one layer within the server's bounds |
| `Sasl.StepKeeps` | myproxy/source/gssapi.c:715-1650 | every step keeps the agreement invariant |
| `Sasl.Agreement` | myproxy/source/gssapi.c:715-1650 | over every run and delivery order: a finished client has the strongest mutual layer, its server waits for or has taken the choice and lets every choice sent pass, an authenticated server has a finished client with the same layer, and each knows the other's buffer size |
| `Sasl.TransfersAgree` | myproxy/source/gssapi.c:424-520 | in no run is data wrapped or unwrapped before the client has finished, by the server before both have, or with another layer than the strongest mutual one |
| `Sasl.BufferlessClient` | myproxy/source/gssapi.c:1505-1556 | the size a client announces plays no part in its choice, zero included |
| `Sasl.Completes` | myproxy/source/gssapi.c:715-1650 | whenever a mutual layer exists some run authenticates both sides |
| `Sasl.Context.ServerOffer` | myproxy/source/gssapi.c:933-1013 | the server's offer step |
| `Sasl.Context.ServerVerdict` | myproxy/source/gssapi.c:1018-1143 | the server's verdict step and its parameters |
| `Sasl.Context.ClientChoice` | myproxy/source/gssapi.c:1480-1660 | the client's choice step and its parameters |

## Left out

- Getopt: the text of the warnings, and the restart of the parser when `optind` is 0. The store through a long option's
  flag is represented by the reported index of the option.
- Handle: listening, accepting, connecting and authorization operations, attributes, delegation, failure to register a
  oneshot callback, and handles in use after the user's close call. Operations are modelled by the steps that share the
  cancel and reference bookkeeping.
- Lookup, Request, Response: allocation failure, trusted certificates (base64 file data) and VOMS-specific commands;
  texts are NUL-free sequences of characters.
- Response.ResponseRoundTrip: states its condition on the names for names without an equals sign and values without key
  texts; all other names and values are covered by `Response.ResponseExact`, whose condition is on the lines.
- Response.ResponseExact: an absent and an empty error text are not told apart. A credential without an owner is not
  modelled, since the writer would stop in the middle of a line.
- Response.AuthRoundTrip: a joined authorization text that ends in an empty line makes the parser scan past its buffer;
  the model treats it as a parse error.
- Numbers: `strtol` and `printf` are modelled for the C locale, with 64-bit `long` and 32-bit `int`.
- Framing: wrapping and unwrapping; buffers are modelled as they come out of `gss_unwrap`, and `select` may report
  anything.
- Sasl: the mechanism's own context tokens are opaque rounds that end when the mechanism says so; wrapped tokens can
  be delivered in any order and any number of times but not forged. Both sides use the same strength of encryption.
- Sasl.Context.Transfer: the wrapping itself is a parameter.
- Repository: file permissions, temporary files, partial writes and file system errors; MD5 is any function to sixteen
  bytes; a credential is known by its contents only. A data file without an owner, on which the ownership test would
  dereference a null string, counts as owned by someone else. An empty lock file, which would leave the message
  unset, is read as an empty message.
- Query: directory entries shorter than the suffix they are compared with are taken not to match.
- Query.QueryExact: puts the condition in terms of single names for limits of at least 32, the length of a digest, and
  for users within the limit or with a slash; `Query.QueryExactAlways` is the condition for every limit and user, and
  `Query.AnswerExact` the answer itself.
- Serial: the conversions of OpenSSL are modelled by their text format, two hexadecimal digits a byte with a continued
  line after every 35 bytes; their source is not part of the repository. Signing and the certificate itself.
- Socket connections, host failover, trust roots, passphrase changes, LDAP and map-application callouts, the
  command-line programs, the generated error hierarchy and the thin forwarding layers, which would only add easy
  members.
