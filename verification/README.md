# The hiredis protocol engine and MCRedis cluster routing, verified

A Dafny model of the parts of MCRedis that talk the Redis protocol and route keys:

* the resumable reply reader of `read.c` with its task stack, buffer and reply objects (`Resp`, `Verdicts`,
  `Resumption`, `Objects`, `Building`, `StreamReader`, `Streams`);
* the callback machine of `async.c` (`Callbacks`, `Commands`, `Registration`, `Pending`, `Machine`, `Async`), what it
  promises (`Deliveries`, `Teardown`, `Ledger`, `Promises`, `Causes`, `Asking`, `Life`, `Monitoring`) and its
  subscriptions against a server (`Subscriptions`, `Words`, `PubSub`, `Redundancy`, `Tracking`, `Subscribing`,
  `Subscriber`);
* the chained hash table of `dict.c` (`Dict`);
* the command formatters, the output buffer and `nextArgument` (`Formatter`, `Formats`, `Pipeline`, `Arguments`);
* number conversion, quoting and splitting of `sds.c` and `read.c` (`Decimal`, `Quoting`, `Grammar`, `Splitting`,
  `Sds`);
* the cluster slot hash and the slot-keyed connection pool (`Crc16`, `Slot`, `Pool`).

`dafny verify dfyconfig.toml` checks everything.

## How it is built

Code that updates state in place is imperative here: the reader, the reply store, the hash table with its linked
entries, the callback list, the async context and the pool are classes whose methods follow the branches of the C and
C++ functions; loops carry invariants. Each is proved against a specification that does not mention the algorithm: a
recursive-descent parser for the reader, a finite map for the hash table, polynomial division for the CRC table, the
canonical decimal text for the number conversions. The callback machine is proved against functions on the state of a
context, from a call of the program up to a run. The specifications in turn are proved to have the properties the
library promises, stated without them: what bytes say, refuse or leave open, what lines and formats are written like,
parser and printer are inverse, quoting and splitting round-trip, tags decide slots, commands are sent, callbacks and
replies meet exactly once.

Main results:

* **Reader.** After any chunking of any byte stream, with replies drained after each chunk, the reader has produced
  exactly the replies of the recursive parser on the whole stream and, if that parser refuses the stream, the same
  fault after the same reply (`Streams.FeedAll`). What that parser reads, refuses and waits for is said on the bytes,
  both ways: the replies and the refusal are exactly those that the bytes say (`Verdicts.StreamRefusedIff`,
  `Verdicts.StreamWaitsIff`). Every intermediate state keeps the task stack in step with the reply objects under
  construction, and a refusal frees exactly what was built since the last reply, once each
  (`StreamReader.Reader.SetError`).
* **Callbacks.** The async context holds the real queues, hash tables, output buffer and reply reader. After any list
  of events, with callbacks that issue commands, disconnect or free at will, it is in exactly the state that the
  events determine (`Async.Session`, `Machine.After`). Of all such states it is proved: in every context, subscribing
  or not, callbacks and replies meet exactly once and in order, each function runs once, with a reply or with NULL at
  teardown, and nothing else runs (`Life.ExactlyOnce`); which callback takes a reply is said case by case
  (`Promises.WhoTakes`); the commands sent are exactly those that the program issued before it asked for the end, but
  for an unsubscribe without the flag (`Asking.CommandsSent`); while nobody subscribes or monitors, the callback of
  the i-th command sent gets the i-th reply that a parser finds in the bytes read, and the process dies in an
  assertion only over one reply more than commands (`Life.SimpleInTurn`); no reply that has come is dropped, but for
  the last read of a context that a callback freed or that a stray reply ended (`Life.RepliesTaken`); the context goes
  down only when the program freed it, for an error of the last event, or when it was disconnected and every callback
  has its reply, and then it tells the event library and the disconnect callback once (`Life.EndsFor`); no command is
  accepted any more (`Life.NoMoreCommands`). Every reply object is freed, each once.
* **Subscriptions.** Over all runs of single-name (P)SUBSCRIBE and (P)UNSUBSCRIBE against a FIFO server, with or
  without discipline, the pending counters equal the unconfirmed subscribes, an entry is there exactly while its name
  was confirmed as subscribed last or has a subscribe in flight, and when nothing is in flight the dictionaries are
  the server's sets (`PubSub.PendingCounts`, `PubSub.QuietAgreement`). The one assertion that can fail does so exactly
  when no such entry is left (`PubSub.FailsIff`), which a disciplined program never meets (`PubSub.AssertionsHold`).
* **Subscribing contexts.** The history of a context is its commands, replies and the steps of the server, in the
  order in which the events bring them. Whenever it is a run of the subscription protocol, the dictionaries of the
  live context are those of the run, whatever its callbacks did, and it dies only at the message that
  `PubSub.FailsIff` says. In a run of a disciplined program its calls are, message by message, the callback registered
  for the name, and at teardown each callback still registered once, with NULL (`Life.SubscriptionsFollowed`,
  `Tracking.Due`).
* **Hash table.** Every operation refines the operation on a finite map, growth moves every entry exactly once
  although its loop stops early, and iteration returns every entry exactly once even when the caller deletes the
  entries it is given (`Dict.Sweep`).
* **Wire.** Commands appended, flushed in arbitrary pieces and read back arrive as their argument vectors, in order
  (`Pipeline.EndToEnd`).
* **Lines.** `sdssplitargs` splits a line into arguments if and only if it consists of words that mean them, and
  refuses it if and only if a quote is not closed or closed in mid-word (`Grammar.SplitIff`, `Grammar.RefusedIff`).
* **Pool.** Once every range end has a bucket, every use of any sequence comes to exactly what it should: the first
  connection of the list found for the slot or a new one, and either reaches the slot; the connection of that holder;
  all lists. The process survives exactly as long as no use destroys a connection that `_get` has made, and so long
  the lists and the holders are those that the uses leave, no connection has two holders and the counts add up
  (`Pool.Serve`).

Seven promises turned out to hold only under a condition, and are stated with it:

* `ConnectionPool::_get` hands out a connection for the slot exactly when the end of the owner's range has a bucket or
  the list found is empty (`Pool.ConnectionPool.Get`); `Pool.Misrouted` is a run that gets a wrong connection.
* A connection that `_get` has made has an empty deleter. Destroying it ends the process, so a connection that comes
  back with an error must be one that `create` has made, and so must every idle one when the pool is cleared or goes
  away (`Pool.ConnectionPool.HandBack`, `Pool.ConnectionPool.Clear`, `Pool.ConnectionPool.Destroy`); `Pool.NoDeleter`
  has two runs that end so.
* One (P)SUBSCRIBE with several names counts them right exactly when for each new name either no earlier name of the
  command was known or the last known one had come to a counter of 1 (`Subscriptions.CountedIff`; names may be
  repeated). For different names the old dictionary decides: whenever new names follow one with an entry, the counter
  of that entry must be 0 (`Subscriptions.CountedOnceIff`). `Subscriptions.CarriedOver` and
  `Subscriptions.CarriedByRepetition` are commands counted wrong.
* The assertion that a context with a message is subscribed fails exactly when no name was confirmed as subscribed
  last and none has a subscribe in flight (`PubSub.FailsIff`). From its own commands, however many redundant
  unsubscribes are among them, a program can tell it: when the confirmation of its last command, an unsubscribe, is
  the only one in flight, it finds the flag set exactly when the last command before it for some name was a subscribe
  (`Redundancy.RedundantIff`). After disciplined commands the confirmation of one more always comes
  (`Redundancy.ConfirmationComes`). `PubSub.RedundantUnsubscribe` is a run that fails the assertion.
* MONITOR's callback gets every line of a read, and goes on waiting alone for the next ones if and only if the read has
  completed a line (`Monitoring.MonitorKept`). Otherwise a NULL callback waits behind it, and lines are given to nobody
  (`Monitoring.LinesLost`); `Monitoring.MonitorLost` is such a run.
* `nextArgument` reads the length of an argument right exactly when it fits an `int` (`Arguments.LengthRead`).
* Array markers nest eight deep (stack indexes 0 to 7); at index 8 even an empty or nil array is refused, where the
  message speaks of a depth of more than 7 (`Resp.ParseEncoded`).

## Model

| member | source | states |
|---|---|---|
| Decimal.String2ll | lib/hiredis/read.c:157-218 | the loop with its two overflow tests, on checked 64-bit arithmetic, accepts exactly what `Parse` accepts and returns the same number |
| Decimal.ParseIffText | lib/hiredis/read.c:145-156 | a string is accepted if and only if it is the canonical decimal text of an int64, and the result is that number |
| Decimal.Sdsll2str | lib/hiredis/sds.c:432-461 | writes the canonical text of every int64, the most negative one included, with its NUL within 21 bytes |
| Decimal.Sdsull2str | lib/hiredis/sds.c:464-490 | the same for every unsigned 64-bit value |
| Decimal.TextFits | lib/hiredis/sds.c:431 | 21 bytes are enough for either printer |
| Decimal.TextLaws | lib/hiredis/sds.c:432-490 | decimal notation with literal bytes: one digit, one digit more, the sign |
| Decimal.RoundTrip | lib/hiredis/read.c:154-156 | printing any int64 and reading it back gives that int64 |
| Decimal.ReverseInPlace | lib/hiredis/sds.c:451-459 | the two-pointer swap loop reverses the text and touches nothing else |
| Resp.ParseEncoded | lib/hiredis/read.c:365-439 | a printed well-formed item, followed by anything, parses to itself and leaves the rest, if and only if its array markers fit under stack index 8 |
| Resp.ParseSound | lib/hiredis/read.c:441-488 | whatever the parser accepts, the bytes consumed are the printed form of the item and the item is well formed |
| Resp.ParseExtend | lib/hiredis/read.c:550-598 | bytes that arrive later change neither an item already read nor a refusal |
| Resp.CutLineAppend | lib/hiredis/read.c:119-143 | a line already found stays the first line |
| Verdicts.SaidIff | lib/hiredis/read.c:260-488 | a reply is read off the front of a stream if and only if the bytes before the rest say it, with every type byte, length, line end, nil form and level of nesting written out |
| Verdicts.LineRefused | lib/hiredis/read.c:260-439 | a complete first line is refused for exactly these reasons: after ':' it is no int64, after '$' it is no int64 or less than -1, after '*' it is no int64, less than -1 or more than 2147483647 |
| Verdicts.RefusedIff | lib/hiredis/read.c:260-488 | a stream is refused with this fault if and only if an item is refused at its start, at the top or after complete elements in open arrays: for its type byte, an array at index 8, or its first line |
| Verdicts.IncompleteIff | lib/hiredis/read.c:119-143 | more bytes are awaited if and only if, at the top or in an open array, there is nothing yet, no CR LF after a type byte, or a bulk of n bytes with fewer than n + 2 behind its length |
| Verdicts.StreamRefusedIff | lib/hiredis/read.c:550-598 | a reader shows these replies and this refusal if and only if the bytes say the replies and are refused so after them |
| Verdicts.StreamWaitsIff | lib/hiredis/read.c:550-598 | it waits after these replies, with this tail, if and only if the bytes say the replies and the tail is incomplete |
| Resumption.Stuck | lib/hiredis/read.c:574-581 | with arrays open, what stops the innermost item is the verdict of the recursive parser on the whole stream |
| Resumption.ItemRead | lib/hiredis/read.c:235-258 | finishing an element and popping the arrays it fills keeps the stack equivalent to the bytes consumed |
| Resumption.ArrayOpened | lib/hiredis/read.c:417-427 | pushing a task for an array's first element keeps that equivalence |
| Resumption.AdvanceCloses | lib/hiredis/read.c:235-258 | the iterative pop loop computes what closing the nested calls of the recursive parser computes |
| Objects.Store.CreateLeaf | lib/hiredis/hiredis.c:101-188 | a new string, integer or nil object is stored in the parent's slot and nothing else changes |
| Objects.Store.CreateArray | lib/hiredis/hiredis.c:133-156 | a new array with NULL slots is stored in the parent's slot and nothing else changes |
| Objects.Store.Free | lib/hiredis/hiredis.c:75-99 | frees every object reachable from the root, each exactly once, and no other |
| Objects.HoldsIsTree | lib/hiredis/hiredis.c:75-99 | a finished reply owns exactly its objects |
| Building.LinkNext | lib/hiredis/hiredis.c:125-129 | writing a new element keeps filled slots before the current index and NULL slots after it |
| Building.ElementAdded | lib/hiredis/read.c:249-255 | moving to the next element keeps the open arrays consistent with the stack |
| Building.ArrayCompleted | lib/hiredis/read.c:247-248 | popping a full array leaves it as a finished object in its parent's slot |
| Building.ArrayOpens | lib/hiredis/read.c:406-434 | a new non-empty array becomes the innermost open one |
| Building.BuiltIsTree | lib/hiredis/read.c:50-53 | everything built since the last reply is reachable from the root object |
| StreamReader.SeekNewline | lib/hiredis/read.c:119-143 | finds the first CR LF of the unread bytes, or none |
| StreamReader.Reader.ReadLine | lib/hiredis/read.c:220-233 | consumes one line when there is a whole one and nothing otherwise |
| StreamReader.Reader.SetError | lib/hiredis/read.c:47-69 | the error is sticky, and exactly the objects built since the last reply are freed |
| StreamReader.Reader.Destroy | lib/hiredis/read.c:509-516 | the objects of an unfinished reply are freed with the reader, each once, and no other is touched |
| StreamReader.Reader.MoveToNextTask | lib/hiredis/read.c:235-258 | the reader is afterwards in the middle of the next element or has a complete reply; the assertions hold |
| StreamReader.Reader.ProcessLineItem | lib/hiredis/read.c:260-299 | one line item is read as the parser reads it, or nothing is consumed, or the refusal is the parser's |
| StreamReader.Reader.ProcessBulkItem | lib/hiredis/read.c:301-363 | the same for bulk strings; an incomplete one consumes nothing, and a length that is no number or less than -1 is refused as the parser refuses it (`Verdicts.LineRefused`) |
| StreamReader.Reader.ProcessMultiBulkItem | lib/hiredis/read.c:365-439 | the same for array headers, with the limit at index 8 |
| StreamReader.Reader.ProcessItem | lib/hiredis/read.c:441-488 | the same for any item; a success shortens the unread bytes |
| StreamReader.Reader.ProcessItems | lib/hiredis/read.c:574-577 | the loop ends with a complete reply, with a stream the parser finds incomplete, or with the parser's refusal |
| StreamReader.Reader.Feed | lib/hiredis/read.c:518-548 | appends the chunk to the stream, whether or not the buffer is replaced; refused after an error |
| StreamReader.Reader.Compact | lib/hiredis/read.c:583-589 | discarding consumed bytes leaves the unread ones, and less than 1k of consumed ones remains |
| StreamReader.Reader.GetReply | lib/hiredis/read.c:550-598 | emits the tree of the recursive parse and consumes exactly its bytes, or waits, or fails as the parser fails (`Verdicts` says when each happens); earlier replies stay intact, and less than 1024 consumed bytes stay in the buffer |
| Streams.OutcomesAppend | lib/hiredis/read.c:550-598 | parsing a stream in two parts gives the replies and the ending of parsing it whole |
| Streams.OutcomesOfEncoded | lib/hiredis/read.c:550-598 | printed items, one after the other, come back as that list |
| Streams.Drain | lib/hiredis/async.c:461-482 | taking replies until there are none shows every reply of the stream so far |
| Streams.FeedAndDrain | lib/hiredis/async.c:647-653 | one read event keeps that true |
| Streams.FeedAll | lib/hiredis/read.c:518-598 | for every stream and every chunking the replies and the fault are those of the whole stream |
| Sds.SdsRange | lib/hiredis/sds.c:723-749 | the inclusive range by positions: an end behind the string stops at its last byte, a start behind it or behind the end gives nothing, and a negative index counts from the end and stops at the first byte |
| Sds.RangeDrops | lib/hiredis/sds.c:723-749 | `sdsrange(s, n, -1)` drops the first n bytes |
| Formatter.CountDigits | lib/hiredis/hiredis.c:192-202 | the four-way unrolled loop returns the number of decimal digits |
| Formatter.Bulklen | lib/hiredis/hiredis.c:205-207 | the length of any bulk string with that payload length on the wire |
| Formatter.TotalLength | lib/hiredis/hiredis.c:535-540 | the precomputed length is the length of the command on the wire |
| Formatter.FormatCommandArgv | lib/hiredis/hiredis.c:525-561 | fills a buffer of the precomputed length exactly with the command and a NUL; the assertion holds |
| Formatter.FormatSdsCommandArgv | lib/hiredis/hiredis.c:472-514 | gives the same bytes as the other formatters; the assertion holds |
| Formatter.FormatCommand | lib/hiredis/hiredis.c:209-416 | gives the same bytes for the arguments the format stands for; the assertion holds |
| Formatter.ScanFormat | lib/hiredis/hiredis.c:230-390 | the scanning loop collects one argument for each word of the format and adds up their lengths |
| Formatter.ScanSplits | lib/hiredis/hiredis.c:230-379 | the format is split at its own spaces and nowhere else: no byte interpolated by %s or %b ends an argument |
| Formatter.WireBytes | lib/hiredis/hiredis.c:525-561 | the bytes of a command: '*', the number of arguments, and for each '$', its length, CR LF, the argument, CR LF |
| Formats.FormatIff | lib/hiredis/hiredis.c:230-390 | a format makes these arguments if and only if it consists of words with spaces between them whose bytes, %%, %s and %b with the values in order make them; a single '%' may end it |
| Arguments.Strchr | lib/hiredis/async.c:723 | the first occurrence, or none when a NUL comes before it |
| Arguments.StrtolReads | lib/hiredis/async.c:727 | white space, perhaps a sign, and decimal digits are read as their number, or as the nearest that a `long` can hold |
| Arguments.StrtolNone | lib/hiredis/async.c:727 | without digits it is 0 |
| Arguments.LengthRead | lib/hiredis/async.c:727 | `strtol` and the cast to `int` give the length a header was printed from if and only if it is at most INT_MAX |
| Arguments.NextArgument | lib/hiredis/async.c:720-732 | on any C string: NULL without a '$', a failed assertion without a CR after it, otherwise what follows is read as a number and the payload is taken to start after the CR; at a header that is the payload's place and length |
| Arguments.NextOf | lib/hiredis/async.c:720-732 | on a formatted command one call yields the next argument whole, even when arguments hold '$', CR or LF |
| Arguments.AllArguments | lib/hiredis/async.c:770-787 | repeated calls yield exactly argv in order and then NULL |
| Commands.StartsIff | lib/hiredis/async.c:766-796 | comparing the text with a word and CR LF finds the word exactly when the argument there, with its CR LF, begins with both |
| Commands.ReadVerb | lib/hiredis/async.c:758-796 | the tests on the text of a command, whatever its arguments hold, classify it by its argument vector |
| Words.ClassifyIff | lib/hiredis/async.c:753-796 | a command subscribes, unsubscribes or monitors if and only if the name before the first CR LF of its first argument is that word in any case, with or without a p; a subscribe only if an argument follows |
| Words.MessageDoes | lib/hiredis/async.c:404-446 | what an array that nobody waits for does, by its title up to a NUL: which dictionary, the counter, the entry, the flag, the callback found, and the failed assertion on the third element |
| Words.MalformedCrashes | lib/hiredis/async.c:404-419 | fewer than two elements, or one of the first two that is no string, fail an assertion |
| Pipeline.Context.AppendCommandArgv | lib/hiredis/hiredis.c:886-897 | bytes on the wire and in the buffer together stay the commands sent |
| Pipeline.Context.BufferWrite | lib/hiredis/hiredis.c:816-837 | any partial write keeps that, done tells whether the buffer is empty, a failure sets the error |
| Pipeline.WireParses | lib/hiredis/read.c:550-598 | a parser of the wire sees exactly the commands, argument by argument |
| Pipeline.EndToEnd | lib/hiredis/hiredis.c:816-897 | for any commands and any sizes of partial writes, a reader fed the wire returns one array of strings for each command, equal to its argv, in order |
| Quoting.SdsCatRepr | lib/hiredis/sds.c:867-890 | appends the quoted form of the bytes |
| Quoting.SdsSplitArgs | lib/hiredis/sds.c:942-1058 | terminates on every line, never looks past its NUL, and returns what the recursive reading of the line gives (`Grammar` says what that is) |
| Quoting.GetToken | lib/hiredis/sds.c:951-1030 | one token is read as specified (`Grammar.SplitIff`), or refused for unbalanced or badly closed quotes (`Grammar.RefusedIff`) |
| Quoting.QuotingRoundTrip | lib/hiredis/sds.c:860-940 | any list of byte strings, quoted and joined by spaces, is split back into that list |
| Grammar.SplitIff | lib/hiredis/sds.c:942-1058 | a line is split into these arguments if and only if it consists of blanks and words that mean them: bytes that stand for themselves, and at the end of a word a string in double quotes with the escapes n, r, t, b, a and two hexadecimal digits in either case, or one in single quotes with \' for a quote |
| Grammar.RefusedIff | lib/hiredis/sds.c:968-1012 | it is refused if and only if after such words a quote is not closed, or is closed before something other than a blank or the end |
| Grammar.ArgumentsSplit | lib/hiredis/sds.c:910-940 | arguments come back that are written plainly (no blank, quote or NUL), in single quotes (no NUL, no backslash at the end) or in double quotes, mixed on one line |
| Grammar.EscapedTable | lib/hiredis/sds.c:870-886 | how each byte is quoted: a table of all bytes |
| Splitting.SdsSplitLen | lib/hiredis/sds.c:804-851 | NULL exactly for an empty separator; joining the tokens restores the string and no token contains the separator |
| Splitting.SplitThenJoin | lib/hiredis/sds.c:804-851 | cutting at the leftmost separators and joining is the identity, and no piece contains the separator |
| Splitting.TokensIff | lib/hiredis/sds.c:804-851 | these are the pieces if and only if joined they are the string, each but the last ends at the leftmost separator, and the last has none |
| Splitting.JoinMore | lib/hiredis/sds.c:1097-1106 | one token more comes after one separator more |
| Splitting.SdsJoinSds | lib/hiredis/sds.c:1097-1106 | the tokens with the separator between any two |
| Dict.AndBelow | lib/hiredis/dict.c:118 | a masked hash is an index of the table |
| Dict.AndMask | lib/hiredis/dict.c:118 | for a size that is a power of two, masking takes the remainder of the hash |
| Dict.KnownHashes | lib/hiredis/dict.c:53-59 | the hashes of three strings |
| Dict.NextPower | lib/hiredis/dict.c:306-315 | the smallest power of two from 4 on that is large enough, and the size itself when that is one |
| Dict.Dict.constructor | lib/hiredis/dict.c:65-85 | the empty map, without a table |
| Dict.Dict.Find | lib/hiredis/dict.c:243-256 | returns the entry of the key, and NULL exactly when the key is absent |
| Dict.Dict.Relink | lib/hiredis/dict.c:117-120 | one entry more is in its new list; no other entry changes |
| Dict.Dict.MoveOne | lib/hiredis/dict.c:112-123 | one entry goes to the head of its new list, and the rest of its old list stays linked |
| Dict.Dict.MoveList | lib/hiredis/dict.c:111-124 | every entry of one old list is moved exactly once |
| Dict.Dict.MoveAll | lib/hiredis/dict.c:105-126 | the early-exit loop has moved every entry, so `used` is 0 as asserted |
| Dict.Dict.Expand | lib/hiredis/dict.c:88-132 | refused exactly when the size is too small; otherwise a larger table with the same entries and values |
| Dict.Dict.ExpandIfNeeded | lib/hiredis/dict.c:295-303 | a missing table gets 4 buckets, a full one doubles, any other stays; afterwards there is room and the map is the same |
| Dict.Dict.KeyIndex | lib/hiredis/dict.c:320-337 | -1 exactly when the key is present, else its bucket |
| Dict.Dict.Add | lib/hiredis/dict.c:135-154 | adds exactly when the key is absent; the map is updated at that key only |
| Dict.Dict.Assign | lib/hiredis/dict.c:176-177 | the value of one entry changes in place; the map is updated at its key |
| Dict.Dict.Replace | lib/hiredis/dict.c:160-179 | the map is updated at the key; 1 exactly when the key is new; existing entries stay the same objects |
| Dict.Dict.Locate | lib/hiredis/dict.c:186-207 | walks to the entry of the key, with its predecessor and its place, and to the end exactly when the key is absent |
| Dict.Dict.Delete | lib/hiredis/dict.c:182-210 | removes exactly the key; its entry is unlinked from its list and all other lists are untouched |
| Dict.Dict.Clear | lib/hiredis/dict.c:213-235 | frees every entry exactly once and leaves the empty table |
| Dict.Dict.TableOrder | lib/hiredis/dict.c:268-286 | the lists in table order hold every entry exactly once, `used` in all |
| Dict.Iteration.Onto | lib/hiredis/dict.c:277-282 | stepping onto an entry saves its successor, so that what comes after it does not depend on it |
| Dict.Iteration.Round | lib/hiredis/dict.c:270-284 | one turn of the loop skips nothing |
| Dict.Iteration.Next | lib/hiredis/dict.c:268-286 | returns the first entry not yet returned, and NULL exactly when there is none; the loop terminates |
| Dict.Iteration.DeleteReturned | lib/hiredis/dict.c:279-281 | deleting the entry just returned leaves the entries still to come |
| Dict.Sweep | lib/hiredis/dict.c:258-286 | an iteration that deletes any of the entries it is given returns each original entry exactly once and leaves the others |
| Callbacks.CallbackList.Push | lib/hiredis/async.c:248-268 | appends to the list |
| Callbacks.CallbackList.Shift | lib/hiredis/async.c:270-284 | takes the first callback off, and fails exactly when the list is empty |
| Registration.Registry.AddAll | lib/hiredis/async.c:770-787 | the loop that reads the names off the command's text and updates the hash table builds the dictionary specified for the list of names, repeated names included |
| Registration.Registry.Take | lib/hiredis/async.c:418-434 | a confirmed subscribe counts the entry down in place, a confirmed unsubscribe deletes it when the counter is 0, and nothing happens without an entry |
| Registration.Registry.TableOrder | lib/hiredis/async.c:310-313 | the table lists the callbacks of the map, each once |
| Registration.Registry.First | lib/hiredis/async.c:311-312 | the first `dictNext` returns the first entry in table order |
| Registration.Registry.Next | lib/hiredis/async.c:312 | each further one returns the next entry in that order, and NULL after the last |
| Registration.Registrations.Subscribe | lib/hiredis/async.c:766-787 | the names go to the dictionary for patterns or channels, the other one stays, and the flag is set |
| Registration.Registrations.TakeMessage | lib/hiredis/async.c:418-446 | the effect of a message on both dictionaries and the flag, the callback found, or the failed assertion on its third element |
| Pending.PendingCallbacks.PushReply | lib/hiredis/async.c:800-806 | a callback goes to the end of the queue of replies; the other queue and the subscriptions stay |
| Pending.PendingCallbacks.ShiftReply | lib/hiredis/async.c:483 | the first callback leaves the queue of replies, unless it is empty; the rest stays |
| Pending.PendingCallbacks.ShiftInvalid | lib/hiredis/async.c:450 | the same for the queue of invalid commands |
| Subscriptions.AddOne | lib/hiredis/async.c:770-787 | for a single name the counter goes up by one, from 0 for a new name |
| Subscriptions.Registers | lib/hiredis/async.c:770-787 | every name given has the callback of this command, whatever its counter, and no other entry changes |
| Subscriptions.CountedIff | lib/hiredis/async.c:756-784 | names may repeat: all counters are right if and only if for each new name no earlier name was known or the last known one had come to 1 |
| Subscriptions.CountedOnceIff | lib/hiredis/async.c:756-784 | for different names: if and only if every name with an entry that new names directly follow had a counter of 0 |
| Subscriptions.CarriedOver | lib/hiredis/async.c:756-784 | a known name with one subscription pending, followed by a new name: the new one starts at 2 |
| Subscriptions.CarriedByRepetition | lib/hiredis/async.c:756-784 | a new name given twice, followed by another new name: that one starts at 2 |
| Deliveries.RunsEach | lib/hiredis/async.c:286-293 | every delivery to a function is run, after those before it |
| Deliveries.RunsOnly | lib/hiredis/async.c:286-293 | every run belongs to a delivery |
| Machine.IssuedAs | lib/hiredis/async.c:737-815 | a command is accepted unless the context is being disconnected or freed, or it is an unsubscribe without the flag; then it is sent and its callback is in the one queue or dictionary it belongs to; otherwise nothing happens |
| Machine.RanTurned | lib/hiredis/async.c:286-293 | a turn of a callback records it, calls its function unless it is NULL, and otherwise changes only what the program's calls in it register, append or flag; nothing but flags once the context is closing |
| Machine.DrainedDown | lib/hiredis/async.c:302-304 | after n turns of the loop over the waiting callbacks exactly the first n have left, and no callback has added any |
| Machine.TakenUpTo | lib/hiredis/async.c:455-533 | once the loop over the replies has returned, no further reply is taken |
| Machine.AfterFree | lib/hiredis/async.c:296-338 | a context that lives does not depend on the order in which a teardown would go through the tables |
| Teardown.EmptiedServes | lib/hiredis/async.c:302-321 | the four loops hand NULL to every waiting callback, then to those of invalid commands, then to every callback of both tables, in this order and once each, call the functions that are set, and leave nothing |
| Ledger.EnteredKept | lib/hiredis/async.c:737-815 | an accepted command keeps the first-in, first-out order and leaves the history a run of the protocol with the real dictionaries, or none; while no command has subscribed or started to monitor, the callbacks accepted are those of the commands sent |
| Ledger.ScriptKept | lib/hiredis/async.c:286-293 | so does any list of calls of the program |
| Ledger.TookFirst | lib/hiredis/async.c:483 | a reply goes to the first waiting callback and keeps the order |
| Ledger.Found | lib/hiredis/async.c:506-509 | a reply that fails no assertion keeps both queues in order and the history in step with the dictionaries, and somebody has subscribed or monitors |
| Ledger.FoundDue | lib/hiredis/async.c:404-446 | in a run of a disciplined program the callback found for a message is the one registered for its name, and is the next call due |
| Ledger.Unexpected | lib/hiredis/async.c:483-507 | an error or a failed assertion shows a stray reply: not the server's next message, or the confirmation of an unsubscribe when no subscription remains |
| Ledger.AgainKept | lib/hiredis/async.c:472-475 | keeping a callback waiting for MONITOR keeps the order |
| Tracking.SentSubscribe | lib/hiredis/async.c:766-787 | whatever subscribe the client sends, if the history is still a run it has come to the client's new subscriptions |
| Tracking.SentUnsubscribe | lib/hiredis/async.c:788-795 | the same for an accepted unsubscribe |
| Tracking.TookMessage | lib/hiredis/async.c:395-453 | a message that continues the run finds the flag set and fails no assertion, and the run has come to the client's new subscriptions |
| Tracking.TookStray | lib/hiredis/async.c:499-507 | a reply that closes the connection or fails an assertion is stray |
| Tracking.NeverStray | lib/hiredis/async.c:506-507 | after disciplined commands the server's next message is never stray |
| Tracking.DueTook | lib/hiredis/async.c:418-429 | a message of a disciplined run adds the call of the callback registered for its name, and that is the one the lookup finds |
| Tracking.ServerStep | lib/hiredis/async.c:404-446 | answering and publishing keep that |
| Tracking.ReplayIsRun | lib/hiredis/async.c:395-453 | a history that can be replayed is a run of the subscription protocol, so that every result about runs holds for it |
| Tracking.Confirmed | lib/hiredis/async.c:766-787 | such histories exist: a subscribe sent, answered and confirmed leaves the name registered with a counter of 0 |
| Promises.TornFlags | lib/hiredis/async.c:296-338 | a teardown runs everything that waits, unhooks the event library once, tells the disconnect callback of a connected context its status, and frees the context |
| Promises.TornFinal | lib/hiredis/async.c:296-338 | after it every callback that entered one of the two queues has had its turn, the ones that still waited with NULL |
| Promises.TakenSound | lib/hiredis/async.c:483-527 | one turn of the loop takes exactly this reply and gives it to one callback, unless it is the stray one that ends the context |
| Promises.WhoTakes | lib/hiredis/async.c:483-513 | which callback takes a reply: the first that waits; else, while subscribed, the one looked up for an array, and for any other reply the first of an invalid command; else that of the reply before; an error nobody waits for ends the context, anything else fails an assertion |
| Promises.MoreReplies | lib/hiredis/async.c:647-653 | what a chunk adds to the replies depends only on the bytes of the reply that was not complete |
| Promises.NextSound | lib/hiredis/async.c:344-686 | an event keeps first in, first out, and a context that lives takes every reply that the bytes of the event complete; one that ends takes all of them too, unless a callback freed it or the last reply taken was stray |
| Promises.RunSound | lib/hiredis/async.c:344-686 | so does every run |
| Causes.RunMarked | lib/hiredis/async.c:296-393 | in every run the flags are those that the program set, between events or in a callback that was called, and that of a failed context; the cleanup hook was used exactly once if there was one and the context is gone, and not before; the connect and the disconnect callback were told exactly once, of the right status |
| Causes.NextExplained | lib/hiredis/async.c:455-686 | an error has its cause in the event and ends the context; a context that lives has not met the end of the connection; a read leaves no disconnect behind that nothing holds up |
| Causes.NextDoes | lib/hiredis/async.c:344-686 | each kind of event by what it changes: a disconnect ends the context exactly when no callback waits, a failed or lost connection ends it with its error, a write moves exactly the bytes the socket takes, a read ends it without an error only when disconnected with nothing left to send |
| Causes.NextMute | lib/hiredis/async.c:737-749 | in an event of a context that is being disconnected or freed no command is sent |
| Subscribing.RunTold | lib/hiredis/async.c:395-453 | in every run of a disciplined program the calls are, message by message, those of the callbacks registered for the names, and after a teardown each callback still registered has been called once more, with NULL, in the order of the tables |
| Life.ExactlyOnce | lib/hiredis/async.c:455-533 | in every run and every context, subscribing or not: callbacks leave the queue of replies and the queue of invalid commands in the order in which they entered, each has one turn, all have had it when the context is gone; turn by turn they get the replies, each one, and NULL after the last; each function is called once per turn and nothing else is |
| Life.SimpleInTurn | lib/hiredis/async.c:455-533 | if no command subscribed or monitored, the i-th turn is that of the callback given with the i-th command sent, with the i-th reply or NULL; the process dies in an assertion only over one reply more than commands |
| Life.RepliesTaken | lib/hiredis/async.c:630-654 | the replies taken are the first of those that a parser finds in the bytes read, all of them while the context lives, all of the earlier events in any case, and all of the last one unless a callback freed the context or the last reply taken was stray |
| Life.EventsDo | lib/hiredis/async.c:344-686 | in every run each event of a live context does what its kind says |
| Life.EndsFor | lib/hiredis/async.c:344-393 | a context is gone only when the program freed it, for an error of the last event, or when it was disconnected and every waiting callback has got its reply; with what the program, the event library and the connect and disconnect callbacks saw of it |
| Life.NoMoreCommands | lib/hiredis/async.c:747-749 | once a context is being disconnected or freed, no command is accepted, whatever happens |
| Life.SubscriptionsFollowed | lib/hiredis/async.c:395-453 | in every run whose history is one of the subscription protocol the dictionaries are those of that run, and in a disciplined one the calls are those due |
| Monitoring.MonitorKept | lib/hiredis/async.c:460-481 | while MONITOR's callback waits alone, every line of a read reaches it; it waits alone again if and only if the read completed a line, and otherwise a NULL callback waits behind it |
| Monitoring.LinesLost | lib/hiredis/async.c:460-483 | with a NULL callback behind it the callback gets the first line of a read and nobody the others |
| Monitoring.MonitorLost | lib/hiredis/async.c:460-483 | MONITOR, a line, a read that brings nothing, two lines in one read: the last line is given to nobody |
| Asking.RunFair | lib/hiredis/async.c:737-815 | in every run the calls recorded are those of the program, list by list; the commands sent are exactly those issued before the program asked for the end and outside a teardown, an unsubscribe only with the flag; and the callbacks that entered the queues are theirs |
| Asking.CommandsSent | lib/hiredis/async.c:737-815 | the same after any list of events |
| Asking.EachSent | lib/hiredis/async.c:807-810 | each command that is sent has its place after those issued before it |
| Asking.IssuedIsSent | lib/hiredis/async.c:747-810 | in every run a command that is no unsubscribe and is issued before the end is sent, after those before it, whatever waits |
| Async.AsyncContext.Issue | lib/hiredis/async.c:841-851 | accepted if and only if the context is neither being disconnected nor freed and an unsubscribe finds the flag; then it is appended to what is sent and to the buffer, and its callback enters the one queue or dictionary it belongs to; otherwise nothing changes |
| Async.AsyncContext.AsyncCommand | lib/hiredis/async.c:737-815 | the same, for the text of the command |
| Async.AsyncContext.Register | lib/hiredis/async.c:753-804 | what the text names is registered: the callback under each name, in the queue of invalid commands, or in the queue of replies |
| Async.AsyncContext.UserCallback | lib/hiredis/async.c:286-293 | a callback makes exactly the calls of its script, in order, and their effect is that specified call by call |
| Async.AsyncContext.Disconnect | lib/hiredis/async.c:385-393 | deferred from a callback or while callbacks wait; otherwise the context is gone |
| Async.AsyncContext.Free | lib/hiredis/async.c:344-349 | deferred from a callback; otherwise the context is gone |
| Async.AsyncContext.RunCallback | lib/hiredis/async.c:286-293 | one turn of a callback as specified; nothing that waits is touched while the context goes down |
| Async.AsyncContext.DrainReplies | lib/hiredis/async.c:302-304 | the loop over the linked list refines the one specified, and ends because no command is accepted |
| Async.AsyncContext.RunDictionary | lib/hiredis/async.c:310-313 | the iterator's loop over a hash table runs the callback of every entry exactly once, with NULL, in the order of the table |
| Async.AsyncContext.RunPending | lib/hiredis/async.c:302-321 | callbacks of replies, invalid commands, channels and patterns run in this order, and both tables are released |
| Async.AsyncContext.AsyncFree | lib/hiredis/async.c:296-338 | the same, then cleanup and disconnect callback, and the context is freed with its reader: no object of a reply is left |
| Async.AsyncContext.AsyncDisconnect | lib/hiredis/async.c:352-377 | the assertion that a clean disconnect finds no pending callback holds; the context is gone |
| Async.AsyncContext.GetSubscribeCallback | lib/hiredis/async.c:395-453 | the effect of a message on the dictionaries and the flag, or the failed assertion |
| Async.AsyncContext.Spontaneous | lib/hiredis/async.c:483-510 | an error nobody asked for closes the connection; anything else needs a subscription or MONITOR, and the callback is looked up (`Promises.WhoTakes`) |
| Async.AsyncContext.ProcessReply | lib/hiredis/async.c:483-527 | in any context the first waiting callback takes the reply, else the one found (`Promises.WhoTakes`); the object of the reply is freed after its callback, and a free asked for in the callback happens then |
| Async.AsyncContext.TakeAll | lib/hiredis/async.c:460-528 | the loop takes the replies from the real reader, one object at a time, and gives out exactly those of the recursive parser on the bytes fed |
| Async.AsyncContext.ProcessCallbacks | lib/hiredis/async.c:455-533 | then a refusal ends the context, a pending disconnect happens exactly when nothing is left to send or to answer, or MONITOR's callback is kept |
| Async.AsyncContext.HandleConnect | lib/hiredis/async.c:538-555 | the connect callback is told once of success or failure; a failed connect ends in teardown, a completed one sets the flag |
| Async.AsyncContext.HandleRead | lib/hiredis/async.c:630-654 | a read event feeds the reader and gives out the replies that its bytes complete, or tears the context down |
| Async.AsyncContext.HandleWrite | lib/hiredis/async.c:656-686 | a write event moves exactly the bytes the socket takes from the buffer to the wire, or tears the context down |
| Async.AsyncContext.HandleEvent | lib/hiredis/async.c:344-686 | every event has the effect specified for it; afterwards the context lives with every reply object freed, or is gone with none left, or the process is dead |
| Async.Session | lib/hiredis/async.c:344-686 | for every program and every list of events the context ends in exactly the state that the events determine, but for the order of the tables in a teardown; with all that is proved of such states: exactly once, the commands sent, the replies in the bytes read, the causes of the end, and the subscriptions |
| PubSub.SubscribeKeeps | lib/hiredis/async.c:766-787 | a subscribe keeps the agreement between client, flight and server |
| PubSub.UnsubscribeKeeps | lib/hiredis/async.c:788-795 | any unsubscribe, accepted or refused, keeps it |
| PubSub.ReceiveKeeps | lib/hiredis/async.c:404-446 | handling a confirmation or a message keeps it, the removal of entries and the clearing of the flag included |
| PubSub.FirstInFlight | lib/hiredis/async.c:432-434 | with the discipline the counter is 0 at the confirmation of an unsubscribe exactly if nothing is in flight for the name |
| PubSub.Settled | lib/hiredis/async.c:440-444 | when both dictionaries become empty no subscribe is in flight and the server has no subscription |
| PubSub.PendingCounts | lib/hiredis/async.c:420-434 | in every state of every run, disciplined or not, the counter is the number of unconfirmed subscribes; a name without an entry has none, was not confirmed as subscribed last and is not subscribed at the server |
| PubSub.FailsIff | lib/hiredis/async.c:506-507 | for the next message of any run the assertion fails if and only if no name was confirmed as subscribed last or has a subscribe in flight; that message then confirms an unsubscribe |
| PubSub.AssertionsHold | lib/hiredis/async.c:406-444 | after disciplined commands nothing is in flight for a name without an entry, the flag is set exactly while there is an entry, and every waiting message passes all assertions and finds its entry |
| PubSub.QuietAgreement | lib/hiredis/async.c:395-453 | when nothing is in flight the dictionaries are the server's sets |
| PubSub.TitlesClassify | lib/hiredis/async.c:759-788 | the commands of the runs are those the client takes for subscribing and unsubscribing |
| PubSub.Awaited | lib/hiredis/async.c:506-509 | a message or the confirmation of a subscribe always finds the flag set and an entry for its name |
| PubSub.AwaitedUnsubscribe | lib/hiredis/async.c:506-509 | with the discipline so does the confirmation of an unsubscribe |
| PubSub.Handling | lib/hiredis/async.c:418-446 | the counter, the entry and the flag after a message, and the callback found for it: the registered one, or without an entry the one the caller had before |
| PubSub.RedundantUnsubscribe | lib/hiredis/async.c:506-507 | a run with a redundant unsubscribe that reaches the assertion with the flag cleared |
| Redundancy.RedundantIff | lib/hiredis/async.c:440-507 | in any run, with any number of redundant unsubscribes: the last confirmation in flight, that of an unsubscribe, finds the flag set if and only if the last command before it for some name was a subscribe |
| Redundancy.ConfirmationComes | lib/hiredis/async.c:483-507 | after disciplined commands the confirmation of one more, redundant or not, is always reached: no message before it fails an assertion |
| Subscriber.SubscribeTo | lib/hiredis/async.c:737-815 | issuing a single-name subscribe on the context is the client's subscribe step of the runs |
| Subscriber.UnsubscribeFrom | lib/hiredis/async.c:788-815 | issuing an unsubscribe is the client's unsubscribe step, accepted exactly when the flag is set |
| Subscriber.TakeMessage | lib/hiredis/async.c:483-510 | looking up the next message is the client's receive step and finds the callback registered for the name, unless no subscription remains: then the assertion fails |
| Crc16.TableCorrect | src/MiddleWare.cpp:227-261 | every entry of the table is its index shifted through the division eight times |
| Crc16.StepsDivide | src/MiddleWare.cpp:225-267 | feeding bits to the register computes the remainder modulo the generator polynomial |
| Crc16.UpdateSteps | src/MiddleWare.cpp:264-265 | one table step is eight bit steps of the division |
| Crc16.Crc16 | src/MiddleWare.cpp:225-267 | the table loop computes the CRC: the remainder of the message times x^16 modulo x^16 + x^12 + x^5 + 1 |
| Crc16.HexValue | src/MiddleWare.cpp:264-265 | the value of a word by its hexadecimal digits |
| Crc16.CheckValue | src/MiddleWare.cpp:225-267 | the CRC of "123456789" is 0x31C3 |
| Slot.GetSlot | src/MiddleWare.cpp:218-290 | for a key without '{', without a '}' after its first '{', or with "{}" there: the remainder of the key times x^16 by the generator, as a number, modulo 16384; for any other that of the bytes between its first '{' and the first '}' after it; the largest 32-bit value for a NULL key |
| Slot.And3fff | src/MiddleWare.cpp:276-287 | masking with 16383 is the value modulo 16384 |
| Slot.TagDecides | src/MiddleWare.cpp:269-287 | keys with the same non-empty tag share a slot, that of the tag itself, whatever stands around it |
| Slot.KnownSlot | src/MiddleWare.cpp:269-287 | the key "123456789" is in slot 12739 |
| Pool.LeastEndIsOwner | MCRedis/ConnectionPool.h:125 | `lower_bound` over range ends finds the owner of a slot if and only if the owner's range end is a key |
| Pool.LowerBound | MCRedis/ConnectionPool.h:125 | the least key not below the slot |
| Pool.ConnectionPool.Create | MCRedis/ConnectionPool.h:143-157 | every node reached has a bucket; succeeds exactly when some connection was made |
| Pool.ConnectionPool.GetConnection | src/MiddleWare.cpp:192-216 | a new connection to a node whose range holds the slot, or none |
| Pool.ConnectionPool.Get | MCRedis/ConnectionPool.h:122-139 | the first connection of the list that `lower_bound` finds, or a new one; never a connection that is already lent; it reaches the slot if and only if the owner's range end has a bucket or no idle connection was found |
| Pool.ConnectionPool.GetReady | MCRedis/ConnectionPool.h:122-139 | with a bucket for every range end every connection handed out reaches the slot |
| Pool.ConnectionPool.HandBack | MCRedis/ConnectionPool.h:26-33 | a healthy connection goes back to the list of its range, any other is destroyed; the process survives that if and only if the connection is healthy or `create` has made it |
| Pool.ConnectionPool.Clear | MCRedis/ConnectionPool.h:160-165 | all idle connections are destroyed, every bucket stays; the process survives if and only if `create` has made all of them |
| Pool.ConnectionPool.Destroy | MCRedis/ConnectionPool.h:47 | the same when the pool goes away |
| Pool.ConnectionPool.MakeNew | MCRedis/ConnectionPool.h:126-134 | a new connection without a deleter is lent at once and reaches the slot |
| Pool.ConnectionPool.TakeFirst | MCRedis/ConnectionPool.h:136-138 | the first connection of the list is lent; nobody else holds it |
| Pool.Apply | MCRedis/ConnectionPool.h:26-165 | one use comes to exactly what its kind, the lists and the holders say, and leaves the lists and holders that follow; survived if and only if no connection made by `_get` was destroyed |
| Pool.Serve | MCRedis/ConnectionPool.h:26-165 | for every sequence of get, release and clear: use by use the exact connection is handed out, taken back or destroyed, and the one handed out reaches its slot; survived if and only if no use destroys a connection made by `_get`; then the lists and the holders are those the uses leave, no connection has two holders and the idle, lent and destroyed ones add up to those created |
| Pool.NoDeleter | MCRedis/ConnectionPool.h:126-134 | a connection made by `_get` that comes back with an error, or is idle when the pool is cleared, ends the process |
| Pool.Misrouted | MCRedis/ConnectionPool.h:122-139 | two nodes, the first not reached by `create`: slot 5 gets a connection of the second |

## Left out

- Formatter.FormatCommand: does not model the printf conversions of hiredis.c:274-369, because they are delegated to libc's varargs formatting; only literal bytes, %s, %b and %% are modelled.
- Formatter.TotalLength: does not model a total length beyond `int`; argument counts and lengths are at most INT_MAX and the sum is unbounded.
- Arguments.NextOf: does not promise anything for arguments of more than INT_MAX bytes, whose length the cast to `int` changes (`Arguments.LengthRead`); the formatters do not take them either.
- Arguments.NextArgument: does not model where a pointer leads that is computed from a negative length.
- StreamReader.Reader.ProcessBulkItem: does not model wrap-around of `len + 2` in the length of a bulk string near the end of the 64-bit range; sums of lengths are unbounded.
- StreamReader.SeekNewline: does not model buffers of INT_MAX bytes and more, whose length `int _len` truncates.
- Dict.NextPower: does not model the cap at LONG_MAX; sizes are unbounded.
- Dict.Dict.Clear: does not model reuse of freed memory; the order of the destructor calls is its result.
- Async.AsyncContext.AsyncCommand: does not model a text that is not the format of an argument vector (`redisAsyncFormattedCommand`).
- Async.Session: does not model misuse of a context from its connect and disconnect callbacks, nor re-entering the event handlers from a reply callback.
- Slot.GetSlot: does not model keys of INT_MAX bytes and more, whose indexes are `int`.
- PubSub takes messages and confirmations apart from replies to regular commands: a connection that subscribes issues no other commands in these runs.
- Running out of memory: every allocation succeeds.
- Addresses: reply objects are numbered in the order of their creation, and freed numbers are not used again.
- sds headers and spare room: an sds string is a sequence; how much spare room the reader's buffer has is arbitrary.
- The text of error messages: each fault of the reader is a value of its own; all have the code of a protocol error.
- Custom or missing reply object functions: the default ones are modelled.
- Sockets, TLS, timers, event library adapters, connection setup, reconnecting, the blocking API: the environment supplies bytes or replies and accepts any part of the output.
- `redisAsyncHandleTimeout`: its drain runs before the context refuses commands, so that it need not end.
- NO_AUTO_FREE, the node list dialogue of `_getNodes`, host names and timeouts, `Runner.h`, the deprecated pool, `CCommand` and `CReply`.
- Locks of the pool: its operations are modelled one at a time.
