# A verified model of the peer-to-peer node

The program is a small peer-to-peer node in C. Nodes greet each other, gossip about whom they know,
ping their peers from a descriptor loop, and exchange JSON messages (`week06`) or fixed records
(`week06d`) over TCP; `week06` also transfers a file word by word. This project models that behaviour
in Dafny and proves what the code is for.

## How the model is laid out

| file | models |
|---|---|
| `Hashing.dfy` | the string hash shared by both tables, in C's `int`, against the unbounded polynomial |
| `Tables.dfy`, `HashMaps.dfy` | the chained hash table: as a value (chains, enumeration, finite map), and as heap-linked entries changed through a cursor |
| `Vectors.dfy` | the growable vector, in place over an array, and its size arithmetic |
| `JsonValues.dfy`, `JsonObjects.dfy` | JSON values, their text, which values survive printing; the object interface over the heap table |
| `JsonLexer.dfy`, `JsonTokenizer.dfy` | the tokens of a text as a function; the in-place tokenizer |
| `JsonGrammar.dfy`, `JsonReader.dfy` | the grammar and the parser as functions; the recursive-descent parser over the token array |
| `JsonWriter.dfy`, `JsonRoundTrip.dfy` | the in-place writer; round trips, idempotence, prefixes |
| `JsonSpacing.dfy` | the tokenizer character by character; white space between tokens |
| `Framing.dfy`, `Requests.dfy` | the accumulating receiver; what a request is built from, sent and read as |
| `EventLoops.dfy`, `DoubleRemovals.dfy` | the descriptor loop; rounds in which a callback both schedules itself and fails |
| `Pings.dfy`, `Pingers.dfy` | the pings on top of the loop, as steps and in place over the heap table of nodes |
| `Gossip.dfy`, `GossipSenders.dfy`, `GossipJoins.dfy`, `Peers.dfy` | membership gossip as a state machine over all interleavings; who sends a push; that joins can be completed; one peer's handlers over its heap table |
| `FileTransfer.dfy` | the stop-and-wait word transfer |
| `Options.dfy` | optional results |

A JSON object is carried as the enumeration of its hash table (bucket by bucket, chain by chain).
`Tables.LayoutOfEnumeration` and `Tables.EnumerationOfLayout` prove that enumerations and chain layouts
determine each other, so equality of two such values is equality of every chain at every depth.

State machines (`Gossip`, `Pings`, `FileTransfer`, and the rounds of `EventLoops`) quantify over every
sequence of enabled steps. The network, the clock, `poll` and the system's choice of descriptor numbers
are the environment's: they appear as parameters of steps. A descriptor number handed out is one that is
not open; nothing else is assumed of it.

Nodes in the gossip have distinct names and distinct listening addresses; a node's table is keyed by name,
as in the code. A network begins with one node that has no introducer.

Texts are sequences of characters without NUL. The strings that are hashed, property names and node names,
are characters 0..127 (`Ascii`), on which C's `char` has no sign. Every other string is unrestricted: what the
parser asks of a text is only that the strings before its colons can be hashed (`JsonLexer.AsciiKeys`).

## Where the code and its intent disagree

The model follows the code, except where a slip makes the code meaningless; each such place is listed.

- `week06/src/ds/hashmap.c:29` and `:50` pass the chain entry to the comparison where `:79` passes its
  value. The model compares values.
- `week06/src/ds/vector.c:40` counts up and shifts the wrong way; the model counts down and shifts right.
  `:38` and `:58` forget the element size in `realloc`; the model scales by it. `:18` and `:29` let
  `idx == length` through; the model excludes it.
- `week06/src/ds/json/parser.c:252` looks at the next token without checking that one is left; the model
  checks the count.
- `week06/src/ds/json/parser.c:219` allows `{}` in the grammar comment and the parser rejects it. The
  model rejects it: the grammar in `JsonGrammar` has no empty object.
- Negative integers are printed (`parser.c:20`) but not tokenized (`:196-209`). Kept, with the exact
  consequence in `JsonRoundTrip.NegativeIsLost` and `JsonRoundTrip.RoundTripIff`.
- `week06/src/ds/json/parser.c:360` ignores the tokenizer's verdict and parses the tokens found so far. Kept.
- `week06/src/ds/json/parser.c:205` makes an integer token one too long. Kept; nothing reads it.
- `week06/src/requests.c:75` ignores how many bytes were received, so `response_len` stays 0. The model
  accumulates, as the buffer arithmetic on the same line intends. `:176` waits for POLLOUT where POLLIN is
  meant.
- `week06/src/requests.c:83` reads the `status` of the parsed value through NULL where there is none, and
  `:84-86` the `from` likewise, before the callback at `:88`. No request that `pr_send` builds has a status
  (`Requests.RequestHasNoStatus`), and no array has either. The model's reception therefore ends with the
  parsed value; what the code then makes of it is `Requests.ReadResponse`, which is None where it reads
  through NULL.
- `week06/src/requests.c:92`, `:97` and `:138` parse as `flags | (RF_... == 0)`, which is `flags`: the
  descriptor is released, or closed, for any flags but 0 instead of when one flag is clear. The model does not
  release descriptors; `Framing.ReceiveValue` stops at the first value.
- `week06/src/ds/json/interface.c:114` allocates `strlen(property + 1)` bytes for a copy of the property. The
  model's copies are whole.
- `week06d/src/pings.c:26` schedules the removal of an answered ping's descriptor and never closes it. Kept:
  `Pings.PingCycle`.
- `week06/src/ds/json/parser.c:81` does not count a newline, a tab or a colon among what ends a keyword. Kept,
  with the exact consequence in `JsonSpacing.WhiteSpaceIff`.
- `week06d/src/handlers.c:70` reads the sender's table entry without checking that there is one. The model's
  delivery goes on; `GossipSenders.SenderIsKnown` and `GossipSenders.LostPushHidesSender` say when there is one.
- `week06/src/file_transfer.c:69-71` compares the result of `send_receive_sock`, which the repository does not
  define, with a string. The model takes that result to be the message's body, as `:50` does for the words.
- `week06/src/file_transfer.c` calls `send_request_sock` with an earlier signature and reads the payload from
  `body`. In the model each message is the request object that `pr_send` builds around the payload; the
  method that comes with it is a parameter.
- `week06d/src/known_nodes_hashmap.c:35` overwrites the bucket head while walking. The model walks as
  `week06/src/ds/hashmap.c:28-34` does, and keeps the fields of the entry it finds.
- `week06d/src/event_loop.c:128-129` clears `revents` before passing it on. Kept; no callback depends on it.

## Model

| member | source | states |
|---|---|---|
| Hashing.PolynomialHash | week06/src/ds/hashmap.c:105-113 | the step-reduced loop in C's int never overflows, lies in [0, m) and equals the unbounded polynomial modulo m |
| Hashing.HashStep | week06/src/ds/hashmap.c:108-110 | one turn of the loop stays inside int for characters 0..127 and is exact modulo m |
| Hashing.ReducedStep | week06/src/ds/hashmap.c:107-111 | reducing before a step does not change the step's remainder |
| Hashing.PolySnoc | week06/src/ds/hashmap.c:107-111 | one more character is added to the polynomial, and the whole multiplied |
| Tables.LayoutOfEnumeration | week06/src/ds/hashmap.c:88-98 | the enumeration of a valid table determines every chain |
| Tables.EnumerationOfLayout | week06/src/ds/hashmap.c:88-98 | every sequence with unique keys in bucket order is the enumeration of exactly the table it is laid out as |
| Tables.EnumerateCanonical | week06/src/ds/hashmap.c:88-98 | an enumeration lists each key once, buckets in order |
| Tables.AddRefines | week06/src/ds/hashmap.c:25-44 | adding is map update, for every other key too |
| Tables.RemoveRefines | week06/src/ds/hashmap.c:46-62 | removing deletes exactly one key of the map |
| Tables.RunRefines | week06/src/ds/hashmap.c:25-98 | over every run of additions and removals the table is the finite map, each element sits in its own bucket, keys are unique, and the enumeration has one element for each key |
| Tables.AddReplacesInPlace | week06/src/ds/hashmap.c:28-43 | adding under a present key changes only that element, where it stands in the enumeration |
| Tables.AddChangesOneChain | week06/src/ds/hashmap.c:25-44 | an addition changes the chain of its own bucket only: the element with the key is replaced there, or the new one linked last |
| Tables.RemoveUnlinksOne | week06/src/ds/hashmap.c:49-61 | removing cuts the one element with the key out of the enumeration; all others stay, in order |
| Tables.FullScanIsBucketScan | week06/src/ds/hashmap.c:74-86 | under the table's own comparison the scan of all buckets finds what a search of one bucket finds |
| Tables.Rebuild | week06/src/ds/hashmap.c:25-44 | re-inserting a table's elements in enumeration order into an empty table reproduces every chain |
| Tables.BuildOrder | week06/src/ds/hashmap.c:25-44 | two build orders enumerate their keys identically if and only if in each bucket they agree on first insertions |
| Tables.EnumerationFromKeysAndMap | week06/src/ds/hashmap.c:88-98 | an enumeration, values included, is fixed by its key order and its map |
| Tables.PutAllHolds | week06/src/ds/hashmap.c:25-44 | a table built by additions holds exactly those that no later one under their key replaced |
| Tables.PutCanonical | week06/src/ds/json/interface.c:109-118 | setting a property keeps the enumeration that of a table |
| HashMaps.HashMap.constructor | week06/src/ds/hashmap.c:6-23 | a new table is valid and empty |
| HashMaps.HashMap.Walk | week06/src/ds/hashmap.c:28-34 | the cursor stops at the first entry with the key, or at the end of its bucket's chain |
| HashMaps.HashMap.LinkLast | week06/src/ds/hashmap.c:35-43 | a new entry is linked at the end of one chain; chains stay acyclic and disjoint, all others unchanged |
| HashMaps.HashMap.Unlink | week06/src/ds/hashmap.c:59-61 | one entry leaves its chain, which stays linked; all others unchanged |
| HashMaps.HashMap.Add | week06/src/ds/hashmap.c:25-44 | the heap table after an addition is the table value after it, layout and enumeration |
| HashMaps.HashMap.Remove | week06/src/ds/hashmap.c:46-62 | the heap table after a removal is the table value after it |
| HashMaps.HashMap.LookUp | week06/src/ds/hashmap.c:74-86 | whatever the comparison, the first element of the enumeration that it accepts is found, or none is |
| HashMaps.HashMap.LookUpKey | week06/src/ds/hashmap.c:74-86 | under the table's own comparison the value stored under the key is found, as in a search of its one bucket |
| HashMaps.HashMap.GetEntries | week06/src/ds/hashmap.c:88-98 | the entries come in bucket and chain order, each once, and lay out as the table |
| Vectors.RunKeepsBounds | week06/src/ds/vector.c:24-60 | over every mixed run max(1, length) <= capacity <= max(3, 2 * length), and the length is that of the contents |
| Vectors.AppendsMoveLittle | week06/src/ds/vector.c:24-45 | n appends to a new vector move fewer than 2n elements through growth |
| Vectors.GrownStaysGrown | week06/src/ds/vector.c:35-60 | one removal after a growing insertion leaves the capacity, so inserting again moves nothing |
| Vectors.SwingsMoveAll | week06/src/ds/vector.c:35-60 | two removals shrink it again: around a full vector every four operations move all its elements, so mixed runs have no such bound |
| Vectors.Vector.constructor | week06/src/ds/vector.c:9-15 | a new vector is empty with capacity 3 |
| Vectors.Vector.Insert | week06/src/ds/vector.c:35-45 | the contents are the old ones with the element inserted at the position; a full vector doubles, any other keeps its capacity |
| Vectors.Vector.Append | week06/src/ds/vector.c:24-26 | the element is added at the end |
| Vectors.Vector.Remove | week06/src/ds/vector.c:51-60 | the contents are the old ones without that position (past the end, without the last); a capacity above 1 and above twice the new length is halved |
| Vectors.Vector.Pop | week06/src/ds/vector.c:47-49 | the last element goes |
| Vectors.Vector.Index | week06/src/ds/vector.c:17-22 | the element at the position; past the end there is none |
| Vectors.Vector.Replace | week06/src/ds/vector.c:28-33 | one position changes; past the end nothing does |
| JsonValues.SetThenGet | week06/src/ds/json/interface.c:95-118 | a property set reads back, every other keeps its value, and the object is again a table; what is no object has no properties and takes none |
| JsonValues.DigitsValue | week06/src/ds/json/parser.c:19-20 | the decimal digits printed for n denote n |
| JsonValues.DecimalSnoc | week06/src/ds/json/parser.c:235-237 | one more digit makes ten times the value, and the digit |
| JsonValues.IntTextIff | week06/src/ds/json/parser.c:19-20 | the text of an integer is its decimal notation and nothing else: a sign only if it is negative, digits that denote its magnitude, no needless zero |
| JsonValues.TextOf | week06/src/ds/json/parser.c:8-51 | the text of every kind of value, with a comma between each two elements or members |
| JsonValues.ToInt | week06/src/ds/json/parser.c:235-237 | digits up to INT_MAX read as their value; larger ones keep their low 32 bits, and from LONG_MAX on read as -1 |
| JsonObjects.SetProperty | week06/src/ds/json/interface.c:109-118 | on the heap table: the property reads back, every other keeps its value |
| JsonObjects.GetProperty | week06/src/ds/json/interface.c:95-107 | on the heap table: the value stored under the property, or none |
| JsonObjects.ObjectToArray | week06/src/ds/json/interface.c:76-93 | one pair array for each member, in bucket and chain order |
| JsonObjects.ArrayKeepsChains | week06/src/ds/json/interface.c:76-93 | the array of pairs determines every chain of the object |
| JsonLexer.ScanEndsAtLastQuote | week06/src/ds/json/parser.c:134-158 | the scan of a quoted string ends at its final quote if and only if the look-back predicate holds of it, whatever follows |
| JsonLexer.LookBackAgainstParity | week06/src/ds/json/parser.c:139-148 | at every quote the scan stops unless exactly one backslash stands before it; so it agrees with escape parity (section 7 of RFC 8259) except exactly after an odd run of three or more backslashes |
| JsonLexer.LexPrefix | week06/src/ds/json/parser.c:80-213 | the tokens of a cut-off text are the first tokens of the text, perhaps followed by one piece of a token that is no bracket |
| JsonLexer.LexClean | week06/src/ds/json/parser.c:134-159 | every string token found satisfies the look-back predicate, every integer token is a run of digits |
| JsonSpacing.BlankIsSkipped | week06/src/ds/json/parser.c:87-91 | a blank, a newline or a tab between tokens is passed over |
| JsonSpacing.PunctuationIsRead | week06/src/ds/json/parser.c:160-195 | each bracket, brace, comma and colon is its token |
| JsonSpacing.KeywordIsRead | week06/src/ds/json/parser.c:92-133 | a front of a keyword that ends the text or stands before one of the six breakers is read as the keyword; anything else that begins like one is rejected |
| JsonSpacing.DigitsAreRead | week06/src/ds/json/parser.c:196-209 | digits are one integer, as far as they go |
| JsonSpacing.NumberText | week06/src/ds/json/parser.c:196-237 | a text of digits, with or without leading zeros, parses to the integer that strtol and the cast make of it |
| JsonSpacing.OthersAreRejected | week06/src/ds/json/parser.c:134-199 | a string that is not closed, and a token that begins with any other character, are rejected |
| JsonSpacing.PrintIsSpelled | week06/src/ds/json/parser.c:8-51 | the printed text is the spellings of the value's tokens, with no white space |
| JsonSpacing.WhiteSpaceIff | week06/src/ds/json/parser.c:80-213 | whatever white space is put around the tokens of a printed value, the text parses to the value if and only if no newline and no tab comes right after null, true or false; otherwise to nothing |
| JsonTokenizer.ScanString | week06/src/ds/json/parser.c:134-154 | the loop stops at the first closing quote, and succeeds if and only if there is one |
| JsonTokenizer.Switch | week06/src/ds/json/parser.c:86-210 | one turn of the loop skips, emits or rejects as the token function does at that position; the token has its place and length |
| JsonTokenizer.Tokenize | week06/src/ds/json/parser.c:80-213 | the array holds the text's tokens up to the first error, with their places, one after the other, and their lengths; the verdict is -1 exactly after an error |
| JsonGrammar.ParseComplete | week06/src/ds/json/parser.c:215-355 | whatever tokens follow, what the grammar derives is parsed to its value, taking exactly its tokens |
| JsonGrammar.ParseSound | week06/src/ds/json/parser.c:215-355 | whatever is parsed has a derivation from the tokens taken, with that value |
| JsonGrammar.ParserIsExact | week06/src/ds/json/parser.c:215-355 | v after n tokens is returned if and only if the grammar, without `{}`, derives v from the first n tokens; later duplicate keys replace earlier ones |
| JsonGrammar.NoEmptyObject | week06/src/ds/json/parser.c:284-295 | braces around nothing are no value |
| JsonRoundTrip.LastMemberWins | week06/src/ds/json/parser.c:284-351 | in a parsed object the last member under a name counts, and a name that no member has is no property |
| JsonReader.ParseJson | week06/src/ds/json/parser.c:222-355 | the parser over the token array returns the value and count of the parse function |
| JsonReader.ParseArray | week06/src/ds/json/parser.c:246-283 | the array loop, collecting in a vector, does too |
| JsonReader.ParseObject | week06/src/ds/json/parser.c:284-351 | the object loop, collecting in a hash table, does too |
| JsonReader.DeserializeJson | week06/src/ds/json/parser.c:357-363 | tokenizing and parsing in place gives what the reference function gives, tokenizer errors ignored |
| JsonWriter.SerializeAt | week06/src/ds/json/parser.c:8-51 | the text of v stands contiguously from the start position, its length is returned, everything before and everything after the terminator is unchanged |
| JsonWriter.SerializeArray | week06/src/ds/json/parser.c:23-33 | the same for an array: separators only between elements |
| JsonWriter.SerializeObject | week06/src/ds/json/parser.c:34-48 | the same for an object, written from its array of pairs, members in the table's order |
| JsonObjects.PairArrays | week06/src/ds/json/interface.c:80-91 | the array built over the table's entries holds one key and value pair for each, in order |
| JsonWriter.Serialize | week06/src/ds/json/parser.c:53-58 | the buffer's C string is the text of v |
| JsonRoundTrip.PrintThenParse | week06/src/ds/json/parser.c:8-363 | a printable value's text parses back to the value, at any depth and with every object's chains |
| JsonRoundTrip.RoundTripKeepsChains | week06/src/ds/json/parser.c:8-363 | in terms of layout: an object's text rebuilds its very bucket chains |
| JsonRoundTrip.RoundTripIff | week06/src/ds/json/parser.c:8-363 | of all values a json_t can hold, exactly those with no empty object, no negative integer and only strings the quote scan accepts survive |
| JsonRoundTrip.NegativeIsLost | week06/src/ds/json/parser.c:19-20 | a negative integer anywhere makes the text parse to nothing |
| JsonRoundTrip.ParsedIsClean | week06/src/ds/json/parser.c:222-363 | whatever the text, a parsed value is a table-shaped value whose strings the scan accepts, printable unless an integer wrapped below 0 |
| JsonRoundTrip.NormaliseIdempotent | week06/src/ds/json/parser.c:8-363 | for a text whose tokens begin with the derivation t: parse(print(parse)) gives the same value if and only if no integer of t reads below 0, members replaced by a later one aside; otherwise it gives nothing |
| JsonRoundTrip.SignIsKept | week06/src/ds/json/parser.c:235-237 | a derivation's value holds a negative integer exactly when an integer it keeps has bit 31 set or saturates |
| JsonRoundTrip.WrappedIsLost | week06/src/ds/json/parser.c:235-237 | each number from 2^31 to 2^32 - 1, as a text, parses to a negative integer whose own text parses to nothing |
| JsonRoundTrip.PrintedNames | week06/src/ds/json/parser.c:34-48 | whatever its other strings hold, a value whose property names can be hashed prints to a text of which the same is true |
| JsonRoundTrip.InRangeTextIsPrintable | week06/src/ds/json/parser.c:196-237 | a text whose integers fit an int gives a printable value, if any |
| JsonRoundTrip.ContainerPrefixHasNoValue | week06/src/requests.c:74-77 | no strict prefix of a printed array or object parses to anything |
| JsonRoundTrip.CutScalar | week06/src/ds/json/parser.c:92-133 | a cut-off keyword or longer integer does parse: the first character is enough |
| JsonRoundTrip.PrefixSafeIff | week06/src/requests.c:74-77 | stopping at the first parsed value is exact for arrays, objects, strings and one-digit integers, and for no other printable value |
| Framing.FirstValueIsWholeValue | week06/src/requests.c:74-95 | however a printed array or object is cut into receptions, parsing what has arrived gives nothing until the last byte, and then exactly the value |
| Framing.Receiver.constructor | week06/src/requests.c:168-173 | a new context has received nothing |
| Framing.Receiver.Receive | week06/src/requests.c:74-77 | a reception is appended to what arrived before, and all of it is parsed |
| Framing.ReceiveValue | week06/src/requests.c:74-77 | over all receptions exactly v is parsed, at the reception that completes the text and not before |
| Requests.PropertyReadsBack | week06/src/ds/json/interface.c:95-118 | a property of an object built by setting properties reads as the last value set under it |
| Requests.RequestFields | week06/src/requests.c:124-131 | every request with a printable body and acceptable names is printable and carries what it was built from |
| Requests.RequestHasOnly | week06/src/requests.c:125-131 | a request has method, body and from, and no other property |
| Requests.SenderHasOnly | week06/src/requests.c:128-130 | its sender has name and listen_port, and no other property |
| Requests.RequestDelivered | week06/src/requests.c:74-143 | from sender to receiver: nothing is parsed before the text is complete, then the request is, with its method, body and sender; it is no response, so the callback is not reached |
| Requests.RequestHasNoStatus | week06/src/requests.c:82-83 | no request has a status, so the code reads through NULL on every one |
| Requests.StatusMakesResponse | week06/src/requests.c:80-88 | a status is all that is missing: with one set the callback gets it, the body, and the sender's name and port |
| Requests.ResponseIff | week06/src/requests.c:80-88 | the callback is reached exactly when status, from, name and listen_port are there; what it then gets from each, the port cut to 16 bits |
| Requests.BuildObject | week06/src/ds/json/interface.c:53-118 | properties set one by one in a heap table give the object value |
| Requests.Send | week06/src/requests.c:124-134 | the buffer handed to the system holds the request's text |
| EventLoops.ReadyInTable | week06d/src/event_loop.c:126-134 | the entries called are exactly those reported ready, each once, in table order |
| EventLoops.ReadyConcat | week06d/src/event_loop.c:126-134 | those of one part of the table are called before those of the next |
| EventLoops.CallEffect | week06d/src/event_loop.c:126-134 | for every result of a callback: what is on the table and the stack then, and that a descriptor is closed exactly when its callback failed |
| EventLoops.RoundRegisters | week06d/src/event_loop.c:60-74 | what callbacks and periodic tasks register in a round is all taken, in order, as far as the capacity goes |
| EventLoops.DrainTakesStale | week06d/src/event_loop.c:144-147 | with stale and fresh entries of one number in the table, the drain removes exactly the scheduled old entries |
| EventLoops.UnderwayDispatched | week06d/src/event_loop.c:126-134 | after any number of callbacks: the old entries all there, then the new; each scheduled number once; a new entry shares its number only with a scheduled one |
| EventLoops.IterationExact | week06d/src/event_loop.c:123-148 | one iteration leaves the old entries minus those dropped or scheduled, in order, then those added |
| EventLoops.IterationInFull | week06d/src/event_loop.c:123-148 | with room for what is registered: the old entries whose callback was not called, or neither scheduled nor failed, then everything registered |
| EventLoops.NewNumbersAreLawful | week06d/src/event_loop.c:119-148 | whatever is ready and whatever callbacks return, a round that opens new numbers can happen: the laws above are about every such round |
| EventLoops.IterationSettles | week06d/src/event_loop.c:102-148 | after it the registered numbers are distinct and open again; the to-remove stack never outgrows the table, nor the table its capacity |
| EventLoops.SettledForever | week06d/src/event_loop.c:123-148 | registered numbers are distinct, and open, at every iteration boundary of every run |
| DoubleRemovals.IterationInGeneral | week06d/src/event_loop.c:123-148 | one iteration whatever its callbacks return: the old entries minus those dropped or scheduled, then those added minus those whose number a callback both scheduled and dropped |
| DoubleRemovals.FreshIsLostIff | week06d/src/event_loop.c:102-148 | the iteration differs from the exact one if and only if the number of a callback that both scheduled itself and failed was registered again in that round |
| DoubleRemovals.DrainTakesBoth | week06d/src/event_loop.c:144-147 | a number that is on the stack twice takes the old entry, then the new one |
| EventLoops.ScheduledTwiceTakesFresh | week06d/src/event_loop.c:102-134 | one such round: descriptor 7 scheduled, failed and registered again is gone after the drain |
| EventLoops.EventLoop.constructor | week06d/src/event_loop.c:40-58 | no registrations, empty stack |
| EventLoops.EventLoop.AddFd | week06d/src/event_loop.c:60-74 | while there is room, one registration at the end of all arrays with revents clear, and 0; -1 and no change when full |
| EventLoops.EventLoop.RemoveFd | week06d/src/event_loop.c:76-100 | the first match leaves all three arrays, the rest stays in order and in step; -1 exactly when there is none |
| EventLoops.EventLoop.ScheduleRemove | week06d/src/event_loop.c:102-104 | the number goes on top of the stack |
| EventLoops.EventLoop.Dispatch | week06d/src/event_loop.c:126-134 | although callbacks append while it runs, exactly the entries ready at poll time are called, in order, none added this round; all revents are clear then |
| EventLoops.EventLoop.Drain | week06d/src/event_loop.c:144-147 | the scheduled numbers are removed, last first, and the stack is empty |
| EventLoops.EventLoop.RunIteration | week06d/src/event_loop.c:123-148 | one turn of the loop in place is one round of the state machine |
| Pings.StepKeepsInv | week06d/src/pings.c:15-75 | each step of loop, pings, pongs, failures and hellos keeps the ping invariant |
| Pings.PingsInEveryRun | week06d/src/pings.c:15-75 | in every run at most one live ping per node, only while its pong is awaited; a node that failed is never pinged again, also when a pong and a ping round share an iteration |
| Pings.StepWaits | week06d/src/pings.c:15-50 | what each step does to the waits: a pong ends its node's and no other, a missing one ends none, a failed connection sets -1, a new node has none |
| Pings.StepDescriptors | week06d/src/pings.c:15-50 | what each step does to the loop: an answered ping's descriptor is only scheduled, an unanswered one's also closed |
| Pings.AllArePinged | week06d/src/pings.c:52-75 | after one round of pings every node without a wait has one, since now or -1 if it could not be reached; the others' waits stay |
| Pings.WhatCanHappen | week06d/src/event_loop.c:123-148 | exactly when each step can happen: no entry is ever stuck |
| Pings.PingRegisters | week06d/src/pings.c:35-50 | a node without a wait that a connection reaches is awaited from now on, and its ping is registered live while there is room |
| Pings.AnsweredIsPingedAgain | week06d/src/pings.c:15-50 | a node that has answered, or has just said hello for the first time, is pinged by the next ping step for it, whatever happens between |
| Pings.PingCycle | week06d/src/pings.c:15-50 | a ping that is answered leaves live registrations and waits as they were, but its descriptor open |
| Pings.DrainIsLive | week06d/src/event_loop.c:144-147 | the table after the drain is what was live before it |
| Pingers.Pinger.OnPingReply | week06d/src/pings.c:15-33 | over the heap entry: a pong is the step for a pong; anything else changes nothing and returns -1 |
| Pingers.Pinger.CallPing | week06d/src/event_loop.c:129-132 | the callback and what the loop does with its result are the whole step, with or without a pong |
| Pingers.Pinger.PingNode | week06d/src/pings.c:35-50 | the entry's wait is rewritten in place and the loop changes as in the ping step; every other entry, its address and the chains stay |
| Pingers.Pinger.PingAllNodes | week06d/src/pings.c:52-75 | the walk over all bucket chains is one ping step for each node, in the order of the table's enumeration |
| Gossip.StepIsSafe | week06d/src/handlers.c:13-72 | every step of every node, loss of pushes included, keeps the tables true |
| Gossip.TablesTellTheTruth | week06d/src/handlers.c:21-72 | in every run each table entry is the address announced by a node whose hello a step handled or that a step dialled, and no node lists itself |
| Gossip.VouchedIff | week06d/src/handlers.c:21-38 | vouched for are exactly those whose hello a step of the run handled, or whom a step dialled |
| Gossip.NewPushes | week06d/src/handlers.c:13-38 | the pushes of a hello carry the newcomer's own address, and none goes to the newcomer, who does not listen yet |
| Gossip.HelloBeforeList | week06d/src/handlers.c:21-59 | if an introducer handles x's hello before y's list request, y ends up knowing x, whatever is lost or interleaved |
| Gossip.PushesReachAll | week06d/src/handlers.c:13-38 | in a full mesh the introducer knows everyone who listens, so its pushes reach them all |
| Gossip.NewcomerKnowsAll | week06d/src/bootstrap.c:38-61 | once its list has arrived, the newcomer knows everyone who listens, and everyone knows it or is about to |
| Gossip.StepKeepsMesh | week06d/src/bootstrap.c:38-61 | every step of a serial join keeps the mesh, up to news under way |
| Gossip.SerialJoinsMakeFullMesh | week06d/src/bootstrap.c:38-61 | after any number of serial joins to a first node, each through any listening node and with pushes delivered, all listening nodes know each other's addresses |
| GossipJoins.EveryJoinCompletes | week06d/src/bootstrap.c:38-61 | from every quiet network that serial joins lead to, any absent node can join through any that listens, after which it is quiet again |
| GossipJoins.EveryoneJoins | week06d/src/bootstrap.c:38-61 | whatever nodes there are, serial joins bring all of them in, and then each knows the address of each other |
| Peers.EnteredIsLearned | week06d/src/known_nodes_hashmap.c:26-50 | adding a node updates one address and leaves every node's wait as it was |
| Peers.AttemptsArePushes | week06d/src/handlers.c:13-38 | of the connections tried in the table's order, those that find a listener are the pushes of the gossip |
| Peers.NodeListIsBook | week06d/src/handlers.c:40-59 | the list sent says what the table says |
| Peers.MergedAt | week06d/src/bootstrap.c:51-58 | after the list each node on it is on record with its address, but not the peer itself; nothing else changes |
| Peers.FoundByAddressIff | week06d/src/client_context.c:7-21 | in a safe network some node is found under the address that x announced exactly when x is known, and then only x |
| Peers.AddressIdentifies | week06d/src/client_context.c:7-21 | so the look-up by that address finds x |
| Peers.Peer.constructor | week06d/src/known_nodes_hashmap.c:22-24 | a new peer knows nobody |
| Peers.Peer.AddKnownNode | week06d/src/known_nodes_hashmap.c:26-50 | an entry is rewritten but for its wait, or linked last with no wait; every other entry stays; in gossip terms one more node is known |
| Peers.Peer.LookUpKnownNode | week06d/src/known_nodes_hashmap.c:62-71 | the first node in the table's order with this address, or none has it (`week06/src/known_nodes.c:46-62` does the same over the generic table) |
| Peers.Peer.OnHello | week06d/src/handlers.c:21-38 | the handler is the gossip step: newcomer added, then pushed to every known node, itself included; the connection stays |
| Peers.Peer.OnGetNodeList | week06d/src/handlers.c:40-59 | the handler is the gossip step: all entries once, in the table's order |
| Peers.Peer.OnPushNode | week06d/src/handlers.c:66-72 | the handler is the delivery of the push; in a safe network the sender's entry, read for the log, is there exactly when the sender is known, and is the sender's |
| GossipSenders.SenderIsKnown | week06d/src/handlers.c:66-72 | in every run of serial joins in which every push arrives, a push is delivered to a node that knows its sender |
| GossipSenders.LostPushHidesSender | week06d/src/handlers.c:66-72 | whatever four nodes: a run of serial joins with one lost push ends in a push to a node that does not know its sender |
| Peers.Peer.OnHelloReply | week06d/src/bootstrap.c:42-49 | the introducer is added |
| Peers.Peer.OnNodeList | week06d/src/bootstrap.c:51-58 | the list is merged entry by entry, without the peer itself |
| FileTransfer.Words | week06/src/file_transfer.c:12 | the words `fscanf("%s")` reads: non-empty and without white space |
| FileTransfer.WordsSplit | week06/src/file_transfer.c:12 | words end at a blank, tab, newline, vertical tab, form feed and carriage return |
| FileTransfer.OneWordIff | week06/src/file_transfer.c:12 | and at no other character: a text is one word exactly when it is not empty and has none of these |
| FileTransfer.WordsOfSpaced | week06/src/file_transfer.c:55 | words written with a space after each read back as the same words |
| FileTransfer.WordSurvivesIff | week06/src/file_transfer.c:8-58 | the client finds the word the server sent if and only if the quote scan accepts it |
| FileTransfer.FoundIff | week06/src/file_transfer.c:8-58 | over all texts the server sends: a word is found in its message if and only if the quote scan accepts it, and none in the last message |
| FileTransfer.BeginIsAccepted | week06/src/file_transfer.c:33-75 | of all message bodies the client begins on `begin_file_response` and on no other; the server sends it first |
| FileTransfer.QuoteIsLost | week06/src/file_transfer.c:8-58 | the word `"` does not survive |
| FileTransfer.StepKeepsInv | week06/src/file_transfer.c:8-78 | every step keeps the two parties in lock step, with the message that their progress calls for in flight |
| FileTransfer.TransferFidelity | week06/src/file_transfer.c:8-78 | in every run at most one message is in flight; what was written is a prefix of the file's words exactly when the scan accepts the words it stands for; a complete run wrote all the words unchanged exactly when it accepts them all |
| FileTransfer.ServedAgain | week06/src/file_transfer.c:8-78 | with acceptable words, serving the result sends the words received, in the end the whole file's |
| FileTransfer.LockStep | week06/src/file_transfer.c:8-58 | until both have stopped exactly one party can move, and if every word is found in its message its move brings the end one step closer; a lost connection stops both |
| FileTransfer.TransferEnds | week06/src/file_transfer.c:8-78 | while the connection holds, a run is complete after exactly two steps for each word and three more |
| FileTransfer.Upload.constructor | week06/src/file_transfer.c:27-39 | all the file's words are still to be read |
| FileTransfer.Upload.ReadWord | week06/src/file_transfer.c:12 | the next word is read, or there is none |
| FileTransfer.Upload.HandleUpload | week06/src/file_transfer.c:8-25 | the callback is the server's step: the next word under `next_word`, or `end_of_transmission` and the file closed |
| FileTransfer.Download.HandleDownload | week06/src/file_transfer.c:41-58 | the callback is the client's step: the word and a blank written and another asked for, or the file closed |

## Left out

- Sockets, `poll`, signals, DNS, files, time and logging: they appear only as the environment's choices.
- A failed `accept` (`week06d/src/server.c:79`), and `inet_ntoa`'s shared buffer as a connection's argument: not modelled.
- `week06/src/event_loop.c`: its handler-stack rewrite never raises its stack tops; the loop modelled is `week06d`'s.
- `week06/src/ds/refcounter.c`, `week06/src/handlers.c`, `week06/src/bootstrap.c`, `week06/src/control.c`, `week06/src/pings.c`: unfinished or calling functions that are not defined; the `week06d` versions carry the protocol.
- Raw struct copying, padding and the 20-character limits of names and addresses: messages are values.
- `malloc`, `free` and failing allocation: not the subject.
- `week01`, `week04`, `week05`, argument parsing, and the TTL scheme of `week06/protocol.md`, which no code implements.
- JSON values as heap objects: a `json_t` is a value here, so sharing one between two containers is not captured; hash tables, vectors, the token array and the output buffer are on the heap.
- JsonWriter.SerializeAt: demands that the text fits the buffer, as the code silently does.
- JsonReader.DeserializeJson: demands a text no longer than the token array, as the code silently does.
- Framing.Receiver.Receive: demands that a reception fits the rest of the buffer, which is what the length passed to `recv` asks for.
- Crashes and departures of nodes: no code handles them, and the gossip has no step for them.
- FileTransfer.Download.HandleDownload: an answer without a body, or whose next word is no string, counts as no word; the code would read through NULL or print a NULL string. One reception brings one whole message, which is where at most one message in flight matters.
- Requests.RequestDelivered: ends with the parsed value, because the code reads through NULL there; releasing and closing the descriptor is not modelled.
- Log lines: not modelled, but for the table entry that one of them reads.
- FileTransfer.Upload.ReadWord: words longer than the buffer are not modelled.
