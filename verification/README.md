# muMQ: a verified model of the broker's core

muMQ is an MQTT 3.1.1 broker in C. This project models the four parts of it that carry its correctness, and proves what they promise.

1. **Subscription tree** (`broker/substree.c`, `broker/utility.c`). Filters are split into levels and stored in a trie of linked child and leaf lists, which subscribers change in place while publishers walk it.
   - `Topics.dfy`: splitting, the tokens, the validators, and the matching rules of sections 4.7.1.2, 4.7.1.3 and 4.7.2 of MQTT 3.1.1.
   - `Trie.dfy`: the tree as a value, nodes numbered in the order of their creation; the invariant and the add.
   - `Matching.dfy`: what a publish visits and calls back; a publish reaches every matching subscription exactly once.
   - `SubTree.dfy`: the same in the heap, with the source's pointers; every method is tied to the value it stands for.
   - `Interleave.dfy`: a search step by step while other threads add, and undisturbed.
   - `Copies.dfy`: whose leaf a subscription is, and how many copies a client gets, from a history of subscriptions to the heap.
2. **Framing and the outgoing queue** (`broker/event_io.c`, `broker/hand_mqtt.c`, `broker/broker.c`).
   - `Frames.dfy`: the one-shot decoder of a byte stream. `Reading.dfy`: the steps of `loop_read` as a function of the bytes and pauses that `recv` gives it, and when the pauses matter. `Framing.dfy`: `loop_read` with its fields and buffer, tied to these steps; what a call answers, and which clients are removed for it.
   - `SendMachine.dfy`: the queue, the counter and the drain loop of one client under every interleaving, the increment split into load and store. `SendQueue.dfy`: the same queue in the heap, with `publish_msg`, `ack_msg` and the drain loop, as a function of what `send` answers.
   - `Delivery.dfy`: from the sender's queue through any cut of the stream to the receiver's parser.
   - `Session.dfy`: `handle_mqtt_command` for PUBLISH, SUBSCRIBE and CONNECT, over the tree and all the queues and counters at once, the clean-up after a refusal, and the drain behind a CONNECT.
3. **Codec** (`broker/mqtt.c`). `Wire.dfy`: the Remaining Length and the strings. `Messages.dfy`: the serialiser. `Parser.dfy`: the state machine. `RoundTrip.dfy`: what is accepted, and what comes back of what was written.
4. **Hash table** (`broker/uthash.h`), which holds each loop's live clients. `Masks.dfy`: the shift and mask arithmetic. `HashTable.dfy`: both linked structures, adding, deleting, finding and doubling. `HashSort.dfy`: the in-place merge sort.

`Seqs.dfy` holds a fact about sequences that several of these use.

Classes stand for the source's structs, with its fields under the same names; the ghost fields beside them hold the value that the pointers stand for. Loops are loops. Where the source is a value computation, or a macro that only computes, it is a function.

## Where the code differs from what one would expect

- A filter's path in the tree is its first token followed by all of its tokens, because `mqtt3_sub_add` hands on `tokens` and not `tokens->next` (`broker/substree.c:225`, `broker/substree.c:252`). `Topics.PathOf` says so, and it is still injective.
- `WRITE_STRING` writes the high length byte as `length / 0xff` (`broker/mqtt.c:382`). A string survives exactly if L/256 + L%256 < 255, which is `Wire.GoodLength`. Round trips are stated with this condition, in both directions.
- A PUBLISH at QoS 0 is only parsed if two bytes follow its topic (`broker/mqtt.c:312`). So a published message survives exactly if its payload has two bytes as well.
- `will_qos` is read from the retain bit (`broker/mqtt.c:222`) and comes back as 2 * `will_retain`.
- A SUBSCRIBE reads its QoS byte without a test (`broker/mqtt.c:359`). `RoundTrip.SubscribeBounds` says exactly when that byte lies in the body, and `RoundTrip.SubscribeOverread` gives a body where it does not. The byte behind the body is the parameter `beyond`.
- `num_sending_pack` is not the length of the queue, even in a quiet state. `SendMachine.CounterAccount` gives the difference for every run: the rounds that resumed a packet in hand, and what CONNECT and disconnect took off the counter, less what a producer caught in between put back. Without resets the two agree exactly if no round resumed a packet (`SendMachine.CounterIsLength`), as when `send` never left one blocked. `SendMachine.QueueMayWait` is a run that ends with a packet queued, nobody at work and the counter at 0.
- `clean_context` does not empty the queue of packets: a slot's next connection is first offered what is left in it (`SendMachine.CleanOffersQueue`), and `SendMachine.LeftoverIsSentFirst` is a run in which a packet queued for one connection is what the next one is sent first. The queue's invariants hold across that.
- With a header byte of type 0, which MQTT 3.1.1 reserves, a pause after it makes `loop_read` read another header byte (`broker/event_io.c:394`). The bytes 0, 0 are refused if they come in one call, and are no packet at all if a pause is between them (`Reading.TwoZeros`). What is handed on and saved is independent of the cuts exactly for streams in which no byte follows such a header (`Reading.CutsAgreeExactly`).
- Nothing keeps two slots from having one id: idle slots all have the empty one (`broker/broker.c:164`), and `add_client` never looks for an id in use (`broker/broker.c:72-84`). A leaf stays with the slot that linked it (`broker/substree.c:143-146`), so of two sessions with one id only the first to subscribe to a filter gets its copies. The copy count is stated for that. A session gets one copy for each matching filter of its id exactly if it was the first of that id to subscribe to each of them (`Copies.AllCopiesExactly`), as when no other slot has the id; `Copies.SecondSessionGetsNone` is two sessions with one id of which the second gets none.
- The root child that `init_database` makes has no parent (`broker/broker.c:187`), unlike all others. Nothing reads that link.
- A CONNECT sets the counter to 0 before its CONNACK is counted (`broker/hand_mqtt.c:140-147`, `broker/broker.c:81`), whatever is queued. On a slot where packets were left over, the drain behind it sends the first of them and not the CONNACK (`Session.ConnectAndDrain`).
- A refused CONNECT or SUBSCRIBE is never answered to the client it came from: the answer is enqueued, but `loop_read` then gives the connection up (`broker/event_io.c:513-515`) and `clean_context` leaves the answer to the slot's next connection (`Session.ServeConnect`, `Session.ServeSubscribe`).
- `context->id` is an array, so the tests that it is not null never fail.

## Model

| member | source | states |
|---|---|---|
| Topics.JoinSplit | broker/substree.c:56-117 | the levels of a string, joined by '/', give the string back |
| Topics.TokensInjective | broker/substree.c:56-117 | no two strings have the same tokens, the sentinel level in front of those without '$' included |
| Topics.Tokenise | broker/substree.c:56-117 | the scan emits the levels of the string, with an empty level in front unless it starts with '$' |
| Topics.PathOfInjective | broker/substree.c:211-262 | two filters with the same path in the tree are the same filter, although the first token is taken twice |
| Topics.CharsOkIsValidLevels | broker/utility.c:69-90 | the test of each character against its neighbours holds exactly if every level is free of wildcards, "+", or a last "#" |
| Topics.SubTopicValid | broker/utility.c:69-90 | true exactly for strings of at most 65535 characters whose levels are all valid |
| Topics.PubTopicValid | broker/utility.c:54-67 | true exactly for strings of at most 65535 characters without wildcards |
| Topics.TokenMatchIsFilterMatch | broker/substree.c:283-321 | matching on paths and tokens is matching on levels, with the rule that a wildcard in front never matches a topic that starts with '$' |
| Topics.ValidPath | broker/substree.c:211-262 | the path of a valid filter has only valid levels, '#' at most last |
| Topics.HashExamples | broker/substree.c:283-321 | "a/#" matches "a" and "a/b" and not "b" |
| Topics.PlusExamples | broker/substree.c:283-321 | "a/+" matches "a/b" and "a/" and not "a" |
| Topics.SlashExamples | broker/substree.c:283-321 | "+/+" and "/+" match "/b", and "+" does not |
| Topics.DollarExamples | broker/substree.c:303-321 | no wildcard in front matches "$a/b", and "$a/#" does |
| Topics.FillExamples | broker/utility.c:69-90 | "+/b" and "/" are valid filters, "a#" and "a+" are not |
| Topics.LastExamples | broker/utility.c:69-90 | "#" and "a/#" are valid filters, "#/b" is not |
| Trie.PathInjective | broker/substree.c:132-209 | no two nodes of a well-formed tree have the same path |
| Trie.PathValid | broker/substree.c:283-301 | if no '#' node has children, every path has '#' at most last |
| Trie.LinkChildWf | broker/substree.c:192-207 | a new child with a new name keeps parents before children, sibling names distinct and one leaf per client id |
| Trie.LinkLeafWf | broker/substree.c:150-178 | so does a new leaf for an id that has none at the node |
| Trie.AddAtWf | broker/substree.c:132-209 | so does a whole add |
| Trie.WildOkKept | broker/substree.c:132-209 | an add of valid levels leaves every '#' node without children, which the search relies on |
| Trie.HoldsUnique | broker/substree.c:141-149 | one leaf stands for an entry (path, client id), with one QoS |
| Trie.EndOfPath | broker/substree.c:132-209 | an add ends at the node whose path is that of the start and the tokens |
| Trie.AddAtLeaf | broker/substree.c:141-178 | each leaf after an add stood there before for the same client, or is the adder's own, at the end of its path, where its id had none |
| Trie.AddAtHolds | broker/substree.c:132-209 | an add below a node sets the entry for its path and client id and changes no other |
| Matching.WalkMatchIsLevelsMatch | broker/substree.c:283-301 | what the walk compares level by level is the matching rule of MQTT 3.1.1 for valid filters and topics without wildcards |
| Matching.VisitsCount | broker/substree.c:283-301 | a search visits each node below its start once if the levels in between match, and never if not |
| Matching.RootVisitsExact | broker/substree.c:303-321 | a publish visits each node once if its path matches, and never if not |
| Matching.CallsCount | broker/substree.c:264-281 | a leaf is called back as often as its node is visited if its client is subscribed, and never if not |
| Matching.AddSubIsMapUpdate | broker/substree.c:211-262 | an add is a map update on (filter, client id): this entry gets the QoS, every other is as before |
| Matching.TreeHoldsLastSub | broker/substree.c:211-262 | after any history the tree holds for each filter and client id the QoS of their last subscription, and nothing else |
| Matching.TreeWildOk | broker/substree.c:183-208 | a tree built from valid filters has no '#' node with children |
| Matching.PublishExactlyOnce | broker/substree.c:264-321 | after any history of valid filters, a publish on a topic without wildcards calls a leaf back once if its filter matches and its client is subscribed, else never |
| Matching.PublishServesEverySubscription | broker/substree.c:264-321 | each subscription of the history has a leaf, which is called back once if the filter matches and the client is subscribed |
| Matching.CallsAreLeaves | broker/substree.c:264-281 | every callback is of a leaf of the tree whose client is subscribed |
| SubTree.Client.Record | broker/substree.c:153-171 | the node is recorded in the first free slot of context->subs, or in a new one at the end |
| SubTree.Broker.constructor | broker/broker.c:157-198 | a new broker has a root with one child for the empty level, linked and in order |
| SubTree.Broker.FindBranch | broker/substree.c:183-190 | the scan finds the child with the token's name, or that there is none and which child is last |
| SubTree.Broker.FindRootChild | broker/substree.c:222-229 | the same over the root's children, newest first |
| SubTree.Broker.AppendChild | broker/substree.c:192-207 | the new node stands last in the child list and the tree has one node more; all else is unchanged |
| SubTree.Broker.PrependRootChild | broker/substree.c:231-250 | the new node stands first in the root's list |
| SubTree.Broker.SetLeafQos | broker/substree.c:143-146 | only the QoS of this leaf changes |
| SubTree.Broker.PutLeafOn | broker/substree.c:138-181 | the id's leaf gets the QoS, or a new leaf is linked last and recorded with the client |
| SubTree.Broker.AddBelow | broker/substree.c:132-209 | the descent in the heap computes the add on the tree's value, and the node it ends at is recorded in context->subs unless the id had a leaf there |
| SubTree.Broker.Add | broker/substree.c:211-262 | mqtt3_sub_add in the heap is the map update, keeps every link, parent, sibling name and leaf list in order, and records the filter's node with a client that is new there |
| SubTree.Broker.Process | broker/substree.c:264-281 | the clients called back for a node's leaves, in their order |
| SubTree.Broker.Search | broker/substree.c:283-301 | the recursive walk over the links calls back exactly the visits of the search, in their order |
| SubTree.Broker.TreeProcess | broker/substree.c:303-321 | a publish in the heap calls back exactly the clients of the publish on the tree's value, in order |
| Interleave.ExpandCover | broker/substree.c:283-301 | a read of the search passes on its duty to visit a leaf to exactly one of the reads that follow |
| Interleave.CoverKept | broker/substree.c:172-207 | a write of an adder takes nothing from what a search in progress has still to visit |
| Interleave.StepTotal | broker/substree.c:172-301 | every step of searcher, adders or flags keeps the sum of calls made and calls due for each leaf that is linked and subscribed, and none raises it |
| Interleave.LinkedBeforeIsCalledOnce | broker/substree.c:283-321 | in every run, adds and disconnects included, a leaf linked before the search began, for a client that stays subscribed while it lasts, is called back once if its path matches, else never |
| Interleave.CalledIsLinkedMatchingAndOnce | broker/substree.c:283-321 | at every moment of every run, what was called back is a linked leaf whose client was subscribed at the time, matches, and was called once |
| Interleave.SearchDuringAdds | broker/substree.c:211-321 | for leaves linked before the search, in terms of filters: each stands for a valid subscription of the history and, if its client stays subscribed, is called back once if that matches, else never |
| Interleave.CalledDuringAdds | broker/substree.c:211-321 | every leaf called back, linked before the search or during it, stands for a subscription of the history that has come about by then, whose filter matches and whose client was subscribed, and is called once |
| Interleave.SearchStepTodo | broker/substree.c:264-301 | a read of an undisturbed search makes the next of the callbacks due, or none, and leaves the others due in their order |
| Interleave.AloneIsPublish | broker/substree.c:264-321 | an undisturbed search, read by read, makes exactly the callbacks of the publish, in their order |
| Interleave.SearchGoesOn | broker/substree.c:283-321 | in every run, as long as the search has anything left to do, its next read can be made |
| Interleave.ExpandCost | broker/substree.c:264-301 | every read of a search on a tree that stays as it is leaves one read less to do |
| Interleave.AloneEnds | broker/substree.c:264-321 | an undisturbed search ends after exactly the number of reads that tree and topic ask for, and not before |
| Interleave.AddAtIsWrites | broker/substree.c:132-209 | an add is a series of visible writes, each of which the search allows for |
| Copies.CallFilter | broker/substree.c:264-321 | every callback is made once, for a slot in session, a matching filter, and the slot that of those with its id subscribed to it first |
| Copies.OneOwner | broker/substree.c:141-149 | of two slots with one id only one can have been the first to subscribe to a filter |
| Copies.SomeOwner | broker/substree.c:141-149 | a subscribed id has a slot that was the first |
| Copies.LeafOwner | broker/substree.c:141-178 | a leaf belongs to the first slot of its id that subscribed to the filter of its path |
| Copies.OneCopyPerMatchingFilter | broker/substree.c:264-321 | a slot in session is called back once for each matching filter that it owns as the first of its id, which are all of its id's if no other slot has that; any other slot never |
| Copies.AllCopiesExactly | broker/substree.c:264-321 | a session never gets more copies than its id has matching filters, and gets as many exactly if it was the first of its id to subscribe to each |
| Copies.SecondSessionGetsNone | broker/substree.c:141-149 | two sessions with one id subscribe to one filter, and the second one gets no copy of a publish to it |
| Copies.CopiesInHeap | broker/substree.c:264-281 | the same count in the list of clients that the heap's walk calls back |
| Copies.SubscribeAll | broker/substree.c:211-262 | a new broker that takes a history of subscriptions has the tree of that history |
| Copies.PublishTo | broker/substree.c:303-321 | a publish in the heap calls back each slot in session once for each matching filter it owns, and no other |
| Wire.EncodeIsField | broker/mqtt.c:441-449 | the encoder's bytes are a complete field of section 2.2.3 of MQTT 3.1.1 with the number as its value |
| Wire.EncodeIsMinimal | broker/mqtt.c:441-449 | no shorter field has that value |
| Wire.LengthSizeExact | broker/mqtt.c:391-399 | the size thresholds count the encoder's bytes exactly up to 268435455 |
| Wire.LengthTable | broker/mqtt.c:441-449 | the first and last number of each length of field are encoded as table 2.4 of MQTT 3.1.1 has them |
| Wire.DecodeField | broker/event_io.c:429-465 | a field of up to four bytes is decoded to its value, whatever follows |
| Wire.DecodeEncode | broker/mqtt.c:441-449 | an encoded length is decoded to itself, using as many bytes as the thresholds say |
| Wire.DecodeContinued | broker/event_io.c:429-465 | bytes that all continue decide nothing up to the fourth, and are rejected at the fifth |
| Wire.WrittenLengthExact | broker/mqtt.c:381-386 | the two written length bytes give the length back exactly if L/256 + L%256 < 255, which holds up to 254 |
| Wire.ReadStringExact | broker/mqtt.c:112-127 | READ_STRING finds a string exactly if it stands there on the wire, complete |
| Wire.WrittenStringReadBack | broker/mqtt.c:381-386 | a written string is read back exactly if its length is a good one, wherever it stands |
| Messages.HeaderRoundTrip | broker/mqtt.c:374-379 | the fixed header's first byte gives retain, QoS, dup and type back |
| Messages.ReadHeaderBits | broker/mqtt.c:374-379 | on the byte: retain is bit 0, QoS bits 1 and 2, dup bit 3, and the type the upper half |
| Messages.HeaderByteBits | broker/mqtt.c:439 | the same bits of the byte that is written |
| Messages.FlagsByteBits | broker/mqtt.c:468-474 | of the CONNECT flags written, bit 7 is the user name, 6 the password, 5 will retain, 3 and 4 will QoS, 2 the will, 1 clean session, and bit 0 is clear |
| Messages.SizeExact | broker/mqtt.c:388-434 | the computed size is the number of bytes written, exactly up to the maximum length |
| Messages.SerialiserSize | broker/mqtt.c:388-434 | the method computes that size |
| Messages.SerialiserWrite | broker/mqtt.c:436-510 | the buffer gets exactly the message's bytes from its start, without gap or overrun, and is otherwise unchanged |
| Parser.StepBound | broker/mqtt.c:146-372 | every round of the parser goes down in rank, stays in the data, and leaves the fixed header alone |
| Parser.RunInBounds | broker/mqtt.c:146-372 | from every state of a packet the parser ends, with nread inside the data; a SUBSCRIBE may pass it by one |
| Parser.ReadStringAt | broker/mqtt.c:112-127 | READ_STRING as code: the string and the new position, or that the data is short |
| Parser.Execute | broker/mqtt.c:146-372 | the loop over parser->state and *nread computes the result and the message of the state machine, and sets the error exactly if it refuses the packet |
| RoundTrip.KindsParsed | broker/mqtt.c:149-183 | the parser refuses exactly the types other than 1, 2, 3, 8, 12 and 14; PINGREQ and DISCONNECT are accepted as they stand |
| RoundTrip.ConnackExact | broker/mqtt.c:286-297 | a CONNACK is parsed exactly if its two bytes are there, which are then its fields |
| RoundTrip.PublishExact | broker/mqtt.c:299-337 | a PUBLISH is parsed exactly if the body is a topic, the id where there is one, and the content; then all of it was read |
| RoundTrip.PublishRoundTrip | broker/hand_mqtt.c:27-47 | topic and payload come back exactly if the topic's length is a good one and the payload has two bytes |
| RoundTrip.SubscribeBounds | broker/mqtt.c:339-364 | from the body's bytes: a SUBSCRIBE is parsed exactly if it has four bytes and the filter's length behind them; id and filter are those slices, and the QoS is a byte of the body exactly if one follows the filter |
| RoundTrip.SubscribeOverread | broker/mqtt.c:359 | a body that ends with its filter is accepted, with the byte behind it as QoS |
| RoundTrip.ConnectComplete | broker/mqtt.c:191-284 | a body that begins with a CONNECT is parsed as that CONNECT, up to its end |
| RoundTrip.ConnectExact | broker/mqtt.c:191-284 | a CONNECT is parsed exactly if the body begins with its nine fields, for every combination of the bits of its flags byte |
| RoundTrip.ReadFlagsBits | broker/mqtt.c:219-224 | the flags read are the bits of section 3.1.2 of MQTT 3.1.1, will QoS being 2 if bit 5 is set and else 0 |
| RoundTrip.ConnectByBits | broker/mqtt.c:191-284 | of a body that begins with name, version, flags byte f, keep-alive and id, a CONNECT is made exactly if the strings follow that the bits of f ask for: will topic and message for bit 2, user name for bit 7, password for bit 6 |
| RoundTrip.PlainConnect | broker/mqtt.c:191-284 | the fourteen bytes of an ordinary client's CONNECT are accepted, field by field |
| RoundTrip.FlagsReadBack | broker/mqtt.c:213-229 | every flag comes back, but will_qos as 2 * will_retain |
| RoundTrip.ConnectRoundTrip | broker/mqtt.c:463-495 | a serialised CONNECT comes back field for field, but for will_qos, exactly if its strings have good lengths; then the parser stops at the end |
| Frames.DecodeAppend | broker/event_io.c:391-520 | decoding a stream in two parts is decoding it at once |
| Frames.RestIsOpen | broker/event_io.c:391-520 | what is left over after decoding is an incomplete packet, or a rejected one |
| Frames.DecodeAllOnWire | broker/event_io.c:391-520 | packets put on the wire one after another are decoded to themselves |
| Frames.DecodePrefix | broker/event_io.c:391-520 | any beginning of such a stream is decoded to a beginning of the packets |
| Reading.ServeOk | broker/event_io.c:391-502 | after any bytes and pauses the counters fit each other and the length stays below 128 to the power of its bytes |
| Reading.NoWrap | broker/event_io.c:431-439 | on any input, cut in any way, no length and no multiplier passes 28 bits, nor does the next sum |
| Reading.UncutIsDecode | broker/event_io.c:391-502 | read in one call, a stream gives the packets of the one-shot decoder, is given up exactly where that finds a malformed length, and leaves its rest behind |
| Reading.ServeJudged | broker/event_io.c:501-519 | the parser's and handler's answers matter only in that the connection ends with the first packet refused |
| Reading.CutAsUncut | broker/event_io.c:391-502 | without a byte behind a type-0 header, any cuts lead to the state of the uncut stream, settled by a pause or not |
| Reading.CutsAgreeExactly | broker/event_io.c:391-502 | all ways to cut every beginning of a stream leave the same state behind exactly if no byte of it follows a type-0 header |
| Reading.TwoZeros | broker/event_io.c:394-423 | the bytes 0, 0 end the connection in one call, and leave it without any packet if a pause is between them |
| Reading.ServeChunk | broker/event_io.c:472-500 | a piece of the payload taken in one recv is its bytes taken one by one |
| Framing.Connection.constructor | broker/broker.c:35-61 | a new connection is between packets, with nothing received |
| Framing.Connection.ReadHeaderByte | broker/event_io.c:394-423 | the header byte is stored and the length, or the payload, goes on where it stood; or the call ends in a state it can resume from, with the result that the answer of recv asks for |
| Framing.Connection.TakeLengthByte | broker/event_io.c:431-439 | one byte adds seven bits to the length; a fifth is refused; length and multiplier stay within 28 bits on any input |
| Framing.Connection.ReadLength | broker/event_io.c:424-470 | the length field is read to its end, resumed at any byte, the payload buffer has that length, and nothing wraps; or the call ends with the result that the answer of recv asks for, or -1 at a fifth byte |
| Framing.Connection.ReadPayload | broker/event_io.c:472-500 | the bytes that arrive stand in the buffer in order, until the packet is complete or the call ends in a state it can resume from, with the result that the answer of recv asks for |
| Framing.Connection.Finish | broker/event_io.c:501-519 | the packet handed on is header and payload as received, the result is 1 exactly if the parser and the handler accept it, and the connection is given up if not |
| Framing.Connection.LoopRead | broker/event_io.c:359-522 | after any call the connection is in the state of the reading steps after all bytes and pauses so far, and nothing wraps; the call has taken something, and its result is -1 exactly where they give it up, 0 exactly at an end of file or a reset, -3 exactly at another failure, and 1 exactly at a block or an accepted packet |
| Framing.Connection.ReadOrRemove | broker/event_io.c:259-261 | loop_run removes the client exactly if recv found the connection closed or broken, or it was given up; a block leaves it as it is |
| Framing.EndsTaken | broker/event_io.c:404-420 | a result above 0 is that of a block or of an accepted packet |
| Framing.RemovedAtPause | broker/event_io.c:259-261 | over any run of calls, a client is never removed exactly if all pauses were blocks and the reading steps have not given it up |
| Framing.RemovedExactly | broker/event_io.c:259-522 | as long as recv only ever blocks, a client is removed exactly if its bytes hold a malformed length or a refused packet, however they were cut, unless a byte followed a type-0 header |
| Framing.Connection.Clean | broker/broker.c:44-55 | the framing state is that of a new connection |
| Framing.CutsDoNotMatter | broker/event_io.c:391-502 | two connections that received the same bytes, cut, timed and judged in whatever way, are in the same state and have handed on what the one-shot decoder finds, unless a byte followed a type-0 header |
| SendMachine.StepInv | broker/event_io.c:281-353 | every step of producers, drain loop, CONNECT and disconnect keeps lock, counter and byte accounts |
| SendMachine.DrainIsSafe | broker/event_io.c:281-353 | in no run is a null current packet used; the counter stays between 0 and queue plus packet in hand, and covers the rounds to go |
| SendMachine.AcceptedIsPrefix | broker/event_io.c:307-352 | in every run, what send accepted is a beginning of what was offered, and accepted, rest and queue make up the whole |
| SendMachine.CounterAccount | broker/event_io.c:281-353 | in every run, while the lock is free, queue less counter is the rounds that resumed a packet plus what resets took off, less what producers put back |
| SendMachine.CounterIsLength | broker/event_io.c:307-317 | without resets the counter lags by the rounds that resumed a packet, and is the queue's length exactly if there was none |
| SendMachine.UnblockedNeverResumes | broker/event_io.c:319-339 | if send never leaves a packet in hand, no round resumes one |
| SendMachine.CleanOffersQueue | broker/broker.c:35-61 | a slot's next connection has accepted nothing, is offered the queue, and is offered nothing exactly if the queue was empty |
| SendMachine.LeftoverIsSentFirst | broker/broker.c:35-61 | a run in which a packet queued for one connection is sent to the slot's next one before that one's own |
| SendMachine.QueueMayWait | broker/event_io.c:307-317 | a run that ends quiet with a packet queued and the counter at 0 |
| SendQueue.Client.Append | broker/hand_mqtt.c:49-57 | the packet stands last in the linked queue, the counter is one up, nothing else is changed |
| SendQueue.Client.Enqueue | broker/hand_mqtt.c:42-57 | the queue gets the message's bytes behind what is there |
| SendQueue.Client.PublishMsg | broker/hand_mqtt.c:27-58 | the queue gets the PUBLISH for topic and payload |
| SendQueue.Client.AckMsg | broker/hand_mqtt.c:60-103 | the queue gets the CONNACK, SUBACK or PINGRESP; any other kind leaves it alone |
| SendQueue.Client.Pop | broker/event_io.c:308-317 | the first packet comes in hand unless one is there; with a count of at least 1 there always is one |
| SendQueue.Client.WriteOut | broker/event_io.c:319-339 | as the answers of send have it: the packet in hand moves on by exactly what they took, which has been accepted; it is through exactly if none of them was a block or a failure; and the loop fails exactly if the last one was a failure |
| SendQueue.Client.Round | broker/event_io.c:307-353 | the first packet of the line is counted off and written: through, it leaves the line; blocked, it stays in hand; at a failure it goes with the connection; what others enqueue meanwhile stands behind and is counted |
| SendQueue.Client.Drain | broker/event_io.c:281-353 | the client is removed exactly if send failed; at a block the packets before it are sent, the next is in hand as far as send took it; and if send always takes something, all packets counted at the start are sent and counted off |
| SendQueue.DrainNext | broker/event_io.c:307-353 | a round on top of whole rounds makes one whole round more, or ends the drain at its block or failure |
| SendQueue.Client.Clean | broker/broker.c:35-61 | counter, message id and packet in hand go, the queue stays and is the first thing offered to the next connection |
| SendQueue.Client.ResetCount | broker/broker.c:81 | setting the counter to 0 on CONNECT keeps the queue in order |
| SendQueue.Serialise | broker/hand_mqtt.c:42-45 | the allocated buffer is exactly filled with the message's bytes |
| SendQueue.AckBytes | broker/hand_mqtt.c:60-90 | a CONNACK is the bytes 32, 2, 0 and the return code, a SUBACK 144, 3, the message id and the code, a PINGRESP 208, 0 |
| SendQueue.PublishBytes | broker/hand_mqtt.c:27-45 | a PUBLISH is the byte 48, the length, the topic and the payload |
| Delivery.PacketIsFrame | broker/mqtt.c:436-510 | a serialised message is one frame on the wire, not of type 0, from which its header comes back |
| Delivery.BrokerSends | broker/hand_mqtt.c:27-103 | all that publish_msg and ack_msg send, as the handler calls them, has a type and a length field that says how long the body is |
| Delivery.PostRoundTrip | broker/hand_mqtt.c:27-47 | a message of publish_msg of which all bytes were received has been handed on at its place, and gives topic and payload back exactly if these are good ones |
| Delivery.NoZeroHeader | broker/event_io.c:391-502 | no part of a stream of messages shows a byte behind a type-0 header |
| Delivery.ArrivedIsOne | broker/event_io.c:391-502 | for any number of bytes of the stream there is exactly one number of messages that they complete |
| Delivery.DecodedAreArrived | broker/event_io.c:391-502 | any beginning of the stream is decoded to exactly the messages of which all bytes are there |
| Delivery.EndToEnd | broker/event_io.c:391-519 | whatever was accepted by send and received, cut and timed in whatever way, the parser is given exactly the messages of which all bytes were received, in order, header and body untouched, or the connection ended with the first of them that was refused |
| Delivery.AllDelivered | broker/event_io.c:391-519 | when the sender's queue has been drained and all of it received, every message has been handed on, if none is refused |
| Delivery.ReceivedInOrder | broker/event_io.c:391-519 | a connection that has not been given up has handed on exactly the messages of which all bytes were received |
| Session.CString | broker/hand_mqtt.c:120-125 | string functions see the longest beginning of a buffer without a NUL |
| Session.CStringWhole | broker/hand_mqtt.c:161-166 | which is the whole of it exactly if it holds none |
| Session.PublishOne | broker/hand_mqtt.c:27-58 | a callback puts one packet behind what the client has queued, counts it, and changes no other client's queue or counter |
| Session.FanOut | broker/substree.c:264-281 | the callbacks of a publish put into each queue as many packets as its client is called, and count them |
| Session.HandlePublish | broker/hand_mqtt.c:109-134 | a PUBLISH puts into each queue one packet for each time the tree calls its client back, and counts it; the publisher keeps the message id; nothing else changes |
| Session.HandleSubscribe | broker/hand_mqtt.c:150-178 | in session the filter is added, as received if it holds no NUL, the client marked and a SUBACK with its id enqueued and counted; else the tree is unchanged and a SUBACK with 0x80 is enqueued and counted |
| Session.HandleConnect | broker/hand_mqtt.c:135-149 | an id of 1 to 23 bytes opens the session and leaves the counter at 1; a CONNACK is enqueued and counted, with 2 for a longer id and with 0 for an empty one, which opens none; nothing else changes |
| Session.CleanUp | broker/broker.c:35-61 | clean_context clears mark, counter, message id and packet in hand, the slot's next connection is offered what is queued, and no other queue changes |
| Session.ServeConnect | broker/event_io.c:513-515 | a refused CONNECT ends the session, and its CONNACK is offered to the slot's next connection, behind what was queued; an accepted one is handled as above |
| Session.ServeSubscribe | broker/event_io.c:513-515 | so is the SUBACK of a refused SUBSCRIBE; an accepted one is handled as above |
| Session.ConnectAndDrain | broker/hand_mqtt.c:135-149 | if send always takes something, the drain behind a CONNECT that opens the session sends exactly one packet: its CONNACK exactly if nothing was left in the slot, else what was first there |
| Session.OneIsSent | broker/event_io.c:281-353 | a drain that counts 1 sends the first of the line and leaves the rest |
| Session.ReceiversCount | broker/substree.c:264-321 | a slot in session is called as often as it owns matching filters, which are all of its id's if no other slot has that id |
| Session.PublishReaches | broker/hand_mqtt.c:109-134 | a PUBLISH puts into each session's queue exactly one packet per matching filter the slot owns, behind what is there, counts them, and puts none into any other |
| Session.PublishWhole | broker/hand_mqtt.c:120-125 | for a topic without a NUL, the same with the topic as it was received |
| Masks.ShiftMask | broker/uthash.h:694-696 | shift and mask by the same k take a number apart into quotient and remainder by 2^k |
| Masks.ShiftBack | broker/uthash.h:694-696 | shifting right and left again loses exactly what the mask keeps |
| Masks.MaskIsMod | broker/uthash.h:210-213 | a bucket number is the hash value modulo the number of buckets, a power of two |
| Masks.IdealIsCeiling | broker/uthash.h:694-696 | the shift and mask form is the ceiling of items over new buckets, and not 0 if there are items |
| Masks.ExcessUpdate | broker/uthash.h:704-708 | an item more in a chain adds one to the excess exactly if it stands behind the ideal length |
| Masks.ExcessBound | broker/uthash.h:704-708 | the items behind the ideal length are at most all items |
| HashTable.LinkedDrop | broker/uthash.h:236-253 | the two pointer writes around a removed item leave a doubly linked list without it |
| HashTable.ChainsPush | broker/uthash.h:628-639 | a new item in front of its chain keeps every chain linked, counted and hashed |
| HashTable.ChainsRemove | broker/uthash.h:642-651 | HASH_DEL_IN_BKT closes the chain over the item, first, last or in between, and leaves the others |
| HashTable.DoublingBounds | broker/uthash.h:683-729 | at up to 20 items a bucket, a doubling leaves every chain within its limit and no more multipliers than buckets |
| HashTable.OneMoreFits | broker/uthash.h:628-639 | the addition that triggers a doubling finds at most 20 items a bucket |
| HashTable.Table.constructor | broker/uthash.h:153-170 | a table without items is in order |
| HashTable.Table.Move | broker/uthash.h:699-716 | a moved item is in front of its new chain, counted, and behind the ideal length exactly if nonideal_items grows |
| HashTable.Table.MoveAll | broker/uthash.h:697-718 | both loops move every item once, to the chain of its hash value among twice the buckets |
| HashTable.Table.Expand | broker/uthash.h:683-729 | a doubling keeps the invariant, sets the ideal length to the ceiling, nonideal_items to the sum of the excess, and inhibits further ones after two ineffective ones |
| HashTable.Table.AddToBucket | broker/uthash.h:628-639 | the item is in front of its chain, and the table doubles exactly if the chain has reached its threshold and doubling is not inhibited |
| HashTable.Table.Add | broker/uthash.h:185-208 | the item is last in insertion order and in the chain of the hash of its key, everything HASH_FSCK checks holds, doubled or not |
| HashTable.Table.Delete | broker/uthash.h:227-260 | the item leaves the order and the chain of its stored hash value, whatever its key is now; all else is unchanged |
| HashTable.Table.Find | broker/uthash.h:106-117 | a result has the key and lies in the bucket of the key's hash value; without one no item in that bucket has the key |
| HashTable.Lookup | broker/uthash.h:614-625 | with unchanged keys a key is found exactly if a live item has it |
| HashTable.Table.Rekey | broker/broker.c:72-79 | a key changed in place, as add_client does after the item was added, leaves the table in order |
| HashTable.ChainsStayShort | broker/uthash.h:653-682 | while doubling is not inhibited, a chain has at most 10 * (expand_mult + 1) items and the table at most 20 per bucket |
| HashTable.LiveIsInsertionOrder | broker/uthash.h:185-260 | the list after a run holds exactly the live items, each once, by the time of their last addition |
| HashTable.Replay | broker/uthash.h:185-340 | every run of adds of non-members, deletes of members and changes of keys keeps the invariant, doublings included, leaves the live items in insertion order, each stored under the key it was added with |
| HashSort.MergeOrdered | broker/uthash.h:763-808 | merging two ordered runs, the first of earlier items, gives an ordered one, ties in their old order |
| HashSort.PassRuns | broker/uthash.h:747-811 | a pass doubles the width of the ordered runs |
| HashSort.SortIsStable | broker/uthash.h:736-821 | for a total preorder the passes end in the stable sorted rearrangement |
| HashSort.SkipRun | broker/uthash.h:757-762 | the inner loop finds the end of a run, or of the list |
| HashSort.MergeRuns | broker/uthash.h:763-808 | the relinking loop puts the merge of both runs behind the output, reading only links it has not overwritten |
| HashSort.PassInPlace | broker/uthash.h:745-811 | a pass leaves its result as a list linked both ways, with head and tail, and at most one merge exactly if the list is one pair of runs |
| HashSort.SortList | broker/uthash.h:740-821 | the passes end, with the list of the last one |
| HashSort.Sort | broker/uthash.h:736-821 | the table stays in order with its items rearranged, whatever the comparison; for a total preorder they are stably sorted |

## Left out

- Sockets, epoll, mTCP, listening, accepting, thread start-up, signals and logging: `recv` and `send` are any answers in range, and in the framing model the handler's answers, and the bytes behind the payload buffers, are any function of the packets so far (`Reading.Outside`).
- The result of `send` is stored in an unsigned variable (broker/event_io.c:319, broker/event_io.c:325), so its test for failure never fires for -1. The model takes `send` as a detected failure or a count of 1 up to what was asked for.
- Allocation always succeeds.
- A client slot keeps one id in the tree model; `clean_context` clears the id but leaves the slot's leaves in the tree. The framing and queue models do cover reuse of a slot.
- UNSUBSCRIBE, QoS 1 and 2, retained messages, wills and more than one filter per SUBSCRIBE, which the handler does not implement; PINGREQ and DISCONNECT, which only choose an answer.
- The result of the validity checks is discarded by the handler, so validity of filters and topics is a hypothesis of the matching results.
- Hash functions: a stored hash value is any number. HASH_SELECT and the Bloom filter, which is not compiled in. The 32-bit wrap of the table's counters.
- Memory is sequentially consistent in the two interleaving models.
- The union inside a message: each kind of packet has its own part of `Messages.Message`.
- The list of tokens is a sequence; its nodes are only walked and freed.
- The inner copy of payload and topic in the handler, and freeing of memory in general.
- Interleave.CalledDuringAdds: for a leaf linked during the search it is left open whether it is called, because that depends on the timing; in the middle of an add, CalledIsLinkedMatchingAndOnce says the same of its path.
- Framing.Connection.LoopRead: answers 1 for an accepted packet, where the source answers the count of the last `recv`; its caller only asks for the sign. It is the call with something to read: on a hang-up or an error event the source answers -1 without reading.
- Session.HandleConnect: does not model the id that add_client stores in the slot, because a slot keeps one id in the tree model: with ids that change, two leaves of one id could stand under one node.
- SendMachine.AcceptedIsPrefix: a new connection on a used slot counts the packets left in the queue as its first ones.
- HashTable.Table.Find: is exact for unchanged keys only, as `Lookup` says, because the bucket of a changed key is not the bucket of its item.
