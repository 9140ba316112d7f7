# A model of the broker

This project models the parts of a multi-threaded MQTT broker in which most can go wrong, and proves what they
promise, for every input and every run:

- the message protocol of the worker threads, as a step machine over all interleavings (`WorkerProtocol`,
  `WorkerTheorems`, `WorkerCollection`, `WorkerProgress`);
- the intrusive AVL tree, in place on the heap (`KavlTree` to `Kavl`), and the linked list and queue (`DlList`,
  `Queue`);
- the subscription trie: its search against the topic rules of section 4.7 of MQTT 3.1.1, its updates on the heap,
  and the stand-alone matcher (`Topic`, `TrieModel`, `TrieSearch`, `Trie`, `TrieUpdate`, `Subscription`);
- the keep-alive wheel, and the wheels of several workers over one shared variable (`KeepAlive`, `KeepAliveRuns`,
  `KeepAliveWorkers`);
- the byte-fed parsers of MQTT, WebSocket and HTTP and what they do with a stream that is cut into buffers at will
  (`ByteStream`, `Hearing`, `Mqtt*`, `Ws*`, `Http*`), with the encoders that face them (`MqttEncode`, `Buffer`);
- base64 (`Base64`).

`dafny verify dfyconfig.toml` checks everything.

How the pieces hang together:

- A parser is a function `Step` on one byte. `ByteStream.Run` is a buffer, `ByteStream.CutAnywhere` says that it does
  not matter where buffers end. The loops that skip over payload, unmask in place, or keep marks are methods whose
  callbacks are proved to tell what `Run` tells.
- Heap structures are proved through a ghost store, a map from nodes to the contents of their fields. Pure lemmas
  speak of the store, methods keep the heap and the store equal.
- The worker threads are a relation on states. Invariants over one step give theorems over all schedules.
- `HttpRequests` joins the pieces of HTTP: the method, the URL, the header names, the values of Connection,
  Transfer-Encoding and Content-Length, the body and the reader with its marks make one theorem about a whole request.
- What a parser should take and tell is written down apart from it, with the bytes of the standards: packets, frames,
  requests, URLs by their parts, lists split at commas.

## Model

| member | source | states |
|---|---|---|
| `WorkerProtocol.StepInv` | src/worker.c:157-208 | every step of every thread keeps: a flag is set exactly while its worker has the message pending, pending messages are in use, a collection queue holds complete messages of its owner |
| `WorkerProtocol.StepHistory` | src/worker.c:287-318 | every step keeps: what a worker was sent is what it delivered, has in hand and has queued, in this order; what it owns of the delivered is what it freed and has still to collect |
| `WorkerTheorems.MessageLifetime` | src/worker.c:157-208 | in every run, whoever refers to a message in a queue, a search, a scan or a push finds it in use; a freed message was delivered and cleared by every worker and freed once, by its owner |
| `WorkerTheorems.DeliveryOrder` | src/worker.c:287-318 | in every run each worker delivers every message at most once and each publisher's messages in order without a gap, all of them once its queue is drained; that it can be drained is `WorkerProgress.AllCanSettle` |
| `WorkerTheorems.QueueSafeExactly` | src/worker.c:169-176 | queues are safe in all runs if and only if there are at least as many servers as workers, or one worker |
| `WorkerTheorems.OwnerTestSafeExactly` | src/worker.c:195-208 | the owner test after the flag is cleared is safe in all runs if and only if there is one worker |
| `WorkerCollection.PassCollects` | src/worker.c:179-191 | once nothing is on its way, a worker that has entered and left w_gc has freed what it owns, in order of delivery, up to the first message with a scanned flag that belongs to no worker; the other workers may be anywhere |
| `WorkerCollection.CollectionExactly` | src/worker.c:169-191 | under every interleaving without a publish: after a pass of every worker all owned messages are freed, and only they, if and only if no owned message has such a flag set |
| `WorkerCollection.StrayExactly` | src/message.c:4-27 | such a flag is set in a message if and only if malloc left it set when the message was created |
| `WorkerCollection.EverythingCollected` | src/worker.c:179-191 | with no more servers than workers every collection queue is empty after a pass and every worker has freed all it owns |
| `WorkerCollection.PassAdvances` | src/worker.c:179-191 | inside a pass a step is always possible and brings the worker nearer to its end, whatever the others do |
| `WorkerProgress.AllCanPass` | src/worker.c:157-233 | from every point of every run there is a schedule after which everything published is delivered by every worker, and another after which every worker has made a whole pass and all owned messages are freed if and only if none has a stray flag |
| `WorkerProgress.NeverStuck` | src/worker.c:157-233 | in every run every worker has exactly one next step, whatever the others do, besides the publishing that its place allows |
| `WorkerProgress.AllCanSettle` | src/worker.c:157-233 | from every point of every run the workers can go on, without a new message, until every worker has delivered every message of every publisher |
| `WorkerProgress.AnyoneCanPublish` | src/worker.c:287-318 | at every point of every run any client can be the next to publish, and every worker can then deliver that message |
| `KavlTree.DepthBound` | src/kavl.h:69-69 | a balanced tree whose size fits in 32 bits is at most 45 high, so the 64 slots of path, stack and dir suffice |
| `KavlRotate.Rotate1` | src/kavl.h:99-109 | the heap holds the rotated tree, nothing else changes |
| `KavlRotate.Rotate2` | src/kavl.h:110-127 | the heap holds the twice rotated tree with its balances set, nothing else changes |
| `KavlRotate.FixedBalanced` | src/kavl.h:97-127 | the rotation chosen for a node that leans too far gives a balanced tree of the right height and sizes |
| `KavlRotate.FixedOrder` | src/kavl.h:97-127 | and keeps the in-order sequence |
| `KavlInsert.InsertedBalanced` | src/kavl.h:129-173 | tilting the balances from the last leaning node down and rotating there gives an AVL tree |
| `KavlInsert.InsertedOrder` | src/kavl.h:129-173 | whose order is the old one with the new node at its place |
| `Kavl.Kavl.Find` | src/kavl.h:81-95 | finds the node of a key if and only if it is there; the count is the number of keys not above it |
| `Kavl.Kavl.Insert` | src/kavl.h:129-173 | an absent key is added at its place in order and the tree stays AVL with sizes; a present one is returned and nothing changes; the rank is right in both cases |
| `Kavl.Kavl.Erase` | src/kavl.h:175-256 | removes exactly the node of the key and keeps the AVL tree, order and sizes; the rank is right; an absent key changes nothing |
| `Kavl.Kavl.EraseFirst` | src/kavl.h:196-200 | removes the least node, on a tree that is not empty |
| `KavlShrink.SeekLeast` | src/kavl.h:196-200 | the walk to the least node ends with an index inside path if and only if the tree is not empty |
| `KavlShrink.Climb` | src/kavl.h:233-256 | the walk up after a removal lowers balances and rotates until the whole tree is balanced again |
| `KavlFree.FreeAll` | src/kavl.h:258-270 | every node is freed, each once, in order |
| `KavlIter.Cursor.First` | src/kavl.h:276-281 | the cursor then stands before the whole sequence |
| `KavlIter.Cursor.StackLeft` | src/kavl.h:276-281 | top points into the stack afterwards if and only if the tree is not empty |
| `KavlIter.Cursor.Seek` | src/kavl.h:282-300 | stands at the key, or at the next greater one; what remains is all from there on, in order |
| `KavlIter.Cursor.Next` | src/kavl.h:301-308 | drops one node from what remains and says whether there is more |
| `DlList.InsertHead` | src/list.c:30-39 | the item is put in front of the list |
| `DlList.InsertTailUnique` | src/list.c:41-66 | the item is put at the end, unless it is in the list |
| `DlList.RemoveRef` | src/list.c:68-85 | exactly the item leaves the list |
| `DlList.Count` | src/list.c:16-28 | the length of the list |
| `Queue.Queue.Push` | src/queue.c:16-30 | the item is put at the end |
| `Queue.Queue.Pop` | src/queue.c:32-51 | the first item leaves the queue, or there is none |
| `Queue.Queue.Peek` | src/queue.c:53-56 | the first item, or none; nothing changes |
| `Topic.IndexIsStandard` | src/trie_mult.c:69-130 | for a well-formed filter and a topic without wildcards the match of the trie is that of section 4.7 of MQTT 3.1.1, but for '#' at the parent level and a wildcard for an empty last level |
| `Topic.LosesParent` | src/trie_mult.c:76-102 | "a/#" matches "a" by the standard and not in the trie |
| `Topic.LosesEmptyLevel` | src/trie_mult.c:76-102 | "a/+" matches "a/" by the standard and not in the trie |
| `Topic.TopicMatches` | src/mqtt_packet.c:22-55 | the loop computes the stand-alone match of what the topic is without "$local/" |
| `Topic.AgreeExactly` | src/mqtt_packet.c:22-55 | the trie and the stand-alone matcher agree on a topic for all well-formed filters if and only if the topic does not begin with '$' and has no empty level but the last |
| `Topic.StripExactly` | src/mqtt_packet.c:28-31 | what is left is the topic without the seven bytes of "$local/" if it begins with them, and otherwise the topic; nothing else |
| `Topic.LocalAgrees` | src/mqtt_packet.c:22-55 | a topic under "$local/" is matched as the trie matches the rest of it, if that does not begin with '$' and has no empty level but the last |
| `TrieSearch.VisitedExactly` | src/trie_mult.c:69-130 | the search visits exactly the filters that match |
| `TrieSearch.VisitedOnceExactly` | src/trie_mult.c:81-102 | it visits none twice, in whatever trie, if and only if no level of the topic is '+' and its last is not '#' |
| `TrieSearch.Delivered` | src/trie_mult.c:60-130 | an item under a well-formed filter is reported once if the standard says it matches and the index does not lose it, and otherwise not at all |
| `TrieModel.DeleteItems` | src/trie_mult.c:132-167 | a deletion takes the item from the list of its filter and leaves all other lists |
| `TrieModel.DeleteInsert` | src/trie_mult.c:41-167 | deleting what was inserted restores the whole trie, nodes included |
| `TrieModel.RunIndex` | src/trie_mult.c:41-167 | after any run of insertions and deletions the lists are those of a plain map, and no node is without use |
| `TrieModel.CanonicalUnique` | src/trie_mult.c:132-161 | two pruned tries with the same lists are the same trie |
| `TrieModel.HistoryIndependent` | src/trie_mult.c:41-167 | runs that leave the same lists leave the same trie |
| `Trie.Search` | src/trie_mult.c:69-113 | the recursion on the heap reports the lists that the match calls for, in its order |
| `Trie.SearchMqtt` | src/trie_mult.c:115-130 | with the topics that begin with '$' kept apart |
| `TrieUpdate.InsertItem` | src/trie_mult.c:41-58 | the heap holds the trie with the item inserted, old nodes where they were |
| `TrieUpdate.DeleteItem` | src/trie_mult.c:132-167 | the heap holds the trie with the item deleted and the nodes without use gone |
| `TrieUpdate.HaveChildren` | src/trie_mult.c:32-39 | says whether a filter goes on below the node |
| `Subscription.Subscriptions.Add` | src/subscription.c:12-27 | the item is inserted under what its filter is without the seven bytes of "$local/", the trie stays pruned |
| `Subscription.Subscriptions.Drop` | src/subscription.c:48-61 | the item is deleted from under the same, the trie stays pruned, and it is gone if and only if nobody subscribes |
| `Subscription.Subscriptions.Lookup` | src/subscription.c:36-46 | the calls are the matching lists; for a topic without wildcards every item under a well-formed filter is called once if its filter matches and otherwise not |
| `Subscription.SubscriberTold` | src/subscription.c:12-46 | who has subscribed is told of a topic once if section 4.7 of MQTT 3.1.1 says that the filter without "$local/" matches it and the index does not lose it, and otherwise not |
| `Subscription.NodesRestored` | src/trie_mult.c:41-167 | after an insertion and the matching deletion the same nodes stand at the same paths |
| `KeepAlive.Wheel.Update` | src/keep_alive.c:33-72 | the wheel stays consistent and becomes what the event "heard of" makes of it |
| `KeepAlive.Wheel.Remove` | src/keep_alive.c:74-86 | the same for the event "left" |
| `KeepAlive.Wheel.Run` | src/keep_alive.c:88-124 | the same for the passing of time; the calls are those that are due in the buckets since the last run, each once |
| `KeepAliveRuns.FullScanExactly` | src/keep_alive.c:88-124 | a run drops all that are due, whoever is monitored, if and only if nobody was due before a bound that the last run and the present time give |
| `KeepAliveRuns.WheelIsFullScan` | src/keep_alive.c:33-124 | over every run with a clock that does not go back the wheel drops exactly those silent for one and a half keep-alives, at the same time as a scan of everybody |
| `KeepAliveWorkers.RunsExactly` | src/keep_alive.c:88-124 | for every timetable of the workers' runs, overlapping or not: a worker drops exactly its silent clients at each of its runs, whoever they are and whatever is heard of them, if and only if at each of its runs the last time it reads and the time of its own last run suffice |
| `KeepAliveWorkers.OneWorkerExactly` | src/keep_alive.c:88-124 | from the start of the broker every worker drops exactly its silent clients at every run in all schedules if and only if there is one worker |
| `KeepAliveWorkers.TwoWorkersFail` | src/keep_alive.c:90-123 | with two workers or more there is a schedule in which a worker passes over a silent client |
| `ByteStream.CutAnywhere` | src/mqtt_parser.c:76-606 | however a stream is cut into buffers, a parser does what it does on the uncut stream |
| `ByteStream.Reader.Execute` | src/mqtt_parser.c:76-606 | the loop over a buffer raises what the bytes raise one by one and stops where they stop |
| `MqttStreams.ReadShort` | src/mqtt_parser.c:153-232 | the two bytes of a length or number give its value in every place of a packet, or the refusal that belongs to the place |
| `MqttStreams.ReadLength` | src/mqtt_parser.c:112-150 | the remaining length is read back |
| `MqttStreams.StreamInPieces` | src/mqtt_parser.c:76-606 | a stream of packets in the format of MQTT 3.1.1, cut at will, raises exactly the events of its packets |
| `MqttStreams.Disconnected` | src/mqtt_parser.c:122-125 | after any packets, cut at will, the two bytes of a DISCONNECT end the reading: the packets before it are told, and nothing behind it |
| `MqttEvents.EventsSound` | src/mqtt_parser.c:76-606 | whatever bytes come, in whatever buffers, what is told has the lengths and numbers that the broker counts on, nobody is told of without a name unless that is allowed, and no UNSUBSCRIBE is told |
| `MqttEvents.TypeExactly` | src/mqtt_parser.c:89-145 | a first byte is refused if and only if its type is none of the six that the broker serves or its retain flag is set |
| `MqttEvents.ProtocolExactly` | src/mqtt_parser.c:153-193 | a protocol is accepted if and only if it is "MQTT" with version 4 or "MQIsdp" with version 3 |
| `MqttStreams.PublishExactly` | src/mqtt_parser.c:522-602 | a PUBLISH comes through if and only if its topic is not empty and not too long for the parser and its payload has 1 to 65535 bytes; otherwise it is refused, or with a longer payload never ends |
| `MqttStreams.ConnectExactly` | src/mqtt_parser.c:153-382 | a CONNECT, with a will or without, comes through with all it says if and only if it has both a user name and a password, or neither and no will and the broker allows that, and its will is not empty or too long; with a user name alone the parser waits for a password for ever, and otherwise refuses |
| `MqttStreams.WillExactly` | src/mqtt_parser.c:301-307 | the will that is kept is the will that was sent if and only if it was sent with quality of service 0 and the memory that its topic is copied from happens to hold that topic |
| `MqttStreams.UnsubscribeRefused` | src/mqtt_parser.c:474-520 | every UNSUBSCRIBE with one to eleven filters is refused |
| `MqttEncode.PacketLenExactly` | src/mqtt_encode.c:15-29 | the length that encode_publish asks for is the length of the packet, but for four values where it is one too many |
| `MqttEncode.EncodePublish` | src/mqtt_encode.c:134-168 | writes exactly the packet and nothing behind it, or nothing if the buffer is too small |
| `MqttEncode.RoundTripExactly` | src/mqtt_encode.c:134-168 | what is written for a message is read back if and only if the message is not retained, its topic is not empty and not too long for the parser, and its payload has 1 to 65535 bytes |
| `WsStreams.FramesInPieces` | src/ws_parser.c:34-297 | frames in the format of section 5.2 of RFC 6455, in whatever order and cut at will, raise exactly the events of the frames up to the first stray continuation, which is refused |
| `WsStreams.StreamInPieces` | src/ws_parser.c:34-297 | a stream of frames in the order of section 5.4 of RFC 6455, cut at will, raises exactly the events of its frames |
| `WsStreams.AcceptedExactly` | src/ws_parser.c:59-106 | a sequence of frames is accepted if and only if every continuation comes after a first fragment with no unfragmented message begun since |
| `WsStreams.NextExactly` | src/ws_parser.c:69-106 | after a stream in order the parser accepts exactly the frames that may come next if and only if the last message begun was not fragmented |
| `WsStreams.MessagesTold` | src/ws_parser.c:59-106 | fragments come together: the data events are those of the messages, whatever control frames lie between |
| `WsStreams.SendRoundTrip` | src/client.c:323-349 | what the broker sends is read back |
| `WsStreams.HelloHeard` | src/ws_parser.c:34-297 | the masked frame of section 5.7 of RFC 6455 is heard as "Hello" |
| `WsAccepts.OnlyFrames` | src/ws_parser.c:34-297 | whatever bytes are accepted up to the end of a frame are the bytes of frames, with the shortest form of every length, and the events are those of these frames |
| `WsAccepts.LanguageExactly` | src/ws_parser.c:34-297 | bytes are accepted up to the end of a frame if and only if they are the bytes of frames of which every continuation comes after a first fragment with no unfragmented message begun since |
| `WsAccepts.HeadRefused` | src/ws_parser.c:59-138 | the first two bytes of a frame are refused, each for its reason, or accepted |
| `WsAccepts.LengthRefused` | src/ws_parser.c:140-209 | a length in two or eight bytes is refused if and only if it has a shorter form |
| `WsParser.XorExactly` | src/ws_parser.c:245-249 | every bit of an unmasked byte is the sum without carry of the bits of the byte and the mask, and only that byte has these bits |
| `WsReader.UnmaskInPlace` | src/ws_parser.c:238-290 | exactly the payload bytes of the buffer are unmasked |
| `WsReader.Connection.Execute` | src/ws_parser.c:34-297 | payload in runs instead of bytes: the callbacks tell what the bytes tell one by one, and the buffer holds the payload unmasked |
| `HttpMethod.RecognisesExactly` | src/http_parser.c:925-1020 | a word is recognised as a method if and only if it is its name |
| `HttpLength.LengthExactly` | src/http_parser.c:1536-1570 | digits are read as their value if it is at most 2^64 - 7, and refused otherwise |
| `Decimal.NumExactly` | src/http_parser.c:421-421 | a byte is a digit with its value if and only if it is one of the ten characters |
| `HttpHeaders.NameExactly` | src/http_parser.c:1205-1380 | a header name is known for what it is if and only if it is spelled so, in whatever case; the flag of Transfer-Encoding is set by every name that begins so |
| `HttpHeaders.RunExpected` | src/http_parser.c:1205-1700 | in no request does a byte find the parser in a header_state that its place in the header does not allow for |
| `HttpMessage.TokenExactly` | src/http_parser.c:189-221 | the bytes of a token are those of section 3.2.6 of RFC 7230, and no others |
| `HttpRequests.RequestExactly` | src/http_parser.c:641-1984 | a request of any header lines, cut at will, is told with its URL, headers and body, refused, or left to another protocol, as the table of its lines says: which of them are Connection, Upgrade, Transfer-Encoding and Content-Length and what their values list |
| `HttpRequests.ReadBuffers` | src/http_parser.c:641-2150 | the same for the reader with its marks, over all the buffers of the request |
| `HttpRequests.LengthServed` | src/http_parser.c:641-1984 | a request with digits in Content-Length is told whole with that many bytes of body if and only if no header name begins like Transfer-Encoding; otherwise it is refused after its headers |
| `HttpRequests.HandshakeExactly` | src/http_parser.c:1793-1882 | a request without a body is told whole, and what follows is left to another protocol if and only if there is an Upgrade header and a Connection header that lists "upgrade" |
| `HttpRequests.ChunkedExactly` | src/http_parser.c:1793-2105 | a request with a Transfer-Encoding is told chunk by chunk if and only if such a header ends in "chunked", and otherwise refused |
| `HttpRequests.ContentDelivered` | src/http_parser.c:1935-2105 | the bytes of the body that are told are those that were sent, with a length or in chunks |
| `HttpRequests.VersionExactly` | src/http_parser.c:1094-1173 | eight bytes after the URL are accepted if and only if they are "HTTP/", a digit, a point and a digit |
| `HttpValues.ConnectionExactly` | src/http_parser.c:1455-1695 | each of the three options of Connection is noted if and only if, split at the commas, the value has it among the elements that are read |
| `HttpValues.FoundInList` | src/http_parser.c:1612-1695 | in a list whose elements begin tokens and of which none is cut short, that is if and only if it is among the elements |
| `HttpValues.OptionSwallowed` | src/http_parser.c:1631-1661 | in "keep,upgrade" the option is not found |
| `HttpValues.OptionLost` | src/http_parser.c:1612-1630 | in "a,,upgrade" the option is not found |
| `HttpValues.CodingExactly` | src/http_parser.c:1421-1670 | a body is chunked if and only if the last element of Transfer-Encoding, split at the commas, is read and is "chunked" |
| `HttpValues.OddRun` | src/http_parser.c:1576-1670 | in a list of whole codings the last is read as "chunked" if and only if the number of "chunked" that the list ends with is odd |
| `HttpValues.ElementsJoin` | src/http_parser.c:1604-1609 | the elements joined by commas are the value, and no element holds a comma |
| `HttpBody.ReadDigits` | src/http_parser.c:1990-2049 | a chunk size is read as its value if it is at most 2^64 - 17, and refused otherwise |
| `HttpBody.UnhexExactly` | src/http_parser.c:224-234 | the table gives the sixteen digits, small and large, their values, and every byte from 128 up the value zero |
| `HttpMessage.RunSound` | src/http_parser.c:1935-2105 | the assertions about content_length and nread hold in every request, however its body was come to |
| `HttpStreams.WholeBody` | src/http_parser.c:1935-1984 | a body with a length is delivered whole, once, however cut; an upgrade ends the reading there |
| `HttpStreams.ChunkedInPieces` | src/http_parser.c:1990-2105 | a chunked body is delivered chunk by chunk with sizes and ends, however cut |
| `HttpStreams.DeliveredChunks` | src/http_parser.c:2070-2105 | and the bytes delivered are the data of the chunks |
| `HttpReader.Loop` | src/http_parser.c:2117-2142 | at the end of every buffer, headers and body in it or not, at most one mark is set, and it is the one of the state |
| `HttpReader.Connection.Execute` | src/http_parser.c:641-2150 | with marks and runs instead of bytes: the callbacks tell what the bytes of the request tell one by one, but for the marked bytes that a refusal leaves unheard |
| `HttpReader.Connection.ExecuteAll` | src/http_parser.c:641-2150 | the same over any number of buffers, up to the first that is refused |
| `HttpUrl.ParseHost` | src/http_parser.c:2329-2408 | the host part is accepted if and only if its states end well, and its parts hold exactly the bytes of their states |
| `HttpUrl.ParseUrl` | src/http_parser.c:2416-2536 | which URLs are accepted, if and only if; the seven fields are exactly the stretches of their states, in order, with only delimiters between them; the port is the value of its digits |
| `HttpUrlParts.AbsoluteUrl` | src/http_parser.c:2416-2536 | a URL put together of a schema, a server with or without user and port, a path, a query and a fragment is accepted, and the fields are these parts at their places |
| `HttpUrlParts.OriginUrl` | src/http_parser.c:2416-2536 | the same for a path, or "*", with or without query and fragment |
| `HttpRequests.PathIsGood` | src/http_parser.c:494-640 | such a path is a URL with which a request is told |
| `HttpUrlParts.ConnectUrl` | src/http_parser.c:2416-2536 | the same for the host and port of a CONNECT request |
| `Base64.Init` | src/base64.c:23-28 | the table gives every letter its value |
| `Base64.Encode` | src/base64.c:30-53 | writes the text of the data and its end, nothing behind it |
| `Base64.Decode` | src/base64.c:55-89 | accepts a positive multiple of four that fits, writes what it stands for, and otherwise changes nothing |
| `Base64.RoundTrip` | src/base64.c:30-89 | decoding the text of non-empty data gives the data |
| `Base64.LetterIsAlphabet` | src/base64.c:11-18 | the letters are the 64 characters of table 1 of RFC 4648, in their order |
| `Base64.Vectors` | src/base64.c:30-53 | four of the examples of section 10 of RFC 4648 |

## Findings

What the code does not keep, with the member that shows it and the condition under which it is kept.

| property | source | shown by | kept exactly if |
|---|---|---|---|
| a worker tests the owner of a message that is in use | src/worker.c:202 | `WorkerTheorems.OwnerTestSafeExactly` | there is one worker: between the clearing of the flag and the test the owner may free the message |
| a message is freed after every worker has cleared its flag | src/worker.c:172 | `WorkerTheorems.QueueSafeExactly` | there are at least as many servers as workers, or one worker: the flags scanned are counted by servers |
| a delivered message is freed | src/worker.c:172 | `WorkerCollection.CollectionExactly` | malloc left clear the flags from the number of workers to the number of servers, which nobody ever clears; one such message also holds back those behind it |
| a message without an owner is freed | src/worker.c:202 | `WorkerCollection.CollectionExactly` | never: only messages whose client has a worker are collected |
| an UNSUBSCRIBE comes through | src/mqtt_parser.c:482 | `MqttStreams.UnsubscribeRefused`, `MqttEvents.EventsSound` | never: with one to eleven filters it is refused, as the length test counts a byte for the quality of service that the last filter does not have; and no bytes whatever lead to the event |
| a PUBLISH comes through | src/mqtt_parser.c:588-593 | `MqttStreams.PublishExactly` | its topic is not empty and not too long, and its payload has 1 to 65535 bytes: the index has 16 bits, and an empty payload is refused (src/mqtt_parser.c:555-558) |
| a CONNECT with a user name and no password comes through | src/mqtt_parser.c:341-349 | `MqttStreams.ConnectExactly` | never, though section 3.1.2.9 of MQTT 3.1.1 allows it: the parser goes on to a password whatever the flags say |
| a CONNECT with a will and no user name comes through | src/mqtt_parser.c:316-324 | `MqttStreams.ConnectExactly` | never, whether anonymous clients are allowed or not |
| the will that is kept is the will that was sent | src/mqtt_parser.c:301-307 | `MqttStreams.WillExactly` | it was sent with quality of service 0, as that of the packet is taken, and the memory of `u.connect.will_topic` happens to hold its topic: the topic is read into the client and copied from the parser, which nobody writes |
| what is encoded is read back | src/mqtt_parser.c:101-104 | `MqttEncode.RoundTripExactly` | the same, and the message is not retained: the retain flag is refused |
| packet_len is the length of the packet | src/mqtt_encode.c:15-29 | `MqttEncode.PacketLenExactly` | the remaining length is none of 127, 16383, 2097150 and 2097151 |
| the trie matches as the standard says | src/trie_mult.c:76-102 | `Topic.IndexIsStandard`, `Topic.LosesParent`, `Topic.LosesEmptyLevel` | '#' does not stand for the parent level, and no wildcard for an empty last level |
| a subscription is reported once | src/trie_mult.c:81-102 | `TrieSearch.VisitedOnceExactly` | no level of the topic reads '+' and its last does not read '#' |
| the two matchers agree | src/mqtt_packet.c:22-55 | `Topic.AgreeExactly` | the topic does not begin with '$' and has no empty level but the last |
| ka_run drops all that are due | src/keep_alive.c:88-124 | `KeepAliveRuns.FullScanExactly` | the last time lies 101 seconds or more back, or nobody was due by then; for the first run: nobody was due before the present second; if the clock stands still or went back: nobody is due |
| every worker drops its silent clients | src/keep_alive.c:90 | `KeepAliveWorkers.RunsExactly`, `KeepAliveWorkers.OneWorkerExactly`, `KeepAliveWorkers.TwoWorkersFail` | at each of its runs the last time it reads, which is one variable for all workers, is not later than its own last run or lies 101 seconds or more back; if that time is the present second or later: it has run in this second itself; if it is not set yet: its own start was at most a second ago. In all schedules: there is one worker |
| continuations come only within a message | src/ws_parser.c:69-74 | `WsStreams.NextExactly` | the last message begun was not fragmented: a final continuation does not clear the mark, so more continuations are accepted after it, and a new message within an open one is accepted too, against section 5.4 of RFC 6455 |
| a request with a Content-Length is read | src/http_parser.c:1337-1345 | `HttpRequests.LengthServed` | no other header name begins like Transfer-Encoding: the flag is set before the name has ended |
| only digits stand in a chunk size | src/http_parser.c:224-234 | `HttpBody.UnhexExactly` | the byte is below 128: the table leaves its second half zero, so those bytes pass for the digit 0 |
| an option that Connection lists is found | src/http_parser.c:1612-1661 | `HttpValues.ConnectionExactly`, `HttpValues.OptionSwallowed`, `HttpValues.OptionLost` | its element is read: no element that was read before it, after the first, is blank or begins no token, and the comma before it neither begins the value nor ends an element that was read and breaks off within a word the parser looks for, as "keep" does; in a list without such elements: always |
| a body is chunked if the last coding is "chunked" | src/http_parser.c:1668-1670 | `HttpValues.CodingExactly`, `HttpValues.OddRun` | the last element is read; in a list of whole codings: the number of "chunked" that it ends with is odd, as the comma after "chunked" is lost and the coding behind it is not looked at |
| kavl_erase_first returns null on an empty tree | src/kavl.h:196-200 | `KavlShrink.SeekLeast` | never: the index d - 1 is inside path if and only if the tree is not empty |
| kavl_itr_first can be called on an empty tree | src/kavl.h:276-281 | `KavlIter.Cursor.StackLeft` | never: top points into the stack if and only if the tree is not empty |

## Left out

- Sockets, polling, TLS, authentication, configuration and logging: input and output only.
- Failing allocation: malloc is taken to succeed; callbacks of the parsers are taken to accept.
- The client of a message is taken to outlive it; that `mp->client` may be freed first is not modelled.
- Topic and payload of a message in the worker protocol: only its identity, state and flags matter there.
- Memory orders weaker than sequential consistency: a step is one access to shared memory.
- `MqttStreams.StreamInPieces`: no packet whose inner lengths contradict its remaining length, of which only
  `MqttEvents.EventsSound` speaks; a CONNECT with a will is in `MqttStreams.ConnectExactly`, a DISCONNECT in
  `MqttStreams.Disconnected`.
- `MqttStreams.WillExactly`: the memory that the topic is copied from is any bytes; that it lies in a union with the
  fields of other packets is not modelled.
- Acknowledgements and the encoders of packets other than PUBLISH.
- dllist_remove_val, which differs from dllist_remove_ref only in how it finds the item.
- HTTP responses and the status mark: the broker reads requests only. The lenient mode of the parser, which is off.
- set.cpp, debug.c and kavl.c, which is an example of the tree.
- `Kavl.Kavl.Insert`: keys are integers compared by value, in place of the comparison that the macro is given.
- `Kavl.Kavl.EraseFirst`: an empty tree is not allowed, as the code reads outside its arrays there; see Findings.
- `KavlIter.Cursor.First`: an empty tree is not allowed, for the same reason.
- `KeepAlive.Wheel.Run`: the time of the last run belongs to the wheel, and `KeepAliveWorkers` shares it; the drop
  callback does not come back to the wheel, and a client is not updated after it was removed.
- `KeepAliveWorkers.RunsExactly`: the reads of the last time within a run are one read at its start; the clock at the
  starts of runs does not go back.
- `KeepAliveWorkers.OneWorkerExactly`: until the last time is set for the first time, a worker runs within a second of
  its start, as its loop does.
- `DlList.RemoveRef`: the item is in the list, which the code does not test.
- `Subscription.Subscriptions.Add`: the item hangs under no other filter, as every subscription has its own node.
- `Subscription.Subscriptions.Lookup`: the found count has no variable of its own; each increment stands beside a
  call, so it is the number of calls.
- `MqttStreams.UnsubscribeRefused`: more than eleven filters, which the code would write past its array.
- `HttpMessage.RunSound`: the size limit of the head is not counted; that of chunk lines is. It holds whatever the
  headers mean; what they mean in the code is `HttpHeaders.REAL`.
- `HttpReader.Connection.Execute`: the same, and the loops inside the header states are turns of the outer loop.
- `HttpRequests.RequestExactly`: one space between the parts of the first line, lines that end in CR and LF, values that
  are neither empty nor folded over lines, and no headers behind a chunked body. These are in `HttpHeaders.RunExpected`,
  `HttpMessage.RunSound` and `HttpReader.Connection.Execute`, which hold for all bytes.
- `HttpUrlParts.AbsoluteUrl`: that these are the only accepted URLs is not said by parts; `HttpUrl.ParseUrl` says it by
  states.
- `HttpUrl.ParseUrl`: URLs of more than 65535 bytes, whose offsets do not fit in their 16 bits.
- `Base64.Encode`: texts of 2^32 bytes and more, whose length wraps.
- `Base64.Decode`: bytes from 128 up, which index the table negatively where char is signed.
