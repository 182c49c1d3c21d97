# Verified model of anytype-push-server

The project models two parts of the push server and proves what they promise each other.

**The protobuf wire codec.** The generated code of `push_vtproto.pb.go` for `Topic`, `Topics`, `Message`,
`NotifyRequest` and `SetTokenRequest`, which cover every field shape of the file.

- `GoInts`, `Varint`: Go's integers where they wrap, the bitwise or of the inline loops, the base 128 encoder and
  the ten-byte decode loop.
- `Wire`: one field (`Next`), the skipping of an unknown one (`Skip`), and the loop every `UnmarshalVT` runs
  (`Parse`), stated once for any message type, with what is left in the receiver when it fails. `LaxFields` gives the
  grammar of the fields that `Skip` accepts, groups included, and `Fields` the stricter one of the format itself.
- `Messages`: the five types as values, their canonical encodings and their decoders. `RoundTrip` and `Canonical`
  hold the theorems about them, `Layout` their bytes field by field.
- `Buffers`, `PushApi`: the structs as classes, with the backward writer over a pre-sized array and the parse loops
  with their 64-bit checks, each method proved equal to the value-level function. The loops that the generator
  writes out at every field are one method here (`Varint.Decode`, `Wire.DecodeTag`, `Wire.DecodeLength`,
  `Wire.DecodeUnknown`). A slice `dAtA[:i]` is an array with its end `i`; the input of a decoder is a value, since
  nothing writes to it.

**The notification pipeline.** `Base58` and `DomainTopic` (topic strings), `AccountRepo` and `TokenRepo` (the two
collections as keyed maps, whose queries return documents in any order), `Crypto` and `Push` (verification, the
in-place filter, the handlers and the steps they take), `Notifications` (what each request comes to, told from its
parts), `SubscriptionRuns` (whole runs, sequential and interleaved),
`Interleavings` (when an interleaved run has the effect of its requests, and what is lost when not), `Fcm` and `Sender`
(batches, groups, counters, content), `EndToEnd`.

Outside facts are parameters, never assumptions: key parsing and signature checks are arbitrary pure functions
(`Crypto`), of which only the theorems that Subscriptions does not fail
ask that a parsed key be 32 bytes long (section 5.1.5 of RFC 8032); the
Firebase client is an arbitrary function of the call and of the number of calls before it, required to answer once
per token; the space lookup is any function; whether a database or the queue answers is an argument. Strings are
byte sequences, and nil and empty byte slices are the same value; nil and present sub-messages and list elements are
kept apart.

Some statements about the code that one might expect to hold without condition have one. Each comes with its exact
condition:

- A request equals its own decoded encoding exactly if no list element is nil (`RoundTrip.NotifyRoundTrip`): a nil
  element comes back as an empty one.
- Decoding `a` and then `b` leaves the same message as decoding `a + b`, and the same error exactly unless a field
  end announced in `b` overflows an int64 only because `a` stands before it (`Canonical.ConcatIsMerge`, on the bytes
  of `b` `Canonical.ConcatOnBytes`); a concrete pair shows the two length errors exchanged
  (`Canonical.ConcatExchangesLengthErrors`).
- For the same reason a sub-message split over two fields acts as one field, and the last of two scalar fields wins,
  always in the message that is left, but in the error exactly unless the bytes announce an end that overflows on one
  side only
  (`Canonical.SplitTopics`, `SplitMessage`, `LastTopicFieldWins`, `LastMessageFieldWins`, `LastGroupIdWins`). Inputs
  that decode are not affected.
- Re-encoding never grows for `Topic`, `Topics`, `Message` and `NotifyRequest`. For `SetTokenRequest` the whole account
  is given (`Canonical.SetTokenAccounting`): it grows exactly if the platform turns negative and less than five bytes
  are saved elsewhere (`Canonical.SetTokenGrowth`), so a request with one platform and perhaps a token grows exactly
  if the platform is negative and was not sent in ten bytes (`Canonical.SentRequestGrows`).
- Interleaved subscription requests have the effect of the requests in the order of their writes, through a whole
  run, exactly if every Unsubscribe writes while the list it read is current as far as it keeps it
  (`Interleavings.RunsHoldLedger`); this is so if nobody else writes the account's list between the read and the write
  (`Interleavings.UndisturbedHoldsLedger`). An update in between leaves no trace, whatever else happens before and
  after it (`UpdateLost`). For a subscription nobody notices exactly if its list and the list read agree on what is
  kept (`SubscriptionLost`), and wherever it falls there are topics for which they do not (`SubscriptionCanBeLost`); of
  two unsubscriptions that read the same list the earlier one is undone exactly unless the later one removes the same
  topics (`UnsubscriptionLost`).
- Notify panics exactly if the caller is known and a decoded request has no topic list
  (`EndToEnd.DecodedRequestHasTopics`), as the empty request does (`EndToEnd.EmptyRequestPanics`). So do Subscribe and
  Unsubscribe when they are handed none, and SubscribeAll on a request without one.
- A delivery hands on exactly the recipients' tokens if it returns no error. However it ends, it hands on no other
  token and none twice (`Sender.Sender.SendMessage`, `Sender.DeliverAtMost`).

Every inductive proof is written out: automatic induction is switched off on all lemmas.

## Model

| member | source | states |
|---|---|---|
| GoInts.OrStep | pushclient/pushapi/push_vtproto.pb.go:837 | one `acc \|= bits << shift` adds the next seven bits, modulo the width of the integer, shifts past the width included |
| Varint.ReadEncode64 | pushclient/pushapi/push_vtproto.pb.go:827-841 | the decode loop recovers every uint64 from its minimal encoding in exactly as many bytes, at most ten, whatever follows |
| Varint.ReadLocal | pushclient/pushapi/push_vtproto.pb.go:827-841 | a varint occupies 1 to 10 bytes, is worth its seven-bit groups, and reads the same whatever follows it |
| Varint.ReadFails | pushclient/pushapi/push_vtproto.pb.go:827-841 | reading fails exactly on bytes that all announce another one: with an overflow if there are ten, with an unexpected end if there are fewer |
| Varint.EncodeMinimal | pushclient/pushapi/push_vtproto.pb.go:618-621 | no encoding that reads back as a number is shorter than the one the size functions count |
| Varint.LengthSubadditive | pushclient/pushapi/push_vtproto.pb.go:774-777 | one length prefix for a merged payload never takes more bytes than two for its parts |
| Varint.Decode | pushclient/pushapi/push_vtproto.pb.go:855-869 | the loop returns the value modulo its width with the cursor just behind it, or the overflow or end-of-input error with the value cut short |
| Varint.EncodeVarint | pushclient/pushapi/push_vtproto.pb.go:57-58 | writes the minimal encoding so that it ends at the offset, touches nothing else and returns where it begins |
| Wire.NextLocal | pushclient/pushapi/push_vtproto.pb.go:907-1057 | a field lies inside its input, hands on a strictly shorter payload, is never shorter than its canonical form, and reads the same whatever follows |
| Wire.TagAccepted | pushclient/pushapi/push_vtproto.pb.go:912-934 | a tag is accepted exactly if its number, cut to 32 bits, is positive and its wire type is no end group, and otherwise refused with the error of the check it misses |
| Wire.LengthChecks | pushclient/pushapi/push_vtproto.pb.go:956-964 | a length is refused as invalid exactly if it is negative as an int64, and reaches too far exactly if its end lies behind the input |
| Wire.ParseConsumesAll | pushclient/pushapi/push_vtproto.pb.go:822-906 | a successful decode has consumed the whole input, every byte in exactly one whole field |
| Wire.ParseConcat | pushclient/pushapi/push_vtproto.pb.go:1797-1951 | decoding behind a decoded prefix continues from the message the prefix left, with stop positions moved by its length |
| Wire.ShiftObserved | pushclient/pushapi/push_vtproto.pb.go:1845-1854 | moving an input changes its error exactly if an announced end overflows because of it, and then only between the two length errors |
| Wire.SameSideOnBytes | pushclient/pushapi/push_vtproto.pb.go:1845-1854 | two offsets give different errors exactly if the input is fields that decode followed by one whose announced end overflows behind one of them only |
| Wire.ParseMerged | pushclient/pushapi/push_vtproto.pb.go:1797-1951 | two fields that store what one stores have its effect before any continuation: same message, same error exactly unless an announced end overflows behind one of them only |
| Wire.ParseUnrecognised | pushclient/pushapi/push_vtproto.pb.go:1930-1944 | undeclared fields are kept byte for byte and change nothing else |
| Wire.ParseKeeps | pushclient/pushapi/push_vtproto.pb.go:1797-1951 | a decode keeps what every single field keeps, and unknown bytes stay whole undeclared fields |
| Wire.DecodeTag | pushclient/pushapi/push_vtproto.pb.go:912-934 | reads field number, cut to 32 bits, and wire type, refusing end groups and non-positive numbers |
| Wire.DecodeLength | pushclient/pushapi/push_vtproto.pb.go:940-964 | yields the payload's bounds inside the input, or the error that the negative-length, overflow and end checks give in 64-bit integers |
| Wire.DecodeUnknown | pushclient/pushapi/push_vtproto.pb.go:1036-1050 | hands on the raw bytes of exactly the skipped field, or the error of the checks around it |
| Fields.SkipWhole | pushclient/pushapi/push_vtproto.pb.go:885-899 | skipping moves exactly past one whole field of the format, over balanced nested groups, at any depth |
| Fields.UndeclaredFieldsUnrecognised | pushclient/pushapi/push_vtproto.pb.go:885-899 | any sequence of whole fields with undeclared numbers is what the decoder keeps as unknown bytes |
| LaxFields.SkipLax | pushclient/pushapi/push_vtproto.pb.go:885-899 | the same for every field of the lax grammar: varints of any length, any field and end-group number |
| LaxFields.SkipsExactlyFields | pushclient/pushapi/push_vtproto.pb.go:885-899 | skipping accepts n bytes of the input exactly if they are one whole field of the lax grammar |
| LaxFields.SkipRefuses | pushclient/pushapi/push_vtproto.pb.go:885-888 | the errors of a skip that meets an end group, an illegal wire type or the end of the input |
| LaxFields.ParsedIsFields | pushclient/pushapi/push_vtproto.pb.go:822-906 | an input that decodes is a sequence of whole fields of that grammar |
| LaxFields.UnrecognisedIsFields | pushclient/pushapi/push_vtproto.pb.go:885-899 | so are the unknown bytes a message keeps |
| RoundTrip.PlatformRoundTrip | pushclient/pushapi/push_vtproto.pb.go:1091-1105 | every int32 survives sign extension on write and the cut to 32 bits on read |
| RoundTrip.SetTokenRoundTrip | pushclient/pushapi/push_vtproto.pb.go:138-163 | a SetTokenRequest comes back from its encoding, negative platforms included |
| RoundTrip.TopicRoundTrip | pushclient/pushapi/push_vtproto.pb.go:84-118 | a Topic comes back from its encoding |
| RoundTrip.MessageRoundTrip | pushclient/pushapi/push_vtproto.pb.go:542-576 | a Message comes back from its encoding |
| RoundTrip.TopicsRoundTrip | pushclient/pushapi/push_vtproto.pb.go:39-64 | a list comes back in order, nil elements as empty ones |
| RoundTrip.NotifyDecodesDenilled | pushclient/pushapi/push_vtproto.pb.go:482-522 | what decoding the encoding of any request yields, through all nested levels |
| RoundTrip.NotifyRoundTrip | pushclient/pushapi/push_vtproto.pb.go:482-522 | a request comes back from its encoding exactly if no list element is nil |
| Layout.TopicLayout | pushclient/pushapi/push_vtproto.pb.go:84-118 | a Topic is written as its non-empty fields behind the tags 0a, 12 and 1a, in this order, and its unknown bytes |
| Layout.MessageLayout | pushclient/pushapi/push_vtproto.pb.go:542-576 | the same for Message |
| Layout.SetTokenLayout | pushclient/pushapi/push_vtproto.pb.go:138-163 | a SetTokenRequest is written as its platform behind the tag 08 unless it is zero, its token behind 12 unless it is empty, and its unknown bytes |
| Layout.TopicsLayout | pushclient/pushapi/push_vtproto.pb.go:39-64 | a list is written element by element behind the tag 0a, empty ones included |
| Layout.NotifyLayout | pushclient/pushapi/push_vtproto.pb.go:482-522 | a NotifyRequest is written as its present sub-messages behind 0a and 12, its group id behind 1a unless it is empty, and its unknown bytes |
| Layout.OthersKept | pushclient/pushapi/push_vtproto.pb.go:1036-1050 | a field with any other number is kept as it is, whatever its kind, by each of the five messages |
| Layout.WrongTypeFails | pushclient/pushapi/push_vtproto.pb.go:937-939 | a declared field of another wire type ends the decoding with its error and the message as it was |
| Layout.TopicsField | pushclient/pushapi/push_vtproto.pb.go:880-884 | a topic of a list is appended as far as it was decoded, with the error it ended with |
| Layout.NotifyFields12 | pushclient/pushapi/push_vtproto.pb.go:1855-1861 | a sub-message is merged as far as it was decoded, with the error it ended with |
| Layout.PlatformCutShort | pushclient/pushapi/push_vtproto.pb.go:1091-1105 | a platform whose varint breaks off is left cut short, with the overflow or end-of-input error |
| Canonical.ConcatIsMerge | pushclient/pushapi/push_vtproto.pb.go:1797-1951 | decoding a then b is decoding a + b: same message, same error exactly unless a field end overflows only behind a |
| Canonical.ConcatOnBytes | pushclient/pushapi/push_vtproto.pb.go:1797-1951 | the errors differ exactly if b is fields that decode followed by one announcing an end below 2^63 from the start of b but not from the start of a |
| Canonical.ConcatExchangesLengthErrors | pushclient/pushapi/push_vtproto.pb.go:870-879 | a concrete pair for which the end-of-input error becomes the invalid-length error |
| Canonical.SplitTopics | pushclient/pushapi/push_vtproto.pb.go:1855-1861 | two topics fields leave the message of one holding both payloads, and its error exactly unless the bytes behind them or inside the second payload announce an end that overflows an int64 on one side only |
| Canonical.SplitMessage | pushclient/pushapi/push_vtproto.pb.go:1891-1897 | the same for two message fields |
| Canonical.LastTopicFieldWins | pushclient/pushapi/push_vtproto.pb.go:965-1035 | of two occurrences of a Topic field the last one wins: the message always, the error exactly unless the bytes behind them announce an end that overflows only because of the first one |
| Canonical.LastMessageFieldWins | pushclient/pushapi/push_vtproto.pb.go:2011-2080 | the same for two occurrences of a Message field |
| Canonical.LastGroupIdWins | pushclient/pushapi/push_vtproto.pb.go:1928-1929 | the same for two group ids |
| RoundTrip.ParseList | pushclient/pushapi/push_vtproto.pb.go:880-884 | the canonical encoding of a list decodes to its elements, nil ones as empty, appended in order |
| RoundTrip.ParseAppends | pushclient/pushapi/push_vtproto.pb.go:880-884 | on every input, decoding into a list appends what decoding into a fresh one gives, elements and unknown bytes alike, and stops the same |
| Canonical.TopicGrowth | pushclient/pushapi/push_vtproto.pb.go:627-647 | decoding into a Topic adds at most the bytes consumed to its encoded size |
| Canonical.MessageGrowth | pushclient/pushapi/push_vtproto.pb.go:790-810 | the same for Message |
| Canonical.TopicsGrowth | pushclient/pushapi/push_vtproto.pb.go:611-625 | the same for Topics |
| Canonical.NotifyGrowth | pushclient/pushapi/push_vtproto.pb.go:768-788 | the same for NotifyRequest, merged sub-messages included |
| Canonical.SetTokenAccounting | pushclient/pushapi/push_vtproto.pb.go:649-664 | for SetTokenRequest, encoded size and bytes saved by overwriting and minimising make up the old size and the bytes consumed, and five bytes when the platform's sign changes |
| Canonical.SetTokenGrowth | pushclient/pushapi/push_vtproto.pb.go:649-664 | the bound for SetTokenRequest is exceeded, by at most five bytes, exactly if the receiver's platform was not negative, the last one in the input is, and less than five bytes are saved |
| Canonical.SentRequestGrows | pushclient/pushapi/push_vtproto.pb.go:1091-1105 | a sent platform, with or without a token, is written back longer exactly if it is negative and its varint had fewer than ten bytes |
| Canonical.SetTokenGrows | pushclient/pushapi/push_vtproto.pb.go:655-657 | a concrete input that needs the five bytes |
| Canonical.NotifyStaysWf | pushclient/pushapi/push_vtproto.pb.go:1797-1951 | whatever was decoded may be encoded: no nil elements, whole undeclared fields at every level |
| Canonical.NotifyNormalForm | pushclient/pushapi/push_vtproto.pb.go:1797-1951 | for every input that decodes, re-encoding and decoding gives the same request, in no more bytes |
| Canonical.TopicsNormalForm | pushclient/pushapi/push_vtproto.pb.go:822-906 | the same for Topics |
| Canonical.TopicNormalForm | pushclient/pushapi/push_vtproto.pb.go:907-1057 | the same for Topic |
| Canonical.MessageNormalForm | pushclient/pushapi/push_vtproto.pb.go:1952-2102 | the same for Message |
| Canonical.SetTokenNormalForm | pushclient/pushapi/push_vtproto.pb.go:1058-1150 | re-encoding and decoding gives the same request, in no more bytes, or at most five more if the platform is negative |
| PushApi.Topic.SizeVT | pushclient/pushapi/push_vtproto.pb.go:627-647 | exactly the length of the canonical encoding, 0 for nil |
| PushApi.Topic.MarshalToSizedBufferVT | pushclient/pushapi/push_vtproto.pb.go:84-118 | into any buffer that is long enough, writes the canonical encoding at the end, returns its length and touches nothing else |
| PushApi.Topic.MarshalVT | pushclient/pushapi/push_vtproto.pb.go:66-77 | a fresh buffer holding exactly the canonical encoding |
| PushApi.Topic.UnmarshalVT | pushclient/pushapi/push_vtproto.pb.go:907-1057 | on every input, the receiver and the error are those of the value-level decoder |
| PushApi.Message.SizeVT | pushclient/pushapi/push_vtproto.pb.go:790-810 | as for Topic |
| PushApi.Message.MarshalToSizedBufferVT | pushclient/pushapi/push_vtproto.pb.go:542-576 | as for Topic |
| PushApi.Message.MarshalVT | pushclient/pushapi/push_vtproto.pb.go:524-535 | as for Topic |
| PushApi.Message.UnmarshalVT | pushclient/pushapi/push_vtproto.pb.go:1952-2102 | as for Topic |
| PushApi.SetTokenRequest.SizeVT | pushclient/pushapi/push_vtproto.pb.go:649-664 | as for Topic |
| PushApi.SetTokenRequest.MarshalToSizedBufferVT | pushclient/pushapi/push_vtproto.pb.go:138-163 | as for Topic, with the platform sign-extended |
| PushApi.SetTokenRequest.MarshalVT | pushclient/pushapi/push_vtproto.pb.go:120-131 | as for Topic |
| PushApi.SetTokenRequest.IntoPlatform | pushclient/pushapi/push_vtproto.pb.go:1091-1105 | the platform is the varint cut to an int32, and is left cut short when the varint breaks off |
| PushApi.SetTokenRequest.UnmarshalVT | pushclient/pushapi/push_vtproto.pb.go:1058-1150 | as for Topic |
| PushApi.Topics.SizeVT | pushclient/pushapi/push_vtproto.pb.go:611-625 | as for Topic, summing the elements |
| PushApi.Topics.MarshalToSizedBufferVT | pushclient/pushapi/push_vtproto.pb.go:39-64 | as for Topic, elements written last to first, nil ones as empty |
| PushApi.Topics.MarshalVT | pushclient/pushapi/push_vtproto.pb.go:21-32 | as for Topic |
| PushApi.Topics.UnmarshalVT | pushclient/pushapi/push_vtproto.pb.go:822-906 | as for Topic; old elements stay, the appended ones are fresh |
| PushApi.NotifyRequest.SizeVT | pushclient/pushapi/push_vtproto.pb.go:768-788 | as for Topic |
| PushApi.NotifyRequest.MarshalToSizedBufferVT | pushclient/pushapi/push_vtproto.pb.go:482-522 | as for Topic, with nested messages in place |
| PushApi.NotifyRequest.MarshalVT | pushclient/pushapi/push_vtproto.pb.go:464-475 | as for Topic |
| PushApi.NotifyRequest.UnmarshalVT | pushclient/pushapi/push_vtproto.pb.go:1797-1951 | as for Topic; embedded messages that are there are parsed into, missing ones are allocated |
| Base58.DecodeEncode | domain/topic.go:9-18 | decoding inverts encoding on every non-empty byte string and fails on the encoding of the empty one |
| Base58.EncodeDecode | domain/topic.go:15-18 | only encodings decode: what a string decodes to encodes to that string, so foreign characters are refused |
| Base58.EncodeExample | domain/topic.go:9-11 | the alphabet and the leading-zero rule on two byte strings |
| DomainTopic.TopicParts | domain/topic.go:9-32 | base58 key and topic name always come back, and the raw key exactly if it is not empty |
| DomainTopic.NewTopicExample | domain/topic.go:9-11 | one topic in full, with the slash between its parts |
| DomainTopic.NewTopicInjective | domain/topic.go:9-11 | two pairs make the same topic exactly if they are the same pair |
| DomainTopic.NoSlash | domain/topic.go:20-33 | a string without a slash has neither part, and its key does not decode |
| AccountRepo.AccountRepo.SetAccountTopics | repo/accountrepo/accountrepo.go:54-66 | upserts one account's list and leaves the others |
| AccountRepo.AccountRepo.GetTopicsByAccountId | repo/accountrepo/accountrepo.go:95-105 | the stored list, empty for a missing account |
| AccountRepo.AccountRepo.GetAccountIdsByTopics | repo/accountrepo/accountrepo.go:76-93 | lists an account exactly once if it holds one of the topics, and no other |
| TokenRepo.TokenRepo.AddToken | repo/tokenrepo/tokenrepo.go:60-84 | upserts one token, or changes nothing and reports a duplicate key or a failed write |
| TokenRepo.TokenRepo.RemoveTokens | repo/tokenrepo/tokenrepo.go:97-100 | removes exactly the listed tokens |
| TokenRepo.TokenRepo.GetActiveTokensByAccountIds | repo/tokenrepo/tokenrepo.go:113-126 | each valid token of the accounts exactly once, as stored |
| Crypto.ConvertTopicsPointwise | push/push.go:319-332 | the list succeeds iff every topic does on its own, with the topics in place; otherwise it gives the first failure |
| Crypto.ConvertTopicsVerified | push/push.go:321-332 | a list is accepted exactly if every topic's key parses and the check of its signature answers true; otherwise the error is that of the first topic that misses this: the parser's, the check's, or an invalid signature |
| Crypto.ConvertTopicsRefuses | push/push.go:321-332 | the error of a list is e exactly if its first topic that is not signed is refused with e |
| Push.ConvertTopicsMemoised | push/push.go:299-334 | the loop with its key cache has the outcome of checking without one, and no topics on failure |
| Push.UniqueSpaceKeys | push/push.go:125-131 | the space keys without repetitions, the same elements, in order of first occurrence |
| Push.DedupOrder | push/push.go:125-131 | of two listed keys the one that stands first occurred first |
| Push.FilterInPlace | push/push.go:136-146 | although it writes into the slice it reads, the result is the filter of the original list; later slots keep their content |
| Push.FilterCounts | push/push.go:138-145 | a topic is kept, as often as it was there, iff its space was returned and, silently, it is named after the sender |
| Push.FilterConcat | push/push.go:138-145 | the filter works element by element and keeps the order |
| Push.AllSpacesExistAdmitsAll | repo/spacerepo/spacerepo.go:80-82 | with the lookup as it is at present, a notification that is not silent keeps all topics |
| Push.Push.Notify | push/push.go:104-169 | queues exactly the one message, or nothing, or fails with the error of the first check that fails, or panics for want of a topic list |
| Notifications.QueuedExactly | push/push.go:104-169 | a message is queued exactly if the caller is known, a list is there, every listed topic is signed, the message is signed by the caller or missing and silent, the lookup answers, and some listed pair is in an answered space and, silently, named after the sender; nothing is queued exactly if all but the last holds |
| Notifications.FailsExactly | push/push.go:104-135 | the request fails with e exactly if the first check it misses is refused with e, and panics exactly if the caller is known and no list is there |
| Notifications.QueuedContent | push/push.go:152-167 | the queued message holds the request's key id, payload, signature, group id and silence, and the sender to pass over unless silent |
| Notifications.QueuedTopics | push/push.go:136-155 | and each notified topic as often as it was listed, and no other |
| Push.Push.Subscribe | push/push.go:250-262 | replaces the account's list by the verified topics, or changes nothing, or panics without a list; it is the step Set of an interleaved run |
| Push.Push.UnsubscribeRead | push/push.go:264-294 | what an unsubscription computes from the list it read, and when it ends before writing, a panic without a list included; it is the step Read |
| Push.Push.UnsubscribeWrite | push/push.go:296 | stores what was computed whatever was written meanwhile; it is the step Write |
| Push.Push.Unsubscribe | push/push.go:264-297 | removes every occurrence of the listed topics and nothing else, or changes nothing, or panics without a list; it is a Read and its Write with nothing in between |
| Push.Push.Subscriptions | push/push.go:222-248 | the stored topics as pairs or the decoding error |
| SubscriptionRuns.ShownExactly | push/push.go:237-246 | a stored list is shown exactly if every topic in it decodes, as raw key and name, in order |
| SubscriptionRuns.RunIsLedger | push/push.go:250-297 | after any run an account holds what its own accepted requests say: replace and remove, order and repetitions kept, other accounts untouched |
| SubscriptionRuns.MinusCounts | push/push.go:284-294 | a removal takes every occurrence of the listed pairs and keeps each other pair as often as it was there |
| SubscriptionRuns.MinusConcat | push/push.go:289-294 | it works pair by pair and keeps the order |
| SubscriptionRuns.SubscriptionsShowLedger | push/push.go:222-248 | Subscriptions never fails after such a run and returns the subscribed pairs |
| SubscriptionRuns.IndexFindsLedger | repo/accountrepo/accountrepo.go:76-93 | the index finds an account for some pairs iff it is subscribed to one of them |
| SubscriptionRuns.EveryRunSafe | push/push.go:264-297 | in every interleaving of reads and writes, each stored or pending topic came in an earlier subscribe request of the same account, with a key that parses and a signature for which the check answered true |
| SubscriptionRuns.SubscriptionsNeverFail | push/push.go:222-248 | in every interleaving Subscriptions decodes every stored topic |
| SubscriptionRuns.UnsubscribesCollide | push/push.go:277-296 | two interleaved unsubscriptions lose the first one's effect |
| Interleavings.PendingIsOpenRead | push/push.go:279-296 | in every run a request is about to write exactly if it has read and not yet written, and then what the list at its read left over |
| Interleavings.WriteSettles | push/push.go:279-296 | a write leaves what its read left over whatever came in between, and equals serving the unsubscription then exactly if the list read and the present one agree on what is kept |
| Interleavings.RunsHoldLedger | push/push.go:250-297 | through a whole interleaved run an account holds what its own requests say, in the order of their writes, exactly if each of its unsubscriptions writes while the list it read is current |
| Interleavings.UndisturbedWriteServes | push/push.go:264-297 | an unsubscription whose account nobody else writes between its read and its write has the effect of serving it at its write |
| Interleavings.UndisturbedHoldsLedger | push/push.go:250-297 | in every interleaved run in which no other write of an account falls between a read of it and the write, the account holds what its requests say in the order of their writes |
| Interleavings.ScheduleRuns | push/push.go:250-297 | the schedule in which every write follows its read at once ends as the sequential run |
| Interleavings.UpdateLost | push/push.go:279-296 | any update of an account between a read of it and the write, with any events before and after it, leaves the store as if it had not happened |
| Interleavings.SubscriptionLost | push/push.go:250-297 | a subscription in between, anywhere, goes unnoticed exactly if its list and the list read agree on what is kept |
| Interleavings.SubscriptionCanBeLost | push/push.go:250-297 | for every such schedule there are topics for which the subscription is lost |
| Interleavings.UnsubscriptionLost | push/push.go:279-296 | of two unsubscriptions that read the same list the later write decides, whatever happens to other accounts in between, and nothing is lost exactly if it removes what the earlier one found to remove |
| Interleavings.CollisionLosesLedger | push/push.go:277-296 | a concrete run, with any two different topics, that ends with a request's effect lost |
| Fcm.FcmSender.SendMessage | sender/provider/fcm/fcm.go:77-125 | makes exactly the calls, reports and error of the batch recursion |
| Fcm.SendAll | sender/provider/fcm/fcm.go:75-125 | a full run hands on every token once, in order, in ceil(n/500) batches of 1 to 500, gets an answer for each and reports by those answers |
| Fcm.SendPrefix | sender/provider/fcm/fcm.go:77-125 | a run cut short has handed on a prefix, in batches of 1 to 500 |
| Fcm.SendAnswers | sender/provider/fcm/fcm.go:106-110 | the answers of a run are the client's replies to its calls, each in its turn |
| Fcm.SendEnds | sender/provider/fcm/fcm.go:102-109 | every call but the last was answered, and the last one too unless its failure is the returned error |
| Fcm.SendServes | sender/provider/fcm/fcm.go:88-104 | a run makes no call exactly if there are no tokens or the platform is neither of the two, and then only the latter is an error |
| Fcm.SendCarries | sender/provider/fcm/fcm.go:88-107 | every call is for the provider's platform and carries the message it was given |
| Fcm.RejectedCounts | sender/provider/fcm/fcm.go:110-121 | a token is reported as often as it was answered invalid-argument or unregistered |
| Fcm.ReportsCount | sender/provider/fcm/fcm.go:110-121 | a whole run reports a token as often as it was answered invalid-argument or unregistered |
| Fcm.SendReports | sender/provider/fcm/fcm.go:110-121 | the reports of a run are those its calls' answers call for, in order |
| Fcm.RejectedConcat | sender/provider/fcm/fcm.go:110-121 | reports of successive batches follow each other in order |
| Sender.DeleteFunc | sender/sender.go:102-104 | removes the ignored account in place, keeps the rest in order and clears the tail |
| Sender.Sender.GroupByPlatform | sender/sender.go:126-141 | one non-empty group per platform that occurs, holding its tokens in order |
| Sender.GroupConcat | sender/sender.go:128-141 | grouping works token by token: it keeps the order and the repetitions |
| Sender.IdsOnAdd | sender/sender.go:128-141 | each group adds exactly its own tokens |
| Sender.IdsOnAll | sender/sender.go:128-141 | all groups together are all the tokens |
| Sender.Sender.SendGroups | sender/sender.go:143-157 | for the order the map chooses, the calls, reports, error and counters of the delivery, early exits included |
| Sender.AcceptedAreServed | sender/sender.go:143-157 | the counted groups are those with a provider, up to the call that failed |
| Sender.CountedAreSent | sender/sender.go:151-152 | the token counter rises by tokens handed to the client, by all of them when no call failed |
| Sender.AllDelivered | sender/sender.go:143-157 | whatever the order, a delivery that ends well hands on every token of a served platform exactly as often as it was fetched |
| Sender.DeliverAtMost | sender/sender.go:143-157 | whatever the order and however it ends, a delivery hands on no token more often than it was fetched |
| Sender.RecipientsFetched | sender/sender.go:98-108 | the two queries and the deletion fetch exactly the recipients: the tokens valid at the second query of accounts that met the topics at the first |
| Sender.Sender.SendToAccounts | sender/sender.go:105-158 | the same from the second query on, for the accounts the first one saw, whatever was written since |
| Sender.DeliverCarries | sender/sender.go:131-148 | every call of a delivery carries the same data and is for the platform of a registered provider |
| Sender.DeliverMatches | sender/sender.go:143-148 | every token of a call is a fetched one of the platform whose registered provider made the call |
| Sender.DeliverReports | sender/sender.go:148 | the reports of a delivery are those the answers to its calls call for, in order |
| Sender.DataKeys | sender/sender.go:113-124 | what the data map holds under each key: the kind and group id always, payload, signature and key id together or not at all |
| Sender.Sender.SendMessage | sender/sender.go:96-158 | the tokens over all multicast calls are among the recipients, each at most once, and exactly the recipients when no error is returned; every call, error or not, carries the queued message's data and holds only devices of its provider's platform, and the reports are those its answers call for |
| EndToEnd.DecodedRequestHasTopics | push/push.go:105-112 | a decoded request has no nil topics; Notify panics on it exactly if the caller is known and the topic list is missing |
| EndToEnd.RecipientsOfNotification | push/push.go:138-168 | no device of the sender is a recipient of a notification that is not silent; recipients of a silent one hold a topic named after the sender |
| EndToEnd.CallsOfNotification | sender/sender.go:143-157 | of calls as every SendMessage makes them, error or not: each token is that of a valid device, handed on once, to the provider of its platform, with the request's content; none is the sender's unless silent, and a silent one's account holds a topic named after the sender |
| EndToEnd.NotificationReachesSubscribers | push/push.go:104-169 | a device receives a notification iff it is valid, served, not the sender's (unless silent), and its account's own requests left it subscribed to a notified pair |
| EndToEnd.NotificationReachesInterleaved | push/push.go:104-169 | the same after an interleaved run that is undisturbed for the device's account, with its requests in the order of their writes |

## Left out

- PushApi.Topic.SizeVT: sizes are summed in unbounded integers, here and in the other four types; a message whose encoding reaches 2^63 bytes is outside the model.
- PushApi.Topic.UnmarshalVT: byte slices are values; the code reuses the old slice's storage (`append(m.SpaceKey[:0], ...)`), which another holder of that storage would see.
- PushApi.Message.UnmarshalVT: the same storage is reused there.
- Push.Push.Notify: takes requests without nil list elements, on which the code panics when it reaches them; by EndToEnd.DecodedRequestHasTopics no decoded request has one. Subscribe and Unsubscribe likewise take lists without nil elements.
- Fcm.FcmSender.SendMessage: a call carries what its multicast message is built from; the notification bodies built for each platform (title, priority, APNS fields, and on Android their three further data keys) are not modelled.
- Sender.Sender.SendMessage: no handler runs between the two queries, which SendToAccounts allows; all providers share one observed connection. Whether payload and signature are both not nil is an argument, since nil and empty byte slices are one value here, and base64 text is kept as its bytes.
- TokenRepo.TokenRepo.AddToken: how the database answers is an argument; the document that won a race for the key is written by its own call.
- AccountRepo.AccountRepo.SetAccountTopics: a write that fails is taken not to have happened, here and in every other repository method.
- protohelpers (EncodeVarint, SizeOfVarint, Skip) is library code that is not part of the repository: the model writes it after the Protocol Buffers encoding guide, sections 'Base 128 Varints' and 'Groups', with the error kinds the callers distinguish.
- Error texts: an error carries its kind and the numbers in its message, not the message type's name.
- The remaining codec types have the shapes of the five modelled ones.
- Generated reflection, RPC plumbing, mocks, configuration, metrics export, logging, timestamps and component lifecycle.
- The queue beyond an append-only list of messages: JSON, acknowledgement, rejection and redelivery.
- The space registry and the unreachable query of ExistedSpaces; the lookup is any function, its present behaviour an instance.
- RevokeToken and UpdateTokenStatus; RevokeToken deletes one matching document, so it would not make a peer's every token disappear.
- The AddToken handler, which cuts the platform of the request to eight bits.
- The buffer that collects invalid tokens before they are removed from the token collection.
