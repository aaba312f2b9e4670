# Verified model of haproxy-go

A Dafny model of the two wire-protocol stacks of haproxy-go and of the queue between them.

- **Codecs** (`pkg/encoding`, `pkg/buffer`): HAProxy's variable-length integer, length-prefixed
  bytes, typed key/value lists and nested messages, struct filling, the growing action writer and the
  offset buffer. Files `Varints`, `Encoding`, `KeyValue`, `KVWriters`, `KVScanners`,
  `MessageScanners`, `KVUnmarshal`, `ActionWriters`, `SliceBuffers`.
- **Peers** (`peers`, `peers/sticktable`): stick-table definitions and entry updates, message framing,
  the sender, the receiver, whole sessions, and the output they share. Files `TableValues`,
  `StickTables`, `EntryUpdates`, `PeerMessages`, `PeerWriter`, `PeerReceiver`, `PeerSession`,
  `SharedOutput`, `SharedSession`, `Interleavings`.
- **SPOP** (`spop`): frames, the agent's side of a connection, the ring buffer, and goroutines around
  it. Files `Frames`, `SpopSession`, `Queues`, `Schedulers`.

Code that updates objects and buffers is modelled by classes and array methods, each tied by its
contract to a function on values (`Enc`, `ScanAll`, `ParseDef`, `Run`, ...); the properties are lemmas
about those functions. Concurrency is modelled by state machines whose steps are single statements of
one goroutine, with lemmas over every reachable state. Machine integers wrap where Go's do
(`Common.dfy`). A Go call ends in `Ok`, `Error` or `Panic`; run-time panics on malformed input are
outcomes of the model, not preconditions.

`dafny verify dfyconfig.toml` checks everything.

Where the code differs from what one might expect of it, the model follows the code:

- A NOTIFY with several messages: `Discard` drains the whole frame after the first one, so the others
  are never handled (`SecondMessageSwallowed`). `KVScanner.left` is counted down and never tested.
- A NOTIFY that does not scan may still be acknowledged: if the handler has read up to the failure and
  nothing is left (`Discard` then reports no error), or what is left scans with an integer entry, which
  clears the error (`AcknowledgedIff`, with `CutEntryAcknowledged` and `UnknownTypeAcknowledged`).
- A frame shorter than its fixed part makes `readFrom` panic, and its buffer does not go back to the
  pool (`LosesIff`).
- A panic while `SendEntry` marshals leaves the mutex locked (`KeepsLockIff`); a nil key is enough
  (`NilKeyPanics`).
- Senders that share a connection share the receiver's latest table (`SharedDelivery`): unless their
  definitions agree, some interleaving garbles or loses an entry (`AlwaysDeliversIff`).
- `KVScanner.Unmarshal` clears the pointer fields that no entry has reached without asking whether
  they can be set: an unexported one makes it panic (`UnsettablePointerPanics`).
- A dictionary value of fewer than two bytes does not survive (`DataRoundTripIff`); a string key
  without data may be truncated with success (`SilentTruncationIff`).
- Type 26, the glitch rate, is read as frequency data but its definition carries no counter and
  period (`GlitchRateIsAlone`).
- Over-long variable-length integers are accepted and wrap (`OverflowExample`).
- An unknown key type panics in `KeyType.New`, so the nil test after it is never reached.
- A second hello panics instead of returning an error.
- Input that ends right behind a frame's length counts as a closed connection (`CutFrame`).

## Model

| member | source | states |
|---|---|---|
| Varints.Varint | pkg/encoding/varint.go:96-124 | For every byte string the slice decoder fails exactly when no terminated code is at the front, and otherwise returns the denoted unbounded number modulo 2^64 and the length of that code |
| Varints.ReadVarint | pkg/encoding/varint.go:29-60 | The reader version fails on the same inputs, returns the same value and consumes the same number of bytes; on failure it has consumed everything |
| Varints.PutVarint | pkg/encoding/varint.go:62-94 | Writes the code at the given offset and succeeds exactly when it fits; what lies before the offset is untouched |
| Varints.VarintLen | pkg/encoding/actionwriter.go:80-90 | Is exactly the number of bytes PutVarint writes |
| Varints.RoundTrip | pkg/encoding/varint.go:62-124 | Decoding inverts encoding under any suffix |
| Varints.Canonical | pkg/encoding/varint.go:62-124 | Encoding inverts decoding on every terminated code whose number fits 64 bits: no redundant codes |
| Varints.ReencodeIffNoOverflow | pkg/encoding/varint.go:62-124 | A terminated code survives decode-then-encode if and only if its number is below 2^64 |
| Varints.OverflowExample | pkg/encoding/varint.go:107-121 | A concrete ten-byte code that decodes to 0 although 0 has a one-byte code |
| Varints.PrefixFree | pkg/encoding/varint.go:62-124 | No terminated code is a proper prefix of another |
| Varints.CutCode | pkg/encoding/varint.go:107-118 | A code that is cut short anywhere is refused |
| Varints.Bijection | pkg/encoding/varint.go:62-124 | The codes are exactly the terminated byte strings that do not overflow, and distinct values have distinct codes |
| Varints.LengthBound | pkg/encoding/varint.go:62-94 | A code has one to ten bytes, one exactly below 240; the ten-byte buffers in peers/writer.go rely on it |
| Varints.AccumulateByte | pkg/encoding/varint.go:113-116 | One turn of either decoding loop, with its 64-bit shift and addition, keeps the running value equal to the denoted number modulo 2^64 |
| Encoding.PutBytes | pkg/encoding/encoding.go:25-38 | Writes length and content exactly when both fit |
| Encoding.PutAddr | pkg/encoding/encoding.go:40-48 | Writes the 4, 16 or 0 address bytes exactly when they fit |
| Encoding.TakeBytes | pkg/encoding/kvscanner.go:197-205 | Decodes a length and slices that many bytes off, or errs, or panics; both scanners take names this way |
| Encoding.BytesRoundTrip | pkg/encoding/encoding.go:25-38 | Length-prefixed bytes read back under any suffix, consuming exactly what was written |
| KeyValue.ValueRoundTrip | pkg/encoding/kvscanner.go:202-260 | Each of the ten typed values reads back from its type byte and payload, under any suffix |
| KeyValue.PairsRoundTrip | pkg/encoding/kvscanner.go:186-263 | Scanning an encoded list yields exactly its names, types and values in order, then a clean end with nothing left |
| KeyValue.EntriesCarryPairs | pkg/encoding/kvscanner.go:149-176 | Value of the i-th scanned entry is the i-th value written, signed 32-bit ones by truncation of their sign extension |
| KeyValue.ScanOutcome | pkg/encoding/kvscanner.go:186-263 | For every input a peer may send: exactly when a scan step panics (nothing behind the name, or name or value past the end), when it fails (a number without an end, an unknown type), and the name, type and presence of a value otherwise |
| KeyValue.IntegersTruncate | pkg/encoding/kvscanner.go:149-176 | Whatever number is on the wire, the value is congruent to it modulo 2^32 or 2^64, by its type |
| KVScanners.KVScanner.Next | pkg/encoding/kvscanner.go:186-263 | One step, whatever the declared count: entry, unread rest, error flag (cleared by an integer entry) and counter, or a panic |
| KVScanners.KVScanner.Discard | pkg/encoding/kvscanner.go:265-276 | Reads to the end of the buffer rather than of the declared entries, and terminates; its result is decided by the buffer and the error flag, and is success without reading when the buffer is empty |
| KVScanners.DrainFlagClean | pkg/encoding/kvscanner.go:265-276 | Without an earlier error Discard succeeds exactly when everything scans |
| KVScanners.DrainFlagAfterError | pkg/encoding/kvscanner.go:216-226 | After an earlier error the end of the loop is clean exactly when everything scans and an integer entry comes up, which overwrites the error |
| KVScanners.KVEntry.NameEquals | pkg/encoding/kvscanner.go:107-118 | The byte-by-byte loop decides equality |
| KVWriters.KVWriter.SetString | pkg/encoding/kvwriter.go:58-73 | Succeeds exactly when the encoded pair fits, and then has appended exactly it; bytes before the slice are untouched |
| KVWriters.KVWriter.WriteKey | pkg/encoding/kvwriter.go:48-56 | Appends the length-prefixed name exactly when it fits |
| KVWriters.KVWriter.SetBinary | pkg/encoding/kvwriter.go:75-90 | The same for binary values |
| KVWriters.KVWriter.SetNull | pkg/encoding/kvwriter.go:92-100 | The same for null, whose type byte is the whole value |
| KVWriters.KVWriter.SetBool | pkg/encoding/kvwriter.go:102-114 | The same, with the flag set by or-ing it into the stored type byte |
| KVWriters.KVWriter.SetInt | pkg/encoding/kvwriter.go:124-139 | Appends name, type and the sign-extended number exactly when they fit |
| KVWriters.KVWriter.SetUInt32 | pkg/encoding/kvwriter.go:116-118 | Appends the encoded pair exactly when it fits |
| KVWriters.KVWriter.SetInt32 | pkg/encoding/kvwriter.go:120-122 | Appends the encoded pair, the number sign-extended to 64 bits, exactly when it fits |
| KVWriters.KVWriter.SetInt64 | pkg/encoding/kvwriter.go:141-143 | Appends the encoded pair exactly when it fits |
| KVWriters.KVWriter.SetUInt64 | pkg/encoding/kvwriter.go:144-146 | Appends the encoded pair exactly when it fits; the detour over a signed number loses nothing |
| KVWriters.KVWriter.SetAddr | pkg/encoding/kvwriter.go:148-170 | A valid address is appended exactly when it fits; an invalid one is refused after its name has been written |
| KVWriters.KVWriter.SetAll | pkg/encoding/kvwriter.go:48-170 | Any sequence of setter calls succeeds exactly when the whole list fits, and Bytes has then grown by exactly the encoded list |
| MessageScanners.MessageScanner.Next | pkg/encoding/messagescanner.go:68-97 | Resumes at the nested scanner's unread bytes, by remaining length, and gives out the next header with a fresh nested scanner over everything behind it; errors and panics included |
| MessageScanners.ReadMessages | pkg/encoding/messagescanner.go:68-97 | The loop over messages and their nested scanners, reading the declared number of entries from each, gives what reading the bytes one message after the other gives, or None when a read fails |
| MessageScanners.HeadOutcome | pkg/encoding/messagescanner.go:77-94 | Every header a peer may send: read, or an error when cut inside the length and a panic when cut behind it |
| KVScanners.ReadTurnsLeaveSuffix | pkg/encoding/messagescanner.go:69-75 | After any number of reads, failing ones included, the nested scanner holds a suffix of what it was given, so resuming by length is exact |
| MessageScanners.MessagesRoundTrip | pkg/encoding/messagescanner.go:68-97 | A caller that reads the declared number of entries from each message gets exactly the encoded messages and entries and a clean end |
| KVUnmarshal.Unmarshal | pkg/encoding/kvunmarshal.go:31-134 | Succeeds exactly when the scan ends without an error, an earlier uncleared one included, every entry that reaches a field converts to it and every pointer field can be set; when only the last fails it panics. On success each field holds the last entry that reaches it, unreached pointers are nil and all other unreached fields are unchanged |
| KVUnmarshal.UnsettablePointerPanics | pkg/encoding/kvunmarshal.go:126-130 | An unexported pointer field and no entries at all: the clearing loop, which does not ask whether the field can be set, panics |
| KVUnmarshal.SetValue | pkg/encoding/kvunmarshal.go:161-231 | The result is Convert, whose values KindTakes gives kind by kind; an address entry of the wrong length panics |
| KVUnmarshal.SetFieldValue | pkg/encoding/kvunmarshal.go:136-157 | A null entry makes a pointer field nil; otherwise the value converts by the kind, as KindTakes says, or it is an error |
| KVUnmarshal.FindField | pkg/encoding/kvunmarshal.go:95-105 | The loop finds the first field with the entry's name |
| KVUnmarshal.MatchingMeans | pkg/encoding/kvunmarshal.go:93-105 | A field is reached exactly by the entries with its key, unless an earlier field has that key |
| KVUnmarshal.KindTakes | pkg/encoding/kvunmarshal.go:161-231 | Kind by kind, for every typed value a writer can store: which values a field takes and what it takes from them; a byte-slice field takes the bytes of both string and binary values |
| KVUnmarshal.UnmarshalMeans | pkg/encoding/kvunmarshal.go:87-134 | On any list a KVWriter has written, with repetitions and in any order: the entries convert if and only if every pair that reaches a field is taken by it; then a field holds what it takes from the last pair that reaches it, and one that none reaches is cleared if it is a pointer and unchanged otherwise |
| KVUnmarshal.UnmarshalUndoesWrite | pkg/encoding/kvunmarshal.go:87-134 | Undoes a KVWriter run over the same distinct field list, nil pointers written as null |
| ActionWriters.ActionWriter.Grow | pkg/encoding/actionwriter.go:65-78 | Makes room and keeps the bytes written; a new array leaves the caller's slice alone |
| ActionWriters.ActionWriter.ActionHeader | pkg/encoding/actionwriter.go:92-122 | Appends type, argument count, scope and name |
| ActionWriters.ActionWriter.Unset | pkg/encoding/actionwriter.go:124-126 | Appends the UNSET-VAR encoding and cannot fail |
| ActionWriters.ActionWriter.SetStringBytes | pkg/encoding/actionwriter.go:128-144 | Appends the SET-VAR encoding of the text and cannot fail |
| ActionWriters.ActionWriter.SetBinary | pkg/encoding/actionwriter.go:149-165 | Appends the SET-VAR encoding of the bytes and cannot fail |
| ActionWriters.ActionWriter.SetNull | pkg/encoding/actionwriter.go:167-177 | Appends the SET-VAR encoding of null and cannot fail |
| ActionWriters.ActionWriter.SetBool | pkg/encoding/actionwriter.go:178-191 | Appends the SET-VAR encoding, flag in the type byte, and cannot fail |
| ActionWriters.ActionWriter.SetUInt32 | pkg/encoding/actionwriter.go:193-195 | Appends the value as an int64 |
| ActionWriters.ActionWriter.SetInt32 | pkg/encoding/actionwriter.go:197-199 | Appends the value as an int64; ActionUnderstood says it is the same number |
| ActionWriters.ActionWriter.SetUInt64 | pkg/encoding/actionwriter.go:218-220 | Appends the value as an int64, wrapped |
| ActionWriters.ActionWriter.SetInt64 | pkg/encoding/actionwriter.go:201-217 | Appends the SET-VAR encoding and cannot fail |
| ActionWriters.ActionWriter.SetAddr | pkg/encoding/actionwriter.go:222-245 | Appends the encoding of a valid address; the invalid one is an error that leaves its header behind |
| ActionWriters.ActionWriter.PerformAll | pkg/encoding/actionwriter.go:65-245 | From any starting buffer, every sequence of setter calls with valid addresses succeeds and appends exactly the specified encodings, independent of capacity |
| ActionWriters.ActionsRoundTrip | pkg/encoding/actionwriter.go:92-245 | A reader of SPOE.txt section 3.4 actions recovers the actions one for one and in order: same type, scope and name, the same number as an int64 for integers (for unsigned 64-bit ones the int64 congruent to it modulo 2^64), and any other value unchanged |
| ActionWriters.ActionUnderstood | pkg/encoding/actionwriter.go:92-245 | One action in front of anything else is read back with that meaning, and its reader stops at its end |
| ActionWriters.ReceivedNumber | pkg/encoding/actionwriter.go:218-220 | An unsigned 64-bit value comes back unchanged if and only if it is below 2^63 |
| SliceBuffers.SliceBuffer.Grow | pkg/buffer/slicebuf.go:35-43 | Makes room for n bytes and keeps the unread ones |
| SliceBuffers.SliceBuffer.WriteNBytes | pkg/buffer/slicebuf.go:53-56 | Reserves n bytes at the write position |
| SliceBuffers.SliceBuffer.ReadNBytes | pkg/buffer/slicebuf.go:58-61 | The next n bytes of the array, whether or not they have been written |
| SliceBuffers.SliceBuffer.ReadBytes | pkg/buffer/slicebuf.go:27-29 | The unread bytes, or a panic when reading has overtaken writing |
| TableValues.KeyRoundTripIff | peers/sticktable/values.go:19-82 | A key of any kind survives Marshal then Unmarshal, under any suffix, if and only if it fits the table's key length (a binary key: has exactly that length) |
| TableValues.DataRoundTripIff | peers/sticktable/values.go:104-233 | A data value survives if and only if it is not a dictionary value of fewer than two bytes |
| TableValues.ShortDictionary | peers/sticktable/values.go:195-223 | A dictionary value of length 0 has neither ID nor value; one of length 1 is a reference that keeps the ID read; an empty value keeps its ID |
| TableValues.PaddedDictionary | peers/sticktable/values.go:218-231 | A longer one takes as many bytes as its second length says, and bytes missing from the input read as zero |
| TableValues.NumbersTruncate | peers/sticktable/values.go:104-193 | A 32-bit value is congruent modulo 2^32 to whatever number is on the wire |
| TableValues.MarshalKey | peers/sticktable/values.go:235-269 | Result and bytes written for every key kind and buffer, cut-short strings and panics included |
| TableValues.UnmarshalKey | peers/sticktable/values.go:19-82 | Key and length consumed, error or panic, for every input |
| TableValues.MarshalData | peers/sticktable/values.go:271-334 | Numbers are refused exactly when they do not fit; a dictionary value is cut silently and counted in full |
| TableValues.UnmarshalData | peers/sticktable/values.go:104-233 | Value and length consumed, error or panic, for every input; a dictionary value cut short is padded with zeros |
| TableValues.DataKindOf | peers/sticktable/constants.go:179-238 | The schema has a kind exactly for the numbers 0 to 26 |
| TableValues.KeyTypesInverse | peers/sticktable/constants.go:24-39 | Each key kind has exactly one number, and every other number has no kind |
| TableValues.OtherKinds | peers/sticktable/constants.go:179-238 | Which numbers are signed, long and dictionary values |
| TableValues.GlitchRateIsAlone | peers/sticktable/constants.go:103-118 | Every delay type is of the frequency kind, and type 26 is the only type of that kind that is no delay type |
| StickTables.Definition.Marshal | peers/sticktable/sticktables.go:108-170 | Succeeds exactly when the whole encoding fits: a name that is cut short makes the next number fail |
| StickTables.Definition.Unmarshal | peers/sticktable/sticktables.go:26-106 | Fields, data types appended, and length consumed; error or panic, for every input |
| StickTables.Definition.DataTypeMask | peers/sticktable/sticktables.go:136-139 | The or-ing loop computes the mask |
| StickTables.MaskBits | peers/sticktable/sticktables.go:136-139 | Bit i of the mask is set exactly when some data type has number i |
| StickTables.DefRoundTrip | peers/sticktable/sticktables.go:26-170 | Marshal then Unmarshal is the identity on definitions with strictly ascending known types and no parameters on other than delay types, and consumes exactly the bytes written |
| StickTables.DefParsed | peers/sticktable/sticktables.go:26-106 | Whatever Unmarshal accepts into a fresh Definition is such a definition |
| StickTables.RemarshalIffNoOverflow | peers/sticktable/sticktables.go:26-170 | Accepted bytes re-marshal to exactly the bytes consumed if and only if no number in them overflows 64 bits |
| StickTables.StrictPrefixRefused | peers/sticktable/sticktables.go:26-106 | Every strict prefix of an encoded definition is refused with an error |
| StickTables.DefStable | peers/sticktable/sticktables.go:26-106 | More input behind an accepted definition changes nothing |
| EntryUpdates.EntryUpdate.Marshal | peers/sticktable/sticktables.go:193-220 | Result for every buffer length, and the bytes written |
| EntryUpdates.EntryUpdate.Unmarshal | peers/sticktable/sticktables.go:222-263 | Key, data appended to those there, ID, expiry and length consumed under the table and flags, from any receiver state; error or panic |
| EntryUpdates.EntryRoundTrip | peers/sticktable/sticktables.go:193-263 | Marshal then Unmarshal under the same table and flags restores key, data, update ID and expiry, for all key and data kinds, and consumes exactly the bytes written |
| EntryUpdates.MarshalFits | peers/sticktable/sticktables.go:193-220 | A buffer that holds the whole encoding is always enough |
| EntryUpdates.SilentTruncationIff | peers/sticktable/sticktables.go:205-219 | Marshal reports success with less than the whole encoding if and only if the key is a string that does not fit and no data follows |
| PeerMessages.RawMessage.ReadFrom | peers/protocol.go:179-209 | One message and the input behind it, a clean end, an error or a panic, for every input |
| PeerMessages.ReadBack | peers/protocol.go:179-209 | A message written by either sender reads back and ends where the next one starts |
| PeerMessages.CutMessage | peers/protocol.go:179-209 | Input that ends inside a message, behind its first byte, is always an error and never a clean end |
| PeerMessages.StreamReadsBack | peers/protocol.go:122-152 | A stream of whole messages reads back as exactly those messages |
| PeerWriter.Writer.WriteMessageLocked | peers/writer.go:59-90 | Appends exactly the message's wire form, in its separate writes |
| PeerWriter.Writer.SendTableDefinition | peers/writer.go:95-111 | Sends and flushes the definition exactly when it has at most 4096 bytes; otherwise nothing is written |
| PeerWriter.Writer.SendTableSwitch | peers/writer.go:115-131 | Sends and flushes the table ID |
| PeerWriter.MarshalEntry | peers/writer.go:136-162 | The same result as EntryUpdate.Marshal for the entry with its ID set to updateID, a nil key included; the bytes are updateID, the expiry if there is one, and then the caller's key and data, or a prefix of that |
| PeerWriter.Writer.SendEntry | peers/writer.go:171-199 | Takes one ID, even when it fails; on success the message is on the connection, otherwise nothing has been written; the mutex stays locked if and only if the entry is one that panics |
| PeerWriter.Writer.SendEntries | peers/writer.go:205-233 | The bytes, result and IDs of a loop over the entries that stops at the first failure, flushed on success |
| PeerWriter.SendOneWhole | peers/writer.go:171-199 | An entry that matches its table and fits the buffer is sent whole: the ID, the expiry if it has one, its key and its data, as message type 133 with an expiry and 128 without |
| PeerWriter.BatchStops | peers/writer.go:205-233 | A batch that meets an entry it cannot marshal sends exactly what comes before it, fails as that entry does, and has used one ID more than it has sent entries |
| PeerWriter.SwitchReadBack | peers/writer.go:113-131 | A reader finds the table ID in a switch message |
| PeerWriter.PanicIff | peers/writer.go:136-162 | Marshalling an entry panics if and only if its key is nil, or an IPv4 key without an IPv4 address in a table of key length 4, or a binary key in a table whose key length exceeds the room left, or it has a dictionary value whose numbers fit the buffer and whose bytes do not |
| PeerWriter.LongKeyPanics | peers/writer.go:171-183 | An empty binary key in a table with key length 70000 is such an entry |
| PeerWriter.NilKeyPanics | peers/writer.go:147 | An update whose key was never set is such an entry in every table, whatever its data |
| PeerReceiver.ProtocolClient.OnUpdate | peers/protocol.go:240-301 | The new state, or error or panic, for every update-class message |
| PeerReceiver.UpdateArrives | peers/protocol.go:240-301 | All four kinds of update, by the bytes a peer sends: the handler gets the key and the data, the expiry of a timed one, and the own ID of a full one or the successor of the ID before |
| PeerReceiver.ProtocolClient.OnDefinition | peers/protocol.go:242-249 | A definition that parses becomes the latest one; bytes behind it are ignored |
| PeerReceiver.ProtocolClient.OnControl | peers/protocol.go:222-238 | The five known control messages are accepted, and only a sync request is answered |
| PeerReceiver.ProtocolClient.LockedWrite | peers/protocol.go:54-62 | The bytes and everything buffered before them reach the connection |
| PeerReceiver.ProtocolClient.MessageHandler | peers/protocol.go:154-165 | The new state and the reply for every message of every class |
| PeerReceiver.ProtocolClient.Serve | peers/protocol.go:132-151 | The read loop ends in the state, with the replies and in the way that running its messages one by one determines, whether it ends cleanly, with an error or in a panic |
| PeerReceiver.StepPanicIff | peers/protocol.go:240-301 | Exactly the messages that crash the receiver, by their bytes: a definition whose announced name length cannot be allocated; or, behind a definition, an update too short for its ID and expiry, of an unknown key type, with a key that runs past the end, or with a dictionary value whose announced length cannot be allocated |
| PeerReceiver.StepAcceptsIff | peers/protocol.go:211-301 | Exactly the messages that are accepted, by class and type number |
| PeerReceiver.RepliesReadBack | peers/protocol.go:222-231 | Over any accepted run the peer reads back one partial-sync message for each of its sync requests and nothing else |
| PeerReceiver.RunAccounts | peers/protocol.go:240-301 | Over any accepted run the i-th handled entry is what Unmarshal reads from the i-th update message under the latest definition; its ID is that of the latest full update plus the incremental ones since, or its zero-based index, modulo 2^32; its data match that table's types one for one |
| PeerReceiver.RunOfStream | peers/protocol.go:132-151 | A stream of whole messages is processed to a clean end if and only if every message is accepted |
| PeerSession.SessionDelivered | peers/writer.go:95-233 | End to end, from any receiver state: after a session of Writer calls whose entries fit and use the latest definition, the handler has been given exactly the entries sent, in order, each with its table, key, data and expiry as the caller had them and with consecutive IDs modulo 2^32, and the session ends cleanly |
| PeerSession.FreshSession | peers/protocol.go:240-301 | From a fresh writer to a fresh receiver the k-th entry handled has the table, key, data and expiry of the k-th sent, and ID k modulo 2^32 |
| PeerSession.BatchIsLoop | peers/writer.go:205-233 | A successful SendEntries puts the same bytes on the stream as SendEntry in a loop |
| PeerSession.Play | peers/writer.go:95-233 | Making the calls on a Writer puts exactly the session's bytes on its stream, and nothing more behind a SendEntry that panics |
| SharedOutput.StreamIsWholeMessages | peers/writer.go:51-90 | For any number of senders and any interleaving: the stream is whole messages and at most one unfinished one, each sender's messages are in its own order with none lost or repeated, and update IDs follow the order of the stream |
| SharedOutput.StreamParses | peers/protocol.go:54-62 | Whenever no message is in flight the stream parses into exactly the messages written |
| SharedOutput.NothingLeftBehind | peers/writer.go:42-46 | When all calls have returned and none failed, everything is on the connection and is a merge of all programs |
| SharedOutput.StuckForever | peers/writer.go:171-199 | Behind a panic in SendEntry, whose unlock is not deferred, the mutex stays locked and nothing more reaches the stream |
| SharedOutput.KeepsLockIff | peers/writer.go:171-183 | A call of SendEntry can be left with the mutex locked for good if and only if its entry is one that panics, by the condition of PanicIff |
| SharedOutput.PanicSticks | peers/writer.go:171-183 | The run of such a call: begin, lock, marshal |
| SharedOutput.StuckOnlyByPanic | peers/writer.go:171-233 | In any run of any senders only one whose program pushes such an entry is ever stuck |
| SharedSession.SharedDelivery | peers/protocol.go:240-301 | For any number of senders of proper calls (definitions with ascending known types, entries that match their table and fit the buffer, control types the receiver knows) and any interleaving: a receiver of the shared stream ends cleanly with exactly its entries, field by field as sent and with ID serial number modulo 2^32, if and only if each entry's table is the latest defined before it on the stream |
| SharedSession.TwoTablesBreak | peers/protocol.go:250-252 | Two senders with different tables: an interleaving in which an entry does not arrive as it was sent |
| Interleavings.AlwaysDeliversIff | peers/writer.go:92-94 | Which senders of proper calls can share a connection: every interleaving, at every moment between two messages, has delivered exactly its entries if and only if each sender on its own defines the table of an entry before it with no other definition between, and no other sender defines any other table |
| Interleavings.DefinedTable | peers/writer.go:95-111 | The table that a definition puts in play is the one the caller gave |
| Interleavings.ForeignBreaks | peers/writer.go:92-94 | For any two senders of which one defines another table than that of an entry of the other: an interleaving that does not deliver |
| Frames.Frame.ReadFrom | spop/frame.go:56-77 | Frame and input left, clean end, error or panic, for every input and limit |
| Frames.Frame.DecodeHeader | spop/frame.go:126-149 | Type, flags and IDs; a frame shorter than the fixed part panics |
| Frames.Frame.EncodeHeader | spop/frame.go:106-124 | The header always fits the initial buffer |
| Frames.Frame.WriteTo | spop/frame.go:83-104 | Length, buffered bytes and payload, or an error and no output when the length does not fit 32 bits |
| Frames.FrameRoundTrip | spop/frame.go:56-149 | A frame within the limit is read back with type, flags, both IDs and exactly its content, under any suffix |
| Frames.FrameTooLong | spop/frame.go:62-64 | A frame beyond the limit is refused |
| Frames.AcceptedWithinLimit | spop/frame.go:56-77 | Whatever is accepted is within the limit and has its fixed part |
| Frames.CutFrame | spop/frame.go:56-77 | Input that ends inside a frame is an error, except before its first byte and right behind its length, where it counts as a closed connection |
| Frames.PanicIffTooShort | spop/frame.go:56-77 | readFrom panics if and only if a complete frame within the limit is shorter than its five fixed bytes |
| Frames.WriteAck | spop/frames.go:132-159 | The ACK is written, as length, header and actions, exactly when the callback succeeds and the frame is within the limit, whether or not the action writer left the frame's buffer; otherwise nothing is written |
| Frames.AckReadBack | spop/frames.go:132-159 | A reader with the same limit recovers the ACK's IDs and flags, and its actions as ActionsRoundTrip says |
| Frames.WriteHello | spop/frames.go:91-120 | AGENT-HELLO always fits and is written whole |
| Frames.HelloReadBack | spop/frames.go:91-120 | Version 2.0, the negotiated size and an empty capability list are read back out of it |
| Frames.WriteDisconnect | spop/frames.go:45-70 | AGENT-DISCONNECT always fits and is written whole |
| Frames.DisconnectReadBack | spop/frames.go:45-70 | The error code and its text are read back out of it |
| SpopSession.HelloAcceptedIff | spop/protocol.go:117-165 | A hello is accepted exactly when it scans cleanly, names a frame size and every size it names is within 256 and 2^31-1 after truncation to 32 bits |
| SpopSession.HelloNegotiates | spop/protocol.go:123-145 | What an acceptable hello negotiates: the size in its last max-frame-size entry truncated to 32 bits, the bytes of its last engine-id entry or none, and a healthcheck if and only if it has such an entry |
| SpopSession.ProtocolClient.ReadHello | spop/protocol.go:123-158 | The entry loop leaves the last value of each setting and stops at the first size out of range or scan error |
| SpopSession.ProtocolClient.OnHAProxyHello | spop/protocol.go:117-165 | Fields and output for every hello, by the settings that HelloNegotiates determines; a second hello panics |
| SpopSession.ProtocolClient.OnNotify | spop/protocol.go:167-198 | Whether the notification is acknowledged, and the bytes of the ACK with its IDs and, by AckCarries, the handler's actions |
| SpopSession.AckCarries | spop/protocol.go:167-198 | The content of an acknowledgement is exactly the encoding of the handler's actions, or empty for a notification without content |
| SpopSession.NotifyAnswered | spop/protocol.go:167-198 | What a worker writes for an acknowledged notification is one frame, in which HAProxy finds its IDs and the actions of the handler, one for one |
| SpopSession.NotifyCallback | spop/protocol.go:174-191 | For every content and handler behaviour: the result, and that at most one message of a frame is handled |
| SpopSession.AcknowledgedIff | spop/protocol.go:174-191 | For every content, number of reads and handler outcome: a notification is acknowledged if and only if it has a header, the handler does not panic and what follows is forgiven, a condition on how the bytes scan |
| SpopSession.AcknowledgedWhen | spop/protocol.go:174-191 | For a handler that stops at its first failed read: acknowledged if and only if all content scans, or the handler has read up to the failure and what is left is empty or scans to the end with an integer entry |
| SpopSession.NotifyPanicsIff | spop/protocol.go:174-191 | For a handler that stops at its first failed read, the callback panics exactly when the header crashes or the handler returns before a crash that Discard then runs into |
| SpopSession.NotifyAccepted | spop/protocol.go:174-191 | Content that scans to the end is acknowledged whatever the handler reads; for a handler that reads nothing, no other is |
| SpopSession.AllHandledIff | spop/protocol.go:174-191 | All messages of a well-formed frame are handled if and only if there is at most one |
| SpopSession.SecondMessageSwallowed | spop/protocol.go:184-186 | Two messages in one frame: one is handled, whatever the handler reads, and the frame is acknowledged |
| SpopSession.CutEntryAcknowledged | pkg/encoding/kvscanner.go:265-268 | A message cut inside an integer is refused, or acknowledged if the handler has read up to the error, since nothing is left |
| SpopSession.UnknownTypeAcknowledged | pkg/encoding/kvscanner.go:216-260 | An entry of an unknown type before an integer is refused, or acknowledged if the handler has read it, since the integer clears the error |
| SpopSession.OneMessageDrains | spop/protocol.go:174-191 | A frame with one valid message always scans to the end |
| SpopSession.ProtocolClient.OnHAProxyDisconnect | spop/protocol.go:200-238 | When the connection is given up and when that is an error |
| SpopSession.DisconnectMeans | spop/protocol.go:206-238 | A disconnect gives the connection up if and only if it has content, scans without a panic and names only status codes and messages; the code that counts is the last one, or 0 without one |
| SpopSession.ProtocolClient.FrameHandler | spop/protocol.go:52-65 | Behind the handshake: the client and the bytes written are those of the session machine's worker turn; only acknowledged notifications are answered, unknown types are errors, a hello panics |
| SpopSession.ProtocolClient.ServeTurn | spop/protocol.go:67-105 | One turn of the read loop: fields, frame scheduled, output and input left |
| SpopSession.ProtocolClient.Serve | spop/protocol.go:67-105 | The whole read loop schedules and writes what its turns determine |
| SpopSession.ConnectionServed | spop/protocol.go:67-105 | Behind an acceptable hello exactly the frames HAProxy sends are handed on, in order, and the AGENT-HELLO with the negotiated size is all the loop writes; a healthcheck ends it with the hello |
| SpopSession.OpenServes | spop/protocol.go:67-105 | For any input behind the handshake: every frame that can be read under the negotiated size is handed on |
| SpopSession.NoHelloNothingServed | spop/protocol.go:67-105 | Without an acceptable hello in front nothing is handed on or written |
| SpopSession.LargeHelloRefused | spop/protocol.go:67-71 | A first frame beyond the initial limit of 65535 ends the loop |
| SpopSession.SessionSafe | spop/protocol.go:52-198 | In every reachable state: nothing is accepted or written before a successful hello; from then on the size is in range; the bytes written are the one AGENT-HELLO with that size and then ACKs within it, with their notification's IDs and exactly the actions of its handler, at most one for each accepted frame; every accepted frame is within the size |
| SpopSession.SizeFixed | spop/protocol.go:67-71 | Once the handshake has succeeded the frame size never changes |
| SpopSession.AgentStreamReadsBack | spop/protocol.go:167-198 | Read under the negotiated limit, the bytes written are whole frames: the agent's hello, and then, in order, an answer to each acknowledged notification with its IDs and the actions its handler performed |
| Queues.Queue.Put | spop/scheduler.go:43-56 | Appends to the contents unless the ring is full |
| Queues.Queue.Get | spop/scheduler.go:58-73 | Removes the oldest element unless the ring is empty |
| Queues.PutContents | spop/scheduler.go:50-52 | An element put in comes out last, at every ring position |
| Queues.GetContents | spop/scheduler.go:68-70 | The oldest comes out and the others keep their order |
| Schedulers.NoLostWakeup | spop/scheduler.go:43-73 | For any number of readers and workers and any interleaving: sleeping workers imply that every queued element has a woken worker, and sleeping readers that every free slot has a woken reader, counting the lock holder's pending use or signal |
| Schedulers.NobodyOversleeps | spop/scheduler.go:43-73 | No element waits while all workers sleep, no slot while all readers do, and not all sleep together |
| Schedulers.NeverStuck | spop/scheduler.go:43-103 | While a Serve loop has not ended and there is a worker, some goroutine can take a step |
| Schedulers.FirstInFirstOut | spop/scheduler.go:43-73 | What went in is what came out followed by the contents; size is at most the capacity and tail is (head + size) mod capacity |
| Schedulers.MutualExclusion | spop/scheduler.go:43-73 | At most one goroutine is between lock and unlock |
| Schedulers.OwnedOnce | spop/frame.go:25-35 | Every frame ever made is in exactly one place: pool, queue, one goroutine's hand, let go of by the pool, or lost; none is in two |
| Schedulers.LostByPanics | spop/protocol.go:74-76 | As many frames are lost as Serve loops ended in a panic of readFrom, each of which had a frame on its connection shorter than the fixed part |
| Schedulers.LosesIff | spop/protocol.go:74-76 | A reader that has acquired a frame loses it if and only if what arrives is too short; then it does not go back to the pool |
| Schedulers.ZeroLengthLosesFrame | spop/frame.go:126-133 | A connection whose input is four zero bytes loses its frame |
| Schedulers.HeldAlone | spop/protocol.go:52-105 | A frame a goroutine works on is in no other goroutine's hands, not queued, not in the pool and not lost |

## Left out

- Listeners, sockets, deadlines, contexts and loggers: a connection is an input byte string and an output byte string. AGENT-DISCONNECT is modelled as a frame, the moment `Close` sends it, and the frame it acquires and releases for that after the Serve loop, are not.
- The textual peer handshake (`peers/messages.go`): sessions start behind it.
- Heartbeat and last-message timers: a heartbeat may be written at any step, without real time.
- Errors of `Write` and `Flush`: output is what was flushed and what is pending, and writing does not fail.
- Concurrent ACKs on one SPOP connection: the three writes of a frame are not locked in the code, so SPOP output is stated for one outstanding NOTIFY.
- Offsets returned together with an error, and the contents of a receiver after an error.
- Memory: `make` panics above 2^48 bytes as on 64-bit Linux; running out of memory before that is not modelled. Contracts about writing take strings and slices of at most that length.
- Slices with spare capacity: reslicing past the length is a panic here, while Go allows it up to the capacity when nothing reads beyond.
- Negative data type numbers, whose shift panics in `Definition.Marshal`: data types are natural numbers.
- Zones of `netip.Addr` and 4-in-6 addresses: an address is 4 or 16 bytes or invalid. An IPv4 key stands for the 4 bytes that `As4` gives, or for an address on which it panics; an IPv6 key for the 16 bytes that `As16` gives, those of an invalid or IPv4 address included.
- A nil `StickTable`, nil data elements and typed nil keys: each makes marshalling panic like a nil key.
- Reflection and struct tag syntax: `KVScanner.Unmarshal` starts from its list of fields with non-empty keys.
- What a handler computes: on the SPOP side it is the number of entries it reads, the valid actions it performs and whether it panics; on the peers side it is the list of entries it is given, which it does not change.
- Pools of scanners, writers, entries and messages: objects are made fresh. Only the frame pool is modelled, in `Schedulers`.
- A panic of a frame handler, in a worker or on a hello: the deferred releases run as on return, which is the same step in `Schedulers`.
- Recovery from a panic of `SendEntry` is the caller's; where nobody recovers, the program ends.
- Sharing of one `Definition` by several entries is by reference as in the source, but nobody changes it after it is received.
- The unsafe and byte-slice variants of `NameEquals`, `String` methods and error texts.
