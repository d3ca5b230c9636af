# Capability passing in typed IPC channels

A model of the transport-independent core of `ipc.rs` in the ipc-channel
crate. Typed senders and receivers wrap raw transport handles. A message may
carry channel endpoints (`IpcSender`s). They are not written into the byte
stream. Each endpoint's raw handle goes onto a per-thread vector, and its
index in that vector is written in its place. The vector travels out of band,
next to the bytes. On the receiving side the delivered vector is installed in
a second per-thread vector while the bytes are decoded, and each index is
resolved by cloning the entry at that position.

- `types.dfy` (module `IpcTypes`): handles, payload values, the shapes a
  receiver expects (the payload type `T`), and the wire document.
- `codec.dfy` (module `Codec`): the encode and decode traversals as pure
  functions that thread the sender vector, and the lemmas about them (index
  assignment, round trip, which entry each decoded sender is).
- `ipc.dfy` (module `Ipc`): the two thread-local vectors as the fields of a
  `CapabilityContext` object, and the operations that push onto, swap and
  restore them (`Serialize`, `Send`, `Deserialize`,
  `DeserializeReceivedData`, `Recv`, `Accept`). `channel`, `connect` and
  `IpcOneShotServer::new` are modelled as functions over the transport's answer.

Every transport call is a parameter of the operation that makes it. The
caller supplies the transport's answer. `Send` takes the transport's verdict
on the message it is handed. `Recv` and `Accept` take what the transport
delivers.

Sender indices are written as plain numbers, as `ipc.rs` serializes them as a
`usize`. Only the expected shape tells the decoder whether a number is an
integer or an index. A negative number is rejected as a `usize`.

## Model

| member | source | states |
|---|---|---|
| `Codec.Encode` | ipc.rs:104-115 | after encoding a value, the serialization vector is the old vector followed by the value's embedded senders in traversal order |
| `Codec.EncodeItems` | ipc.rs:104-115 | encoding a list yields one wire element per item, and the vector grows by the items' senders in order |
| `Codec.EncodeIndices` | ipc.rs:106-113 | the numbers written in sender position are `|ser|, |ser|+1, …`, one per embedded sender, in traversal order |
| `Codec.EncodeItemsIndices` | ipc.rs:106-113 | the same for the items of a list: consecutive indices continuing from the vector's length |
| `Codec.EncodeMessage` | ipc.rs:73-86 | one send hands over a document, and its handle list is exactly the embedded senders of the value, in order |
| `Codec.SendIndicesConsecutive` | ipc.rs:76-84 | within one send the embedded senders get indices 0, 1, 2, … and the handle list has exactly one entry per index |
| `Codec.ResolveIndex` | ipc.rs:89-102 | index lookup succeeds exactly when `0 <= n < |de|` and then yields entry `n`; a negative number is a type error; an index past the end is reported as `IndexOutOfRange` |
| `Codec.ResolveIndexAsWritten` | ipc.rs:94-95 | the lookup as written: entry `index` when in range, a panic exactly when `index >= |de|` |
| `Codec.OutOfRangeIndexPanicsAsWritten` | ipc.rs:94-95 | the index equal to the vector's length panics as written and is reported as `IndexOutOfRange` by the hardened lookup |
| `Codec.Decode` | ipc.rs:89-102 | a successful decode yields a value of the expected shape |
| `Codec.DecodeItems` | ipc.rs:89-102 | a successfully decoded list has one value per wire element, each of its element's shape |
| `Codec.DecodePayload` | ipc.rs:151-158 | bytes that are not a document fail; a document decodes against the installed vector |
| `Codec.DecodeEncode` | ipc.rs:89-115 | decoding the wire form of a well-shaped value against the vector its encoding produced (extended by anything) gives the value back, each sender resolved to the handle it was encoded from |
| `Codec.DecodeEncodeItems` | ipc.rs:89-115 | the same round trip for the items of a list |
| `Codec.MessageRoundTrip` | ipc.rs:147-163 | the message one send produces, decoded with its own handle list installed, yields the value sent |
| `Codec.DecodedSendersResolved` | ipc.rs:89-102 | for any document, a successful decode had every number in sender position in range, and the sender decoded from a slot holding `n` is entry `n` of the installed vector, slot by slot in traversal order |
| `Codec.DecodedItemsSendersResolved` | ipc.rs:89-102 | the same for the items of a decoded list |
| `Codec.DecodeRejectsOutOfRangeSlot` | ipc.rs:91-96 | a document with a number in sender position at or past the end of the installed vector fails to decode, whoever produced it |
| `Codec.LoneIndexWithoutHandles` | ipc.rs:91-96 | a list holding sender index 0, received with an empty handle list, is reported as `IndexOutOfRange(0)` |
| `Ipc.Channel` | ipc.rs:25-39 | fails exactly when the transport fails to allocate a pair; otherwise wraps the two ends unchanged |
| `Ipc.Connect` | ipc.rs:62-71 | fails exactly when the transport's connect fails; otherwise wraps the raw sender unchanged |
| `Ipc.NewOneShotServer` | ipc.rs:123-132 | fails exactly when the transport fails; otherwise wraps the server and passes its name through |
| `Ipc.CapabilityContext.constructor` | ipc.rs:18-23 | both thread-local vectors start empty |
| `Ipc.CapabilityContext.SerializeSender` | ipc.rs:106-113 | the returned index is the vector's length before the call; the vector becomes the old one with the sender appended; nothing else changes |
| `Ipc.CapabilityContext.Serialize` | ipc.rs:104-115 | the wire form and the new serialization vector are those of `Encode` from the old vector; the deserialization vector is untouched |
| `Ipc.CapabilityContext.Send` | ipc.rs:73-86 | the transport is handed `EncodeMessage(data)` (encoded from an empty vector); both vectors are afterwards exactly as before; the result is `Ok` exactly when the transport accepts |
| `Ipc.CapabilityContext.DeserializeSender` | ipc.rs:89-102 | the hardened lookup `ResolveIndex` against the deserialization vector: a copy of entry `n` exactly when `n` is in range, `IndexOutOfRange` past the end; reads without changing the vector |
| `Ipc.CapabilityContext.Deserialize` | ipc.rs:89-102 | decodes exactly as `Decode` against the installed vector |
| `Ipc.CapabilityContext.DeserializeReceivedData` | ipc.rs:147-163 | as written: the result is the decode of the bytes with the received senders installed; on success the deserialization vector is restored, on failure it still holds the received senders |
| `Ipc.CapabilityContext.DeserializeReceivedDataRestoring` | ipc.rs:147-163 | the received senders are installed only for the decode; both vectors are restored on every path |
| `Ipc.CapabilityContext.Recv` | ipc.rs:47-52 | fails when the transport's receive fails; otherwise the result is the decode of the delivered bytes with the delivered senders installed |
| `Ipc.CapabilityContext.Accept` | ipc.rs:134-144 | fails when the transport's accept fails or the first message does not decode; otherwise returns the accepted receiver unchanged and the decoded first value |
| `Ipc.Transfer` | ipc.rs:47-86 | a well-shaped value sent through a transport that delivers bytes and handles together is received unchanged, embedded senders included |
| `Ipc.LeakAfterFailedDecode` | ipc.rs:150-160 | after a rejected message, as written, the thread's deserialization vector holds that message's senders |

## Left out

- The OS transport (`platform::channel`, `OsIpcSender::send` and `connect`, `OsIpcReceiver::recv`, `OsIpcOneShotServer::new` and `accept`): each is a parameter giving the transport's answer. Blocking, ordering across messages and disconnection are the transport's and are not modelled.
- The JSON byte format and the serde serializer and deserializer: a value is encoded to a wire document tree instead of bytes. Bytes the reader rejects are the single `Garbled` payload.
- `Codec.DecodePayload`: `json::Deserializer::new` (ipc.rs:151-155) and the decode (ipc.rs:156-158) are one failure. Over an infallible byte iterator the construction cannot fail, and both early returns leave the same state.
- Trailing bytes after the document, and integer widths (`usize`, `i64` overflow), are not modelled: numbers are unbounded integers.
- The `unwrap()` of the serializer's result in `send` (ipc.rs:80): encoding a model value cannot fail, so that panic path does not arise.
- `thread_local!`, `RefCell` borrowing and isolation between threads: one `CapabilityContext` object stands for one thread's pair of vectors.
- `OsIpcSender::clone` duplicating an OS handle: a clone is the same `Handle` value.
- `PhantomData` type tags: the receiver's payload type is the `Shape` argument of the decoding operations.
- `Ipc.CapabilityContext.Recv` and `Ipc.CapabilityContext.Accept` use the restoring decode, not the one as written (see Findings).
- `Ipc.CapabilityContext.DeserializeSender`, `Ipc.CapabilityContext.Deserialize` and `Codec.Decode` use the hardened index lookup, not the panicking one (see Findings).

## Findings

| source | as written | input that shows it | evidently intended | confidence | as-written member | corrected member |
|---|---|---|---|---|---|---|
| ipc.rs:94-95 | a decoded sender index is used to index the received vector without a bounds check, so an index at or past its end panics | a message whose payload holds sender index 0 and whose handle list is empty | the FIXME at ipc.rs:94 asks for an error result instead of a panic | high, not executed | `Codec.ResolveIndexAsWritten` (shown by `Codec.OutOfRangeIndexPanicsAsWritten`) | `Codec.ResolveIndex` |
| ipc.rs:153-160 | both early `return Err(())` paths skip the second `mem::swap`, so the received senders stay in the thread's deserialization vector and the caller's vector is dropped | a `Garbled` payload received with handle list `[h]` leaves the vector equal to `[h]` | restore the caller's vector on every path, as on success at ipc.rs:160; the kept handles otherwise hold their channels open | medium, not executed | `Ipc.CapabilityContext.DeserializeReceivedData` (shown by `Ipc.LeakAfterFailedDecode`) | `Ipc.CapabilityContext.DeserializeReceivedDataRestoring` |
