# Stream processor: record/event codec and argument dispatch

This project models in Dafny the core of a small command-line stream
processor. The processor reads ownership-transition records (mint, burn or
transfer of a token) and converts each one to a typed event.

- `wrappers.dfy` (`Wrappers`): `Option` stands for a nullable reference.
  `Result` stands for `ErrorOr<T>`: a value, or an error carrying a message.
- `text.dfy` (`Text`): the two pieces of .NET behaviour the codec depends
  on. `Decimal` is the decimal rendering of `{index}` in an interpolated
  string. `IsBlank` is `String.IsNullOrWhiteSpace` on a non-null string,
  with `Char.IsWhiteSpace`'s character set written out.
- `batch.dfy` (`Batch`): the loop that both batch conversions share. It
  converts each element in order and appends the successes. It sets the
  error only while the error is still null (`error ?? …`). The loop is the
  method `CollectAll`. The functions `Successes`, `FirstFailure` and
  `ReportedError` specify it.
- `codec.dfy` (`Codec`): the record (`StreamItem`; its `Type` is the field
  `tag`) and the closed event type `Mint | Burn | Transfer`. `Decode` is
  `ToStreamEvent` and `Encode` is `ToStreamItem`. `DecodeAll` and
  `EncodeAll` are `ToStreamEvents` and `ToStreamItems`.
- `arguments.dfy` (`Arguments`): `ValueForKey`, a loop over the argument
  array that `Lookup` specifies. `Run` is `Main`: it tries the flags in
  priority order and returns the branch taken and the exit code. `Dispatch`
  specifies it.

The batch-encode message is modelled as Sources/Types.cs:256 writes it:
"error convert item at index {i}: …".

## Model

| member | source | states |
|---|---|---|
| `Codec.Decode` | Sources/Types.cs:38-79 | decoding succeeds exactly for "Mint" with an address, any "Burn", or "Transfer" with both from and to; the tag match is exact and case-sensitive; the event carries the record's tag, token and the variant's fields; a failure's message is "incomplete mint event", "incomplete transfer event" or "invalid event", chosen by the tag |
| `Codec.Encode` | Sources/Types.cs:192-235 | the record has the variant's name as its type and only that variant's optional fields set, all others null; decoding it gives back the same event (round trip) |
| `Codec.CanonicalRoundTrip` | Sources/Types.cs:197-228 | every record the encoder could have written decodes, and re-encoding it rebuilds the same record |
| `Codec.DecodeReasonNotBlank` | Sources/Types.cs:94-101 | no decode failure has a blank reason, so the "unknown error" message is never produced when decoding |
| `Codec.DecodeMessage` | Sources/Types.cs:97-101 | a failing record at index i is reported as "error at index {i}: " followed by its decode message |
| `Codec.DecodeBatchError` | Sources/Types.cs:81-110 | the decoding batch reports no error iff every record decodes; otherwise it reports "error at index {k}: {reason}" for the lowest failing index k |
| `Codec.DecodeAll` | Sources/Types.cs:81-110 | returns the decoded events in input order; the error is null iff every record decodes iff as many events as records came out; with no error each event is carried by the record at its position; otherwise the error is the lowest failing record's message, tagged with that index |
| `Codec.EncodeAll` | Sources/Types.cs:237-266 | never reports an error; returns one record per event, in order, each holding its event in canonical form |
| `Codec.BatchRoundTrip` | Sources/Types.cs:81-110 | decoding the records of an encoded batch yields exactly the original events and no error |
| `Batch.IndexedMessage` | Sources/Types.cs:97-101 | a failure at index i with a non-blank reason reads "error{what} at index {i}: {reason}"; with a blank reason (`IsNullOrWhiteSpace`) it reads "unknown error{what} at index {i}"; `what` is empty when decoding and " convert item" when encoding (Sources/Types.cs:255-257) |
| `Batch.Successes` | Sources/Types.cs:86-106 | the list the loop appends to (`events`, and `items` at Sources/Types.cs:242-262): the successful conversions in input order, never more of them than inputs |
| `Batch.ReportedError` | Sources/Types.cs:84-109 | the final value of `error`: null iff every conversion succeeds; otherwise the message for the lowest failing index, built from that element's reason |
| `Batch.FirstFailure` | Sources/Types.cs:94-103 | is absent iff every conversion succeeds; otherwise it is a failing index before which every conversion succeeded (the lowest one) |
| `Batch.FirstFailureUnique` | Sources/Types.cs:97-98 | the lowest failing index is fixed by that property |
| `Batch.SuccessesAppend` | Sources/Types.cs:106 | the successes of a concatenation are those of the first part followed by those of the second (input order is kept) |
| `Batch.FirstFailureSnoc` | Sources/Types.cs:97-101 | one more element keeps an earlier failure; otherwise its own failure, if any, becomes the first |
| `Batch.FirstErrorStable` | Sources/Types.cs:97-98 | once an error is recorded, later elements never overwrite it |
| `Batch.SuccessesComplete` | Sources/Types.cs:81-110 | as many successes as inputs iff every conversion succeeds, and then the successes are the converted values position by position |
| `Batch.SuccessesSound` | Sources/Types.cs:106 | every collected value is the result of converting some input |
| `Batch.CollectAll` | Sources/Types.cs:84-107 | the loop returns exactly the successes and the first-failure message |
| `Text.Decimal` | Sources/Types.cs:100 | the rendered index is a non-empty string of decimal digits with no leading zero |
| `Text.DecimalRoundTrip` | Sources/Types.cs:100 | the rendered index reads back as the index, so distinct indices give distinct messages |
| `Arguments.Lookup` | Sources/Program.cs:6-28 | absent iff the key occurs nowhere before the last argument; otherwise the argument right after the first occurrence of the key |
| `Arguments.ValueForKey` | Sources/Program.cs:6-28 | the array scan returns exactly `Lookup` of the arguments, and a result is an argument at position 1 or later; the array is not modified |
| `Arguments.LookupIgnoresTrailing` | Sources/Program.cs:19-24 | an argument appended after a last argument that is not the key does not change the key's value |
| `Arguments.Dispatch` | Sources/Program.cs:32-86 | the usage branch is taken iff no flag has a value; otherwise the branch is that of the first flag, in the order --read-file, --read-inline, --nft, --wallet, --reset, that has a value, and it binds that value |
| `Arguments.Run` | Sources/Program.cs:30-87 | takes the branch `Dispatch` chooses; exit code 0 iff some flag has a value, 1 iff none has |
| `Arguments.TrailingFlagFallsThrough` | Sources/Program.cs:70-85 | a flag given only as the last argument counts as absent: with no other flag present the program ends in usage with exit code 1 |
| `Arguments.TrailingResetAlone` | Sources/Program.cs:70-85 | the arguments `--reset` alone select the usage branch |

## Left out

- Console output: `Main`'s TODO and usage lines are not modelled. Only the branch taken and the exit code are.
- JSON serialisation: the `JsonIgnore(WhenWritingNull)` attributes on the record's optional fields. An absent field is `None` in memory.
- Null `Type` or `TokenId`: the model treats them as non-null strings, as the C# types declare. A null `Type` falls to the "invalid event" arm in C#, which the model cannot express.
- Null error content: errors carry a non-null message. Every message in the code is a non-null literal.
- The `Value is null` guards in both batch loops (Sources/Types.cs:95, 251): `Ok` always holds a value, so these guards cannot fire.
- Null list elements and foreign `IStreamEvent` implementations: the model's sequences hold only records and the three event variants, never null, and `Event` is a closed type. In C#, a null element of `items` makes `ToStreamEvent` throw a NullReferenceException at `switch (item.Type)` (Sources/Types.cs:41), so `ToStreamEvents` does not return; `DecodeAll` always returns. A null element of `events`, or an `IStreamEvent` implemented by some other class, matches none of the patterns at Sources/Types.cs:197-228 and reaches the default arm, so `ToStreamItems` reports "error convert item at index {i}: unknown event type" (Sources/Types.cs:232, 253-256); `EncodeAll` proves its error is always null.
- The `default` arm of `ToStreamItem` ("unknown event type", Sources/Types.cs:230-233): only null or foreign events reach it (previous line), so `Encode` is total. `EncodeAll` proves that the batch-encode error is never set, so neither its "error convert item at index {i}: …" message nor its "unknown error convert item at index {i}" message is ever produced.
- `StreamEventType` and each event's `Type` property: the variant of `Event` plays both roles, and `TypeName` gives its name.
- `Sources/Error.cs`: `Error`, `ErrorOr<T>` and `ErrorOrVoid` only store a value or a message. They are represented by `Result` and `Option`.
- A ledger (applying events to an ownership map, replaying the log, appending a batch, ownership queries), log persistence, reset and input sniffing are not part of this model. They do not appear in the modelled source files.
