# Swagger UI bundle: hashing, text codecs, streams and samples

The documentation of the connector ships two compiled Swagger UI bundles. Their algorithms are the most intricate code
of the repository: SHA-2 on pairs of 32-bit words, a UTF-8 codec and a streaming decoder, the stream classes with their
buffers and task queue, integer fields and search in byte buffers, and the generator of example values. This project
models them in Dafny and proves what they promise. The bundles are minified, with nearly all code on one line, so every
citation names that line, and the description names the webpack module, and often the one-letter function in it.

## The parts

**Numbers and bytes.** `JsNumbers` has the word operators of JavaScript on integers (ToInt32, `>>>`, `<<`, `&`, `|`,
`^`), defined bit by bit, and the sums that must stay exact in a double before `| 0`. `Bytes`, `BufferWords`,
`IntegerFields` and `ByteSearch` are the parts of Buffer (module 8764) on numbers and search.

**Hashing.** `Fips180` states the standard once for both word sizes: schedule, rounds, padding, digest. `Sha512Pairs`
and `Sha2Words` relate the bundle's expressions to it, `Sha512` and `Sha256` are the classes that update their state in
place, `Sha2Constants` holds the tables with the proof that they are the fractions of roots that the standard asks for,
`Primes` the list of primes with the proof that it is complete, and `Hash` (module 4189) fills blocks from arbitrary
chunks and pads at the end.

**Text.** `Unicode` states UTF-8 and UTF-16. `Utf8Codec`, `Utf8Decode` and `Utf8Encode` are the two directions of the
codec, `StringDecoder` (module 2553) the decoder that takes its input in chunks, and `IllFormedText` what it makes of any
bytes. `Utf16Bytes` and `Base64Text` are about its other two encodings.

**Streams.** `WritableModel` (module 4229) is the writable stream as a state machine over the operations of a caller, the
completions of the sink, the task queue and the return of user code; `WritableInvariant` proves what every step keeps,
`WritableRuns` what holds in every run, and `WritableLiveness` that a stream left alone settles. `WritableDrain` is about
`drain` and corking, `WritableGroups` about the order of callbacks, `WritableFinal` about `_final`. `Writable` is the
object whose methods do this in place. `NextTick` (module 4155) is the task queue, `BufferList` (module 7327) the linked
list of chunks, `Readable` and `HighWaterMark` (module 9481) the buffer of a readable stream.

**Samples and forms.** `Sampler` (module 4128 of swagger-ui.js, the same as 2473 of the other bundle) makes an example
from a schema. `SamplerMerge` says what merging two schemas means, `SamplerLaws` what a schema's fields decide, and
`SamplerRoom` when its properties fill the room there is. `FormKeys` (modules 1890 and 8223, the same as 6298 and 4624)
turns form entries into keys and back. `ObjectPrototype` lists what every object inherits.

## What turned out not to hold

- Two lead surrogates at the end of a string are encoded as one U+FFFD (`TwoLeadsLoseOne`). The exact condition is
  `EncodesExactlyWhen`.
- The encoder does not keep to a limit of 0, which it takes for none (`ZeroIsNoLimit`). The result stays within the limit
  if and only if that is not 0 or there is nothing to encode (`WithinExactlyWhen`).
- The streaming decoder and the one-shot decoder differ on text that stops within a character, exactly when two or more
  of its bytes are there (`CutOfTwoDiffers`, `StreamedAgainstOneShot`). On all other bytes they differ at most in how many
  U+FFFD stand in a row (`StreamedUpToRuns`).
- A form entry is lost exactly when a name has several entries and its first value is empty (`EmptyFirstIsLost`) or there
  is white space around the name (`PaddedNameIsLost`), and the conversion fails exactly when a name is that of a function
  that every object inherits (`InheritedNameFails`). The exact condition is `NoEntryIsLost`.
- A chunk that is pushed into a readable stream that owes a `readable` event is not always followed by one: not after a
  read that took everything which came while it ran (`AnEventIsLost`). The exact condition is `PushIsAnnounced`; a read
  that comes back without data restores it.
- The count of required properties still to be added never goes down without XML: the sampler looks under a key that is
  never set. Optional properties are therefore refused earlier than necessary, and places that maxProperties leaves can
  stay empty (`PlaceStaysEmpty`). The exact condition is `FillsUpExactlyWhen`.

## Model

| member | source | states |
|---|---|---|
| JsNumbers.ChoiceForms | docs/swaggerui/swagger-ui-es-bundle-core.js:2 | 7816 and 7499: `z ^ (x & (y ^ z))` is the Ch of section 4.1 of FIPS 180-4, for every word size |
| JsNumbers.MajorityForms | docs/swaggerui/swagger-ui-es-bundle-core.js:2 | 7816 and 7499: the form with two ANDs and two ORs is the Maj of section 4.1, for every word size |
| BufferWords.ReadInt32BEValue | docs/swaggerui/swagger-ui-es-bundle-core.js:2 | 8764, readInt32BE: the shifts and ORs of four bytes are their big-endian number |
| BufferWords.WriteUInt32BE | docs/swaggerui/swagger-ui-es-bundle-core.js:2 | 8764, writeUInt32BE: takes the offset modulo 2^32 and refuses exactly what is then out of range; otherwise stores the big-endian bytes and nothing else |
| BufferWords.WriteInt32BE | docs/swaggerui/swagger-ui-es-bundle-core.js:2 | 8764, writeInt32BE: the same for signed values, as two's complement |
| BufferWords.WriteWords | docs/swaggerui/swagger-ui-es-bundle-core.js:2 | 7816 and 7499, `_hash`: the row of writes lays the words out one after the other |
| Sha2Words.FunnelMeaning | docs/swaggerui/swagger-ui-es-bundle-core.js:2 | 7816: the OR of `x >>> n` and `y << (32 - n)` is the low word of the 64-bit number (y, x) shifted right by n |
| Sha2Words.FunnelIsRotation | docs/swaggerui/swagger-ui-es-bundle-core.js:2 | 7499: the same expression with x = y is the 32-bit rotation |
| Sha2Words.ChooseMajorityWords | docs/swaggerui/swagger-ui-es-bundle-core.js:2 | 7816 and 7499: Ch and Maj on signed 32-bit words are those of FIPS 180-4 on the unsigned ones |
| Sha512Pairs.AddPairs | docs/swaggerui/swagger-ui-es-bundle-core.js:2 | 7816, `v`: the comparison of the low sum with one addend is exactly the carry, so the pair sum is addition modulo 2^64 |
| Sha512Pairs.RotateShort | docs/swaggerui/swagger-ui-es-bundle-core.js:2 | 7816: the pair of funnels is the 64-bit rotation by less than 32 |
| Sha512Pairs.RotateLong | docs/swaggerui/swagger-ui-es-bundle-core.js:2 | 7816: with the words exchanged it is the rotation by 32 or more |
| Sha512Pairs.ShiftShort | docs/swaggerui/swagger-ui-es-bundle-core.js:2 | 7816: the pair of shifts is the 64-bit shift |
| Sha512Pairs.SigmaPairs | docs/swaggerui/swagger-ui-es-bundle-core.js:2 | 7816: both halves of the Sigma functions together are those of section 4.1.3 of FIPS 180-4 |
| Sha512Pairs.GammaPairs | docs/swaggerui/swagger-ui-es-bundle-core.js:2 | 7816: the same for the sigma functions of the schedule |
| Sha512Pairs.ChooseMajorityPairs | docs/swaggerui/swagger-ui-es-bundle-core.js:2 | 7816: Ch and Maj word by word are Ch and Maj of the 64-bit numbers |
| Sha512.PlusMeaning | docs/swaggerui/swagger-ui-es-bundle-core.js:2 | 7816: an addition of pairs with carry is addition modulo 2^64, whichever addend the carry is compared with |
| Sha512.ScheduleStep | docs/swaggerui/swagger-ui-es-bundle-core.js:2 | 7816: a schedule entry computed on pairs is W_t of section 6.4.2 |
| Sha512.RoundOnHalves | docs/swaggerui/swagger-ui-es-bundle-core.js:2 | 7816: a round on sixteen 32-bit variables is the round of section 6.4.2 on eight 64-bit ones |
| Sha512.FinalAddition | docs/swaggerui/swagger-ui-es-bundle-core.js:2 | 7816: adding the variables to the state is the last step of section 6.4.2 |
| Sha512.State.FillSchedule | docs/swaggerui/swagger-ui-es-bundle-core.js:2 | 7816, `_update`: the array `_w` filled in place holds the whole message schedule |
| Sha512.State.Update | docs/swaggerui/swagger-ui-es-bundle-core.js:2 | 7816, `_update`: for every state and block the new state is the 64-bit compression of the old one, through all 80 rounds |
| Sha512.State.HashBytes | docs/swaggerui/swagger-ui-es-bundle-core.js:2 | 7816, `_hash`: the result is the sixteen words as big-endian bytes |
| Sha256.SigmaWords | docs/swaggerui/swagger-ui-es-bundle-core.js:2 | 7499: the Sigma functions are those of section 4.1.2 |
| Sha256.GammaWords | docs/swaggerui/swagger-ui-es-bundle-core.js:2 | 7499: the sigma functions are those of section 4.1.2 |
| Sha256.ScheduleStep | docs/swaggerui/swagger-ui-es-bundle-core.js:2 | 7499: a schedule entry is W_t of section 6.2.2, and the sum before the OR with 0 stays exact in a double |
| Sha256.RoundOnWords | docs/swaggerui/swagger-ui-es-bundle-core.js:2 | 7499: a round is the round of section 6.2.2, with exact sums before the OR with 0 |
| Sha256.FinalAddition | docs/swaggerui/swagger-ui-es-bundle-core.js:2 | 7499: adding the variables to the state is the last step of section 6.2.2 |
| Sha256.State.FillSchedule | docs/swaggerui/swagger-ui-es-bundle-core.js:2 | 7499, `_update`: the schedule array filled in place holds the whole message schedule |
| Sha256.State.Update | docs/swaggerui/swagger-ui-es-bundle-core.js:2 | 7499, `_update`: for every state and block the new state is the compression of section 6.2.2 |
| Sha256.State.HashBytes | docs/swaggerui/swagger-ui-es-bundle-core.js:2 | 7499, `_hash`: the result is the eight words as big-endian bytes |
| Sha2Constants.Constants512 | docs/swaggerui/swagger-ui-es-bundle-core.js:2 | 7816: the 160 table entries are the first 64 bits of the fractions of the cube roots of the first 80 primes (section 4.2.3) |
| Sha2Constants.Constants256 | docs/swaggerui/swagger-ui-es-bundle-core.js:2 | 7499: the 64 table entries are the first 32 bits of the fractions of the cube roots of the first 64 primes (section 4.2.2) |
| Primes.AreTheFirstPrimes | docs/swaggerui/swagger-ui-es-bundle-core.js:2 | 7816 and 7499: the list that the tables are compared with is in ascending order, has 80 entries, and has exactly the primes up to 409 |
| Sha2Constants.InitialValues | docs/swaggerui/swagger-ui-es-bundle-core.js:2 | 7816 and 7499, `init`: the initial values are the fractions of square roots of sections 5.3.3 and 5.3.5 |
| Hash.AppendBlock | docs/swaggerui/swagger-ui-es-bundle-core.js:2 | 4189 against the standard: hashing one block more is one compression more |
| Fips180.PadZeroBitsLeast | docs/swaggerui/swagger-ui-es-bundle-core.js:2 | 4189, `digest`, against sections 5.1.1 and 5.1.2: the number of zero bits of the padding is the least that fills up a block |
| Hash.PadInOneBlock | docs/swaggerui/swagger-ui-es-bundle-core.js:2 | 4189, `digest`: with room for the length the rest, the mark, zeros and the length make exactly the padded message of sections 5.1.1 and 5.1.2 |
| Hash.PadInTwoBlocks | docs/swaggerui/swagger-ui-es-bundle-core.js:2 | 4189, `digest`: without room it takes one more block, again exactly as the standard says |
| Hash.LengthInHalves | docs/swaggerui/swagger-ui-es-bundle-core.js:2 | 4189, `digest`: the high and low words written are the bit length |
| Hash.RunAppends | docs/swaggerui/swagger-ui-es-bundle-core.js:2 | 4189, `update`: the block handed on completes the bytes before it |
| Hash.Hash.Sha256 | docs/swaggerui/swagger-ui-es-bundle-core.js:2 | 4189 with 7499: a new SHA-256 object stands for the empty message |
| Hash.Hash.Sha512 | docs/swaggerui/swagger-ui-es-bundle-core.js:2 | 4189 with 7816: a new SHA-512 object stands for the empty message |
| Hash.Hash.TakeIn | docs/swaggerui/swagger-ui-es-bundle-core.js:2 | 4189, inner turn of `update`: a piece of the data goes into the block, which is hashed when it is full |
| Hash.Hash.Update | docs/swaggerui/swagger-ui-es-bundle-core.js:2 | 4189, `update`: after any chunk the object stands for the old message followed by the chunk |
| Hash.WriteLength | docs/swaggerui/swagger-ui-es-bundle-core.js:2 | 4189, `digest`: what is written into the block is the length field of the standard |
| Hash.Hash.PadWithZeros | docs/swaggerui/swagger-ui-es-bundle-core.js:2 | 4189, `digest`: mark and zeros, with one block handed on in between when it is needed |
| Hash.Hash.Digest | docs/swaggerui/swagger-ui-es-bundle-core.js:2 | 4189, `digest`: the result is the SHA-256 or SHA-512 of FIPS 180-4 of all the bytes given to `update`, however they were cut |
| Utf8Codec.Encoded | docs/swaggerui/swagger-ui-es-bundle-core.js:2 | 8764, `H`: the shifts, masks and ORs give the bytes of section 3 of RFC 3629 |
| Utf8Codec.JoinPair | docs/swaggerui/swagger-ui-es-bundle-core.js:2 | 8764, `H`: the expression for a surrogate pair is its scalar value |
| Utf8Codec.ThreeBytes | docs/swaggerui/swagger-ui-es-bundle-core.js:2 | 8764, `A`: the masks and shifts of three bytes are their number |
| Utf8Codec.FourBytes | docs/swaggerui/swagger-ui-es-bundle-core.js:2 | 8764, `A`: the same for four bytes |
| Utf8Codec.Emitted | docs/swaggerui/swagger-ui-es-bundle-core.js:2 | 8764, `A`: the units pushed for a code point are its UTF-16 form |
| Utf8Decode.AcceptedIsChar | docs/swaggerui/swagger-ui-es-bundle-core.js:2 | 8764, `A`: a code point is accepted if and only if the bytes begin with its encoding of sections 3 and 4 of RFC 3629 |
| Utf8Decode.DecodesUtf8 | docs/swaggerui/swagger-ui-es-bundle-core.js:2 | 8764, `A`: in front of anything the encoding of any scalars is decoded to these scalars |
| Utf8Decode.WellFormedIsUtf8 | docs/swaggerui/swagger-ui-es-bundle-core.js:2 | 8764, `A`: a well-formed sequence is the encoding of what is decoded from it |
| Utf8Decode.AAppend | docs/swaggerui/swagger-ui-es-bundle-core.js:2 | 8764, `A`: behind well-formed bytes decoding goes on as from the start |
| Utf8Decode.ANeverSplitsPairs | docs/swaggerui/swagger-ui-es-bundle-core.js:2 | 8764, `A`: whatever the bytes are, no unpaired surrogate comes out |
| Utf8Decode.ReplacesOneByte | docs/swaggerui/swagger-ui-es-bundle-core.js:2 | 8764, `A`: where no character starts, one byte, whatever it is, is read as U+FFFD, and decoding goes on behind it |
| Utf8Decode.ReadsItsChar | docs/swaggerui/swagger-ui-es-bundle-core.js:2 | 8764, `A`: where the encoding of a character starts, that character is read, and decoding goes on behind it |
| Utf8Decode.NothingElseIsA | docs/swaggerui/swagger-ui-es-bundle-core.js:2 | 8764, `A`: these two properties determine the result on all bytes |
| Utf8Decode.ReadOne | docs/swaggerui/swagger-ui-es-bundle-core.js:2 | 8764, `A`: one turn of the loop reads the code point and the length that the specification says, within the slice |
| Utf8Decode.DecodeUtf8 | docs/swaggerui/swagger-ui-es-bundle-core.js:2 | 8764, `A`: the loop computes that function of the slice for all bounds, and ends |
| Utf8Encode.FitIsMaximal | docs/swaggerui/swagger-ui-es-bundle-core.js:2 | 8764, `H` with a limit other than 0: whole pushes only, within the limit, and one more would not fit |
| Utf8Encode.WritesWholeCharacters | docs/swaggerui/swagger-ui-es-bundle-core.js:2 | 8764, `H` with a limit other than 0: the encoding of as many whole characters as fit, unless the string ends with two lead surrogates |
| Utf8Encode.WithinExactlyWhen | docs/swaggerui/swagger-ui-es-bundle-core.js:2 | 8764, `H`: the result stays within the limit given if and only if that is not 0 or the string is empty |
| Utf8Encode.ZeroIsNoLimit | docs/swaggerui/swagger-ui-es-bundle-core.js:2 | 8764, `H`, first statement: with the limit 0 a byte is written all the same |
| Utf8Encode.EncodesExactlyWhen | docs/swaggerui/swagger-ui-es-bundle-core.js:2 | 8764, `H`: the result is the encoding with U+FFFD for every unpaired surrogate if and only if the string does not end with two lead surrogates |
| Utf8Encode.TwoLeadsLoseOne | docs/swaggerui/swagger-ui-es-bundle-core.js:2 | 8764, `H`: two lead surrogates at the end give one U+FFFD instead of two |
| Utf8Encode.TheLastIsLost | docs/swaggerui/swagger-ui-es-bundle-core.js:2 | 8764, `H`: a string that ends with two lead surrogates is encoded without its last character |
| Utf8Encode.StringRoundTrip | docs/swaggerui/swagger-ui-es-bundle-core.js:2 | 8764: decoding the encoding of a string without unpaired surrogates gives the string |
| Utf8Encode.BytesRoundTrip | docs/swaggerui/swagger-ui-es-bundle-core.js:2 | 8764: encoding what is decoded from well-formed bytes gives the bytes |
| Utf8Encode.EncodeUtf8 | docs/swaggerui/swagger-ui-es-bundle-core.js:2 | 8764, `H`: the loop with its held surrogate computes that function without a limit, with 0, which is none, and with any other |
| StringDecoder.CheckIncomplete | docs/swaggerui/swagger-ui-es-bundle-core.js:2 | 2553: what the look at the last three bytes reports is a proper part of a character of at most four bytes, inside the slice |
| StringDecoder.WriteConverts | docs/swaggerui/swagger-ui-es-bundle-core.js:2 | 2553, `write` for UTF-16LE and base64: after it the output is the conversion of the bytes seen but those held |
| StringDecoder.StreamedIsOneShot | docs/swaggerui/swagger-ui-es-bundle-core.js:2 | 2553: for UTF-16LE and base64, any bytes and any chunks, the streamed output is that of the whole input |
| StringDecoder.WriteOnPrefix | docs/swaggerui/swagger-ui-es-bundle-core.js:2 | 2553, `write` for UTF-8: the whole characters are decoded and exactly the cut one is held, with the right counts |
| StringDecoder.FeedOnPrefix | docs/swaggerui/swagger-ui-es-bundle-core.js:2 | 2553: the same after any number of chunks |
| StringDecoder.StreamedAgainstOneShot | docs/swaggerui/swagger-ui-es-bundle-core.js:2 | 2553 against `A`: on text that is well-formed or stops within a character, the streamed output is the one-shot one if and only if at most one byte of a cut character is there, for any chunks |
| StringDecoder.StreamedOnWellFormed | docs/swaggerui/swagger-ui-es-bundle-core.js:2 | 2553 against `A`: on all well-formed text and for any chunks the streamed output is the one-shot one |
| StringDecoder.PrefixMeaning | docs/swaggerui/swagger-ui-es-bundle-core.js:2 | 2553: the texts spoken of are exactly those that some further bytes make well-formed |
| IllFormedText.BeforeNoTail | docs/swaggerui/swagger-ui-es-bundle-core.js:2 | 8764, `A`, on any bytes: before a byte that is no continuation byte the decoding can be cut |
| IllFormedText.FeedStands | docs/swaggerui/swagger-ui-es-bundle-core.js:2 | 2553 on any bytes and chunks: the output stands for the bytes before those held, up to runs of U+FFFD, and what is held begins a character |
| IllFormedText.StreamedUpToRuns | docs/swaggerui/swagger-ui-es-bundle-core.js:2 | 2553 against `A`: for any bytes, malformed ones too, and any chunks the streamed output is the one-shot one up to how many U+FFFD stand in a row |
| IllFormedText.GivenUpOnce | docs/swaggerui/swagger-ui-es-bundle-core.js:2 | 2553, `fillLast`: a character given up gives one U+FFFD, however much of it is there, and what follows is decoded as by a new decoder |
| IllFormedText.FlushedOnce | docs/swaggerui/swagger-ui-es-bundle-core.js:2 | 2553, `end`: what is held then gives one U+FFFD |
| StringDecoder.CutOfTwoDiffers | docs/swaggerui/swagger-ui-es-bundle-core.js:2 | 2553 against `A`: two bytes of a three-byte character at the end give one U+FFFD streamed and two at once |
| StringDecoder.DecodeUtf16 | docs/swaggerui/swagger-ui-es-bundle-core.js:2 | 8764, `T`: the loop over pairs of bytes computes the function that the next rows are about |
| Utf16Bytes.TAt | docs/swaggerui/swagger-ui-es-bundle-core.js:2 | 8764, `T`: unit number i is the little-endian number of the bytes 2i and 2i + 1 |
| Utf16Bytes.TLength | docs/swaggerui/swagger-ui-es-bundle-core.js:2 | 8764, `T`: there are half as many units as bytes, and no unit for an odd one |
| Utf16Bytes.EncodeUtf16 | docs/swaggerui/swagger-ui-es-bundle-core.js:2 | 8764, `C`: low and high byte of each unit, for the units whose both bytes fit |
| Utf16Bytes.UnitsReadBack | docs/swaggerui/swagger-ui-es-bundle-core.js:2 | 8764, `C` and `T`: what one writes the other reads |
| Utf16Bytes.BytesWrittenBack | docs/swaggerui/swagger-ui-es-bundle-core.js:2 | 8764, `T` and `C`: what is read out of a whole number of units is written back |
| Utf16Bytes.OddByteIsDropped | docs/swaggerui/swagger-ui-es-bundle-core.js:2 | 8764, `T`: an odd byte at the end makes no difference |
| Utf16Bytes.HoldsWhatIsCut | docs/swaggerui/swagger-ui-es-bundle-core.js:2 | 2553, `text` for UTF-16LE: after any chunks nothing is held but an odd byte, exactly if there is one, and a lead surrogate |
| Base64Text.Base64ReadsBack | docs/swaggerui/swagger-ui-es-bundle-core.js:2 | 2553, `text` for base64: a decoder by Table 1 of RFC 4648 gives the bytes back |
| Base64Text.Base64Length | docs/swaggerui/swagger-ui-es-bundle-core.js:2 | 2553, `text` for base64: four digits for every three bytes begun |
| Base64Text.HoldsTheRemainder | docs/swaggerui/swagger-ui-es-bundle-core.js:2 | 2553, `text` for base64: after any chunks exactly what is over a multiple of three bytes is held |
| StringDecoder.Decoder.constructor | docs/swaggerui/swagger-ui-es-bundle-core.js:2 | 2553: a new decoder holds nothing |
| StringDecoder.Decoder.ExtraBytes | docs/swaggerui/swagger-ui-es-bundle-core.js:2 | 2553, the continuation check of `fillLast`: fails exactly at the first byte that is no continuation byte, and sets lastNeed accordingly |
| StringDecoder.Decoder.FillLast | docs/swaggerui/swagger-ui-es-bundle-core.js:2 | 2553, `fillLast`: completes the character, gives it up, or takes all bytes in; the pending state keeps 1 <= lastNeed < lastTotal <= 4 |
| StringDecoder.Decoder.Text | docs/swaggerui/swagger-ui-es-bundle-core.js:2 | 2553, `text` in its three forms: splits off what has to be held |
| StringDecoder.Decoder.Write | docs/swaggerui/swagger-ui-es-bundle-core.js:2 | 2553, `write`: output and new state are those of the specification, for every state and chunk, malformed bytes too |
| StringDecoder.Decoder.End | docs/swaggerui/swagger-ui-es-bundle-core.js:2 | 2553, `end`: adds what the held bytes become |
| StringDecoder.DecodeStream | docs/swaggerui/swagger-ui-es-bundle-core.js:2 | 2553: a decoder that is written every chunk and ended gives the streamed output |
| WritableInvariant.ClearBufferKeeps | docs/swaggerui/swagger-ui-es-bundle-core.js:2 | 4229, `I`: on the `_writev` path and in the loop, synchronous or not, clearing the buffer keeps order, sizes, counts and owed callbacks |
| WritableInvariant.FinishStepInv | docs/swaggerui/swagger-ui-es-bundle-core.js:2 | 4229, `T`: after the check the stream has finished or something is left that will check again |
| WritableInvariant.WriteInv | docs/swaggerui/swagger-ui-es-bundle-core.js:2 | 4229, `write`: keeps the invariant |
| WritableInvariant.UncorkInv | docs/swaggerui/swagger-ui-es-bundle-core.js:2 | 4229, `uncork`: keeps the invariant |
| WritableInvariant.EndInv | docs/swaggerui/swagger-ui-es-bundle-core.js:2 | 4229, `end`: keeps the invariant |
| WritableInvariant.SinkDoneInv | docs/swaggerui/swagger-ui-es-bundle-core.js:2 | 4229, `onwrite`: a completion outside a call keeps the invariant |
| WritableInvariant.TickInv | docs/swaggerui/swagger-ui-es-bundle-core.js:2 | 4229, `k` and `_final` on the next tick: keep the invariant |
| WritableInvariant.ResumeInv | docs/swaggerui/swagger-ui-es-bundle-core.js:2 | 4229: what follows a callback or `drain` listener keeps the invariant, also after re-entrant operations |
| WritableInvariant.FinalDoneInv | docs/swaggerui/swagger-ui-es-bundle-core.js:2 | 4229: the callback of `_final` keeps the invariant |
| WritableInvariant.StepInv | docs/swaggerui/swagger-ui-es-bundle-core.js:2 | 4229: every event keeps the invariant |
| WritableInvariant.RunInv | docs/swaggerui/swagger-ui-es-bundle-core.js:2 | 4229: every state that any interleaving of events reaches satisfies it |
| WritableRuns.AcceptedIsOffered | docs/swaggerui/swagger-ui-es-bundle-core.js:2 | 4229: accepted is exactly what is written before the first `end`, and its last chunk |
| WritableRuns.FirstInFirstOut | docs/swaggerui/swagger-ui-es-bundle-core.js:2 | 4229: in every run the chunks given to the sink, then those buffered, are what was written, in that order; the sink is never called while a call is outstanding |
| WritableRuns.CountersAgree | docs/swaggerui/swagger-ui-es-bundle-core.js:2 | 4229: `length` is what is in flight and buffered, bufferedRequestCount the length of the list; a buffered chunk means writing or corked |
| WritableRuns.CallbacksFollowTheSink | docs/swaggerui/swagger-ui-es-bundle-core.js:2 | 4229: a callback runs at most once, after its chunk went to the sink and is no longer in flight |
| WritableRuns.FinishComesOnceAndLast | docs/swaggerui/swagger-ui-es-bundle-core.js:2 | 4229: `finish` at most once, after `end`, `prefinish`, all chunks and all callbacks, with pendingcb 0 |
| WritableRuns.NoLostWakeUp | docs/swaggerui/swagger-ui-es-bundle-core.js:2 | 4229: when nothing is left to happen, an uncorked stream has given every chunk to the sink and run every callback; it has finished if it was ended, and owes no `drain` if not |
| WritableRuns.SettledWhileCorked | docs/swaggerui/swagger-ui-es-bundle-core.js:2 | 4229: an ended stream with nothing left to happen has finished if and only if the buffer is empty |
| WritableDrain.OwedExactlyWhen | docs/swaggerui/swagger-ui-es-bundle-core.js:2 | 4229: a `drain` is owed if and only if some write returned false and no `drain` event came since |
| WritableDrain.DrainComes | docs/swaggerui/swagger-ui-es-bundle-core.js:2 | 4229: after a write that returned false a `drain` event comes, if the stream is left to settle and is neither corked nor ended |
| WritableDrain.DrainsAreEarned | docs/swaggerui/swagger-ui-es-bundle-core.js:2 | 4229: there are never more `drain` events than writes that returned false |
| WritableDrain.DrainMeansEmpty | docs/swaggerui/swagger-ui-es-bundle-core.js:2 | 4229: a `drain` event comes only with nothing in flight or buffered |
| WritableDrain.StepDrains | docs/swaggerui/swagger-ui-es-bundle-core.js:2 | 4229: what one event does about `drain`; with the event, the callback of that write has not run yet |
| WritableDrain.OperationsAreSilent | docs/swaggerui/swagger-ui-es-bundle-core.js:2 | 4229: however the sink behaves, no callback and no `drain` listener runs inside `write`, `cork`, `uncork` or `end` |
| WritableDrain.CompletionIsHeard | docs/swaggerui/swagger-ui-es-bundle-core.js:2 | 4229, `onwrite`: a completion outside a call runs the `drain` listener or the callback at once |
| WritableDrain.CorkHolds | docs/swaggerui/swagger-ui-es-bundle-core.js:2 | 4229: as long as the stream stays corked, the sink gets nothing |
| WritableDrain.CorksAreCounted | docs/swaggerui/swagger-ui-es-bundle-core.js:2 | 4229: the stream is corked as often as `cork` was called and not taken back by `uncork` or `end` |
| WritableGroups.CalledInOrder | docs/swaggerui/swagger-ui-es-bundle-core.js:2 | 4229: of chunks that went to the sink in one call, the callbacks run in the order of writing, whatever happens in between |
| WritableGroups.StepPasses | docs/swaggerui/swagger-ui-es-bundle-core.js:2 | 4229: what one event does to the callbacks that are owed: new ones come with chunks for the sink, and at most one is called |
| WritableGroups.OneChunkACall | docs/swaggerui/swagger-ui-es-bundle-core.js:2 | 4229, `I`: without `_writev` the sink gets one chunk with every call |
| WritableGroups.UncorkGivesAll | docs/swaggerui/swagger-ui-es-bundle-core.js:2 | 4229, `uncork`: with `_writev`, two or more buffered chunks go to the sink in one call |
| WritableFinal.FinalAnswersOnce | docs/swaggerui/swagger-ui-es-bundle-core.js:2 | 4229, `T`: with `_final`, `prefinish` comes exactly with its answer, of which there is one at most; without it none is awaited |
| WritableFinal.FinishAwaitsFinal | docs/swaggerui/swagger-ui-es-bundle-core.js:2 | 4229: a stream with `_final` finishes only after its answer |
| WritableLiveness.InternalStepsEnd | docs/swaggerui/swagger-ui-es-bundle-core.js:2 | 4229: every completion, task or return uses up some of what is still to happen |
| WritableLiveness.UnsettledCanStep | docs/swaggerui/swagger-ui-es-bundle-core.js:2 | 4229: as long as something is open, one of them is possible, and otherwise none |
| WritableLiveness.LeftAloneItFinishes | docs/swaggerui/swagger-ui-es-bundle-core.js:2 | 4229: after any run, completions, tasks and returns end after a bounded number, and then the stream has finished if and only if it was ended |
| WritableLiveness.CanSettle | docs/swaggerui/swagger-ui-es-bundle-core.js:2 | 4229: after any run there is a continuation to that end |
| Writable.WritableStream.constructor | docs/swaggerui/swagger-ui-es-bundle-core.js:2 | 4229: a new stream is in the initial state |
| Writable.WritableStream.DoWrite | docs/swaggerui/swagger-ui-es-bundle-core.js:2 | 4229, `A`: the fields afterwards are those of the state machine |
| Writable.WritableStream.OnWrite | docs/swaggerui/swagger-ui-es-bundle-core.js:2 | 4229, `onwrite` in place |
| Writable.WritableStream.ClearBuffer | docs/swaggerui/swagger-ui-es-bundle-core.js:2 | 4229, `I` in place: the fast path and the slow one |
| Writable.WritableStream.OneByOne | docs/swaggerui/swagger-ui-es-bundle-core.js:2 | 4229, the loop of the slow path: stops at the first chunk that the sink does not complete at once |
| Writable.WritableStream.RunAfterWrite | docs/swaggerui/swagger-ui-es-bundle-core.js:2 | 4229, `k` in place, up to the user code |
| Writable.WritableStream.FinishStep | docs/swaggerui/swagger-ui-es-bundle-core.js:2 | 4229, `T` in place |
| Writable.WritableStream.Write | docs/swaggerui/swagger-ui-es-bundle-core.js:2 | 4229, `write` in place, and its result: false from the high-water mark on |
| Writable.WritableStream.Uncork | docs/swaggerui/swagger-ui-es-bundle-core.js:2 | 4229, `uncork` in place |
| Writable.WritableStream.End | docs/swaggerui/swagger-ui-es-bundle-core.js:2 | 4229, `end` in place |
| Writable.WritableStream.Tick | docs/swaggerui/swagger-ui-es-bundle-core.js:2 | 4229 with 4155: one queued task |
| Writable.WritableStream.Resume | docs/swaggerui/swagger-ui-es-bundle-core.js:2 | 4229: the rest of a function after user code |
| Writable.Replay | docs/swaggerui/swagger-ui-es-bundle-core.js:2 | 4229: an object to which any run of events happens ends in the state of that run, so the results on runs hold of it |
| NextTick.OrderByLevels | docs/swaggerui/swagger-ui-es-bundle-core.js:2 | 4155: in the plain queue a task starts after all that was queued before, and what a group enqueues comes after the group |
| NextTick.OrderIsEverything | docs/swaggerui/swagger-ui-es-bundle-core.js:2 | 4155: the plain queue starts every task once, also those enqueued on the way |
| NextTick.TickQueue.Enqueue | docs/swaggerui/swagger-ui-es-bundle-core.js:2 | 4155, `nextTick`: appends, and sets a timer exactly for the first task of an idle queue |
| NextTick.TickQueue.EnqueueFromOutside | docs/swaggerui/swagger-ui-es-bundle-core.js:2 | 4155: keeps the invariant |
| NextTick.TickQueue.RunBatch | docs/swaggerui/swagger-ui-es-bundle-core.js:2 | 4155, the inner loop of `f`: the unstarted tasks are `u[c+1..]` and then `s`, up to a task that throws |
| NextTick.TickQueue.DrainQueue | docs/swaggerui/swagger-ui-es-bundle-core.js:2 | 4155, `f`: without a throw everything is started; with one the rest and the cleaning timer are left; the order of starts is that of the plain queue |
| NextTick.TickQueue.CleanUpNextTick | docs/swaggerui/swagger-ui-es-bundle-core.js:2 | 4155, `d`: what a throwing task left comes before what was enqueued since |
| NextTick.TickQueue.FireTimers | docs/swaggerui/swagger-ui-es-bundle-core.js:2 | 4155: when the timers have fired, every task ever enqueued was started exactly once, in the order of the plain queue, however many threw, and no timer is left |
| BufferList.RestIsSuffix | docs/swaggerui/swagger-ui-es-bundle-core.js:2 | 7327: taking n bytes off the chunks leaves exactly the other bytes |
| BufferList.RestAt | docs/swaggerui/swagger-ui-es-bundle-core.js:2 | 7327: where the cut falls in the list of chunks |
| BufferList.ChunkList.Push | docs/swaggerui/swagger-ui-es-bundle-core.js:2 | 7327, `push`: appends a chunk and keeps links, `tail` and `length` |
| BufferList.ChunkList.Unshift | docs/swaggerui/swagger-ui-es-bundle-core.js:2 | 7327, `unshift`: the same at the front |
| BufferList.ChunkList.Shift | docs/swaggerui/swagger-ui-es-bundle-core.js:2 | 7327, `shift`: the first chunk, or nothing |
| BufferList.ChunkList.Clear | docs/swaggerui/swagger-ui-es-bundle-core.js:2 | 7327, `clear` |
| BufferList.ChunkList.Concat | docs/swaggerui/swagger-ui-es-bundle-core.js:2 | 7327, `concat`: the bytes in one buffer of the size asked for |
| BufferList.ChunkList.Consume | docs/swaggerui/swagger-ui-es-bundle-core.js:2 | 7327, `consume`: exactly the first n bytes, and the list keeps exactly the rest |
| BufferList.ChunkList.GetString | docs/swaggerui/swagger-ui-es-bundle-core.js:2 | 7327, `_getString`: across nodes, also stopping inside one |
| BufferList.ChunkList.GetBuffer | docs/swaggerui/swagger-ui-es-bundle-core.js:2 | 7327, `_getBuffer`: the same with copies into one buffer |
| HighWaterMark.SmearDoubles | docs/swaggerui/swagger-ui-es-bundle-core.js:2 | 9481, `R`: one step doubles the row of ones at the top |
| HighWaterMark.RaisedIsLeastPower | docs/swaggerui/swagger-ui-es-bundle-core.js:2 | 9481, `R`: below 2^30 the least power of two that is not less than n, and 2^30 from there on |
| Readable.ReadableStream.Push | docs/swaggerui/swagger-ui-es-bundle-core.js:2 | 9481, `push`: a chunk before the end is handed out at once exactly when the stream flows, nothing is buffered and no `_read` is running, and goes behind the buffer otherwise; an empty one and one after the end change no data; exactly which `readable` event is announced or emitted; the result says whether more is wanted |
| Readable.ReadableStream.HowMuchToRead | docs/swaggerui/swagger-ui-es-bundle-core.js:2 | 9481: how many bytes a read takes; the mark is raised exactly when the number is above it and the stream is not empty at its end; a `readable` event is asked for exactly when the bytes are missing and may come |
| Readable.ReadableStream.FromList | docs/swaggerui/swagger-ui-es-bundle-core.js:2 | 9481, `B`: all of the buffer or its first n bytes, the rest staying |
| Readable.ReadableStream.Produce | docs/swaggerui/swagger-ui-es-bundle-core.js:2 | 9481, `_read`: the chunks pushed before the end come into the buffer in order, and none is handed out directly |
| Readable.ReadableStream.Read | docs/swaggerui/swagger-ui-es-bundle-core.js:2 | 9481, `read`: of the bytes buffered before and those that `_read` pushed, exactly those come out that are due, and the others stay; exactly when `_read` is called, and when `end` is queued |
| Readable.ReadableStream.ReadableTick | docs/swaggerui/swagger-ui-es-bundle-core.js:2 | 9481, `emitReadable_`: the event is emitted exactly if there is something to read |
| Readable.PushIsAnnounced | docs/swaggerui/swagger-ui-es-bundle-core.js:2 | 9481: a chunk pushed into a stream that owes a `readable` event is followed by one if and only if none is announced without a task |
| Readable.AnEventIsLost | docs/swaggerui/swagger-ui-es-bundle-core.js:2 | 9481: a read that takes all that `_read` pushed meanwhile leaves the next chunk without a `readable` event |
| Readable.Due | docs/swaggerui/swagger-ui-es-bundle-core.js:2 | 9481, `read`: none are due exactly when none are asked for, none are there, or n are asked for that may still come |
| Readable.ReadableStream.Resume | docs/swaggerui/swagger-ui-es-bundle-core.js:2 | 9481, `resume`: flows from then on unless someone listens for `readable`, and a task is queued |
| Readable.ReadableStream.Pause | docs/swaggerui/swagger-ui-es-bundle-core.js:2 | 9481, `pause`: stops, and emits the event if it had not been stopped before |
| Readable.ReadableStream.OnReadable | docs/swaggerui/swagger-ui-es-bundle-core.js:2 | 9481, `on` for `readable`: the first listener stops the flow and is told of what is buffered |
| Readable.ReadableStream.Flow | docs/swaggerui/swagger-ui-es-bundle-core.js:2 | 9481, the loop of `flow`: ends, and unless a listener stops it every byte pushed has been handed out and at the end of the data `end` is queued |
| Readable.ReadableStream.ResumeTick | docs/swaggerui/swagger-ui-es-bundle-core.js:2 | 9481, what `resume` queues: what had been pushed is handed out, in order, unless the flow is stopped |
| Readable.ReadableStream.EndReadableTick | docs/swaggerui/swagger-ui-es-bundle-core.js:2 | 9481, what `read` queues at the end: `end` is emitted if it has not been, and by then every byte pushed was handed out |
| Readable.ReadToTheEnd | docs/swaggerui/swagger-ui-es-bundle-core.js:2 | 9481: a consumer that reads with any sizes until nothing comes, after the end of the data, gets every byte and then `end`, once |
| IntegerFields.BorrowStep | docs/swaggerui/swagger-ui-es-bundle-core.js:2 | 8764: the flag `o` is 1 exactly when truncating and flooring the quotient differ, from byte to byte |
| IntegerFields.StoredByte | docs/swaggerui/swagger-ui-es-bundle-core.js:2 | 8764: the byte stored is that of two's complement |
| IntegerFields.WriteIntLE | docs/swaggerui/swagger-ui-es-bundle-core.js:2 | 8764, writeIntLE: takes the offset modulo 2^32 and refuses exactly what does not fit; otherwise stores two's complement and leaves all other bytes |
| IntegerFields.WriteIntBE | docs/swaggerui/swagger-ui-es-bundle-core.js:2 | 8764, writeIntBE: the same, most significant byte first |
| IntegerFields.WriteUIntLE | docs/swaggerui/swagger-ui-es-bundle-core.js:2 | 8764, writeUIntLE |
| IntegerFields.WriteUIntBE | docs/swaggerui/swagger-ui-es-bundle-core.js:2 | 8764, writeUIntBE |
| IntegerFields.ReadIntLE | docs/swaggerui/swagger-ui-es-bundle-core.js:2 | 8764, readIntLE: the signed number of the field at the offset modulo 2^32, or a failure exactly when the field is not inside |
| IntegerFields.ReadIntBE | docs/swaggerui/swagger-ui-es-bundle-core.js:2 | 8764, readIntBE |
| IntegerFields.ReadUIntLE | docs/swaggerui/swagger-ui-es-bundle-core.js:2 | 8764, readUIntLE: the number of the field |
| IntegerFields.ReadUIntBE | docs/swaggerui/swagger-ui-es-bundle-core.js:2 | 8764, readUIntBE |
| IntegerFields.SignedRoundTrip | docs/swaggerui/swagger-ui-es-bundle-core.js:2 | 8764: what is written into a field of any width is what is read from it |
| IntegerFields.UnsignedRoundTrip | docs/swaggerui/swagger-ui-es-bundle-core.js:2 | 8764: the same for unsigned numbers |
| IntegerFields.BytesOfValueLE | docs/swaggerui/swagger-ui-es-bundle-core.js:2 | 8764: writing what was read restores the bytes |
| ByteSearch.SearchForward | docs/swaggerui/swagger-ui-es-bundle-core.js:2 | 8764, `E`: the least match at or after the offset, or -1 exactly when there is none; the loop that sets its own index back ends |
| ByteSearch.SearchBackward | docs/swaggerui/swagger-ui-es-bundle-core.js:2 | 8764, `E`: the greatest match at or before the offset, or -1 exactly when there is none |
| ByteSearch.FirstAndLastAreUnique | docs/swaggerui/swagger-ui-es-bundle-core.js:2 | 8764, `E`: what the two searches promise leaves one answer only |
| ByteSearch.BidirectionalIndexOf | docs/swaggerui/swagger-ui-es-bundle-core.js:2 | 8764, the caller of `E`: the same for any offset, negative, too large or not a number; an empty needle is never found |
| Sampler.LiftFits | docs/swaggerui/swagger-ui.js:1 | 4128, `U`: merging does not make a schema deeper than its two parts |
| SamplerMerge.LiftMerges | docs/swaggerui/swagger-ui.js:1 | 4128, `U`: for every field, what the target defines stays and what it does not define is the source's; properties, required names and items accordingly, at every depth of items |
| SamplerMerge.OneMerge | docs/swaggerui/swagger-ui.js:1 | 4128, `U`: there is only one schema of which that is true |
| SamplerMerge.LiftRequiredLists | docs/swaggerui/swagger-ui.js:1 | 4128, `U`: the target's required names, and behind them those missing, each once, in the order of the source |
| SamplerMerge.MergingAgain | docs/swaggerui/swagger-ui.js:1 | 4128, `U`: merging the same source again changes nothing |
| SamplerMerge.MergedVariant | docs/swaggerui/swagger-ui.js:1 | 4128, `z`: a schema without an example or default is completed by the first variant of oneOf, and of anyOf only without oneOf |
| SamplerMerge.ItemVariants | docs/swaggerui/swagger-ui.js:1 | 4128: every variant of the items of an array is completed by the items, those of anyOf before those of oneOf |
| SamplerMerge.SpecificGoesFirst | docs/swaggerui/swagger-ui.js:1 | 4128: the example of a variant of the items goes before that of the items |
| SamplerLaws.KindOfSchema | docs/swaggerui/swagger-ui.js:1 | 4128: a given type first, then the marks of an object, of an array, of a number, and a string last |
| SamplerLaws.ShapeOfSample | docs/swaggerui/swagger-ui.js:1 | 4128: without a type, a schema with an object's marks gives an object, and one with items and none of these an array |
| SamplerLaws.PlainSampleOf | docs/swaggerui/swagger-ui.js:1 | 4128: an example goes before a default; a number for a string is written out, and JSON text for anything else is parsed |
| SamplerLaws.ExampleIsTaken | docs/swaggerui/swagger-ui.js:1 | 4128: a schema with an example is sampled by it |
| SamplerLaws.ExampleOfVariant | docs/swaggerui/swagger-ui.js:1 | 4128: without one, the example of the variant is taken, and a default of the variant is not |
| SamplerLaws.HiddenIsNotShown | docs/swaggerui/swagger-ui.js:1 | 4128: a deprecated property, or one that may not be read or written here, does not show |
| SamplerLaws.VisibleExactlyWhen | docs/swaggerui/swagger-ui.js:1 | 4128: which properties these are |
| SamplerLaws.ArrayLimits | docs/swaggerui/swagger-ui.js:1 | 4128, `Y`: the length keeps to minItems, and to maxItems where the two agree, and is the list's where it is within them |
| SamplerLaws.AdditionalLimits | docs/swaggerui/swagger-ui.js:1 | 4128: three additional properties, or as many as minProperties asks for, never more than maxProperties leaves room for, and at least one if it leaves room |
| SamplerLaws.KeysOfSample | docs/swaggerui/swagger-ui.js:1 | 4128: the keys of any sample of an object |
| Decimals.DigitsReadBack | docs/swaggerui/swagger-ui.js:1 | 4128 and 1890: the counters in additional names and numbered keys are decimal numbers without leading zeros |
| Sampler.EverySchemaFits | docs/swaggerui/swagger-ui.js:1 | 4128: every finite schema has a depth |
| Sampler.HandleMinMaxItems | docs/swaggerui/swagger-ui.js:1 | 4128, `Y`: length max(minItems, min(L, maxItems)), the cut list repeated from its beginning, although the length used as modulus grows |
| Sampler.RequiredFindsRoom | docs/swaggerui/swagger-ui.js:1 | 4128, `ne`: a required property always finds room if the list of required names is no longer than maxProperties |
| Sampler.AddProperties | docs/swaggerui/swagger-ui.js:1 | 4128: the loop over the properties in the order given: which are added, and room kept for required ones |
| SamplerRoom.FillsUpExactlyWhen | docs/swaggerui/swagger-ui.js:1 | 4128: under maxProperties as many visible properties are added as fit if and only if no optional one is needed for that or few enough required ones stand before the last optional one needed |
| SamplerRoom.FillsUpWhenAllAreVisible | docs/swaggerui/swagger-ui.js:1 | 4128: the same with the bound in maxProperties alone, when every required name is visible and listed once |
| SamplerRoom.OptionalIsAdded | docs/swaggerui/swagger-ui.js:1 | 4128: which optional properties are added, by their place among the others |
| SamplerRoom.PlaceStaysEmpty | docs/swaggerui/swagger-ui.js:1 | 4128: with room for two, a required property and an optional one after it, only the required one is added |
| SamplerRoom.PlacesAreTaken | docs/swaggerui/swagger-ui.js:1 | 4128: in the other order both are |
| Sampler.AddAdditional | docs/swaggerui/swagger-ui.js:1 | 4128: the loop over additional properties: exactly additionalProp1 up to the number that minProperties, three and maxProperties give |
| Sampler.SampleItems | docs/swaggerui/swagger-ui.js:1 | 4128: an array begins with one sample for each variant of its items, with the items merged in, or with one sample of the items |
| Sampler.SampleObject | docs/swaggerui/swagger-ui.js:1 | 4128: the keys are exactly the visible properties that find room in some order and so many additional names; every value is a sample of the property or additional schema under its key; never more than maxProperties keys; every visible required property is there if they fit; all visible ones without a maximum; at least minProperties with additional ones |
| Sampler.Sample | docs/swaggerui/swagger-ui.js:1 | 4128, `z` without XML: ends on every schema within its depth, though variants are merged in on the way, and what comes out is a sample within the limits at every level; an example or default is answered before any recursion |
| Sampler.SampleFromSchema | docs/swaggerui/swagger-ui.js:1 | 4128, `F`: on every finite schema |
| FormKeys.ExtractsName | docs/swaggerui/swagger-ui.js:1 | 8223, `k`: a key without the separator is given back as it is, and a numbered one gives back its name trimmed |
| FormKeys.TrimCuts | docs/swaggerui/swagger-ui.js:1 | 8223, `k`: trimming cuts white space off both ends and nothing else |
| FormKeys.KeysDiffer | docs/swaggerui/swagger-ui.js:1 | 1890: keys of different names or numbers differ |
| FormKeys.HashKeys | docs/swaggerui/swagger-ui.js:1 | 1890, inner function of `be`: fails exactly when a name is that of an inherited function; otherwise a single value stays under its name, several get numbered keys in order, and nothing else is there |
| FormKeys.AllAreKept | docs/swaggerui/swagger-ui.js:1 | 1890: all values of a name are kept, in order, if and only if it has one value or its first one is truthy |
| FormKeys.EmptyFirstIsLost | docs/swaggerui/swagger-ui.js:1 | 1890: of two entries of one name, the first one empty, only the second is left |
| FormKeys.InheritedNameFails | docs/swaggerui/swagger-ui.js:1 | 1890: an entry called toString makes the conversion fail |
| FormKeys.NameIsRecovered | docs/swaggerui/swagger-ui.js:1 | 1890 with 8223: extracting the names gives back each entry of a name as often as it was given if and only if it has one value or its first one is truthy, as long as no repeated name has white space around it |
| FormKeys.PaddedIsLost | docs/swaggerui/swagger-ui.js:1 | 1890 with 8223: a repeated name with white space around it is not given back |
| FormKeys.PaddedNameIsLost | docs/swaggerui/swagger-ui.js:1 | 1890 with 8223: two values under a name with a space before it are not found under that name again |
| FormKeys.NoEntryIsLost | docs/swaggerui/swagger-ui.js:1 | 1890 with 8223: the conversion succeeds and gives back every entry if and only if no name is that of an inherited function, and every name with several values has a first one that is not empty and no white space around it |
| FormKeys.NothingIsMadeUp | docs/swaggerui/swagger-ui.js:1 | 1890 with 8223: nothing is given back that was not given, as long as no repeated name has white space around it |

## Left out

- Writable.WritableStream: the buffered requests are a sequence and the flag whether a last request is set, not linked nodes; the appending follows the flag as the code does.
- Writable.WritableStream: the pool of holders for `_writev` callbacks is not modelled; a callback carries its entries itself.
- Writable.WritableStream: errors, `destroy`, autoDestroy, encodings and the callback of `end` are left out; a write after `end` changes nothing here.
- Writable.WritableStream: calls of the stream from inside `_write`, `_writev`, or a `prefinish` or `finish` listener are assumed not to occur; callbacks of `write` and `drain` listeners may call it, and their calls may come at any point until they return.
- WritableModel.Config: whether the sink completes before it returns is an arbitrary function of the number of the call.
- NextTick.TickQueue: a task is a finite tree of the tasks it enqueues, and a throw comes after its enqueuing; tasks that enqueue new tasks for ever are not modelled. Timers are counted, and the fallbacks for a missing setTimeout are left out.
- Readable.ReadableStream: bytes only, without `unshift`, setEncoding, `pipe`, destroy and the removal of listeners. What the listeners of `readable` read, the flow that follows that event and the reading ahead on the next tick appear as later operations of their own; pushes made while `_read` runs are a parameter of `read`, and the chunk after which a listener pauses the flow is one of `flow`.
- BufferList.ChunkList: `join`, `first` and the inspection method are left out. `consume` is for no more bytes than are there, which is how Readable calls it.
- Hash.Hash.Update: the length in bytes is at most 2^53; a second `digest`, string input with an encoding and the output encoding are left out. SHA-0, SHA-1, SHA-224 and SHA-384 have the same shape and are left out.
- Utf8Decode.DecodeUtf8: the units are collected in one list; cutting the list into pieces of 4096 for String.fromCharCode is left out.
- StringDecoder.Decoder: base64 is defined by section 4 of RFC 4648, because base64-js is not part of this model; ascii, latin1 and hex, which hold nothing back, are left out.
- IntegerFields.WriteIntLE: integers only, widths 1 to 6 as documented, with the checks switched on; values that are not whole numbers and the unchecked form are left out. The quotient by a power of two is exact in a double, so it is taken as a fraction and truncated.
- ByteSearch.SearchForward: elements of one byte; the search for 16-bit elements and fractional offsets are left out.
- Sampler.Sample: JSON form without an example given from outside. The change that merging makes to the schema object is the value `Merged` here, so a schema object shared between two places is not modelled. The second loop over the variant's properties in `z` adds nothing and is left out, as is the branch of `U` that its own condition excludes. What is made of a schema that is neither object nor array is a parameter, and so are the removal of `$$ref` keys, JSON.parse and the text of a number. A property called `undefined` is left out.
- FormKeys.HashKeys: names contain no separator and are not `__proto__`; an object is a map, and order is that of the numbers in the keys.
- Floating point reads and writes, bigint fields, fill, swap, compare and slicing of Buffer: left out as easier or foreign.
- React components, redux, OAuth, deep linking and markdown in the bundles, and the Java and Gradle files: left out.
