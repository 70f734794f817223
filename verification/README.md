# piolib-uuid engine in Dafny

A model of the UUID generator of the `piolib-uuid` embedded library: the
current engine `src/uuid/uuid.c`, its header `src/uuid/uuid.h`, and the
older engine `src/uuid.c`. The library produces RFC 4122 UUIDs of
versions 1, 3, 4 and 5, and the sortable version 6 that section 5.6 of
RFC 9562 later standardised. Each generator writes a caller's 16-byte
`uuid_t` in place. Its last step is always the version and variant stamp.

Modules, one per concern of the C code:

- `Bits` gives C's `&` and `|` on non-negative integers, plus the mask facts the engine relies on.
- `ByteOrder` covers big- and little-endian byte strings and lexicographic byte-string order.
- `Layout` has the `uuid_t` union as sixteen bytes with field offsets, the constants of `uuid.h`, and the epoch offset recomputed from the Gregorian calendar.
- `Codec` has `uuid_clear`, `_uuid_setversion` and `WithVersion`, the reference definition of a stamped UUID.
- `Timestamp` holds the version-1 and version-6 byte layouts of a 64-bit timestamp.
- `TickCounter` is the `uuid1_state` counter, as a value and a step function.
- `BlockHash` is the `md5_*`/`sha1_*` context API. It is a class that records the bytes it absorbed; its digest is a function of those bytes.
- `NameHash` is the block streaming shared by `uuid3` and `uuid5`.
- `UuidString` is the text form and the `uuid_sprintf` loop, with a parser as its inverse.
- `Hooks` models the application's `rand_byte` and `id_read`.
- `Engine` is the static state of `src/uuid/uuid.c` as a class, with one method per generator.
- `Legacy` is the older engine of `src/uuid.c`.

The "multicast bit" line of `_uuid1_template_init` or-s byte 15 with its own low bit, so it changes nothing. The model keeps the line as written. `Bits.OrOwnLowBit` proves it is the identity, and `Engine.Generator.Init` states that the template's node is exactly the identifier's bytes.

## Model

| member | source | states |
|---|---|---|
| Bits.BitAnd | src/uuid/uuid.c:89 | `a & b` is at most either operand |
| Bits.BitOr | src/uuid/uuid.c:90 | `a \| b` is at least either operand and at most their sum |
| Bits.BitOrBound | src/uuid/uuid.c:90-92 | or-ing two values below a power of two stays below it |
| Bits.BitOrBoundByte | src/uuid/uuid.c:92 | or-ing two bytes gives a byte, so the compound assignment needs no truncation |
| Bits.OrTopBit | src/uuid/uuid.c:90 | `\|= 0x80` on a byte whose top two bits were cleared adds exactly 0x80 |
| Bits.OrNibble | src/uuid/uuid.c:92 | or-ing a high nibble over a low nibble places it above, with no carries |
| Bits.AndMask63 | src/uuid/uuid.c:89 | `& ~0xC0` on a byte keeps exactly its low six bits |
| Bits.AndMask15 | src/uuid/uuid.c:91 | `& ~0xF0` on a byte keeps exactly its low nibble |
| Bits.AndHighNibble | src/uuid/uuid.c:152 | `& 0xF0` keeps exactly the high nibble of a byte |
| Bits.OrOwnLowBit | src/uuid/uuid.c:100 | `x \|= (x & 0x01)` leaves every byte unchanged: the "multicast" line is a no-op |
| ByteOrder.LeValueOfLeBytes | src/uuid/uuid.c:110-114 | the bytes of a `uint64_t` as a little-endian host stores them spell its value back |
| ByteOrder.BeValueOfBeBytes | src/uuid/uuid.h:171-181 | network-order bytes of a value read back as the value |
| ByteOrder.BeValueInjective | src/uuid/uuid.h:171-181 | equal-length byte fields with equal network-order value are equal |
| ByteOrder.LexLessIffBeValue | src/uuid/uuid.h:80-81 | comparing equal-length byte strings lexicographically is comparing their big-endian values, in both directions |
| ByteOrder.LexLessIrreflexive | src/uuid/uuid.h:80-81 | no byte string sorts before itself |
| Layout.ToFields | src/uuid/uuid.h:171-181 | the structure view of sixteen bytes has fields of 4, 2, 2, 1, 1 and 6 bytes that concatenate back to the bytes |
| Layout.FieldsRoundTrip | src/uuid/uuid.h:171-181 | structure view and byte view are inverse: the union has no padding and no overlap |
| Layout.DaysInYearsClosedForm | src/uuid/uuid.h:156-160 | days in a run of Gregorian years equal 365 per year plus the leap days counted by the 4/100/400 rule |
| Layout.EpochOffsetIsCalendarDistance | src/uuid/uuid.h:156-160 | `UUID_EPOCH_OFFSET` is the number of 100 ns ticks from 15 October 1582 to 1 January 1970 |
| Codec.WithVersion | src/uuid/uuid.c:88-93 | a stamped UUID has the given version and variant `10`, keeps the low nibble of byte 6 and the low six bits of byte 8, and agrees with the input on the other 14 bytes |
| Codec.WithVersionIdempotent | src/uuid/uuid.c:88-93 | stamping twice with the same version equals stamping once |
| Codec.WithVersionOverrides | src/uuid/uuid.c:88-93 | a second stamp erases the first: only the last version counts |
| Codec.WithVersionKeeps | src/uuid/uuid.c:88-93 | two inputs stamp to the same UUID if and only if they agree on every bit the stamp keeps |
| Codec.Clear | src/uuid/uuid.c:71-74 | after `uuid_clear` the container is the nil UUID, all sixteen bytes zero; the older `uuid_clear` (src/uuid.c:60-63) is the same |
| Codec.StampVersion | src/uuid/uuid.c:88-93 | the four C compound assignments turn the container into `WithVersion` of its old contents; the older `uuid_setversion` (src/uuid.c:77-82) has the same body |
| Timestamp.V1StampFields | src/uuid/uuid.c:129-142 | version 1 stores the timestamp's low 32 bits in time_low and the next 16 in time_mid, both big-endian, and bits 48-59 under version 1 in time_hi_and_version; variant `10`; clock sequence and node come from the template |
| Timestamp.V1TimestampRoundTrip | src/uuid/uuid.c:129-142 | reading the version-1 time fields back gives the timestamp modulo 2^60 |
| Timestamp.V6StampFields | src/uuid/uuid.c:149-157 | version 6 stores timestamp bits 59..12 in bytes 0-5, bits 11..8 under version 6 in byte 6, and bits 7..0 in byte 7; variant `10`; template kept |
| Timestamp.V6SortsChronologically | src/uuid/uuid.h:80-81 | two version-6 UUIDs from one template compare as byte strings exactly as their timestamps modulo 2^60 compare, in both directions |
| TickCounter.TickRecords | src/uuid/uuid.c:117-124 | after a step the counter holds the raw timestamp, and the timestamp handed out is its last value plus its count |
| TickCounter.TickNewTime | src/uuid/uuid.c:120-123 | a raw timestamp other than the last one is used unchanged and restarts the count at zero |
| TickCounter.TickSameTime | src/uuid/uuid.c:117-119 | a repeated raw timestamp is handed out as one more than the previous one, while neither the count nor the sum wraps |
| TickCounter.BurstCount | src/uuid/uuid.c:117-124 | after k UUIDs within one fresh raw timestamp the count is k-1 modulo 2^16 |
| TickCounter.BurstTsClosedForm | src/uuid/uuid.c:124 | the k-th UUID of a tick carries the raw timestamp plus (k-1) modulo 2^16, modulo 2^64 |
| TickCounter.BurstIncreasing | src/uuid/uuid.c:117-124 | within one tick the first 2^16 UUIDs get strictly increasing timestamps |
| TickCounter.BurstWraps | src/uuid/uuid.c:39 | the 16-bit count wraps: the UUID 2^16 places later in the same tick repeats a timestamp |
| BlockHash.DeliveredAppend | src/uuid/uuid.c:176-191 | the bytes delivered by two runs of calls are the bytes of the first run, then those of the second |
| BlockHash.Context.Init | src/uuid/uuid.c:165 | `md5_init`/`sha1_init` start an empty message |
| BlockHash.Context.Next | src/uuid/uuid.c:180 | `*_nextBlock` appends exactly one 64-byte block to the message |
| BlockHash.Context.Last | src/uuid/uuid.c:177 | `*_lastBlock` appends the first `bits/8` bytes and closes the message |
| BlockHash.Context.WriteDigest | src/uuid/uuid.c:193 | `*_ctx2hash` writes the digest of exactly the absorbed message and nothing past it |
| NameHash.BlocksDeliver | src/uuid/uuid.c:164-192 | the calls that stream a message deliver exactly that message |
| NameHash.BlocksWellStreamed | src/uuid/uuid.c:181-191 | a non-empty message takes ceil(n/64) calls: full 64-byte blocks, then one final block of 1 to 64 bytes whose bit length is eight times its byte count |
| NameHash.CallsBounded | src/uuid/uuid.h:268 | with a `uint8_t` name length the hash sees at most five calls |
| NameHash.ShortNameOneCall | src/uuid/uuid.c:169-177 | a name of at most 48 bytes is hashed by the single final call of `(16 + len) * 8` bits |
| NameHash.Absorb | src/uuid/uuid.c:166-192 | the staging and `while (len)` loop make exactly the calls `Blocks(ns ++ name[..len])`: the context absorbs namespace then name, in 64-byte blocks and one final block, and is closed; the staging buffer holds the namespace and the first up to 48 name bytes |
| UuidString.HexValue | src/uuid/uuid.c:79 | every lowercase hex digit is the digit of exactly one nibble |
| UuidString.HexValueOfDigit | src/uuid/uuid.c:79 | reading a printed nibble digit gives the nibble back |
| UuidString.Printed | src/uuid/uuid.c:79 | one `sprintf` writes two or three characters ending in a NUL, and always three with `"%02x"` |
| UuidString.Format | src/uuid/uuid.h:296-299 | the text form has 36 characters |
| UuidString.RenderedPrefix | src/uuid/uuid.c:78-84 | printing more bytes only extends the text already printed |
| UuidString.RenderedAt | src/uuid/uuid.c:78-84 | byte i occupies the two characters at its position, with a hyphen after bytes 3, 5, 7 and 9 |
| UuidString.FormatAt | src/uuid/uuid.c:79-83 | in the text form byte i is its high digit then its low digit, with a hyphen after bytes 3, 5, 7 and 9 |
| UuidString.FormatWellFormed | src/uuid/uuid.h:301-312 | the text is 36 characters, hyphens at 8, 13, 18 and 23 and lowercase hex digits everywhere else |
| UuidString.FormatVersionDigit | src/uuid/uuid.h:303-305 | the version digit is the first character of the third group, index 14 |
| UuidString.ByteOf | src/uuid/uuid.h:301-312 | every non-hyphen character of the text belongs to one of the 16 bytes, as its first or second digit |
| UuidString.Parse | src/uuid/uuid.h:301-312 | text is accepted if and only if it follows the grammar, and what it reads back is sixteen bytes |
| UuidString.ParseFormat | src/uuid/uuid.c:77-85 | formatting loses nothing: parsing the text form gives the UUID back |
| UuidString.FormatParse | src/uuid/uuid.c:77-85 | every well-formed text is the format of what it parses to, so text forms and UUIDs correspond one to one |
| UuidString.Put | src/uuid/uuid.c:79 | a `sprintf` call writes its digits and NUL at the cursor and nothing else |
| UuidString.PrintByte | src/uuid/uuid.c:78-84 | one turn of the loop takes the buffer from the state after k bytes to the state after k+1 |
| UuidString.Print | src/uuid/uuid.c:77-85 | the loop leaves the text in the first 36 characters, the last call's NUL (if any) at index 36, and the rest of the buffer untouched |
| Hooks.Entropy.Next | src/uuid/uuid.h:205-214 | `rand_byte` returns exactly one byte, the next of the entropy stream |
| Hooks.IdRead | src/uuid/uuid.h:191-203 | `id_read` writes at most `maxlen` identifier bytes at the buffer, changes nothing else, and returns how many it wrote |
| Engine.ShiftedPairIsV6Byte | src/uuid/uuid.c:152 | the C expression `(hi << 4) \| ((lo & 0xF0) >> 4)`, stored into a byte, is the low nibble of `hi` over the high nibble of `lo` |
| Engine.SpliceMod | src/uuid/uuid.c:152 | truncating `hi << 4` to a byte keeps the low nibble of `hi` |
| Engine.V6BurstSorted | src/uuid/uuid.h:80-81 | version-6 UUIDs made within one clock tick sort as byte strings in the order they were made, up to the counter's wrap |
| Engine.Sprintf | src/uuid/uuid.c:77-85 | `uuid_sprintf` fills exactly the first `UUID_LENGTH_STRING` (37) characters: the 36-character text form, then its NUL; the buffer past them is untouched |
| Engine.Generator.constructor | src/uuid/uuid.c:36-53 | the statics start zeroed (template, `hashstage`, `sha1hash`), with the counter at zero and both hash contexts idle: no calls made, no message closed |
| Engine.Generator.Init | src/uuid/uuid.c:96-104 | `uuid_init` leaves the template with the identifier's first six bytes as node and two fresh draws as `clock_seq_low` then `clock_seq_hi_and_reserved`; the rest is kept |
| Engine.Generator.Generate | src/uuid/uuid.c:107-126 | `_uuid1` advances the counter by one `Tick` of the raw timestamp and writes the template stamped with the effective timestamp by the chosen writer |
| Engine.Generator.Uuid1 | src/uuid/uuid.c:144-146 | `uuid1` writes the version-1 layout of the effective timestamp over the template |
| Engine.Generator.Uuid6 | src/uuid/uuid.c:159-161 | `uuid6` writes the version-6 layout of the effective timestamp over the template |
| Engine.Generator.Uuid3 | src/uuid/uuid.c:164-195 | `uuid3` hashes exactly namespace then name in well-formed blocks and writes the MD5 digest stamped with version 3 |
| Engine.Generator.Uuid5 | src/uuid/uuid.c:207-239 | `uuid5` hashes exactly namespace then name and writes the first 16 bytes of the SHA-1 digest stamped with version 5 |
| Engine.WriteV1 | src/uuid/uuid.c:129-142 | `_uuid1_ts_writer1` turns the container into `V1Stamp` of its old contents |
| Engine.WriteV6 | src/uuid/uuid.c:149-157 | `_uuid1_ts_writer6`, loop and all, turns the container into `V6Stamp` of its old contents |
| Engine.Uuid4 | src/uuid/uuid.c:198-204 | `uuid4` writes sixteen successive entropy bytes, stamped with version 4, and draws exactly sixteen |
| Legacy.Generator.constructor | src/uuid.c:45-49 | the globals of the older engine start zeroed (`hashstage`, `sha1hash`), with both hash contexts idle: no calls made, no message closed |
| Legacy.Generator.Uuid3 | src/uuid.c:93-124 | the older `uuid3` absorbs exactly namespace then name in well-formed blocks and writes the MD5 digest stamped with version 3 |
| Legacy.Generator.Uuid5 | src/uuid.c:134-166 | although its loop tests the SHA-1 block size and steps by the MD5 one, the older `uuid5` absorbs exactly namespace then name and writes the first 16 SHA-1 digest bytes stamped with version 5 |
| Legacy.Uuid1 | src/uuid.c:87-89 | the older `uuid1` only stamps version 1: bytes 0-5, 7 and 9-15 and the kept bits are unchanged |
| Legacy.Uuid4 | src/uuid.c:128-130 | the older `uuid4` only stamps version 4 and draws no entropy |
| Legacy.Sprintf | src/uuid.c:65-73 | the older formatter leaves the `"%x"` rendering in the first 36 characters, and writes index 36 only when the last byte is 16 or more |
| Legacy.CellsAgree | src/uuid.c:67 | `"%x"` and `"%02x"` print the same two characters exactly for bytes of 16 or more |
| Legacy.RenderedAgree | src/uuid.c:65-73 | over bytes of 16 or more the two formatters print the same text |
| Legacy.PlainIsFormatIff | src/uuid.c:65-73 | the older formatter prints the RFC 4122 text form if and only if no byte is below 16 |
| Legacy.NilPrintsOneDigit | src/uuid.c:67 | the nil UUID leaves `'0'` and a NUL at the start of the buffer, so the string reads "0" |

## Left out

- MD5 and SHA-1 themselves (RFC 1321 and FIPS 180-4) are not modelled. A context is given its digest function as a parameter, and the model proves what that function is applied to.
- `tm_current_time` and the conversion to ticks at src/uuid/uuid.c:115-116 are left out. The raw 64-bit timestamp is a parameter of `Generate`, `Uuid1` and `Uuid6`. The model makes no claim that the conversion's units are right.
- The union read of the timestamp assumes a little-endian host. `Timestamp.TsBytes` fixes that byte order.
- `uuid_install_descriptor` and the library descriptor are left out, being registry plumbing outside the engine.
- The older `uuid_init` and its `uuid_clk_seq` register (src/uuid.c:51-57, 85) are left out for the same reason.
- src/uuid.h is not part of this model. It only repeats declarations and build switches.
- The test firmware and host scripts are not part of this model.
- Re-entrancy and interrupts are left out: the library is documented as single-threaded (src/uuid/uuid.h:41-43), and the model is sequential.
- Engine.Generator.Uuid3: the namespace and the name are taken as byte values, not pointers. Aliasing between them, the output and the static buffers is therefore not modelled. `Outside` requires the output to be distinct from the statics.
- Engine.Generator.Uuid5: the same holds for the namespace and name.
- Legacy.Generator.Uuid3: the same holds for the namespace and name.
- Legacy.Generator.Uuid5: the same holds for the namespace and name.
- BlockHash.Context.Last accepts only whole-byte bit lengths. The hash API accepts any bit count, but every caller passes a multiple of 8.
- NameHash.Absorb requires the tested and the advancing block-size constants to equal the context's block size, 64. The streaming property depends on that, as the older `uuid5` shows.
- `rand_byte` is modelled as a fixed stream of bytes, so its randomness is not modelled.
- `id_read` is modelled as copying a given identifier, so the hardware read is not modelled.
- `UuidString.Parse` has no counterpart in the source. It is the inverse that shows the text form loses nothing.

## Findings

| source | as written | input that shows it | evidently intended | confidence | as-written member | corrected member |
|---|---|---|---|---|---|---|
| src/uuid.c:67 | each byte is printed with `"%x"`, so a byte below 16 gives one digit and its NUL; the cursor still moves by two, leaving a NUL inside the text | the nil UUID: the buffer starts with `'0'` and a NUL, so the string reads "0" instead of "00000000-0000-0000-0000-000000000000" | `"%02x"`, as src/uuid/uuid.c:79 has it, giving the 36-character RFC 4122 form | high; not executed | Legacy.PlainIsFormatIff | Engine.Sprintf |
