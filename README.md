# cosmic-reach-python client core, in Dafny

This project models the core of a Python client for the Cosmic Reach
multiplayer protocol:

- **The binary type system** (`src/io/types.py`).
  - The fixed-width integer codecs (`Bool`, `Byte`, `Short`, `Int`, `Long`).
  - The length-prefixed `Bytes` and `String`.
  - The composite codecs `Tuple`, `Repeat`, `Union` (with `|` on codec classes) and `OneOfMapped`.
  - Encoding is a pure function from a value to bytes. Decoding is a function over `(bytes, position)` that returns the value and the new position, the way the source's shared `BytesIO` cursor advances.
- **Packets, the packet registry and framing** (`src/protocol/generic.py`).
  - `GamePacket` construction, field encoding and field decoding.
  - The registry's two dictionaries. The registry is one shared mutable object (`GamePacketRegistry`).
  - `u32 length | u16 id | fields` frames, including the check for leftover bytes.
- **The packet schemas the client uses** (`src/protocol/packets/meta.py`), and `ProtocolSyncPacket.create`.
- **Offline accounts** (`src/types/accounts.py`).
  - The setters, `get_dict`/`from_dict`, `with_name`, the copy constructor and `__str__`.
  - The JSON document (`json.dumps` of `get_dict`) that an account travels as.
- **The client** (`src/client/base.py`, `src/client/client.py`).
  - The event table and `_event_call`'s filtered dispatch.
  - `send_packet` and the error policy of the receive loop.
  - The handlers wired in by `Client.__init__`: protocol sync, login, player, skin and chat.
  - `get_player` and `send_chat`.

## How the model is organised

Each stateful part has two layers:

- **Functions over a state value.** The module `Client` describes what each operation does. `Fire`, `Dispatch`, `Invoke` and the handlers are mutually recursive, and a rank on events and handlers makes the recursion terminate.
- **A class that does the same in place.** The class `Clients.Client` has fields `connected`, `loggedIn`, `players`, `outbox` and the event table, and holds the shared `GamePacketRegistry`. Each of its methods is proved to leave the object in the state the matching function computes, with the same outcome. The loops of `_event_call`, the sync handler and `receive_packets` are `while` loops with invariants.

The properties are lemmas about the functions. Examples:

- the codec round trips;
- the framing round trip;
- the sync loop adopting the server's numbering, under the side condition the source needs;
- the order of the handshake;
- the player table's behaviour.

The model follows the code where the code and the protocol description disagree:

- Integers are written and read **unsigned**. A negative value raises on encode.
- The `-1` length of an empty string is read back as `0xFFFFFFFF`, so the empty value does not round-trip.
- Decoders do **not** fail on short input. They read what is left.
- `Bool` and `Byte` **cannot encode** at all, because `int.to_bytes(1, "big")` raises. Every `Byte`-tagged union inherits this.
- The "new" registry of the sync handler is the **same** shared registry.
- The length prefix of a `String` counts characters while the decoder reads bytes.

Each of these is stated as a lemma about the code as written.

The JSON parser the source uses (`wjson`) is not part of this model. Where the client reads the unique id out of a received account document, it goes through a parameter `idOf: string -> Accounts.Json`. Its result is a string or an integer, as a parsed `uniqueId` can be, and the player table is keyed by it.

## Model

| member | source | states |
|---|---|---|
| Wire.EncodeUint | src/io/types.py:95-96 | `to_bytes(w, "big")` without `signed`: succeeds exactly when 0 <= v < 256^w, and then gives w bytes that read back as v |
| Wire.FromBE | src/io/types.py:98-100 | `int.from_bytes(b, "big")` of any number of bytes is below 256^len(b): never negative |
| Wire.FromToBE | src/io/types.py:95-100 | reading back the w big-endian bytes of v gives v |
| Wire.ToFromBE | src/io/types.py:98-100 | every byte string is the big-endian form, at its own width, of the number it reads as |
| Wire.Read | src/io/types.py:100 | `buf.read(n)` never fails: it returns the next n bytes, or fewer at the end of input, and advances past them |
| Wire.MinusOneReadsUnsigned | src/io/types.py:157 | the four bytes FF FF FF FF written for an empty string read back, unsigned, as 0xFFFFFFFF and not as -1 |
| Utf8.EncodeChar | src/io/types.py:169 | a character is 1 to 4 UTF-8 bytes, and 1 byte exactly when its code is below 0x80 |
| Utf8.Encode | src/io/types.py:169 | `str.encode("utf-8")` gives at least one byte per character; `Utf8.AsciiEncode` gives the bytes of ASCII text |
| Utf8.Decode | src/io/types.py:176 | strict `bytes.decode("utf-8")`, failing on a malformed sequence; `Utf8.AsciiRoundTrip` and `Utf8.TwoByteChar` state it |
| Utf8.AsciiEncode | src/io/types.py:169 | the UTF-8 form of a string of one-byte characters is their codes, one byte each |
| Utf8.AsciiRoundTrip | src/io/types.py:176 | strict UTF-8 decoding of such a string's bytes gives the string back |
| Utf8.TwoByteChar | src/io/types.py:169 | "é" takes two bytes, and its first byte alone does not decode |
| IoTypes.Or | src/io/types.py:47-49 | `__or__` of two codec classes is a union of the two tagged by `Byte`; on a union, it appends one more variant and keeps the tag |
| IoTypes.Encode | src/io/types.py:73-290 | `to_cr_bytes` of every codec; a tuple or list codec iterates whatever it is given (`IoTypes.Elements`). `IoTypes.FaithfulEncodes` states that faithful values encode, `IoTypes.RoundTrip` that they read back, and `CodecLaws.FixedWidthEncode`, `CodecLaws.EmptyIsMinusOne`, `CodecLaws.ByteTagNeverEncodes` and `CodecLaws.ForeignItems` give the error cases |
| IoTypes.EncodeForeign | src/io/types.py:150-169 | `Bytes.to_cr_bytes` or `String.to_cr_bytes` called on a value of another type succeeds exactly when the value is sized and empty, and then writes FF FF FF FF; otherwise it raises |
| IoTypes.EncodeZip | src/io/types.py:226-227 | the elements of a tuple, each in its codec, in order; `CodecLaws.ZipConcat` states the concatenation and the first failure deciding the error |
| IoTypes.EncodeRepeat | src/io/types.py:240-244 | the number of elements in the count codec, then the elements, of any value with a length (a `str` gives its characters, a `bytes` its integers); `IoTypes.RepeatParts`, `Packets.IntCountedEncode` and `Packets.SyncOfEmptyEntry` state it |
| IoTypes.EncodeUnion | src/io/types.py:265-269 | the picked variant's index, then the value made into that variant (`typ(self)`) and written in it; `CodecLaws.UnionEncoding`, `CodecLaws.UnionRejects`, `CodecLaws.UnionConversionError` and `CodecLaws.UnionConversionRaises` state it |
| IoTypes.EncodeMapped | src/io/types.py:287-291 | the picked entry's key, then the value made into that entry's type (`typ(self)`) and written in it; `CodecLaws.MappedEncoding` states it |
| IoTypes.EncodeTuple | src/io/types.py:226-227 | `zip(typs, self)` over any iterable; a value that is not iterable raises `TypeError`; `CodecLaws.ZipConcat` and `Packets.EmptyEntryBytes` state it |
| IoTypes.EncodeAs | src/io/types.py:268 | `typ(self).to_cr_bytes()`: the conversion's error, or the converted value's bytes; `IoTypes.EncodeAsParts` states it |
| IoTypes.EncodeAsParts | src/io/types.py:268 | when `typ(self).to_cr_bytes()` succeeds, the conversion succeeds and the bytes are those of the converted value |
| IoTypes.Decode | src/io/types.py:77-296 | `from_cr_buffer` of every codec never moves the cursor back or past the end of the buffer |
| IoTypes.DecodeRepeat | src/io/types.py:247-249 | a list read never moves the cursor back or past the end; `CodecLaws.RepeatDecodeLength` gives its length |
| IoTypes.DecodeUnion | src/io/types.py:272-274 | a union read never moves the cursor back or past the end; `CodecLaws.UnionDecodeByTag` gives the variant and the `IndexError` |
| IoTypes.DecodeMapped | src/io/types.py:294-296 | a mapped-union read never moves the cursor back or past the end; `CodecLaws.MappedKeyMissing` gives the `KeyError` |
| IoTypes.FirstMatch | src/io/types.py:266-269 | the variant a union picks accepts the value; failing to pick is `TypeError` (nothing accepts) or `AttributeError` (a variant without `_FOR`) |
| IoTypes.FirstMatchIsFirst | src/io/types.py:266-269 | the picked variant is the first in declaration order that accepts the value, and `TypeError` arises exactly when no variant accepts it |
| IoTypes.Lookup | src/io/types.py:296 | `typs[key]` finds an entry holding the key |
| IoTypes.LookupIsFirst | src/io/types.py:296 | the entry found is the first holding the key, and none is found exactly when no entry holds it |
| IoTypes.DecodeN | src/io/types.py:249 | `for _ in range(n)` reads exactly n items and never moves the cursor back |
| IoTypes.DecodeZip | src/io/types.py:231 | a tuple reads one value per element codec |
| IoTypes.FaithfulEncodes | src/io/types.py:226-244 | every value the codecs carry faithfully (integers in range, non-empty ASCII text, non-empty bytes, and composites of those) encodes without raising |
| IoTypes.UintRoundTrip | src/io/types.py:95-100 | the w bytes of an in-range integer read back as it and advance the cursor by w |
| IoTypes.SizedRoundTrip | src/io/types.py:153-160 | a 4-byte length followed by that much content reads back as the content and consumes exactly 4 + length bytes |
| IoTypes.RoundTrip | src/io/types.py:95-296 | decoding the encoding of a faithful value, wherever it sits in the buffer, gives the value back and consumes exactly the encoding |
| IoTypes.RoundTripFixed | src/io/types.py:95-111 | `Short`, `Int`, `Long`: an in-range integer reads back and consumes exactly its width |
| IoTypes.RoundTripBytes | src/io/types.py:150-160 | a non-empty `Bytes` reads back and consumes 4 + length bytes |
| IoTypes.RoundTripTextual | src/io/types.py:166-176 | a non-empty ASCII `String` (or JSON document) reads back and consumes 4 + length bytes |
| IoTypes.FaithfulTextBytes | src/io/types.py:169 | such a text is written as its character count, then one byte per character, and those bytes decode back to it |
| IoTypes.RoundTripTuple | src/io/types.py:226-231 | a tuple of faithful elements reads back as the same tuple, consuming exactly its encoding |
| IoTypes.RoundTripZip | src/io/types.py:227-231 | elements written in order are read back in the same order, each starting where the previous one ended |
| IoTypes.RoundTripRepeat | src/io/types.py:240-249 | a list written as its count, then its items, reads back as the same list |
| IoTypes.RepeatParts | src/io/types.py:241-244 | a list's bytes are its count in the count codec, then its items |
| IoTypes.RoundTripCounted | src/io/types.py:247-249 | the count reads back first, then the items follow it |
| IoTypes.RoundTripItems | src/io/types.py:248-249 | once the count has been read back, exactly that many items are read back |
| IoTypes.RoundTripAll | src/io/types.py:243-249 | the items of a list read back in order and consume exactly their bytes |
| IoTypes.RoundTripCons | src/io/types.py:243-249 | the first item of a non-empty run reads back, then the rest right after it |
| IoTypes.AllParts | src/io/types.py:243 | a non-empty run of items is written as the first item, then the rest |
| IoTypes.DecodeNCons | src/io/types.py:249 | reading n items is reading one, then n - 1 from where it ended |
| IoTypes.DecodeCounted | src/io/types.py:247-249 | a list reads its count, then that many items |
| IoTypes.RoundTripUnion | src/io/types.py:265-274 | a union value reads back through the tag it was written with |
| IoTypes.UnionParts | src/io/types.py:266-268 | a union's bytes are the picked variant's index in the tag codec, then the value, which `typ(self)` leaves as it is, in that variant |
| IoTypes.RoundTripTagged | src/io/types.py:272-274 | the tag reads back first, then the variant it indexes |
| IoTypes.RoundTripChosen | src/io/types.py:273-274 | once the tag has been read back, the value in the variant it indexes follows |
| IoTypes.DecodeTagged | src/io/types.py:272-274 | a union reads its tag, then the variant the tag indexes |
| IoTypes.RoundTripMapped | src/io/types.py:287-296 | a mapped-union value reads back through the key it was written with, when that key reads back to its own entry |
| IoTypes.MappedParts | src/io/types.py:288-290 | a mapped union's bytes are the picked entry's key, then the value, which `typ(self)` leaves as it is, in that entry's codec |
| IoTypes.RoundTripKeyed | src/io/types.py:294-296 | the key reads back first, then the value under the codec the key maps to |
| IoTypes.RoundTripEntry | src/io/types.py:295-296 | once the key has been read back, the value under its entry follows |
| IoTypes.DecodeKeyed | src/io/types.py:294-296 | a mapped union reads its key, then the codec the key maps to |
| CodecLaws.FixedWidthEncode | src/io/types.py:95-144 | `Short`/`Int`/`Long` write exactly 2/4/8 big-endian bytes that read back as the value, succeed exactly for 0 <= v < 256^w, and otherwise raise `OverflowError` (`Float`/`Double` excluded) |
| CodecLaws.FixedWidthDecode | src/io/types.py:98-144 | the fixed-width decoders never fail and never return a negative: they read the width, or whatever is left of a short input |
| CodecLaws.ByteTagNeverEncodes | src/io/types.py:84-85 | `Bool` and `Byte` raise for every value (line 74 too), so every union tagged by `Byte` fails to encode (line 268) |
| CodecLaws.OrChain | src/io/types.py:261-262 | chaining `__or__` over three codec classes gives one `Byte`-tagged union of the three, and cannot write any value |
| CodecLaws.EmptyIsMinusOne | src/io/types.py:150-169 | a `String`, document or `Bytes` is written as FF FF FF FF exactly when it is empty |
| CodecLaws.ForeignItems | src/io/types.py:95-169 | an unconverted tuple or list item of another type: `Short`, `Int` and `Long` raise `AttributeError` on anything but an integer; `Bytes` and `String` write FF FF FF FF exactly for an empty sized value; otherwise `Bytes` raises `TypeError` and `String` `AttributeError` (both `TypeError` for an unsized value) |
| CodecLaws.ForeignTuple | src/io/types.py:226-227 | `Tuple(Int, Bytes, String)` of `("5", "", b"")` raises `AttributeError`, and `Tuple(Bytes, String)` of `("", b"")` writes FF FF FF FF twice |
| CodecLaws.MinusOneReadsRest | src/io/types.py:157-160 | a length of FF FF FF FF makes a `Bytes` read every remaining byte of the buffer; the `-1` branch never runs |
| CodecLaws.EmptyStringSwallowsRest | src/io/types.py:173-176 | an empty `String` followed by the byte "A" reads back as "A" and consumes all five bytes |
| CodecLaws.CharCountPrefix | src/io/types.py:166-176 | "é" is written with length 1 and two bytes; reading it back stops mid-character and raises `UnicodeDecodeError` |
| CodecLaws.UnionDecodeByTag | src/io/types.py:272-274 | a union reads its tag, then `typs[tag]`; a tag past the last variant raises `IndexError` |
| CodecLaws.MappedKeyMissing | src/io/types.py:294-296 | a mapped union whose decoded key is in no entry raises `KeyError` |
| CodecLaws.UnionEncoding | src/io/types.py:265-268 | a union writes the index of the first variant whose type accepts the value, then the value converted to that variant's type (`typ(self)`) and written in it |
| CodecLaws.UnionConversionError | src/io/types.py:266-268 | when the tag is written but `typ(self)` raises, the union raises that error |
| CodecLaws.UnionConversionRaises | src/io/types.py:266-268 | `Union(Int, Bytes)` of `""` picks `Bytes` (its `_FOR` is `str`), writes tag 0, and then `Bytes("")` raises `TypeError` |
| CodecLaws.UnionRejects | src/io/types.py:269 | a value no variant accepts raises `TypeError` |
| CodecLaws.MappedEncoding | src/io/types.py:287-290 | a mapped union writes the key of the first entry, in insertion order, whose type accepts the value, then the value converted to that entry's type (`typ(self)`) and written in it |
| CodecLaws.ZipConcat | src/io/types.py:226-227 | a tuple's bytes are the in-order concatenation of its elements' bytes; the first failing element decides the error |
| CodecLaws.DecodeZipConcat | src/io/types.py:229-231 | a tuple's elements are read in order, each from where the one before stopped |
| CodecLaws.RepeatDecodeLength | src/io/types.py:247-249 | a decoded list has as many items as the count read before them (none for a negative count) |
| IoTypes.Convert | src/protocol/generic.py:55-56 | `typ(arg)`: a union or mapped-union type keeps a value it accepts unchanged; a tuple or list type makes any `str`, `bytes`, tuple or list into a tuple or list of the same elements (`IoTypes.Elements`) |
| IoTypes.Elements | src/io/types.py:227-243 | iterating a value: a tuple or list gives its items, a `str` its one-character strings, a `bytes` its integers; exactly the values with a length can be iterated, and they give that many elements |
| IoTypes.FaithfulConverts | src/io/types.py:268 | a value the codec carries faithfully is already of its type: `typ(self)` leaves it as it is |
| Generic.ConvertIdempotent | src/protocol/generic.py:56 | a converted field value converts to itself |
| Generic.NewPacket | src/protocol/generic.py:51-56 | a wrong number of arguments raises "Argument Amount Mismatch"; a built packet has its class and one value per field |
| Generic.ConvertAllSpec | src/protocol/generic.py:55-56 | a packet is built exactly when every argument converts to its field's type, and field i then holds argument i converted |
| Generic.ConvertAllIdempotent | src/protocol/generic.py:67-69 | rebuilding the field list from values already converted gives the same values |
| Generic.NewPacketKeeps | src/protocol/generic.py:55-56 | arguments that already have their fields' types are stored as they are |
| Generic.NewPacketIdempotent | src/protocol/generic.py:67-69 | `cls(*fields)` of a packet's own field values rebuilds the same packet |
| Generic.Registered | src/protocol/generic.py:11-18 | after `register`, the name maps to the assigned id and the id maps to the class; no id or name is removed |
| Generic.AssignedId | src/protocol/generic.py:16 | `packet_id or len(_packets) + 1`: the given id when it is not 0, and otherwise (no id, or 0) one more than the number of registered ids; never 0 |
| Generic.RegisterLookups | src/protocol/generic.py:16-18 | after `register`, the lookups answer for the new entry and as before for every other id and name; an existing entry is overwritten |
| Generic.RegisterKeepsOrder | src/protocol/generic.py:16-18 | `_packets` keeps its insertion order: a new id goes last, an overwritten id keeps its place |
| Generic.KindOf | src/protocol/generic.py:20-21 | `get_packet_by_id` succeeds exactly for a registered id, with its class, and raises `KeyError` otherwise |
| Generic.IdOf | src/protocol/generic.py:23-24 | `get_id_by_packet` succeeds exactly for a registered name, with its id, and raises `KeyError` otherwise |
| Generic.SerializeCr | src/protocol/generic.py:26-27 | the packet's id in 2 big-endian bytes, then the field bytes; an unregistered name raises `KeyError` |
| Generic.Body | src/protocol/generic.py:26-27 | the field bytes of a packet; `Generic.SerializeCr` and `Generic.FrameParts` place them after the id |
| Generic.Serialize | src/protocol/generic.py:34-36 | a frame starts with a 4-byte big-endian length equal to the frame's length minus 4, followed by the packet; errors pass through |
| Generic.DeserializeCr | src/protocol/generic.py:29-32 | reading a packet never moves the cursor back or past the end |
| Generic.Deserialize | src/protocol/generic.py:38-44 | the stream always advances past the frame, and never past the declared frame length |
| Generic.DeserializeStrict | src/protocol/generic.py:42-43 | a packet is returned exactly when its fields use up the whole frame; a leftover byte raises |
| Generic.FrameRoundTrip | src/protocol/generic.py:26-44 | a serialized packet is read back from wherever its frame sits in the stream, and the stream advances past exactly that frame, when its id maps back to its class and its fields are faithful |
| Generic.FrameParts | src/protocol/generic.py:34-36 | a frame is its length, then the id, then the fields |
| Generic.CrRoundTrip | src/protocol/generic.py:29-32 | the id-and-fields part of a frame reads back as the packet and is used up |
| Generic.GamePacketRegistry.constructor | src/protocol/generic.py:8-9 | both dictionaries start empty. In the source they are class-level: created once at import, and shared, already filled, by every later `GamePacketRegistry()`. Here a second `new` gives an independent empty object, so the model builds one and hands it to every user |
| Generic.GamePacketRegistry.Register | src/protocol/generic.py:11-18 | `register` updates the shared dictionaries in place to `Registered` and keeps their insertion order valid |
| Generic.GamePacketRegistry.GetPacketById | src/protocol/generic.py:20-21 | the class registered under an id, or `KeyError` |
| Generic.GamePacketRegistry.GetIdByPacket | src/protocol/generic.py:23-24 | the id registered for a class's name, or `KeyError` |
| Accounts.Decimal | src/types/accounts.py:20 | `str(n)` of an integer is non-empty and starts with "-" exactly when n is negative |
| Accounts.DecimalPrintable | src/types/accounts.py:20 | `str(n)` is printable ASCII |
| Accounts.EscapeChar | src/io/types.py:183 | `json.dumps` writes a printable ASCII character other than `"` and `\` as itself, and any other character as an escape starting with `\` |
| Accounts.EscapeCharPrintable | src/io/types.py:183 | with `ensure_ascii`, every character is written as printable ASCII |
| Accounts.DumpsPrintable | src/io/types.py:183 | the JSON document of a dictionary is printable ASCII of at least two characters, so it crosses the wire one byte per character |
| Accounts.Dumps | src/io/types.py:183 | `json.dumps` of a dictionary: braces around `"key": value` items separated by `, `; `Accounts.DumpsPrintable` states it is printable ASCII of at least two characters |
| Accounts.Document | src/io/types.py:204 | `json.dumps(get_dict())`, the document an account is written as; `Packets.AccountDocument` spells out its two members |
| Accounts.GetDict | src/types/accounts.py:25-26 | `get_dict` has exactly the keys "username" and "uniqueId", in that order |
| Accounts.Get | src/types/accounts.py:61 | `data[key]`: the value of the first entry holding the key; `KeyError` exactly when no entry holds it |
| Accounts.FromDict | src/types/accounts.py:59-62 | `from_dict` raises `KeyError` when a key is missing; the account it builds has the default display name |
| Accounts.FromGetDict | src/types/accounts.py:59-62 | `from_dict(get_dict(a))` keeps username and unique id, and the display name falls back to "Player" |
| Accounts.Describe | src/types/accounts.py:33-34 | `__str__` is the display name, " (", the unique id as text, and ")" |
| Accounts.Prefixed | src/types/accounts.py:16-17 | the account type "offline" and a colon, followed by the name |
| Accounts.WithUsername | src/types/accounts.py:16-17 | `set_username(n)` sets the username to "offline:" + n and changes nothing else |
| Accounts.WithUniqueId | src/types/accounts.py:19-20 | `set_unique_id(u)` sets the unique id to "offline:" + `str(u)` and changes nothing else |
| Accounts.WithDisplayName | src/types/accounts.py:67-72 | `set_display_name(None)` stores "Player"; every call rewrites the username to "offline:" + the display name |
| Accounts.Fresh | src/types/accounts.py:41-48 | a new account has the class default display name "Player" |
| Accounts.Copied | src/types/accounts.py:42-45 | the copy constructor keeps the unique id and display name, and sets the username to "offline:" + display name |
| Accounts.CopiedFixed | src/types/accounts.py:42-45 | copying leaves an account as it is exactly when its username is already "offline:" + its display name; copying twice is copying once |
| Accounts.CopiedFresh | src/types/accounts.py:41-48 | the copy of `OfflineAccount("bob", 5)` has username "offline:Player", and that is what its dictionary holds |
| Accounts.Named | src/types/accounts.py:50-54 | `with_name(n)` has display name n and username "offline:" + n |
| Accounts.ConsistentAccounts | src/types/accounts.py:42-72 | naming, copying and setting the display name tie the username to the display name; `set_unique_id` keeps that; `set_username` with another name and `from_dict` break it |
| Accounts.OfflineAccount.constructor | src/types/accounts.py:41-48 | the object holds the given username and unique id, and "Player" |
| Accounts.OfflineAccount.Copy | src/types/accounts.py:42-45 | the copy constructor in place, equal to `Copied` |
| Accounts.OfflineAccount.WithName | src/types/accounts.py:50-54 | `with_name` builds a fresh object equal to `Named` |
| Accounts.OfflineAccount.SetUsername | src/types/accounts.py:16-17 | the field update equals `WithUsername` |
| Accounts.OfflineAccount.SetUniqueId | src/types/accounts.py:19-20 | the field update equals `WithUniqueId` |
| Accounts.OfflineAccount.SetDisplayName | src/types/accounts.py:67-72 | the field updates equal `WithDisplayName` |
| Packets.EntriesOf | src/protocol/packets/meta.py:21-25 | one (name, id) pair per id listed |
| Packets.Create | src/protocol/packets/meta.py:19-27 | a sync packet with one entry per registered id and the given version |
| Packets.CreateBuilt | src/protocol/packets/meta.py:20-27 | the packet is what `ProtocolSyncPacket`'s constructor builds from the entry list and the version |
| Packets.CreateEntries | src/protocol/packets/meta.py:22-25 | entry i names the class registered at the i-th id in `_packets`' insertion order and carries that id |
| Packets.CreateFaithful | src/protocol/packets/meta.py:16-17 | with ASCII names, unsigned 32-bit ids and a non-empty ASCII version, the sync packet's fields are faithful, so the framing round trip applies |
| Packets.SyncEntryBytes | src/protocol/packets/meta.py:16 | one entry is its name as a `String`, then its id as an `Int` |
| Packets.SyncOfString | src/protocol/generic.py:55-56 | `ProtocolSyncPacket("ab", "0.4.1")` turns the entry field into the list `['a', 'b']` (`list("ab")`) and keeps the version |
| Packets.EmptyEntryBytes | src/io/types.py:226-227 | the entry `""` zips to nothing: it writes no bytes |
| Packets.EmptyEntryListBytes | src/io/types.py:240-244 | the entry list `[""]` writes the count 1 and then no entry bytes |
| Packets.SyncOfEmptyEntry | src/protocol/packets/meta.py:16-17 | the sync body for `[""]` is the count 1, then the version as a `String` |
| Packets.SyncBody | src/protocol/packets/meta.py:16-17 | a sync packet is the entry count as an `Int`, the entries, then the version as a `String` |
| Packets.IntCountedEncode | src/io/types.py:240-244 | a list counted by an `Int` is its count in 4 bytes, then its items |
| Packets.SyncVersionEncode | src/protocol/packets/meta.py:17 | the version field closes a sync packet as a `String` |
| Packets.TransactionBody | src/protocol/packets/meta.py:30-32 | a transaction packet is built from any integer; its body is exactly 8 bytes when the id fits an unsigned `Long`, and it fails to encode otherwise |
| Packets.NetworkSettingTags | src/protocol/packets/meta.py:51-54 | the field type is `Union(Byte, Bool, Int)`; a `bool` takes tag 0 although it is an int, any other integer takes tag 1, and the `Byte` tag makes every such packet fail to encode |
| Packets.AccountValue | src/io/types.py:288-290 | an account in a login field stands for the document of `OfflineAccount(account)`, the copy `typ(self)` makes before writing; `Packets.AccountDocument` states it |
| Packets.AccountDocument | src/types/accounts.py:42-45 | the account field carries `json.dumps` of {"username": "offline:" + display name, "uniqueId": unique id}; for an account whose username already follows its display name, that is its own document |
| Packets.LoginBody | src/protocol/packets/meta.py:35-37 | a login packet is written as "offline" as a `String`, then the document of the account's copy `OfflineAccount(account)` as a `String`, and its field is faithful |
| Packets.LoginNew | src/protocol/packets/meta.py:35-37 | `LoginPacket(account)` accepts the account in its field and stores it unchanged |
| Packets.AccountFieldBytes | src/protocol/packets/meta.py:37 | an account document converts to itself in the `OneOfMapped` field and is carried faithfully |
| Packets.AccountFieldEncodes | src/protocol/packets/meta.py:37 | an account document in the field is written as the key "offline", then the document |
| Packets.KeyedRecordEncodes | src/io/types.py:287-290 | a mapped union with one string key for a document writes the key, then the document |
| Events.Matching | src/client/base.py:103-109 | an occurrence runs at most the handlers the event has |
| Events.MatchingConcat | src/client/base.py:103-109 | handlers run in the order they were added: a list's runs are its first part's runs, then its second part's |
| Events.MatchingOne | src/client/base.py:104-108 | a handler runs exactly when the occurrence has no condition, the handler has none, or the two are equal |
| Events.MatchingAll | src/client/base.py:105 | an occurrence without a condition runs every handler, in order |
| Events.UnconditionedRuns | src/client/base.py:106 | a handler without a condition runs for every occurrence |
| Events.Added | src/client/base.py:72 | `add_event_handler` appends the pair to the end of the event's list (a missing list starts empty) and leaves every other event's list untouched |
| Events.AddedRunsLast | src/client/base.py:72 | after adding, the event runs what it ran before, then the new handler when its condition admits the occurrence |
| Client.Wiring | src/client/client.py:31-47 | the table `__init__` builds has exactly the events "packet" and "connect", and respects the ranks that make dispatch terminate |
| Client.Initial | src/client/client.py:25-47 | a new client is neither connected nor logged in, has sent nothing and knows no player |
| Client.AddHandler | src/client/base.py:53-72 | adding a user handler keeps the client's invariant and changes only the event table |
| Client.IsKnown | src/common/types.py:13-14 | `is_known`: both account and player are present; `Client.GetPlayer` and `Client.SkinBeforePlayerStaysUnknown` use it |
| Client.Truthy | src/client/client.py:59 | Python truthiness of `just_joined`; `Client.PlayerPacket` states that "join" fires exactly when it holds |
| Client.IdValue | src/client/client.py:60 | the unique id as the condition of "join": a string id as a `str`, an integer id as an `int` |
| Client.Send | src/client/base.py:30-32 | `send_packet` writes the frame built with the registry of the moment, or raises and writes nothing |
| Client.LoginPacket | src/client/client.py:50 | `LoginPacket(self.account)`, carrying the account value; `Client.LoginSends` and `Packets.LoginBody` state what is written |
| Client.ChatText | src/client/client.py:119-124 | the display name and "> " when asked for, then the message; `Client.ChatPacketBuilt` states the packet it goes into |
| Client.ChatPacket | src/client/client.py:118-126 | `MessagePacket(text, "")`; `Client.ChatPacketBuilt` states the constructor builds it |
| Client.SendChat | src/client/client.py:111-127 | `send_packet` of the chat packet; `Clients.Client.SendChat` performs it in place |
| Client.ChatPacketBuilt | src/client/client.py:117-127 | `send_chat` sends `MessagePacket(text, "")`, the text being display name + "> " + message, or the message alone |
| Client.GetPlayer | src/client/client.py:101-109 | `get_player` returns the entry exactly when account and player are both known, raises `KeyError` otherwise, and leaves an entry for the id behind |
| Client.AdoptOne | src/client/client.py:71-88 | an entry raises for a malformed pair, an unknown name, or id 1 given to anything but the sync packet (or the sync packet without id 1); otherwise the registry only grows |
| Client.Adopt | src/client/client.py:71-88 | the sync loop keeps the registry valid and never removes an entry |
| Client.Fire | src/client/base.py:94-109 | `_event_call` keeps the client's invariant and the event table, and takes back nothing sent, called, reported or remembered |
| Client.Dispatch | src/client/base.py:103-109 | the same, for the loop over one event's handlers |
| Client.Invoke | src/client/client.py:31-47 | the same, for one handler call |
| Client.HandleLogin | src/client/client.py:49-52 | the same, for `_handle_login` |
| Client.HandlePlayer | src/client/client.py:54-60 | the same, for `_handle_player_packet` |
| Client.HandleSkin | src/client/client.py:62-63 | the same, for `_handle_player_skin_packet` |
| Client.HandleSync | src/client/client.py:65-96 | the same, for `_handle_protocol_sync` |
| Client.Receive | src/client/base.py:111-121 | the same, for `receive_packets` |
| Client.AdoptConcat | src/client/client.py:71-88 | entries are handled one at a time in list order, each on the registry the ones before left |
| Client.LaterFailureKeepsEarlier | src/client/client.py:71-88 | an entry that raises leaves the registrations of the entries before it applied, and no later entry is looked at |
| Client.AdoptStops | src/client/client.py:71-81 | an entry that raises ends the loop with the registry as it stands |
| Client.SyncAdopts | src/client/client.py:83-88 | when no server id is the current id of another listed name, each listed name gets its listed id, that id gets the class the name had, and unlisted names and ids keep their entries |
| Client.SyncStep | src/client/client.py:83-88 | the first entry registers the first name's current class under the first id, and the loop goes on with the rest |
| Client.SwapRegistersWrongClass | src/client/client.py:84-86 | without that side condition the loop goes wrong: swapping the ids of two classes leaves both ids naming the first class |
| Client.VersionMismatchChangesNothing | src/client/client.py:66-67 | a wrong version raises before the registry, the outbox or anything else changes |
| Client.DispatchExternals | src/client/base.py:103-109 | on user handlers, dispatch calls exactly the handlers the condition admits, in list order, stopping after the first that raises; only the call record changes |
| Client.DispatchOne | src/client/base.py:103-109 | one step of the loop: a handler the condition does not admit is skipped; an admitted handler runs, and the rest run unless it raised |
| Client.FireUserEvent | src/client/base.py:94-109 | events other than "packet" and "connect" hold only user handlers; firing one is the user dispatch over its `Listeners`, and an event nobody listens to does nothing |
| Client.Handshake | src/client/client.py:90-96 | a sync that passes every check writes the echo and then the login packet; `connected` is set before the login handler runs, `logged_in` before the "login" handlers |
| Client.SyncLogsIn | src/client/client.py:90-96 | such a sync runs the login handler once the echo is out and `connected` is set |
| Client.SyncConnects | src/client/client.py:90-96 | such a sync writes the echo built from the adopted registry, sets `connected`, then fires "connect" |
| Client.ConnectRunsLogin | src/client/client.py:47 | with the login handler alone on "connect", firing "connect" runs `_handle_login` |
| Client.LoginSends | src/client/client.py:49-52 | `_handle_login` writes the login frame, whose field is the document of the account's copy, sets `logged_in`, then the "login" handlers run |
| Client.PlayerPacket | src/client/client.py:54-60 | a player packet adds an entry only for an id not yet in the table, and fires "join" for that id, with the entry, exactly when `just_joined` is set; the id is the parsed `uniqueId`, a string or an integer, so `1` and `"1"` are different players |
| Client.FirstPlayerPacketWins | src/client/client.py:55-58 | a later player packet for the same id leaves the table as the first one left it |
| Client.SkinPacket | src/client/client.py:62-63 | a skin packet sets the skin on its id's entry, creating an unknown entry when there is none, and keeps every other entry |
| Client.SkinBeforePlayerStaysUnknown | src/client/client.py:62-63 | a skin that arrives before the player packet leaves that player unknown for good: `get_player` then raises `KeyError` |
| Client.IntIdSkinApart | src/client/client.py:54-63 | a player whose unique id is an integer never gets the skin of a skin packet, whose `player_unique_id` is a string: the skin lands on an entry of its own |
| Client.MessageFiresChat | src/client/client.py:40-46 | a received message fires "chat" with its `player_unique_id` as condition and (unique id, message) as arguments |
| Client.SentReadsBack | src/client/base.py:30-32 | the frame `send_packet` writes reads back as the packet when its id maps back to its class and its fields are faithful |
| Client.ReceiveSkipsUnreadable | src/client/base.py:114-119 | a frame that does not read is reported, and the loop goes on after it |
| Client.ReceiveStopsAtRaise | src/client/base.py:120-121 | a handler that raises ends the loop: nothing after that frame is read, and the outcome is that handler's |
| Client.DeserializePrefix | src/protocol/generic.py:38-40 | reading a frame that lies wholly in the input never looks past it |
| Clients.Client.constructor | src/client/client.py:25-47 | a new client object is in the state `Initial` describes, on the shared registry |
| Clients.Client.AddEventHandler | src/client/base.py:53-72 | appends to the event table in place, as `AddHandler` |
| Clients.Client.SendPacket | src/client/base.py:30-32 | appends the frame to the outbox in place, or raises and changes nothing, as `Send` |
| Clients.Client.SendChat | src/client/client.py:111-127 | sends the chat packet, as `SendChat` |
| Clients.Client.GetPlayer | src/client/client.py:101-109 | looks the player up, inserting an unknown entry for a missing id, as `GetPlayer` |
| Clients.Client.EventCall | src/client/base.py:94-109 | the loop over the event's handlers leaves the object in the state, and with the outcome, that `Fire` gives |
| Clients.Client.Invoke | src/client/client.py:31-47 | one handler call, as `Invoke` |
| Clients.Client.HandleLogin | src/client/client.py:49-52 | `_handle_login` in place, as `HandleLogin` |
| Clients.Client.HandlePlayer | src/client/client.py:54-60 | `_handle_player_packet` in place, as `HandlePlayer` |
| Clients.Client.HandleSkin | src/client/client.py:62-63 | `_handle_player_skin_packet` in place, as `HandleSkin` |
| Clients.Client.HandleSync | src/client/client.py:65-96 | `_handle_protocol_sync` in place, on the shared registry, as `HandleSync` |
| Clients.Client.AdoptEntries | src/client/client.py:71-88 | the entry loop rewrites the shared registry in place, entry by entry, as `Adopt` |
| Clients.Client.ReceivePackets | src/client/base.py:111-121 | the receive loop over the given bytes, as `Receive` |

## Left out

- `JSON`, `JSONSerializable`, `JSONDataclass` (src/io/types.py:179-219): an account or record travels as its JSON document, carried by the `String` codec. Writing an account's document (`json.dumps` of `get_dict`) is modelled. Parsing documents is not: `wjson` and `dataclasses_json` are not part of this model. The client reads a received account's unique id through the parameter `idOf`, which returns the parsed `uniqueId` as a string or an integer, and a received record is kept as its document.
- `Float` and `Double` (src/io/types.py:114-133), and `consuming_unpack`: floating point.
- `ABCIOTypeMeta.__or__` (src/io/types.py:25-26): no schema of the core uses it.
- `bytes_to_buffer`, `buffer_to_bytes`, `to_cr_buffer`, `from_cr_bytes` and `GamePacket.__repr__`: wrappers around the modelled encoders and decoders, or printing.
- Sockets: `SocketReadBuffer`, `connect` and its "connecting" event, and `receive_packet` blocking until bytes arrive. Sending appends the frame to `outbox` instead of writing to a socket.
- `_start_threaded`: threading.
- The random unique id of a new offline account (src/types/accounts.py:46-47): it is a parameter.
- `BaseClient.on`: it only calls `add_event_handler`, which is modelled.
- The entity and player records (`src/types/entities.py`): a player's payload is kept as the received value, without interpretation.
- The packet classes of the other packet files: only the field lists of `MessagePacket`, `PlayerSkinPacket` and `PlayerPacket` are used, as constants.
- `RememberedPlayer.has_skin`: not used by the client.
- Clients.Client.ReceivePackets: reads a given finite byte sequence and ends at its end. The source loops for as long as the socket exists and blocks for more input.
- Clients.Client.EventCall: `self.event_handlers[event]` on the `defaultdict` inserts an empty list for an event nobody listens to. The model leaves the table as it was. Dispatch cannot tell the two apart.
- Clients.Client.AddEventHandler: a user handler is any Python callable. The model stands for it by `External(id, fails)`, which records its call and raises when `fails`. A user handler that itself sends packets, adds handlers or fires events is not modelled.
- Clients.Client.Invoke: the built-in handlers raise `TypeError` when called with the wrong arguments, and `AttributeError` for a packet that lacks the fields they read. The wiring in `__init__` never causes either.
- Clients.Client.ReceivePackets: the traceback printed for a decode error is not modelled. The error is appended to `errors`, and the loop goes on.
- Clients.Client.constructor: the client's account is held as a value. Changing the account object after the client is built is not modelled.
- IoTypes.Convert: `typ(arg)` is modelled for the values the core passes: a value already of the type is kept, and a tuple or list type takes the elements of any `str`, `bytes`, tuple or list. The conversions Python would also perform are not modelled and raise `TypeError` instead: `String(5)`, `Int("5")`, `Bytes` of a list of integers, and a tuple or list made from a JSON document (iterating its keys). `Bytes("")`, which raises `TypeError` in the source too, is modelled.
- IoTypes.RoundTrip: it covers values the codecs carry unchanged. `Bool`/`Byte` values, empty strings and byte strings, and text with characters beyond one byte are excluded, because the source does not round-trip them (see `CodecLaws.ByteTagNeverEncodes`, `CodecLaws.EmptyStringSwallowsRest` and `CodecLaws.CharCountPrefix`).
- Client.SyncAdopts: it is proved only when no server id is the current id of another listed name. `Client.SwapRegistersWrongClass` shows that this side condition is needed.
- IoTypes.EncodeMapped: the `typ(self)` conversion of src/io/types.py:290 is applied through `IoTypes.Convert`, and for a record type it keeps the document as it is. The copy `OfflineAccount(account)` that the source makes there is made when the account enters the field: `Packets.AccountValue` is the document of that copy, so the bytes written are the source's.
- Packets.AccountFieldEncodes: states the bytes for a given document; which document an account becomes, that of its copy, is stated by `Packets.AccountDocument` and `Packets.LoginBody`.
- Packets.KeyedRecordEncodes: states the bytes for a given document; the account copy is made by `Packets.AccountValue`, for the reason given for `IoTypes.EncodeMapped`.
- Packets.LoginNew: the source packet holds the account object itself, and the copy is made only when it is written. The model holds the copy's document from the start. The two differ only if the account object changes between building and sending, which the client never does.
