# DNS packet codec of native-dns-packet, modelled in Dafny

This project models `packet.js` of native-dns-packet. That file turns a packet object into DNS wire format (`Packet.write`) and turns the wire format back into a packet object (`Packet.parse`). The wire format is section 4 of RFC 1035.

Each direction is modelled twice:

- **Pure specification functions.** They compute the octets, errors and final packet object for any input. `Encoding.Encode` specifies `Packet.write`, with `Names.PackName`, `Encoding.RDataEmit` and `Encoding.TruncateBytes` beneath it. `Decoding.Decode` specifies `Packet.parse`, with `Names.NameAt`, `Decoding.FrameAt`, `Decoding.RDataAt` and `Decoding.OptAt` beneath it.
- **Imperative methods.** They take the form of packet.js: state machines that move a cursor over a buffer and update the packet object in place.
  - `Writing.Write` runs over an `array<byte>` through a `Cursors.Writer`.
  - `Parsing.Parse` runs over a `Cursors.Reader`.
  - Both fill a `Messages.Packet`, a class whose fields are the packet object's properties.
  - Every method is proved equal to its specification function.

Lemmas relate the two directions:

- The header, the question and the records read back as written, for every RDATA type both sides handle. Numbers come back reduced to their field width, as packet.js masks them.
- Every name `name_pack` writes, compressed or not, reads back as the same name. The cursor stops right after the name's own octets.
- Truncation after an overflow sets TC and rewrites only the counts.
- The EDNS option list comes back in reverse order. The EDNS fields are read from the six octets before the end of the RDATA.
- A whole message comes back (`PacketRoundTrip.PacketBack`). The message must be written through every section, its names and RDATA must read back, and its section lengths must fit 16 bits. Packet.parse then gives back the packet `PacketRoundTrip.Decoded` describes:
  - the id and flags reduced to their widths, and the first question;
  - every record as the record round trip gives it;
  - with the EDNS state, the payload as the OPT record's class, the version, extended rcode and flags read from the six octets before the end of its RDATA, and the options in reverse order.
- A decoded message has exactly one question. Each section holds at most its count, and exactly its count when no OPT record was met.

Where packet.js differs from its evident intent, the model records the behaviour as written and then uses the corrected reading. See "Findings" below.

The model follows the code wherever it disagrees with a plain reading of the format:

- The header's three reserved bits are all written from `res1` (packet.js:174-176). `Headers.FlagsRoundTrip` shows that `res2` and `res3` come back equal to `res1`.
- Only the first question is written, and qdcount is always 1.
- Parsing reads one question whatever qdcount says.
- The OPT state reads its fields from `end - 6`, not from the TTL (packet.js:618-623).
- The OPT record's TTL keeps only the DO bit: the mask `& 0x8000` at packet.js:160 clears the extended rcode and the version that were shifted in.
- The TRUNCATE state writes `count - 1` as the current section's count (packet.js:215). Here `count` is the number of records completed before the overflow, and all of them stay in the output. The model writes the same value, so the header announces one record fewer than the message holds.

Files and modules:

| file | module | what it holds |
|---|---|---|
| wrappers.dfy | `Wrappers` | `Option` and `Result` |
| wire.dfy | `Wire` | octets, big-endian words, 'ascii' strings, the `Emit` result of a write |
| messages.dfy | `Messages` | header, question, record, RDATA variants, the type table, the `Packet` class |
| cursor.dfy | `Cursors` | the buffer cursor: `Writer` over an array, `Reader` over a sequence |
| header.dfy | `Headers` | the flag word |
| names.dfy | `Names` | `name_pack`, `nameUnpack` and `isPointer` |
| encoder.dfy | `Encoding` | `Packet.write` as functions |
| writer.dfy | `Writing` | `Packet.write` as a state machine |
| decoder.dfy | `Decoding` | `Packet.parse` as functions |
| parser.dfy | `Parsing` | `Packet.parse` and its helpers as methods |
| roundtrip.dfy, records.dfy, rdata.dfy, edns.dfy, walk.dfy | `RoundTrip`, `RecordRoundTrip`, `RDataRoundTrip`, `EdnsRoundTrip`, `SectionWalk` | the lemmas relating the two directions |
| packet.dfy | `PacketRoundTrip` | the round trip of a whole message, section by section |

## Model

| member | source | states |
|---|---|---|
| Names.PointerMask | packet.js:56-60 | isPointer's test `(len & 0xC0) == 0xC0` holds exactly for the length octets the model treats as pointers |
| Names.NamePack | packet.js:99-125 | name_pack on the cursor appends exactly the octets of `PackName` and leaves its index; it keeps everything before the cursor and reports overflow and range errors as `PackName` does |
| Names.NamePackRead | packet.js:99-125 | a name written by name_pack, the root name included, reads back as the same name, and the cursor stops right after the written octets; every suffix recorded in the index still reads back from its offset |
| Names.PackUnpack | packet.js:99-125 | the same round trip, stated over name_pack's passes through the name |
| Names.NameAt | packet.js:62-97 | a successful read starts inside the message and ends after its start and within the message |
| Names.UnpackMoreHops | packet.js:68-79 | a larger budget of pointer jumps reads the same name and end |
| Names.NameUnpack | packet.js:62-97 | nameUnpack on the cursor succeeds exactly when `NameAt` does, with the same name, the cursor at `NameAt`'s end, and the same error |
| Names.AsWrittenAgrees | packet.js:62-97 | the loop as written and the corrected reading succeed and fail together, with the same error and the same labels; the end as written is the corrected end or one octet before it |
| Names.AsWrittenEndsInsidePointer | packet.js:81-94 | for a label followed by a pointer, the loop as written leaves the cursor on the pointer's second octet (offset 11), while the corrected reading ends after the pointer (offset 12) |
| Names.AsWrittenRootFails | packet.js:65-94 | a lone zero octet fails as written (the seek to an undefined end), and the corrected reading gives the root name ending after that octet |
| Headers.FlagsRoundTrip | packet.js:166-178 | parseHeader takes the written flag word apart into every field reduced to its width, with res2 and res3 equal to res1 |
| Headers.FlagsWordOfParsed | packet.js:408-420 | a 16-bit flag word is the one written for the header parsed from it exactly when its three reserved bits are equal |
| Headers.ParseFlagsOf | packet.js:408-420 | a word built from in-range fields is taken apart into those fields |
| Headers.SetTcFlags | packet.js:191-195 | setting bit 0x200 changes the parsed header in `tc` alone, which becomes 1 |
| Encoding.EdnsTtl | packet.js:159-160 | the OPT record's TTL is 0 or 0x8000: only the DO bit survives the mask |
| Encoding.PrepareEdns | packet.js:150-163 | without an EDNS version the packet is unchanged; with one, the OPT record is put first in the additional section, rcode keeps its low four bits, and nothing else changes |
| Encoding.HeaderBytes | packet.js:164-189 | the header is twelve octets; what they read back as is `RoundTrip.HeaderRoundTrip` |
| Encoding.FixedBytes | packet.js:272-274 | the fixed part of a record is eight octets; what it reads back as is `RecordRoundTrip.FixedBack` |
| Encoding.SectionRun | packet.js:240-289 | the records completed in a section never exceed those left, and are all of them when the section was written through |
| Encoding.RecordRun | packet.js:261-281 | the same bound for the run that starts by writing record i |
| Encoding.BodyRun | packet.js:268-281 | the same bound for the run that starts at record i's fixed part |
| Encoding.FramedRun | packet.js:276-289 | the same bound for the run that starts at record i's RDATA |
| Encoding.TruncateBytes | packet.js:190-218 | truncation keeps the buffer's length; `RoundTrip.TruncateHeader` states what it changes |
| Encoding.ZeroLater | packet.js:196-213 | clearing the later sections' counts keeps the buffer's length |
| Encoding.TruncateTake | packet.js:190-218 | truncation touches only the header: truncating a prefix gives the prefix of the truncated buffer |
| Encoding.Sections | packet.js:240-289 | a successful write returns the number of octets it produced |
| RoundTrip.HeaderRoundTrip | packet.js:164-189 | the written header parses back to the id & 0xFFFF and the flag fields reduced to their widths, with qdcount 1 and each section's length & 0xFFFF as its count |
| RoundTrip.QuestionRoundTrip | packet.js:223-239 | the written question reads back with the same name and with type and class & 0xFFFF; the cursor ends after it, and the index it leaves is sound |
| RoundTrip.ReadU16Back | packet.js:421-424 | a written 16-bit word reads back as its value |
| RoundTrip.ReadU32Back | packet.js:442 | a written 32-bit word reads back as its value |
| RoundTrip.ReadStringBack | packet.js:312-313 | a character string of 'ascii' characters written with its length octet reads back as itself, and the cursor ends after it |
| RoundTrip.TruncateWords | packet.js:190-218 | each header word after truncation is the flag word with TC set, the current section's count minus one, zero for a later section, or the word unchanged |
| RoundTrip.TruncateHeader | packet.js:190-218 | after truncation the header parses with tc = 1 and the other flags unchanged; qdcount and earlier counts are unchanged, the current section's count is the `count - 1` packet.js writes, and later counts are 0 |
| RoundTrip.TruncateTail | packet.js:190-218 | truncation leaves every octet after the header unchanged |
| RecordRoundTrip.RecordRunBytes | packet.js:261-289 | a completed record is its name, type, class and TTL, its RDATA length, and then its RDATA, which is shorter than 2^16 octets |
| RecordRoundTrip.FixedBack | packet.js:268-274 | the written type, class and TTL read back reduced to 16, 16 and 32 bits |
| RecordRoundTrip.FrameBack | packet.js:438-446 | parseRR reads back the written name, type, class and TTL; the RDATA starts after them and has the written length |
| RecordRoundTrip.RecordRead | packet.js:261-289 | a written record of a handled type is parsed back and appended to its section, with the cursor after its RDATA and the index sound |
| RecordRoundTrip.RecordBack | packet.js:240-289 | the same for record i of a section run that completed it |
| RDataRoundTrip.DomainBack | packet.js:219-222 | a name field written by the NAME_PACK state reads back as the same name, ending where the field ends |
| RDataRoundTrip.AddressBack | packet.js:448-469 | A and AAAA read back the first 4 or 16 octets written, and an address that is too short is a read past the end |
| RDataRoundTrip.CnameBack | packet.js:471-477 | NS, CNAME and PTR data read back as the written name |
| RDataRoundTrip.TxtBack | packet.js:479-485 | TXT and SPF data of 'ascii' characters read back as written |
| RDataRoundTrip.TextsOne | packet.js:479-485 | one character string is read whole by parseTxt's loop |
| RDataRoundTrip.MxBack | packet.js:487-494 | MX reads back the priority & 0xFFFF and the exchange name |
| RDataRoundTrip.SrvBack | packet.js:496-505 | SRV reads back priority, weight and port & 0xFFFF and the target name |
| RDataRoundTrip.SoaBack | packet.js:507-520 | SOA reads back both names and the five numbers & 0xFFFFFFFF |
| RDataRoundTrip.NaptrBack | packet.js:522-534 | NAPTR reads back order and preference & 0xFFFF and the four character strings |
| RDataRoundTrip.RDataBack | packet.js:290-390 | the RDATA of every handled type reads back as the record written, reduced as the writer reduced it |
| EdnsRoundTrip.OptionsWritten | packet.js:361-371 | when the OPT state writes the whole list, every option had a 16-bit code and fewer than 2^16 octets of data; the octets are the options last first, they fit the buffer, and the list is left empty |
| EdnsRoundTrip.OptionsReadBack | packet.js:625-630 | the option loop of Packet.parse reads those octets back as the list reversed |
| EdnsRoundTrip.OptionsAtShift | packet.js:625-630 | the option loop reads the same whatever octets precede the RDATA |
| EdnsRoundTrip.OptionsRoundTrip | packet.js:614-632 | an OPT record's options written by Packet.write are appended by Packet.parse in reverse order, after the EDNS fields |
| EdnsRoundTrip.EdnsFromTtl | packet.js:617-624 | for an empty RDATA, the payload is the record's class; the extended rcode comes from the TTL's high octet, shifted above the header's rcode; the version is its second octet and the flags are its low 16 bits |
| EdnsRoundTrip.EdnsFromRData | packet.js:617-624 | for an RDATA of six or more octets, the extended rcode, version and flags come from its last six octets |
| Decoding.QuestionAt | packet.js:428-436 | a question read successfully lies within the message and ends after its start |
| Decoding.FrameAt | packet.js:438-446 | a record's RDATA starts more than ten octets after the record and lies within the message, and the record has a type and no data yet |
| Decoding.Slice | packet.js:444 | the RDATA slice has the RDATA length |
| Decoding.StringAt | packet.js:525-532 | a character string read successfully has as many characters as its length octet says and lies within the RDATA |
| Decoding.DnssecOkOf | packet.js:624 | the DO flag moved to bit 30 is 0 or 0x40000000 |
| Decoding.Counts.Drop | packet.js:616 | the current section's count goes down by one, and every other count stays |
| Decoding.RecordAt | packet.js:581-632 | one record step moves the cursor forward and stays within the message |
| SectionWalk.RecordKeepsWalking | packet.js:581-632 | one record step keeps the section walk's invariant: no OPT record is kept, each section stays within its count, and without EDNS the header and counts are untouched |
| SectionWalk.OptKeepsWalking | packet.js:614-632 | an OPT record keeps that invariant by lowering the section's count instead of being kept |
| SectionWalk.KeptKeepsWalking | packet.js:586-589 | any other record keeps it by being appended to its section |
| SectionWalk.WalkEnds | packet.js:562-589 | the walk ends with the question unchanged, no OPT record kept, every section within its header count, and all counts exact when there was no OPT record |
| SectionWalk.DecodeSections | packet.js:536-644 | a parsed packet has exactly one question and no OPT record; each section holds at most its header count, exactly that count when no OPT record was met, and the header is as parsed |
| Messages.TagOf | packet.js:280 | the state chosen for a type code is the one whose code it is, and an unhandled code matches no state |
| Messages.Packet.constructor | packet.js:34-54 | a new packet holds the default header and empty sections and options |
| Messages.Packet.Push | packet.js:587 | pushing a record appends it to its section, and nothing else changes |
| Wire.U16Value | packet.js:421-424 | readUInt16BE gives back what writeUInt16BE wrote |
| Wire.AsciiBytes | packet.js:118 | an 'ascii' write gives one octet per character |
| Wire.AsciiString | packet.js:81 | an 'ascii' read gives one character per octet |
| Wire.AsciiRoundTrip | packet.js:313 | characters below 0x80 survive an 'ascii' write and read |
| Writing.AddOpt | packet.js:150-163 | the EDNS state leaves the packet object equal to `PrepareEdns` of it |
| Writing.WriteHeader | packet.js:164-189 | the HEADER state writes `HeaderBytes` at offsets 0 to 11 |
| Writing.WriteQuestion | packet.js:223-239 | the QUESTION states append `QuestionEmit`'s octets and return its status and index |
| Writing.WriteOctets | packet.js:295-297 | the address octets are appended one by one, or the write fails as a write of that length does |
| Writing.PopOption | packet.js:362-369 | one pop removes the last option and appends its code, length and data; the rest of the loop is `OptionsEmit` of what is left |
| Writing.WriteOptions | packet.js:361-371 | the OPT loop appends `OptionsEmit`'s octets and leaves the option list it leaves |
| Writing.WriteDomain | packet.js:219-222 | a name field appends the packed name, and the remaining fields are written as the field list specifies |
| Writing.WriteWord | packet.js:319 | a 16-bit field is appended, or the field list stops there |
| Writing.WriteLong | packet.js:354-358 | a 32-bit field is appended, or the field list stops there |
| Writing.WriteText | packet.js:312-313 | a character string field is appended, or the field list stops there |
| Writing.WriteAddress | packet.js:290-299 | the A/AAAA state appends the octets `RDataEmit` specifies |
| Writing.WriteTarget | packet.js:300-307 | the NS/CNAME/PTR state appends the octets `RDataEmit` specifies |
| Writing.WriteTxt | packet.js:308-315 | the TXT/SPF state appends the octets `RDataEmit` specifies |
| Writing.WriteMx | packet.js:316-323 | the MX state appends the octets `RDataEmit` specifies |
| Writing.WriteSrv | packet.js:324-335 | the SRV state appends the octets `RDataEmit` specifies |
| Writing.WriteSrvNumbers | packet.js:329-331 | SRV's three words are appended, then the target as the field list specifies |
| Writing.WriteSoa | packet.js:336-360 | the SOA states append the octets `RDataEmit` specifies |
| Writing.WriteSoaNumbers | packet.js:354-358 | SOA's five words are appended |
| Writing.WriteSoaTail | packet.js:356-358 | SOA's last three words are appended |
| Writing.WriteNaptr | packet.js:372-390 | the NAPTR state appends the octets `RDataEmit` specifies |
| Writing.WriteNaptrStrings | packet.js:381-388 | NAPTR's four character strings are appended |
| Writing.WriteOpt | packet.js:361-371 | the OPT state appends the octets `RDataEmit` specifies and leaves the packet's option list as it specifies |
| Writing.WriteRData | packet.js:280-396 | the state chosen by the type appends the octets of `RDataEmit`, or fails as it does; an unhandled type is the default case's error |
| Writing.WriteRecord | packet.js:261-289 | one record is appended, and the rest of the section run is `SectionRun` from the next record |
| Writing.WriteBody | packet.js:268-281 | the fixed part, the RDATA length and the RDATA are appended, and the run goes on from the next record |
| Writing.WriteFramed | packet.js:276-289 | the RDATA is appended and its length patched in front of it |
| Writing.PatchLength | packet.js:282-286 | RESOURCE_DONE overwrites the length word with the RDATA's length and keeps every other octet |
| Writing.WriteFixed | packet.js:272-274 | type, class and TTL are appended as `FixedBytes` |
| Writing.WriteSection | packet.js:240-289 | a section is written as `SectionRun` specifies: status, records completed, index, the packet's option list, and the octets up to the last completed record |
| Writing.Overwrite | packet.js:214-215 | a count word is overwritten in place when it is in 16-bit range, and the write fails otherwise |
| Writing.Truncate | packet.js:190-218 | the TRUNCATE state leaves `TruncateBytes` of the buffer and returns the offset of the last completed record; a count outside 1 to 2^16 is an error |
| Writing.Write | packet.js:127-406 | Packet.write returns `Encode`'s offset or error, leaves the packet object as `Encode` does, and the buffer starts with `Encode`'s octets |
| Writing.WriteRound | packet.js:147-404 | one section's states, followed by the TRUNCATE or END state, agree with `Sections` |
| Parsing.ParseHeader | packet.js:408-426 | parseHeader succeeds exactly when `HeaderAt` does, sets the header and returns the counts it gives, with the cursor at 12 |
| Parsing.ParseQuestion | packet.js:428-436 | parseQuestion appends `QuestionAt`'s question and moves the cursor to its end, or fails with its error |
| Parsing.ParseRR | packet.js:438-446 | parseRR returns `FrameAt`'s record, a fresh reader over the RDATA, and the cursor after the RDATA |
| Parsing.ParseA | packet.js:448-456 | parseA gives `AddressAt` of four octets |
| Parsing.ParseAaaa | packet.js:458-469 | parseAAAA gives `AddressAt` of sixteen octets |
| Parsing.ParseCname | packet.js:471-477 | parseCname gives `CnameAt` and puts the cursor back |
| Parsing.ParseTxt | packet.js:479-485 | parseTxt gives `TxtAt` |
| Parsing.ParseMx | packet.js:487-494 | parseMx gives `MxAt` and puts the cursor back |
| Parsing.ParseSrv | packet.js:496-505 | parseSrv gives `SrvAt` and puts the cursor back |
| Parsing.ParseSoa | packet.js:507-520 | parseSoa gives `SoaAt` and puts the cursor back |
| Parsing.ParseSoaNumbers | packet.js:512-518 | the five numbers are read from where the admin name ended, as `SoaNumbersAt` |
| Parsing.ReadString | packet.js:525-532 | one length octet and that many 'ascii' characters are read, as `StringAt` |
| Parsing.ParseNaptr | packet.js:522-534 | parseNaptr gives `NaptrAt` |
| Parsing.ParseRData | packet.js:590-635 | the state of the record's type gives `RDataAt` |
| Parsing.ParseOpt | packet.js:614-632 | the OPT state leaves the packet as `OptAt` and the cursor where it was |
| Parsing.ReadEdnsFields | packet.js:617-624 | payload, extended rcode, version and flags are set as `EdnsFields` |
| Parsing.ParseOptions | packet.js:625-630 | the options are appended as `OptionsAt` reads them, or the loop fails with its error |
| Parsing.ParseRecord | packet.js:581-589 | RR_UNPACK, the type's state and RESOURCE_DONE together agree with `RecordAt` |
| Parsing.Parse | packet.js:536-644 | Packet.parse succeeds exactly when `Decode` does, with a fresh packet holding its message, or fails with its error |
| PacketRoundTrip.PacketBack | packet.js:127-406 | a message written through every section, whose names and RDATA read back and whose section lengths fit 16 bits, makes Packet.write return the length of its octets, and Packet.parse of those octets gives back `Decoded` of the message: header and question reduced, every record as `Returned` gives it, and the OPT state's fields when the EDNS state ran |
| PacketRoundTrip.PacketEdnsBack | packet.js:150-163 | with the EDNS state and no option, the parsed packet has the payload reduced to 16 bits, version 0 and the rcode's low four bits (the TTL keeps only the DO bit), the DO bit as 0 or 0x40000000, and no option |
| PacketRoundTrip.DecodedEdns | packet.js:614-632 | the same fields of `Decoded` for a message with the EDNS state and no option |
| PacketRoundTrip.DoBitBack | packet.js:624 | the DO bit the EDNS state writes into the TTL is read back as bit 30 |
| PacketRoundTrip.FrontBack | packet.js:408-436 | the header and question Packet.write wrote read back: the id and flags reduced, qdcount 1 and each section's length as its count, the question reduced, and the cursor right after the question |
| PacketRoundTrip.DecodeOf | packet.js:548-561 | Packet.parse goes on from the HEADER and QUESTION states to RESOURCE_RECORD over the answer section, with the header and the one question read |
| PacketRoundTrip.SectionsBack | packet.js:562-589 | RESOURCE_RECORD from section s on, over what the section walk wrote from s on, fills every section as `Filled` says and reaches END |
| PacketRoundTrip.SectionStep | packet.js:562-580 | after the answer or authority section is read back, both walks go on to the next section at the same offset, with the option list untouched |
| PacketRoundTrip.LastSectionBack | packet.js:573-575 | the additional section, with or without the OPT record in front, reads back as `Filled` says and the walk ends |
| PacketRoundTrip.PlainSection | packet.js:562-589 | a section written without an OPT record, its count being its length, reads back record by record as `ReturnedFrom`, and the walk goes on to the next section or ends |
| PacketRoundTrip.SectionBack | packet.js:581-589 | RESOURCE_RECORD over the records written from record i on appends each as `Returned` gives it, leaves the counts alone and ends after the last record's octets |
| PacketRoundTrip.RecordOnce | packet.js:261-289 | one record written in full and read back: appended to its section, counts unchanged, both cursors after its octets, the option list untouched |
| PacketRoundTrip.RecordWritten | packet.js:282-289 | a completed record's octets sit where it started, the walk goes on right after them, and the option list is untouched |
| PacketRoundTrip.RecordAtStep | packet.js:581-589 | RR_UNPACK and RESOURCE_DONE over a written record append it to the section and move the cursor to the end of its octets |
| PacketRoundTrip.RecordReadStep | packet.js:562-589 | the same as a step of RESOURCE_RECORD while the section is short of its count |
| PacketRoundTrip.RecordKeepsOptions | packet.js:261-289 | a record whose type is not OPT leaves the EDNS option list alone |
| PacketRoundTrip.RDataKeepsOptions | packet.js:290-359 | every RDATA state but OPT leaves the EDNS option list alone |
| PacketRoundTrip.EdnsSection | packet.js:614-632 | the additional section with the OPT record first reads back to the OPT state's fields and options followed by the other records as `Returned` gives them |
| PacketRoundTrip.EdnsHead | packet.js:361-371 | the OPT record the EDNS state put first is read by the OPT state, which drops it, lowers arcount by one, and leaves the cursor after its options |
| PacketRoundTrip.OptWritten | packet.js:150-163 | the OPT record is written as the root name, type OPT, the payload as class, the EDNS TTL, the RDATA length and every option, and no option is left to write |
| PacketRoundTrip.OptPieces | packet.js:361-371 | the OPT state pops and writes the whole option list and leaves none |
| PacketRoundTrip.OptEmitted | packet.js:361-371 | the OPT RDATA state, when it completes, writes the option octets of the whole list |
| PacketRoundTrip.OptFrame | packet.js:438-446 | parseRR over the OPT record reads the root name, type OPT, the payload reduced to 16 bits as class, the EDNS TTL, and the options as RDATA |
| PacketRoundTrip.OptFields | packet.js:618-623 | the extended rcode, version and flags are read from the six octets before the end of the OPT record's RDATA |
| PacketRoundTrip.OptAtStep | packet.js:614-632 | the OPT state over the written OPT record gives the packet `EdnsRead` and drops the record from the additional count |
| PacketRoundTrip.EdnsFieldsOf | packet.js:618-623 | the EDNS fields are those of the six octets read before the end of the RDATA |
| PacketRoundTrip.SectionsGoing | packet.js:391-393 | a write that got through every section returns its offset, which is the length of its octets, and the octets begin with the header, the question and the section |
| PacketRoundTrip.FilledDecoded | packet.js:536-644 | the packet Packet.parse fills from the header and question on is `Decoded` |

## Left out

- The buffer cursor library, `ipaddr.js` and `consts.js` are not part of this model.
  - The cursor is modelled by the contracts of `Cursors.Writer` and `Cursors.Reader`: a write past the end reports `Full`, which stands for `BufferCursorOverflow`; a value out of range reports `OutOfRange`; a read past the end reports `ReadPastEnd`.
  - The type table holds the codes of RFC 1035, RFC 3596, RFC 2782, RFC 3403, RFC 6891 and RFC 4408 for the types packet.js handles.
- Names.NameAt: a name that is a lone zero octet reads as the root name, ending after that octet. packet.js seeks to an undefined offset there; `Names.NameAtAsWritten` models that as `BadSeek` (see Findings).
- Names.NameAt: after a label followed by a pointer, the cursor ends after the pointer, where packet.js leaves it on the pointer's second octet. `Names.UnpackAsWritten` models that (see Findings).
- Names.NameAt: the number of pointer jumps is bounded by `hops`. Past it the read fails with `TooManyHops`, where packet.js:68-79 loops forever on a pointer cycle. `Names.UnpackMoreHops` shows that a larger budget reads the same.
- Names.PackName: `index[str]` is read from a plain object in packet.js:103. There, keys such as "constructor", "toString" and "__proto__" are truthy before anything is recorded, so "a.constructor" is written with a bogus pointer. The model's index is a map holding only recorded suffixes.
- Wire.AsciiBytes: an 'ascii' write keeps each character code modulo 256, and `Wire.AsciiString` keeps each octet modulo 128. JavaScript string lengths count UTF-16 code units, so a character outside the Basic Multilingual Plane has length 2 at packet.js:117 and packet.js:312, but 1 in the model.
- The record's properties are modelled as one variant per RDATA shape. A record that lacks a property its type's state asserts is written with a different variant (or `NoData`), and the state fails with `MissingField` before writing anything.
- Encoding.RDataLayout: packet.js:336-353 packs the SOA primary name before it asserts `admin`, and packs `admin` before it asserts the five numbers. A SOA record missing a later field, whose names overflow the buffer, is truncated by packet.js. The model cannot represent such a partial SOA record: it fails with `MissingField` before writing.
- A and AAAA addresses are their 4 or 16 octets. `ipaddr.parse` errors and the dotted-decimal or hexadecimal text that parseA and parseAAAA build are not modelled.
- Encoding.Encode: it requires `Fits`: the buffer holds the 12-octet header, and the question does not overflow it. An overflow there reaches the TRUNCATE state with no section chosen, which packet.js does not handle. `Writing.Write` carries the same precondition.
- Encoding.Sections: a section that overflows before its first record is complete has count 0. packet.js then writes `count - 1` = -1 as an unsigned word, which throws. The model gives `Failure(OutOfRange)`.
- Encoding.FixedBytes: the TTL is written as its value modulo 2^32. packet.js:274 passes `ttl & 0xFFFFFFFF`, a negative 32-bit value when bit 31 is set, to writeUInt32BE, which throws.
- Encoding.RDataLayout: the SOA serial is written modulo 2^32 in the same way. For a serial with bit 31 set, writeUInt32BE at packet.js:354 throws.
- Decoding.SoaNumbersAt: refresh, retry, expiration and minimum are read as unsigned 32-bit words. packet.js:515-518 reads them with readInt32BE, which gives the value minus 2^32 when bit 31 is set. The octets are the same.
- Decoding.Decode: exactly one question is read, whatever qdcount says, and `Encoding.Encode` writes only the first question.
- Encoding.OptionStatus: an option code or data length outside 16 bits fails with `OutOfRange`, the error writeUInt16BE throws. The option is popped from the list anyway, as in packet.js.
- Decoding.OptAt: the EDNS fields are read from the six octets before the end of the RDATA, as packet.js:618-623 does. `EdnsRoundTrip.EdnsFromTtl` states that these are the TTL's octets only when the RDATA is empty.
- The types that `Packet.parse` has no state for go through its default case unchanged. Types that `Packet.write` has no state for fail with `UnknownType`, the error its default case throws.
- Error messages are not modelled, only which error kind occurs.

## Findings

| source | as written | input that shows it | evidently intended | confidence | as-written member | corrected member |
|---|---|---|---|---|---|---|
| packet.js:88-94 | after a label, `end` is set right after the next length octet is read; when that octet starts a pointer, `end` is not moved again, so `seek(end)` leaves the cursor on the pointer's second octet and the type, class and everything after the name are read one octet early | the octets `00 03 63 6f 6d 00 03 66 6f 6f c0 01` with the name at offset 6: "foo.com" is read with the cursor left at 11 instead of 12. name_pack writes this shape whenever a name shares a proper suffix with an earlier one | the cursor ends after the pointer, so a name written by name_pack is followed by the field written after it (`Names.NamePackRead`) | not executed | Names.AsWrittenEndsInsidePointer | Names.NameAt |
| packet.js:65-94 | for a name that is a lone zero octet the loop never runs, `end` stays undefined, and `seek(undefined)` fails | the one-octet message `00` read at offset 0; also every OPT record, which Packet.write writes with the name '' (packet.js:152) | the root name reads as '' with the cursor after its zero octet, so an OPT record written by Packet.write is read back (`EdnsRoundTrip.OptionsRoundTrip`) | not executed | Names.AsWrittenRootFails | Names.NameAt |
