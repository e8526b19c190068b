# pyIMX boot-image codec, modelled in Dafny

This project models the boot-image codec of pyIMX, a Python library for NXP i.MX
application processors, and proves properties of that model. The codec reads and
writes the binary records a boot ROM expects:

- the four-byte record header;
- the High Assurance Boot (HAB) commands: Write Data, Check Data, No Operation, Set,
  Initialize, Unlock, Install Key and Authenticate Data;
- the segments: image vector tables, boot data tables, the application payload, the
  Device Configuration Data (DCD) and Command Sequence File (CSF) command streams, and
  the DCD text notation;
- the boot images: `BootImg2` for i.MX6/7, the two-container `BootImg3a` and
  `BootImg3b`, and the top-level parser that scans a buffer for an image vector table;
- the key blob, certificate and signature records;
- the stream cursor reads, and the `atos` and `crc16` helpers of the serial download
  protocol package.

The older copy of the codec under `src/imx/im` differs in several wire details, so it
is modelled by separate modules with names starting `Legacy`.

The modules follow the source files:

- `ImgHeader` (`header.dfy`);
- `ImgCommands` and `ImgCommandObjects` (`commands.dfy`, `command_objects.dfy`);
- `ImgSegments`, `ImgCmdSegments` and `ImgDcdText` (`segments.dfy`, `cmd_segments.dfy`, `dcd_text.dfy`);
- `ImgImages`, `ImgParse`, `ImgBootImg3` and `ImgBootImg3b` (`images.dfy`, `parse_image.dfy`, `boot_img3.dfy`, `boot_img3b.dfy`);
- `ImgSecret` (`secret.dfy`), `ImgMisc` (`misc.dfy`) and `SdpMisc` (`sdp_misc.dfy`);
- `LegacyHeader`, `LegacyCommands`, `LegacyCommandObjects`, `LegacySegments` and `LegacySecret` (`legacy_*.dfy`).

Three helper modules have no source file of their own:

- `Base` holds the exceptions, the `Result`/`Option` wrappers, and Python's floor division and slicing.
- `Pack` holds the fixed-width big- and little-endian encoders and decoders that `struct` provides.
- `PyText` holds the parts of Python's `str.split`, `str.rstrip`, `int(s, 0)` and `format` that the DCD text notation uses.

## How the model is built

- **Values and objects.** Plain values become datatypes, and pure code becomes functions. Where the source updates an object in place, the model is a class whose methods change its fields: the command objects with their setters and `append`/`pop`/`clear`, the DCD/CSF segments, the boot images, the stream and the legacy header.
- **Loops.** Loops stay loops and are proved against a specification function: the command parse loops, the DCD/CSF probe loop, `_update`'s loops over containers and images, and the CRC.
- **Exceptions.** Every Python exception the core raises is an `Error` value. This covers `struct.error`, `AssertionError`, `UnparsedException`, `CorruptedException`, `ValueError`, `TypeError`, `IndexError` and `SyntaxError`. A contract states both when an operation raises and which exception it raises.
- **Enumerations.** The enumeration checks the source delegates to the `easy_enum` library are finite sets of the listed constants.
- **Constructor asserts.** An `assert` in a constructor becomes that constructor's precondition. The failing path is modelled by the matching value-level `New*` function.

Where a test disagrees with the code, the model follows the code.

- `tests/test_img_bootimg2_api.py:25` expects a fresh `BootImg2` to have size 44. However, `SegAPP` starts with data `None`, and `len(None)` raises. `ImgImages.BootImg2.Size` therefore fails with `TypeError` until the APP data is set.

Code that is commented out in the source is not modelled:

- the CSF parse in `BootImg2.parse` (`imx/img/images.py:343-346`);
- the newer codec's CSF blob check (`imx/img/segments.py:1053-1062`).

## Model

| member | source | states |
|---|---|---|
| Pack.Pow256Values | imx/img/segments.py:133 | the field widths of `B`, `H`, `L` and `Q` hold 2^8, 2^16, 2^32 and 2^64 values |
| Pack.LE | imx/img/segments.py:133 | a little-endian field is exactly n bytes |
| Pack.BE | imx/img/header.py:87 | a big-endian field is exactly n bytes |
| Pack.FromLEBound | imx/img/segments.py:154 | an n-byte little-endian field denotes a value below 256^n |
| Pack.FromBEBound | imx/img/header.py:97 | an n-byte big-endian field denotes a value below 256^n |
| Pack.FromLEOfLE | imx/img/segments.py:133 | decoding a little-endian encoding gives the value back |
| Pack.LEOfFromLE | imx/img/segments.py:154 | encoding a decoded little-endian field gives the bytes back |
| Pack.FromBEOfBE | imx/img/header.py:87 | decoding a big-endian encoding gives the value back |
| Pack.BEOfFromBE | imx/img/header.py:97 | encoding a decoded big-endian field gives the bytes back |
| Pack.UnpackLE | imx/img/segments.py:154 | `unpack_from` of a little-endian field succeeds iff the buffer holds it, and the value fits the field |
| Pack.UnpackBE | imx/img/header.py:97 | `unpack_from` of a big-endian field succeeds iff the buffer holds it, and the value fits the field |
| Pack.PackLE | imx/img/segments.py:133 | `pack` of a little-endian field succeeds iff the value fits, giving n bytes that decode to it |
| Pack.PackBE | imx/img/header.py:87 | `pack` of a big-endian field succeeds iff the value fits, giving n bytes that decode to it |
| Pack.UnpackPackLE | imx/img/segments.py:133 | unpacking what was packed, anywhere in a larger buffer, gives the value back |
| Pack.UnpackPackBE | imx/img/header.py:87 | the same for big-endian fields |
| Pack.PackUnpackLE | imx/img/segments.py:154 | packing what was unpacked gives the bytes back |
| Pack.PackUnpackBE | imx/img/header.py:97 | the same for big-endian fields |
| Pack.SingleByte | imx/img/header.py:87 | a `B` field is its own encoding in either byte order |
| Pack.BE32 | imx/img/commands.py:235 | `>L` is four bytes |
| Pack.BE64 | imx/img/commands.py:595 | `>Q` is eight bytes |
| Pack.LE32 | imx/img/segments.py:133 | `<L` is four bytes |
| Pack.LE64 | imx/img/segments.py:164 | `<Q` is eight bytes |
| Pack.UnpackBE32 | imx/img/commands.py:244 | `unpack_from(">L")` succeeds iff four bytes are there, struct.error otherwise |
| Pack.UnpackBE64 | imx/img/commands.py:601 | `unpack_from(">Q")` succeeds iff eight bytes are there, struct.error otherwise |
| Pack.UnpackLE32 | imx/img/segments.py:154 | `unpack_from("<L")` succeeds iff four bytes are there, struct.error otherwise |
| Pack.UnpackLE64 | imx/img/segments.py:236 | `unpack_from("<Q")` succeeds iff eight bytes are there, struct.error otherwise |
| Pack.UnpackBE32At | imx/img/commands.py:244 | a field holding an encoding unpacks to the encoded value |
| Pack.UnpackBE64At | imx/img/commands.py:601 | the same for `>Q` |
| Pack.UnpackLE32At | imx/img/segments.py:154 | the same for `<L` |
| Pack.UnpackLE64At | imx/img/segments.py:236 | the same for `<Q` |
| Pack.UnpackBE32Bytes | imx/img/commands.py:244 | a field that unpacks holds the encoding of its value |
| Pack.UnpackBE64Bytes | imx/img/commands.py:601 | the same for `>Q` |
| Pack.UnpackLE32Bytes | imx/img/segments.py:154 | the same for `<L` |
| Pack.UnpackLE64Bytes | imx/img/segments.py:236 | the same for `<Q` |
| Pack.TypedPackers | imx/img/segments.py:133 | the typed encoders are the checked packers on values that fit |
| Pack.FmtSizeSnoc | imx/img/segments.py:133 | one more field adds its width to the format's size |
| Pack.PackFmt | imx/img/segments.py:133 | `pack("<...")` succeeds iff every value fits its field (struct.error otherwise), giving `calcsize` bytes |
| Pack.UnpackFmt | imx/img/segments.py:154 | `unpack_from("<...")` succeeds iff the buffer holds the format, giving one value per field |
| Pack.UnpackFmtFits | imx/img/segments.py:154 | every unpacked value fits its field |
| Pack.UnpackFmtOfPackFmt | imx/img/segments.py:133 | unpacking a packed format, wherever it sits, gives the values back |
| Pack.PackFmtOfUnpackFmt | imx/img/segments.py:154 | packing unpacked values reproduces the bytes they came from |
| ImgMisc.Stream.constructor | imx/img/images.py:296-297 | a byte string becomes a stream whose cursor is at 0 |
| SdpMisc.Hex2 | imx/sdp/misc.py:21 | `'{:02X}'` writes two characters |
| SdpMisc.UnhexItem | imx/sdp/misc.py:21-22 | reading back one byte's item yields that byte |
| ImgHeader.Export | imx/img/header.py:86-87 | `>BHB` of tag, length, param: four bytes with the tag first, the big-endian length in bytes 1-2 and the parameter last; struct.error exactly when the length does not fit 16 bits |
| ImgHeader.Parse | imx/img/header.py:89-101 | struct.error exactly when fewer than four bytes follow the offset, UnparsedException exactly when a required tag differs from byte 0; otherwise tag from byte 0, param from byte 3, a 16-bit length |
| ImgHeader.Export2 | imx/img/header.py:108-109 | `<BHB` of param, length, tag: param first, little-endian length, tag last; struct.error exactly when the length does not fit 16 bits |
| ImgHeader.Parse2 | imx/img/header.py:111-122 | as Parse, with the tag read from byte 3 and the param from byte 0 |
| ImgHeader.ParseExport | imx/img/header.py:86-101 | a header with a 16-bit length and an accepted tag parses back from its export, unchanged |
| ImgHeader.ExportParse | imx/img/header.py:86-101 | the export of a parsed header is the four bytes it was parsed from |
| ImgHeader.Parse2Export2 | imx/img/header.py:104-122 | the same round trip for the reversed layout |
| ImgHeader.Export2Parse2 | imx/img/header.py:104-122 | the same converse round trip for the reversed layout |
| ImgHeader.Export2IsReversedExport | imx/img/header.py:104-109 | the two layouts are byte reversals of each other |
| ImgHeader.ExportShort | imx/img/header.py:86-87 | a length below 256 exports as tag, 0, length, param |
| ImgHeader.NewExportsOwnSize | imx/img/header.py:72-75 | a header built without a length counts only itself: it exports with length 4 |
| ImgMisc.ReadAt | imx/img/misc.py:20-34 | a negative index or length raises ValueError; the read starts at the index when one is given; it succeeds exactly when the bytes are there, returning exactly `length` bytes and moving the cursor past them; a short read raises "Could not read enough bytes" with the cursor at the end |
| ImgMisc.ReadAtConsecutive | imx/img/misc.py:20-34 | two successful reads in a row read what one read of their total length reads |
| ImgMisc.Stream.Seek | imx/img/misc.py:25 | the cursor moves to the index, past the end included |
| ImgMisc.Stream.Read | imx/img/misc.py:29 | `read(n)` returns up to `n` bytes from the cursor and advances it by what it returned |
| ImgMisc.ReadRawData | imx/img/misc.py:20-34 | the result and the new cursor are those of ReadAt |
| ImgMisc.SegmentAt | imx/img/misc.py:37-40 | a segment read is the four header bytes with the required tag (UnparsedException otherwise) then `length - 4` more; what it returns is the buffer's bytes from the start, as long as its header's length |
| ImgMisc.SegmentAtExport | imx/img/misc.py:37-40 | a segment placed in a buffer, whose header counts its own bytes, is read back exactly |
| ImgMisc.ReadRawSegment | imx/img/misc.py:37-40 | the result and the new cursor are those of SegmentAt |
| SdpMisc.Atos | imx/sdp/misc.py:8-23 | the loop builds exactly the text of Formatted: each byte's glyph followed by the separator, in order |
| SdpMisc.FormattedLength | imx/sdp/misc.py:8-23 | each byte takes a glyph of fixed width plus the separator |
| SdpMisc.FormattedAt | imx/sdp/misc.py:8-23 | byte `i`'s glyph and separator sit at `i` strides |
| SdpMisc.AtosDefaultLength | imx/sdp/misc.py:8-23 | with the default arguments the text has three characters per byte |
| SdpMisc.AtosCharAt | imx/sdp/misc.py:14-19 | with fmt `'c'` and no separator, a byte strictly between 0x00 and 0x7F shows as itself and any other as a dot |
| SdpMisc.Hex2Digits | imx/sdp/misc.py:21 | the two upper-case hex digits of a byte read back as that byte |
| SdpMisc.UnhexAtos | imx/sdp/misc.py:8-23 | the default hex dump loses nothing: reading it back gives the bytes |
| SdpMisc.Crc16 | imx/sdp/misc.py:26-39 | the nested loops compute Crc, the left fold of one byte step (XOR into bits 8-15, then eight shift rounds that fold in 0x1021 when bit 15 was set) |
| SdpMisc.CrcConcat | imx/sdp/misc.py:26-39 | the checksum of nothing is `crc_init`, and the checksum continues across any split of the data |
| SdpMisc.XorMod | imx/sdp/misc.py:33 | the low `k` bits of an XOR are the XOR of the low `k` bits |
| SdpMisc.FeedLow | imx/sdp/misc.py:32-38 | one byte step seen through the low 16 bits is the step of a 16-bit register |
| SdpMisc.CrcLow16 | imx/sdp/misc.py:26-39 | the source never masks the register, yet its low 16 bits are the checksum a 16-bit register gives |
| SdpMisc.Crc16MaskedBound | imx/sdp/misc.py:26-39 | the 16-bit register stays within 16 bits |
| ImgSecret.ExportKeyBlob | imx/img/secret.py:66-70 | the bytes mode, alg, size, flg, then the payload when it is non-empty; struct.error exactly when a field is unset or outside a byte |
| ImgSecret.ParseKeyBlob | imx/img/secret.py:62-64 | struct.error exactly when fewer than four bytes follow the offset; otherwise the four fields from those bytes and a payload of at most `size` bytes, exactly the `size` bytes after them when the buffer holds them |
| ImgSecret.KeyBlobRoundTrip | imx/img/secret.py:62-70 | a blob whose size matches its payload parses back unchanged from its export, wherever it sits in a buffer |
| ImgSecret.KeyBlobExportParse | imx/img/secret.py:62-70 | exporting a blob parsed from a buffer that holds its whole payload gives back those bytes |
| ImgSecret.SecretKeyBlob.constructor | imx/img/secret.py:55-60 | the given fields, with size 0 |
| ImgSecret.SecretKeyBlob.Parse | imx/img/secret.py:62-64 | the fields become those ParseKeyBlob reads; on struct.error nothing changes |
| ImgSecret.PayloadAt | imx/img/secret.py:101 | the slice `data[offset + 4 : offset + length]`, never longer than `length - 4`, exactly those bytes when they are in the buffer |
| ImgSecret.SecretRecord.Certificate | imx/img/secret.py:83-85 | tag 0xD7, the parameter, length 4, and the given payload |
| ImgSecret.SecretRecord.Signature | imx/img/secret.py:119-121 | tag 0xD8, the parameter, length 4, and the given payload |
| ImgSecret.SecretRecord.Size | imx/img/secret.py:79-81 | the header's length field, which stays 4 for a record the constructors built |
| ImgSecret.SecretRecord.Export | imx/img/secret.py:103-106 | the header bytes then the payload, which parse back to the same header; struct.error for a length outside 16 bits, TypeError for an unset payload |
| ImgSecret.SecretRecord.Parse | imx/img/secret.py:99-101 | struct.error exactly for a buffer too short for a header; otherwise the stored header is kept (the parsed one is discarded) and the payload is sliced with the stored length |
| ImgSecret.ParseAsWrittenIsEmpty | imx/img/secret.py:99-101 | as written, a record built by the constructors parses back an empty payload from any buffer |
| ImgSecret.CertificateLosesPayload | imx/img/secret.py:99-106 | a certificate with a one-byte payload exports `D7 00 04 00 01` and parses back with no payload |
| ImgSecret.ExportRecord | imx/img/secret.py:103-106 | corrected export: a header whose length counts the payload, then the payload; it fails only when that length does not fit 16 bits |
| ImgSecret.ParseRecord | imx/img/secret.py:99-101 | corrected parse: the header read from the buffer with the record's tag, and the payload sliced with that header's length |
| ImgSecret.RecordRoundTrip | imx/img/secret.py:99-106 | corrected records parse back from their export with the same parameter and payload |
| ImgSecret.RecordWrongTag | imx/img/secret.py:99-106 | a certificate is not parsed as a signature, nor the other way round: UnparsedException |
| LegacyHeader.Header.constructor | src/imx/im/header.py:95-99 | the tag and parameter given, and length 4 |
| LegacyHeader.Header.Export | src/imx/im/header.py:118-119 | tag, big-endian 16-bit length, parameter; struct.error exactly when the length does not fit 16 bits |
| LegacyHeader.Header.Parse | src/imx/im/header.py:111-116 | struct.error for a short buffer and UnparsedException for another tag, both before anything changes; otherwise length and parameter are overwritten from the wire, as ImgHeader.Parse with the header's tag reads them |
| LegacyHeader.ParseOwnExport | src/imx/im/header.py:111-119 | parsing a header's export into a header with the same tag gives back its length and parameter, whatever that header held before |
| LegacySecret.Record.Certificate | src/imx/im/secret.py:93-95 | tag 0xD7, the parameter, length 4, the given payload |
| LegacySecret.Record.Signature | src/imx/im/secret.py:129-131 | tag 0xD8, the parameter, length 4, the given payload |
| LegacySecret.Record.Size | src/imx/im/secret.py:89-91 | the header's length field, however long the payload is |
| LegacySecret.Record.Export | src/imx/im/secret.py:113-116 | the header bytes then the payload; struct.error for a length outside 16 bits, TypeError for an unset payload |
| LegacySecret.Record.Parse | src/imx/im/secret.py:109-111 | a header failure raises before anything changes; otherwise the header takes the parsed length and parameter and the payload is `data[offset + 4 : offset + length]` |
| LegacySecret.RecordRoundTrip | src/imx/im/secret.py:109-116 | a record whose length counts its payload parses back from its export with the same header and payload |
| LegacySecret.RecordWrongTag | src/imx/im/secret.py:109-116 | a record another tag exported is refused with UnparsedException |
| LegacySecret.ConstructedRecordParsesEmpty | src/imx/im/secret.py:93-116 | a freshly built record exports a length of 4, so parsing its export back keeps no payload, whatever payload was exported |
| ImgCommands.WithWidth | imx/img/commands.py:157-161 | the `bytes` setter sets the width field to the value and leaves the ops field and the high bits as they were |
| ImgCommands.WithOps | imx/img/commands.py:167-171 | the `ops` setter sets the ops field to the value and leaves the width and the high bits as they were |
| ImgCommands.MakeParam | imx/img/commands.py:176 | the parameter a Write or Check constructor builds reads back as the given width and ops, with the high bits clear |
| ImgCommands.OpsInRange | imx/img/commands.py:163-165 | the two-bit `ops` field always names a valid write and check operation |
| ImgCommands.ParamDeterminedByFields | imx/img/commands.py:153-176 | a parameter with valid width and clear high bits is rebuilt exactly from its two fields |
| ImgCommands.NewWriteData | imx/img/commands.py:173-177 | AssertionError exactly for an unsupported width or ops; otherwise an empty Write Data with those fields and clear high bits |
| ImgCommands.NewCheckData | imx/img/commands.py:301-307 | AssertionError exactly for an unsupported width or ops; otherwise those fields, and address, mask and count stored unchecked |
| ImgCommands.NewSet | imx/img/commands.py:424-430 | AssertionError exactly when the item, hash algorithm or engine is not one of its enumeration's values; otherwise those four fields |
| ImgCommands.NewInitialize | imx/img/commands.py:478-481 | AssertionError exactly for an unknown engine; otherwise no words and header length 4 |
| ImgCommands.NewUnlock | imx/img/commands.py:565-570 | AssertionError exactly for an unknown engine; otherwise the engine, features and uid |
| ImgCommands.NewInstallKey | imx/img/commands.py:654-662 | AssertionError exactly for an unknown certificate format or hash algorithm, or a source or target index outside its list; the flags are stored unchecked |
| ImgCommands.NewAuthData | imx/img/commands.py:754-762 | AssertionError exactly for a key index outside 1-5 or an unknown engine; otherwise signature format 0xC5 and no blocks |
| ImgCommands.ExportPairs | imx/img/commands.py:234-235 | eight bytes per address/value pair |
| ImgCommands.ExportWords | imx/img/commands.py:536-537 | four bytes per word |
| ImgCommands.Export | imx/img/commands.py:232-236 | every command's export: struct.error exactly when its size does not fit 16 bits; otherwise tag, size and parameter in the header, followed by a body whose length matches the size (for Initialize, four bytes per word) |
| ImgCommands.ParsePairs | imx/img/commands.py:242-246 | the pair loop fails only with struct.error |
| ImgCommands.ParseWords | imx/img/commands.py:544-549 | the word loop fails only with struct.error or AssertionError, and every word it returns is below 0xFFFFFFFF |
| ImgCommands.ParseWriteData | imx/img/commands.py:238-247 | a parsed Write Data is a valid command object |
| ImgCommands.ParseCheckData | imx/img/commands.py:343-352 | a parsed Check Data is a valid command object |
| ImgCommands.ParseCount | imx/img/commands.py:349-351 | the count is read exactly when the declared length exceeds the header by more than 8; a short buffer raises struct.error |
| ImgCommands.ParseNop | imx/img/commands.py:378-383 | a parsed Nop keeps only the parameter, whatever length was declared |
| ImgCommands.ParseSet | imx/img/commands.py:459-463 | a parsed Set is valid |
| ImgCommands.ParseInitialize | imx/img/commands.py:540-550 | a parsed Initialize is valid: its length counts exactly its words |
| ImgCommands.ParseUnlock | imx/img/commands.py:598-603 | a parsed Unlock is valid |
| ImgCommands.ParseInstallKey | imx/img/commands.py:701-705 | a parsed Install Key is valid |
| ImgCommands.ParseAuthData | imx/img/commands.py:829-840 | a parsed Authenticate Data is valid |
| ImgCommands.ParseAs | imx/img/commands.py:142 | UnparsedException exactly when the buffer holds a header with another tag; a success is a valid command of the class asked for, at least a header long |
| ImgCommands.ParsePairsExport | imx/img/commands.py:232-247 | the pair loop reads back exactly the pairs the export wrote |
| ImgCommands.ParseWordsExport | imx/img/commands.py:534-550 | the word loop reads back exactly the words the export wrote |
| ImgCommands.ExportedHeader | imx/img/commands.py:232-247 | an exported command's header parses back to its tag, parameter and size, and the body follows it |
| ImgCommands.RoundTripWriteData | imx/img/commands.py:232-247 | a valid Write Data parses back unchanged from its export |
| ImgCommands.ParseWriteDataOf | imx/img/commands.py:238-247 | Write Data parse in terms of the header and the pairs it reads |
| ImgCommands.NewWriteDataOfParam | imx/img/commands.py:173-176 | the constructor called with a parameter's two fields rebuilds that parameter |
| ImgCommands.NewCheckDataOfParam | imx/img/commands.py:301-307 | the same for Check Data, with its address, mask and count |
| ImgCommands.RoundTripCheckData | imx/img/commands.py:335-352 | a valid Check Data, with or without its count, parses back unchanged from its export |
| ImgCommands.ParseCheckDataOf | imx/img/commands.py:343-352 | Check Data parse in terms of the header and the words it reads |
| ImgCommands.RoundTripNop | imx/img/commands.py:375-383 | a Nop parses back unchanged from its export |
| ImgCommands.RoundTripSet | imx/img/commands.py:454-463 | a valid Set parses back unchanged from its export |
| ImgCommands.RoundTripInitialize | imx/img/commands.py:534-550 | a valid Initialize parses back unchanged from its export |
| ImgCommands.RoundTripUnlock | imx/img/commands.py:592-603 | a valid Unlock parses back unchanged from its export |
| ImgCommands.RoundTripInstallKey | imx/img/commands.py:695-705 | a valid Install Key parses back unchanged from its export |
| ImgCommands.RoundTripAuthData | imx/img/commands.py:821-840 | a valid Authenticate Data, signature format and blocks included, parses back unchanged from its export |
| ImgCommands.ParseAuthDataOf | imx/img/commands.py:829-840 | Authenticate Data parse in terms of the header, the fields, the location and the blocks it reads |
| ImgCommands.RoundTrip | imx/img/commands.py:123-840 | every valid command parses back unchanged, as its own class, from its export, wherever that export sits in a buffer |
| ImgCommands.ParseExportParse | imx/img/commands.py:123-840 | exporting a parsed command and parsing that export gives the same command |
| ImgCommands.EqualReflexive | imx/img/commands.py:186-194 | every command equals itself under the classes' `__eq__` |
| ImgCommands.EqualFixedLayoutIsIdentity | imx/img/commands.py:314-323 | for Check Data, Set, Unlock and Install Key, `__eq__` holds exactly between identical valid commands |
| ImgCommands.WriteDataEqualIsNotSymmetric | imx/img/commands.py:186-194 | Write Data `__eq__` only checks that the other side's pairs are among its own, so a repeated pair makes it asymmetric |
| ImgCommands.InitializeEqualIgnoresWords | imx/img/commands.py:488-494 | Initialize `__eq__` compares size and engine only, so different words compare equal |
| ImgCommandObjects.WriteDataCmd.constructor | imx/img/commands.py:173-177 | the object holds what NewWriteData builds, and that is valid |
| ImgCommandObjects.WriteDataCmd.SetWidth | imx/img/commands.py:157-161 | AssertionError for an unsupported width, changing nothing; otherwise the width field is set and the pairs are kept; validity is preserved |
| ImgCommandObjects.WriteDataCmd.SetOps | imx/img/commands.py:167-171 | the same for the ops field |
| ImgCommandObjects.WriteDataCmd.Append | imx/img/commands.py:216-220 | AssertionError unless address and value fit 32 bits; otherwise the pair is added at the end and the size grows by 8 |
| ImgCommandObjects.WriteDataCmd.Pop | imx/img/commands.py:222-226 | AssertionError for an index out of range; otherwise that pair is returned and removed, and the size shrinks by 8 |
| ImgCommandObjects.WriteDataCmd.Clear | imx/img/commands.py:228-230 | no pairs, and the size back to the header's |
| ImgCommandObjects.CheckDataCmd.constructor | imx/img/commands.py:301-307 | the object holds what NewCheckData builds, and that is valid |
| ImgCommandObjects.CheckDataCmd.SetWidth | imx/img/commands.py:257-261 | AssertionError for an unsupported width, changing nothing; otherwise the width field is set; address, mask and count are kept |
| ImgCommandObjects.CheckDataCmd.SetOps | imx/img/commands.py:267-271 | the same for the ops field |
| ImgCommandObjects.InitializeCmd.constructor | imx/img/commands.py:478-481 | the object holds what NewInitialize builds, and that is valid |
| ImgCommandObjects.InitializeCmd.Append | imx/img/commands.py:518-522 | AssertionError unless the value lies in 0..0xFFFFFFFE; otherwise it is added at the end and the length grows by 4; validity is preserved |
| ImgCommandObjects.InitializeCmd.Pop | imx/img/commands.py:524-528 | AssertionError for an index out of range; otherwise that word is returned and removed and the length shrinks by 4; validity is preserved |
| ImgCommandObjects.InitializeCmd.Clear | imx/img/commands.py:530-532 | no words, and the length back to the header's |
| ImgCommandObjects.AuthDataCmd.constructor | imx/img/commands.py:754-762 | the object holds what NewAuthData builds, and that is valid |
| ImgCommandObjects.AuthDataCmd.Append | imx/img/commands.py:807-809 | the block is added at the end unchecked and the size grows by 8; no other field changes |
| ImgCommandObjects.AuthDataCmd.Pop | imx/img/commands.py:811-815 | AssertionError for an index out of range; otherwise that block is returned and removed; no other field changes |
| ImgCommandObjects.AuthDataCmd.Clear | imx/img/commands.py:817-819 | no blocks, and the size back to 12 |
| ImgCommandObjects.ReadPairs | imx/img/commands.py:242-246 | the loop computes exactly what ParsePairs specifies |
| ImgCommandObjects.ParseWriteDataCmd | imx/img/commands.py:238-247 | the method computes exactly what ParseWriteData specifies, whose round trip is RoundTripWriteData |
| ImgCommandObjects.ParseInitializeCmd | imx/img/commands.py:540-550 | the method computes exactly what ParseInitialize specifies, whose round trip is RoundTripInitialize |
| ImgCommandObjects.ParseAuthDataCmd | imx/img/commands.py:829-840 | the method computes exactly what ParseAuthData specifies, whose round trip is RoundTripAuthData |
| ImgSegments.Padded | imx/img/segments.py:44-45 | the padded export: the data, then exactly `padding` zero bytes when asked and the padding is positive, nothing otherwise |
| ImgSegments.FmtSizeStep | imx/img/segments.py:76-77 | `calcsize` of a format grows by each field's width |
| ImgSegments.WordFormatSizes | imx/img/segments.py:76-77 | `calcsize` of `<7L`, `<4L` and `<3L` is 28, 16 and 12 |
| ImgSegments.IVT3FormatSizes | imx/img/segments.py:164-165 | `calcsize` of `<1L5Q` is 44 and of `<1L7Q` is 60 |
| ImgSegments.IDSFormatSizes | imx/img/segments.py:331-332 | `calcsize` of `<3Q4L` is 40 and of `<3Q2L` is 32 |
| ImgSegments.FormatSizes | imx/img/segments.py:76-77 | the segment sizes: IVT2 32, IVT3a 48, IVT3b 64, BDS3a 256, BDS3b 240, BDT 12 |
| ImgSegments.ParseHeaderAndFields | imx/img/segments.py:145-154 | a short header followed by a little-endian format parses back to the header and the fields |
| ImgSegments.ValidateIVT2 | imx/img/segments.py:113-123 | ValueError unless the IVT and BDT addresses are set with the BDT not below the IVT, DCD and CSF are unset or not below the IVT, and the padding is not positive |
| ImgSegments.ExportIVT2 | imx/img/segments.py:125-138 | validation first (ValueError), then struct.error for a field outside 32 bits; otherwise 32 bytes starting `D1 00 20 version` |
| ImgSegments.ParseIVT2 | imx/img/segments.py:140-159 | UnparsedException exactly for another tag; a parsed IVT2 is valid, its padding is `bdt - ivt - 32`, so its BDT lies at most 32 bytes past the IVT |
| ImgSegments.ParseIVT2OfExport | imx/img/segments.py:125-159 | an exported IVT2 whose padding is the one its addresses imply parses back to itself |
| ImgSegments.ExportIVT2OfParse | imx/img/segments.py:125-159 | exporting a parsed IVT2 gives back its 28 field bytes after a header with length 32 |
| ImgSegments.ValidateIVT3a | imx/img/segments.py:201-207 | ValueError unless the IVT/BDT and the DCD and CSF address rules hold |
| ImgSegments.ExportIVT3a | imx/img/segments.py:209-221 | validation first, then struct.error for a field that does not fit; otherwise 48 bytes starting `DE 00 30 param`, plus the padding when asked |
| ImgSegments.ParseIVT3a | imx/img/segments.py:223-240 | UnparsedException exactly for another tag; a parsed IVT3a is valid and has no padding |
| ImgSegments.ParseIVT3aOfExport | imx/img/segments.py:209-240 | an IVT3a without padding parses back from its export |
| ImgSegments.ExportIVT3aOfParse | imx/img/segments.py:209-240 | exporting a parsed IVT3a gives back its field bytes after a header with length 48 |
| ImgSegments.ValidateIVT3b | imx/img/segments.py:283-291 | ValueError unless the IVT/BDT rule and the DCD, CSF and SCD address rules hold |
| ImgSegments.ExportIVT3b | imx/img/segments.py:293-305 | validation first, then struct.error for a field that does not fit; otherwise 64 bytes starting `D1 00 40 version`, plus the padding when asked |
| ImgSegments.ParseIVT3b | imx/img/segments.py:307-326 | UnparsedException exactly for a tag other than the IVT2 tag; a parsed IVT3b is valid and has no padding |
| ImgSegments.ParseIVT3bOfExport | imx/img/segments.py:293-326 | an IVT3b without padding parses back from its export |
| ImgSegments.ExportIVT3bOfParse | imx/img/segments.py:293-326 | exporting a parsed IVT3b gives back its field bytes after a header with length 64 |
| ImgSegments.IDSFmtSize | imx/img/segments.py:329-332 | each descriptor layout's format has the size of that layout |
| ImgSegments.ExportIDS | imx/img/segments.py:363-379 | struct.error exactly for a field that does not fit its format; otherwise 40 bytes (3a) or 32 bytes (3b) |
| ImgSegments.ParseIDS | imx/img/segments.py:381-395 | struct.error exactly when the buffer is too short for the layout; otherwise a descriptor of that layout |
| ImgSegments.ParseIDSOfExport | imx/img/segments.py:363-395 | a descriptor parses back from its export wherever that export sits |
| ImgSegments.ExportDescriptors | imx/img/segments.py:445-446 | one export per slot; IndexError when a slot is missing |
| ImgSegments.DescriptorAt | imx/img/segments.py:445-446 | part k of the slot exports is slot k's export |
| ImgSegments.ExportSlots | imx/img/segments.py:445-446 | the slot loop fails only with struct.error or IndexError |
| ImgSegments.DescriptorsUniform | imx/img/segments.py:445-446 | slots of one layout export to parts of one size |
| ImgSegments.ExportSlotsLength | imx/img/segments.py:445-446 | the slot exports take one descriptor size per slot |
| ImgSegments.ParseSlots | imx/img/segments.py:463-464 | the slot parse fails only with struct.error or IndexError, keeps the list's length, changes only the slots it reads, and gives each of them the asked-for layout |
| ImgSegments.ParseSlotsStep | imx/img/segments.py:463-464 | one step of the slot parse stores the descriptor read and moves on |
| ImgSegments.DescriptorsExport | imx/img/segments.py:445-446 | the slot exports are, slot by slot, descriptor exports of one size |
| ImgSegments.SlotParsesBack | imx/img/segments.py:463-464 | slot i parses back from its offset after the 16 header bytes |
| ImgSegments.ParseSlotsOfExport | imx/img/segments.py:445-464 | descriptors exported after the header bytes parse back into the list they came from |
| ImgSegments.SameAtEveryIndex | imx/img/segments.py:463-464 | two descriptor lists equal at every index are the same list |
| ImgSegments.ExportBDS3a | imx/img/segments.py:434-450 | the four header words and all six descriptors, whatever the image count; failures are struct.error or IndexError |
| ImgSegments.ParseBDS3a | imx/img/segments.py:452-466 | the count lies in 0..6, the first `count` slots are read and the others stay empty 3a descriptors; no padding |
| ImgSegments.ExportBDS3aLayout | imx/img/segments.py:434-450 | the export holds the header words at offset 0 and the slot exports after them |
| ImgSegments.ParseBDS3aOfParts | imx/img/segments.py:452-466 | a buffer whose header words and slots parse gives the table they describe |
| ImgSegments.ParseBDS3aOfExport | imx/img/segments.py:434-466 | a table with at most six images, empty unused slots and no padding parses back from its export |
| ImgSegments.ExportBDS3b | imx/img/segments.py:573-594 | the four header words, all four image descriptors, then SCD, CSF and the reserved descriptor |
| ImgSegments.ParseTrailing | imx/img/segments.py:612-616 | the three trailing descriptors, struct.error exactly when the buffer is too short for them |
| ImgSegments.ParseBDS3bAsWritten | imx/img/segments.py:596-618 | as written: the count lies in 0..4, and SCD, CSF and the reserved descriptor are read after `count` slots |
| ImgSegments.ParseBDS3b | imx/img/segments.py:596-618 | corrected: the count lies in 0..4, the first `count` slots are read, the others stay empty, and the trailing descriptors are read at offset 144, where export writes them |
| ImgSegments.ExportBDS3bLayout | imx/img/segments.py:573-594 | the export holds the header words, the slots, and the trailing descriptors at offset 144 |
| ImgSegments.FiveSlices | imx/img/segments.py:584-589 | a buffer starting with five concatenated parts holds each at its offset |
| ImgSegments.ParseTrailingOfExport | imx/img/segments.py:587-589 | three exported descriptors side by side parse back as the trailing triple |
| ImgSegments.ParseBDS3bOfParts | imx/img/segments.py:596-618 | the corrected parse in terms of the header words, the slots and the trailing triple |
| ImgSegments.ParseBDS3bAsWrittenOfParts | imx/img/segments.py:596-618 | the parse as written in terms of the header words, the slots and the triple after `count` slots |
| ImgSegments.ParseBDS3bOfExport | imx/img/segments.py:573-618 | a well-formed table parses back from its export with the corrected parse |
| ImgSegments.ParseBDS3bAsWrittenLosesScd | imx/img/segments.py:596-618 | as written, a table without images but with an SCD entry loses that entry: the parse of its export is not the table |
| ImgSegments.ParseBDS3bAsWrittenFullCount | imx/img/segments.py:596-618 | with all four slots counted, the parse as written gives what the corrected parse gives |
| ImgSegments.ParseBDS3bAsWrittenOfFullExport | imx/img/segments.py:573-618 | a well-formed table with all four slots counted parses back from its export with the parse as written |
| ImgSegments.ParseBDS3bAsWrittenNoImages | imx/img/segments.py:607-612 | as written, with an image count of 0 the SCD entry is read from the first image slot |
| ImgSegments.ParseTrailingFirst | imx/img/segments.py:612 | the first trailing descriptor is the one at the offset given |
| ImgSegments.NewBDT | imx/img/segments.py:639-648 | AssertionError exactly for a plugin value other than 0, 1 or 2; otherwise the start, length and plugin given |
| ImgSegments.SetPlugin | imx/img/segments.py:630-633 | AssertionError exactly for a value other than 0, 1 or 2; otherwise only the plugin changes |
| ImgSegments.ExportBDT | imx/img/segments.py:662-667 | struct.error exactly for a field outside 32 bits; otherwise 12 bytes plus the padding when asked |
| ImgSegments.ParseBDT | imx/img/segments.py:669-671 | success exactly when 12 bytes are there and the plugin word is 0, 1 or 2; no padding |
| ImgSegments.ParseBDTOfExport | imx/img/segments.py:662-671 | a BDT with a valid plugin and no padding parses back from its export |
| ImgSegments.ExportBDTOfParse | imx/img/segments.py:662-671 | exporting a parsed BDT gives back the 12 bytes it was read from |
| ImgSegments.AppSize | imx/img/segments.py:685-687 | the payload length; TypeError while the payload is unset |
| ImgSegments.ExportAPP | imx/img/segments.py:701-705 | the payload followed by the padding when asked; TypeError while the payload is unset |
| ImgCmdSegments.SizeSumAppend | imx/img/segments.py:763-766 | appending a command adds its size to the sum of sizes |
| ImgCmdSegments.SizeSumConcat | imx/img/segments.py:763-766 | the size sum of two lists is the sum of their sums |
| ImgCmdSegments.SizeSumRemove | imx/img/segments.py:768-772 | taking a command out of a list takes its size out of the sum |
| ImgCmdSegments.ExportCommands | imx/img/segments.py:817-818 | the command exports one after another; the only failure is struct.error |
| ImgCmdSegments.ExportCommandsAppend | imx/img/segments.py:817-818 | exporting a list with one more command appends that command's export |
| ImgCmdSegments.ExportLengthIsSize | imx/img/commands.py:125-127 | a valid command exports exactly `size` bytes |
| ImgCmdSegments.ExportCommandsLength | imx/img/segments.py:817-818 | valid commands export exactly the sum of their sizes |
| ImgCmdSegments.ExportSegment | imx/img/segments.py:813-822 | a disabled segment exports nothing; an enabled one fails exactly when its header or a command does not pack, and otherwise holds the header bytes then the command bytes |
| ImgCmdSegments.ExportSegmentLength | imx/img/segments.py:728-734 | a segment whose length counts its valid commands exports exactly its `space` |
| ImgCmdSegments.ProbeFrom | imx/img/segments.py:933-942 | the class loop never lets UnparsedException out; a command it finds is valid, of an accepted class, and at least a header long |
| ImgCmdSegments.Probe | imx/img/segments.py:932-944 | the same, trying every accepted class |
| ImgCmdSegments.ProbeFromNoneClaims | imx/img/segments.py:943-944 | when no class from `j` on claims the offset, CorruptedException |
| ImgCmdSegments.ProbeNoneClaims | imx/img/segments.py:943-944 | when no accepted class claims the offset, CorruptedException |
| ImgCmdSegments.ProbeFromFirst | imx/img/segments.py:933-942 | the class loop from `j` on returns whatever the first class that does not raise UnparsedException returns |
| ImgCmdSegments.ProbeFirst | imx/img/segments.py:933-942 | the first class that claims the offset decides, with its command or its own exception |
| ImgCmdSegments.ParseCommands | imx/img/segments.py:931-944 | the command loop never lets UnparsedException out |
| ImgCmdSegments.ParseCommandsValid | imx/img/segments.py:931-942 | every command the loop keeps is valid and of an accepted class |
| ImgCmdSegments.ParseCommandsStep | imx/img/segments.py:939-940 | one round keeps the probed command and moves on by its size |
| ImgCmdSegments.ParseCommandsStops | imx/img/segments.py:943-944 | a failed probe ends the loop with its error |
| ImgCmdSegments.ProbeCmd | imx/img/segments.py:933-942 | the class loop computes exactly what Probe specifies |
| ImgCmdSegments.CmdSegment.DCD | imx/img/segments.py:736-741 | DCD tag and classes, the parameter and enabled flag given, no commands, length 4, no padding |
| ImgCmdSegments.CmdSegment.CSF | imx/img/segments.py:976-980 | CSF tag and classes, the parameter and enabled flag given, no commands, length 4, no padding |
| ImgCmdSegments.CmdSegment.Size | imx/img/segments.py:728-730 | the header length when enabled, else 0 |
| ImgCmdSegments.CmdSegment.Space | imx/img/segments.py:732-734 | size plus padding when enabled, else 0 |
| ImgCmdSegments.CmdSegment.Append | imx/img/segments.py:763-766 | AssertionError for a class the segment does not accept, changing nothing; otherwise the command is added at the end and the length grows by its size, which keeps the length in step with the list |
| ImgCmdSegments.CmdSegment.Pop | imx/img/segments.py:768-772 | AssertionError for an index out of range; otherwise that command is returned and removed and its size is taken off the length, which stays in step |
| ImgCmdSegments.CmdSegment.Clear | imx/img/segments.py:774-776 | no commands and length 4 |
| ImgCmdSegments.CmdSegment.SetItem | imx/img/segments.py:749-751 | AssertionError for a class not accepted, checked first; IndexError for a key out of range; otherwise the command at that index (negative counting from the end) is replaced and the length is left alone |
| ImgCmdSegments.CmdSegment.Export | imx/img/segments.py:813-822 | the method's bytes are ExportSegment of the segment's state |
| ImgCmdSegments.ExportBody | imx/img/segments.py:817-818 | the loop computes exactly ExportCommands |
| ImgCmdSegments.ExportCommandsFailsAt | imx/img/segments.py:817-818 | a command that does not pack makes the whole export fail |
| ImgCmdSegments.ParseSegment | imx/img/segments.py:926-945 | UnparsedException exactly when the buffer holds a header with another tag |
| ImgCmdSegments.ProbeFromExported | imx/img/segments.py:933-942 | an exported valid command of an accepted class is found by the class loop: earlier classes see another tag |
| ImgCmdSegments.ExportedHead | imx/img/segments.py:931-942 | at the start of an exported list of accepted commands, one round of the loop finds the first command, before the declared length ends |
| ImgCmdSegments.ExportedTail | imx/img/segments.py:817-818 | the rest of an exported list is itself an exported list of accepted commands, starting where the first command ends |
| ImgCmdSegments.FoundOfExport | imx/img/segments.py:931-944 | the rounds of the loop find the exported commands one after another, and the declared length ends after the last |
| ImgCmdSegments.ParseCommandsOfFound | imx/img/segments.py:931-944 | when the rounds find the commands one after another up to the declared length, the loop returns exactly them |
| ImgCmdSegments.AcceptedFirst | imx/img/segments.py:817-818 | the first command of an accepted list is accepted, the rest is, and the sizes add up |
| ImgCmdSegments.ParseCommandsOfExport | imx/img/segments.py:931-944 | the exports of accepted commands, laid out up to the declared length, parse back to the same commands |
| ImgCmdSegments.SegmentParts | imx/img/segments.py:813-822 | an enabled segment's export holds its header bytes and then its command bytes |
| ImgCmdSegments.SegmentRoundTrip | imx/img/segments.py:813-945 | an enabled segment whose length counts its accepted commands parses back from its export, wherever it sits and whatever padding follows: the same parameter and the same commands |
| ImgCmdSegments.ParseInto | imx/img/segments.py:931-944 | the loop appends exactly the commands ParseCommands specifies, or stops with its error, keeping the length in step |
| ImgCmdSegments.ParseDCD | imx/img/segments.py:925-945 | a fresh enabled DCD segment holding what ParseSegment reads at offset 0, or its error |
| ImgCmdSegments.ParseCSF | imx/img/segments.py:1034-1052 | a fresh enabled CSF segment holding what ParseSegment reads at the offset, or its error |
| ImgImages.JoinAll | imx/img/images.py:277-287 | `data += part` over the exported segments: it succeeds iff every part does, and its length is the sum of theirs |
| ImgImages.JoinAllConcat | imx/img/images.py:277-287 | joining two runs of parts is the first join followed by the second, stopping at the first failure |
| ImgImages.JoinAllSnoc | imx/img/images.py:277-287 | one more `+=` appends that part, or raises its error |
| ImgImages.TotalLengthSnoc | imx/img/images.py:277-287 | one more part adds its length |
| ImgImages.JoinAllAt | imx/img/images.py:277-287 | each exported segment sits in the image right after the segments before it |
| ImgImages.TotalLengthSplit | imx/img/images.py:277-287 | the image length is the sum of the five segment lengths |
| ImgImages.PaddingToOneSector | imx/img/images.py:689-691 | a size within one sector is padded to exactly one sector |
| ImgImages.ComputePadding | imx/img/images.py:689-691 | `_compute_padding(size, s)` lies in [0, s) and rounds size up to a multiple of s (with Python's floor division, also for negative s) |
| ImgImages.RoundUp | imx/img/images.py:689-691 | the rounding step: from `size == s*q + m`, the padding is in range and lands on a multiple |
| ImgImages.MultipleMod | imx/img/images.py:689-691 | a multiple of s leaves remainder 0 |
| ImgImages.MulAtLeastOne | imx/img/images.py:689-691 | a positive a times b >= 1 is at least a |
| ImgImages.HeaderAt | imx/img/images.py:310-311 | the header read at a probe position carries that position's tag and parameter |
| ImgImages.Find | imx/img/images.py:302-319 | the probe loop visits `pos, pos+step, ...` while `pos < end - 4`, where `end` is the buffer's size counted from the stream position `parse` was entered at, and returns a position whose header the class accepts |
| ImgImages.FindFirst | imx/img/images.py:309-319 | no position the loop visits before the returned one is accepted |
| ImgImages.Classify | imx/img/images.py:38-45 | the top-level dispatch: 0xD1/32 is v2, 0xD1/64 is v3b, 0xDE/48 is v3a, byte 3 == 0x87 is v4, and nothing else is recognised (each case an iff) |
| ImgImages.Sniff | imx/img/images.py:308-322 | the probe loop finds an image iff `Find` does with the same bound, and leaves the cursor at the found header |
| ImgImages.Probe | imx/img/images.py:310-319 | one probe round reads four bytes, steps back, and skips `step` bytes unless the header is accepted |
| ImgImages.Shape.Size | imx/img/segments.py:728-730 | a DCD/CSF size is its header length when enabled, else 0 |
| ImgImages.Shape.Space | imx/img/segments.py:732-734 | a DCD/CSF space is length plus padding when enabled, else 0 |
| ImgImages.Update2 | imx/img/images.py:208-236 | the `_update` address chain (ivt, bdt = ivt + 32, dcd or 0, app, csf or 0), the DCD padding that fills the head (0x300 or 0xC00), the APP padded to a multiple of 0x1000, the CSF to 0x2000, and `bdt.start == address`, `bdt.start + bdt.length` == end of the last segment |
| ImgImages.ExportImage2Length | imx/img/images.py:277-287 | the exported image is `bdt.length - offset` bytes long |
| ImgImages.ExportImage2SegmentsLength | imx/img/images.py:277-287 | the same for DCD and CSF segments whose lengths count their commands |
| ImgImages.ExportHundredByteApp | tests/test_img_bootimg2_api.py:30-34 | a fresh image with a 100-byte APP exports 4140 bytes |
| ImgImages.BootImg2.constructor | imx/img/images.py:193-206 | an APP without data, disabled DCD and CSF, the given address, offset, version and plugin |
| ImgImages.BootImg2.Size | imx/img/images.py:184-191 | `size` raises TypeError exactly when the APP data is still None |
| ImgImages.BootImg2.Update | imx/img/images.py:208-236 | `_update` writes exactly the `Update2` layout, or stops with TypeError after the head paddings when the APP has no data; afterwards size == bdt.length - offset |
| ImgImages.BootImg2.AddImage | imx/img/images.py:264-275 | only an APP is accepted; a non-zero address replaces the image's; nothing else changes |
| ImgImages.BootImg2.Export | imx/img/images.py:277-287 | `_update` then the five padded segments in order; with sound segments the blob is `bdt.length - offset` bytes |
| ImgImages.BootImg2.Parse | imx/img/images.py:290-348 | on a stream entered at `start`: not an image iff the probe, bounded by the buffer's size from `start`, finds no v2 header; a read that raises, including the DCD parse made before the APP is read, is the whole's error, and the parse succeeds iff the reads do; otherwise the IVT, BDT, offset = ivt - bdt.start, address = bdt.start, plugin, the parsed DCD padded up to the APP, and the APP bytes `ReadV2` reads with the APP size as written |
| ImgImages.BootImg2.FromParts | imx/img/images.py:324-331 | the parsed image takes the IVT and BDT, derives offset, address and plugin, and keeps a fresh disabled CSF |
| ImgImages.AppSizeOfLayout | imx/img/images.py:337-340 | corrected: for a laid-out image the APP size read is exactly the APP's space |
| ImgImages.AppSizeAsWrittenOverreads | imx/img/images.py:337-340 | as written, without a CSF the APP size overshoots by twice the APP's distance from the image start |
| ImgImages.HundredByteAppOverread | imx/img/images.py:337-340 | for the 100-byte test image the APP spans 4096 bytes but the size as written is 6232 |
| ImgImages.HundredByteAppReadsTrailer | imx/img/images.py:337-341 | the 100-byte test image's export followed by `t` ≤ 2136 more bytes: once its IVT and BDT are read, the APP read is every byte from the APP address to the end, `4096 + t` bytes |
| ImgImages.ReadV2 | imx/img/images.py:326-341 | the IVT at the probe, the 12 BDT bytes after it, the DCD bytes iff the IVT has a DCD address, and the APP from its absolute start for the size as written (`bdt.length - (bdt.start - app)` without a CSF), clamped to the relative buffer size less that start |
| ImgImages.TailV2 | imx/img/images.py:333-341 | after the BDT: on success, the DCD bytes iff the IVT has a DCD address, and the APP bytes from the APP's absolute start for the size as written clamped to the buffer size less that start |
| ImgImages.TailV2DcdFirst | imx/img/images.py:333-341 | the DCD comes first: a DCD segment that cannot be read, or is read but does not parse, is the error whatever the APP read would do; on success the DCD bytes are the segment at the cursor and parse |
| ImgImages.ReadV2Dcd | imx/img/images.py:326-335 | the DCD bytes of a successful v2 read are the segment right after the 32-byte IVT and the 12-byte BDT, and parse as a DCD |
| ImgImages.ReadTail2 | imx/img/images.py:333-341 | the stream's DCD read, DCD parse and APP read produce exactly `TailV2` from the stream's position |
| ImgImages.ParseDcd2 | imx/img/images.py:333-335 | for DCD bytes the reads found to parse: the segment's parameter and commands, enabled, with padding `app - dcd - size`; without a DCD address the image's own disabled DCD |
| ImgImages.ReadSegments2 | imx/img/images.py:326-341 | the stream reads produce exactly `ReadV2` from the probe position and with the same buffer size |
| ImgImages.IvtRead | imx/img/images.py:326 | the segment read at an accepted v2 probe is the 32 IVT bytes |
| ImgParse.Locate | imx/img/images.py:35-47 | the top-level probe stops at the first position `pos, pos+step, ...` below `len - 4` whose header the dispatch recognises, and reports what it recognised |
| ImgParse.LocateFirst | imx/img/images.py:35-47 | every position the probe passes before stopping is recognised as nothing |
| ImgParse.AcceptedIsClassified | imx/img/images.py:38-43 | a header that a generation's own probe accepts is one the top-level dispatch sends to that generation |
| ImgParse.ParseImage | imx/img/images.py:18-49 | "Not an i.MX Boot Image" when nothing is recognised or the recognised class's probe finds no header; otherwise the outcome of the hand-over at the first recognised header: a v4 header is not modelled, a class read that raises is the whole's error, and a success is that class's image built from its reads exactly as the class's own `parse` builds it |
| ImgParse.ClassifyAt | imx/img/images.py:36-37 | one probe round reads four bytes, steps back over them, and classifies them |
| ImgParse.Dispatch | imx/img/images.py:38-45 | a recognised header hands the stream, positioned at it, to BootImg2, BootImg3b or BootImg3a `parse`: it succeeds iff that class's probe finds a header and the class's reads from it succeed, fails with the probe's or the read's error otherwise, and on success holds the image that class's `parse` builds from those reads; a header at or past the buffer's middle raises "Not an i.MX Boot Image", because the class's probe bound is relative and its cursor absolute |
| ImgBootImg3.PyIndex | imx/img/images.py:731-734 | Python's `xs[i]` for a negative index counts from the end, so `images[images_count - 1]` with no image is the last slot |
| ImgBootImg3.AppSpace | imx/img/segments.py:685-687 | an APP's space is its data length plus padding; `len(None)` raises TypeError |
| ImgBootImg3.ChainSteps | imx/img/images.py:735-739 | the first k rounds of the image loop keep the slot counts and fail only with TypeError |
| ImgBootImg3.ChainStepsSlots | imx/img/images.py:735-739 | the rounds change sources only, never a descriptor's layout |
| ImgBootImg3.ChainOf | imx/img/images.py:735-739 | the whole image loop, `images_count - 1` rounds |
| ImgBootImg3.ChainStepsChained | imx/img/images.py:735-739 | k rounds succeed iff the first k APPs have data, and then chain the images |
| ImgBootImg3.ChainOfChained | imx/img/images.py:735-739 | the image loop succeeds iff every image but the last has data; image i+1 then starts at image i's source plus APP i's space, and APP i+1 is sector-padded |
| ImgBootImg3.ChainImages | imx/img/images.py:735-739 | the loop, run in place, computes exactly `ChainOf`, and leaves the descriptors and APPs as `ChainReached` says, raising or not |
| ImgBootImg3.ChainReachedAt | imx/img/images.py:735-739 | k rounds leave the chain of the rounds that ran: all k when they succeed, otherwise those before the first round that raises, on an APP with no data |
| ImgBootImg3.ReachedAfterFail | imx/img/images.py:735-739 | after the first round that raises, more rounds leave what the rounds before it left |
| ImgBootImg3.StepsFailFrom | imx/img/images.py:735-739 | once a round raises, every longer run raises the same |
| ImgBootImg3.ChainAligned | imx/img/images.py:735-739 | chained images whose data match their sizes start on 0x200-byte sectors when the first does |
| ImgBootImg3.ChainAscending | imx/img/images.py:735-739 | chained images never start before the first |
| ImgBootImg3.HeadContiguous | imx/img/images.py:700-722 | the head addresses follow `export`'s order: IVT 0, IVT 1, table 0, table 1, DCD, CSF; container 1 has no DCD or CSF address |
| ImgBootImg3.FirstSource | imx/img/images.py:726-734 | container 0's first image goes to 0x1200, container 1's right after container 0's last image's space |
| ImgBootImg3.Seed | imx/img/images.py:724-734 | before the loop, APP 0 is sector-padded and image 0 placed when the container holds one |
| ImgBootImg3.AppParts | imx/img/images.py:859-861 | the exported APPs of the first n slots, one per slot |
| ImgBootImg3.BothApps | imx/img/images.py:859-861 | one APP blob per container, container 0 first |
| ImgBootImg3.ExportContainerApps | imx/img/images.py:860-861 | the image loop of `export` computes the container's APP blob |
| ImgBootImg3.ExportAllApps | imx/img/images.py:859-861 | the container loop of `export` joins both containers' blobs |
| ImgBootImg3.AssembleFrom | imx/img/images.py:857-861 | the zero fill and the APPs, appended as `export` does, give `Assemble` |
| ImgBootImg3.ContainerAppsOffsets | imx/img/images.py:735-739 | in a laid-out container, the first j APP blobs fill the bytes from image 0's source to image j's |
| ImgBootImg3.ContainerAppsEnd | imx/img/images.py:859-861 | a laid-out container's blob ends where its last image's data and padding end |
| ImgBootImg3.ContainerAppAt | imx/img/images.py:859-861 | image j's data sit in the container blob at its source less image 0's |
| ImgBootImg3.AssembleLayout | imx/img/images.py:857-861 | a head shorter than `0x1200 - offset` is zero-filled to exactly that, then the two containers' APP blobs follow |
| ImgBootImg3.LaidOutAppAt | imx/img/images.py:859-861 | image j of container c lies in the joined APP blobs at its source less 0x1200 |
| ImgBootImg3.AppInLeft | imx/img/images.py:859-861 | container 0's images sit at their offsets in front of container 1's blob |
| ImgBootImg3.AppInRight | imx/img/images.py:859-861 | container 1's images sit at their offsets after container 0's blob |
| ImgBootImg3.ExportPlaces | imx/img/images.py:845-863 | in the exported blob, each image of laid-out containers sits at its source address less the offset |
| ImgBootImg3.PlacedAfterHead | imx/img/images.py:857-861 | the same placement, from a blob whose APP part starts at `0x1200 - offset` |
| ImgBootImg3.UpdateContainer3a | imx/img/images.py:695-742 | one container round of `_update`: zero paddings, head addresses, APP 0 padded, images chained, container 1's last padding cleared; fails only with IndexError or TypeError |
| ImgBootImg3.Update3a | imx/img/images.py:693-742 | `_update`: container 0, then container 1 after it |
| ImgBootImg3.Round3aOfSuccess | imx/img/images.py:695-742 | a round that completes leaves the container `UpdateContainer3a` gives |
| ImgBootImg3.Round3aRaised | imx/img/images.py:695-739 | a round that raises has already zeroed the IVT and table padding; IndexError comes from the address list and leaves only that; a TypeError comes after the head addresses, APP 0's padding and the table size were written, and only for a counted container |
| ImgBootImg3.Round3aSized | imx/img/images.py:695-742 | whatever a round leaves keeps six 3a slots, the count, and counted data as long as their descriptors |
| ImgBootImg3.UpdateContainer3aChains | imx/img/images.py:724-742 | the first image at `FirstSource`, each later one right after the previous data and padding, every counted APP sector-padded but container 1's last, other descriptor fields kept |
| ImgBootImg3.UpdateContainer3aSizes | imx/img/images.py:724-742 | the round keeps the image count, and sizes that match their data still match |
| ImgBootImg3.UpdateContainer3aAligned | imx/img/images.py:724-742 | with matching sizes and an aligned first image, every image of the container starts on a sector |
| ImgBootImg3.Update3aAligned | imx/img/images.py:693-742 | after `_update`, container 0's images start at 0x1200, container 1's after container 0's last, each on a 0x200-byte sector |
| ImgBootImg3.FirstContainerAligned | imx/img/images.py:724-739 | container 0's images start at 0x1200, each on a sector |
| ImgBootImg3.SecondContainerAligned | imx/img/images.py:728-739 | container 1's images start right after container 0's last padded image, each on a sector |
| ImgBootImg3.PaddedEndAligned | imx/img/images.py:689-691 | an aligned start plus a sector-padded size ends on a sector |
| ImgBootImg3.Place3a | imx/img/images.py:786-796 | filling the next free slot: destination, entry, size and flags, data with sector padding, count + 1; a full table raises IndexError and changes nothing |
| ImgBootImg3.Place3aRecords | imx/img/images.py:786-796 | a placed image is counted, its descriptor records its data size, its APP is sector-padded, earlier slots are kept |
| ImgBootImg3.AddImage3a | imx/img/images.py:778-843 | A35 goes to container 1, M4, SCFW and SCD to container 0; SCFW sits at 0x1ffe0000 and fixes the SCD address past its end, 16-byte aligned; SCD before SCFW, or an unknown type, raises |
| ImgBootImg3.AddImage3aPlaces | imx/img/images.py:778-843 | an added image lands in its container's next free slot with its type's destination and data; the other container and counted images are kept; the error cases are exact |
| ImgBootImg3.ScdFollowsScfw | imx/img/images.py:812-840 | an SCD added after an SCFW is destined to the first 16-byte boundary at or past the SCFW's end |
| ImgBootImg3.HeadParts3a | imx/img/images.py:851-856 | the six head parts `export` writes before the zero fill |
| ImgBootImg3.HeadLength3a | imx/img/images.py:851-856 | unpadded IVTs and tables make a head of 2*48 + 2*256 bytes plus the DCD and CSF blobs |
| ImgBootImg3.Update3aLaid | imx/img/images.py:693-742 | after `_update`, both containers are laid out and IVTs and tables carry no padding |
| ImgBootImg3.Update3aLaidOut | imx/img/images.py:693-742 | `_update` lays out the containers of an image whose slot data match their descriptors |
| ImgBootImg3.LayOutContainer3a | imx/img/images.py:695-742 | one container-loop round, run in place, computes `UpdateContainer3a`, and the container it leaves is `Round3a`'s, raising or not |
| ImgBootImg3.SeekTo | imx/img/images.py:909 | `buffer.seek(position, 0)` raises ValueError for a negative position |
| ImgBootImg3.ReadImages | imx/img/images.py:916-919 | the image reads succeed iff every counted image is readable, and return each image's `image_size` bytes from its start, in slot order |
| ImgBootImg3.ReadImagesFailFrom | imx/img/images.py:916-919 | once an image read fails, more slots fail the same way |
| ImgBootImg3.ReadPointed | imx/img/images.py:908-914 | the DCD or CSF segment IVT 0 points to, read and parsed; nothing when the address is 0 |
| ImgBootImg3.ReadIvts3a | imx/img/images.py:902-903 | the two IVT segments at the probe position, parsed |
| ImgBootImg3.ReadTables3a | imx/img/images.py:905-906 | the two 256-byte tables, parsed |
| ImgBootImg3.SlotData | imx/img/images.py:917-919 | the data of the first n slots, in order |
| ImgBootImg3.ReadImagesOfPlaced | imx/img/images.py:916-919 | images whose data lie at their read positions are read back exactly |
| ImgBootImg3.ReadImagesSized | imx/img/images.py:916-919 | each image read is as long as its descriptor says |
| ImgBootImg3.ReadV3a | imx/img/images.py:900-919 | the reads of `BootImg3a.parse`: two IVTs, two tables, the pointed-to DCD and CSF, then both containers' images |
| ImgBootImg3.IvtRead3a | imx/img/images.py:902 | the segment read at an accepted v3a probe is the 48 IVT bytes |
| ImgBootImg3.ReadImagesFrom | imx/img/images.py:917-919 | the image loop on the stream computes `ReadImages` |
| ImgBootImg3.ReadPointedFrom | imx/img/images.py:908-914 | the seek and read on the stream computes `ReadPointed` |
| ImgBootImg3.ReadIvtsFrom | imx/img/images.py:902-903 | the two IVT reads on the stream compute `ReadIvts3a` |
| ImgBootImg3.ReadTablesFrom | imx/img/images.py:905-906 | the two table reads on the stream compute `ReadTables3a` |
| ImgBootImg3.ReadSegments3a | imx/img/images.py:900-919 | the reads on the stream compute `ReadV3a` |
| ImgBootImg3.ExportReadsImages | imx/img/images.py:845-863 | round trip: `parse` reads back every image `export` wrote (container 1's when container 0 holds one) |
| ImgBootImg3.FilledApps | imx/img/images.py:916-919 | six APP slots: the data read for the counted ones without padding, empty ones after |
| ImgBootImg3.BootImg3a.constructor | imx/img/images.py:667-687 | IVTs of version 1, the first pointing `next` past its 48 bytes; empty tables and APPs; disabled DCD and CSF; the two ROM load addresses when no address list is given |
| ImgBootImg3.BootImg3a.UpdateContainer | imx/img/images.py:695-742 | one container-loop round raises as `UpdateContainer3a` says, leaves that container as `Round3a` says (the partial writes of a round that raises included) and keeps the other |
| ImgBootImg3.BootImg3a.AddImage | imx/img/images.py:778-843 | the containers and SCD address become what `AddImage3a` says; a raise changes nothing |
| ImgBootImg3.BootImg3a.Update | imx/img/images.py:693-742 | both containers in turn, as `Update3a` says; a failure stops in the round that raised, that container left as `Round3a` says and a later one untouched |
| ImgBootImg3.BootImg3a.Parse | imx/img/images.py:866-921 | on a stream entered at `start`: not an image iff the probe, bounded by the buffer's size from `start`, finds no v3a header; otherwise the image built from `ReadV3a`, or its error |
| ImgBootImg3.BootImg3a.FromRead | imx/img/images.py:900-919 | the parsed image: the read IVTs and tables, the parsed DCD and CSF, the images' data without padding |
| ImgBootImg3.BootImg3a.Export | imx/img/images.py:845-863 | `_update`, then the blob `ExportImage3a` gives from the laid-out containers |
| ImgBootImg3b.AtSource | imx/img/images.py:1078-1086 | setting a descriptor's source keeps its destination, size and kind |
| ImgBootImg3b.UpdateContainer3b | imx/img/images.py:1045-1090 | one container round of `_update` without the trailer: zero paddings, head addresses, APP 0 padded, images chained, no padding cleared; fails only with IndexError or TypeError |
| ImgBootImg3b.UpdateContainer3bChains | imx/img/images.py:1073-1090 | the first image at `FirstSource`, each later one right after the previous data and padding, every counted APP sector-padded, other descriptor fields kept |
| ImgBootImg3b.UpdateContainer3bLaid | imx/img/images.py:1045-1090 | a round over slots whose data match their descriptors lays the container out, sector-aligned when its first image is, with no IVT or table padding |
| ImgBootImg3b.UpdateContainer3bSized | imx/img/images.py:1073-1090 | a round keeps counted data as long as their descriptors, and the SCD descriptor |
| ImgBootImg3b.UpdateContainer3bLastPadded | imx/img/images.py:1085-1089 | the last counted image keeps its size and is padded to the sector size |
| ImgBootImg3b.Round3bOfSuccess | imx/img/images.py:1045-1090 | a round that completes leaves the container `UpdateContainer3b` gives |
| ImgBootImg3b.Round3bRaised | imx/img/images.py:1045-1089 | a round that raises has already zeroed the IVT and table padding; IndexError comes from the address list and leaves only that; a TypeError comes after the head addresses, APP 0's padding and the table size were written, and only for a counted container |
| ImgBootImg3b.Round3bSized | imx/img/images.py:1045-1090 | whatever a round leaves keeps four 3b slots, the count, the SCD descriptor, and counted data as long as their descriptors |
| ImgBootImg3b.Trailer3b | imx/img/images.py:1092-1102 | an SCD with a destination is placed at `next` and sector-padded, an enabled CSF follows it; TypeError while the SCD has no data |
| ImgBootImg3b.Trailer3bPlaces | imx/img/images.py:1092-1102 | the SCD at `next` when it has a destination, the CSF after its space, everything else kept |
| ImgBootImg3b.ImagesEnd | imx/img/images.py:1085-1090 | the end of a container's last image, 0x1200 for an empty container |
| ImgBootImg3b.NextAsWritten | imx/img/images.py:1084-1090 | as written, `next_image_address` is 0 for fewer than two images and otherwise the end of the last image |
| ImgBootImg3b.Update3bAsWritten | imx/img/images.py:1043-1102 | `_update` as written: container 0 with its SCD and CSF at `NextAsWritten`, then container 1 |
| ImgBootImg3b.ScdDroppedAsWritten | imx/img/images.py:1084-1096 | as written, with one image in container 0 the SCD gets source 0, which `export` and `parse` skip |
| ImgBootImg3b.ScdOverlapsAsWritten | imx/img/images.py:1084-1096 | as written, with images in both containers the SCD is placed where container 1's first image starts |
| ImgBootImg3b.Update3b | imx/img/images.py:1043-1102 | corrected `_update`: both containers, then container 0's SCD and CSF from where `export` writes them |
| ImgBootImg3b.Update3bCases | imx/img/images.py:1043-1102 | `Update3b` is container 0, container 1 after it, then the trailer, stopping at the first failure |
| ImgBootImg3b.TrailerStartEnd | imx/img/images.py:1215-1220 | the trailer starts at 0x1200 plus both containers' APP blob lengths |
| ImgBootImg3b.Update3bSteps | imx/img/images.py:1043-1102 | corrected `_update`: the steps a successful `Update3b` took |
| ImgBootImg3b.Update3bLaidOut | imx/img/images.py:1043-1090 | after `_update` both containers are laid out one after the other from 0x1200, without IVT or table padding, counts kept |
| ImgBootImg3b.ContainersAligned | imx/img/images.py:1073-1090 | container 0 from 0x1200 is sector-aligned, and so is container 1 when container 0 holds an image |
| ImgBootImg3b.Update3bAligned | imx/img/images.py:1043-1090 | after `_update` every image starts on a 0x200-byte sector (container 1's when container 0 holds one) |
| ImgBootImg3b.Update3bTrailer | imx/img/images.py:1092-1102 | corrected `_update`: the SCD sits at the trailer start, sector-padded, and an enabled CSF right after it |
| ImgBootImg3b.LaidBelowEnd | imx/img/images.py:1085-1090 | every image of a laid-out container ends at or before `ImagesEnd` |
| ImgBootImg3b.Update3bKeepsScd | imx/img/images.py:1092-1096 | corrected: an SCD with a destination sits at or after 0x1200 and past every image of both containers |
| ImgBootImg3b.Place3b | imx/img/images.py:1145-1189 | the next free slot: destination, entry, size, flags, data with sector padding, count + 1; a full table raises IndexError first |
| ImgBootImg3b.AddImage3b | imx/img/images.py:1139-1202 | A53/A72 go to container 1, M4 and SCFW to container 0; SCFW at 0x30fe0000 fixes the SCD address past its end, 16-byte aligned; SCD fills the SCD segment and points IVT 0 there; SCD before SCFW or an unknown type raises |
| ImgBootImg3b.AddImage3bPlaces | imx/img/images.py:1139-1202 | an image taking a slot lands in its container's next free slot with its type's destination and data; all else kept; the error cases are exact |
| ImgBootImg3b.ScdFollowsScfw3b | imx/img/images.py:1178-1199 | an SCD added after an SCFW is destined to the first 16-byte boundary at or past the SCFW's end, and IVT 0 points there |
| ImgBootImg3b.HeadParts3b | imx/img/images.py:1208-1212 | the five head parts: both IVTs, both tables, the DCD, no CSF |
| ImgBootImg3b.HeadLength3b | imx/img/images.py:1208-1212 | unpadded IVTs and tables make a head of 2*64 + 2*240 bytes plus the DCD blob |
| ImgBootImg3b.Export3bParts | imx/img/images.py:1204-1225 | the export is the head-and-APPs body, then the SCD blob iff its source is set, then the CSF blob iff its source is set |
| ImgBootImg3b.ReadImagesPrefix | imx/img/images.py:1274-1277 | image reads are unaffected by bytes appended after the buffer |
| ImgBootImg3b.ReadAtPrefix | imx/img/misc.py:21-34 | a successful read is unaffected by bytes appended after the buffer |
| ImgBootImg3b.Export3bLayout | imx/img/images.py:1204-1225 | after the corrected `_update`, for a laid-out image: head and zero fill up to `0x1200 - offset`, both APP blobs, then the SCD and CSF blobs |
| ImgBootImg3b.Export3bTrailer | imx/img/images.py:1204-1225 | after the corrected `_update`, the SCD descriptor points right after the APPs, an enabled CSF's right after the SCD blob |
| ImgBootImg3b.Export3bReadsImages | imx/img/images.py:1274-1277 | round trip: the image reads of container c give back each counted slot's data |
| ImgBootImg3b.Export3bReadsScd | imx/img/images.py:1279-1281 | round trip: the SCD read gives back the SCD's data from the padded blob |
| ImgBootImg3b.Export3bPlacesCsf | imx/img/images.py:1283-1285 | the CSF blob sits where its descriptor points |
| ImgBootImg3b.Export3bReadsContainers | imx/img/images.py:1274-1277 | round trip after the corrected `_update`: both containers' images read back (container 1's when container 0 holds one) |
| ImgBootImg3b.ReadsBothContainers | imx/img/images.py:1274-1277 | both containers' images read back from a body the SCD and CSF blobs follow |
| ImgBootImg3b.Export3bReadsScdBack | imx/img/images.py:1279-1281 | round trip after the corrected `_update`: the SCD is read back from a non-zero source |
| ImgBootImg3b.ReadIvts3b | imx/img/images.py:1264-1265 | the two IVT segments at the probe position, parsed |
| ImgBootImg3b.ReadTables3b | imx/img/images.py:1267-1268 | the two 240-byte tables, each parsed by `SegBDS3b.parse` as written (SCD and CSF read right after the counted slots), and well formed |
| ImgBootImg3b.ReadScd | imx/img/images.py:1279-1281 | the SCD read is `image_size` bytes from its source when that is set, nothing otherwise |
| ImgBootImg3b.ReadV3b | imx/img/images.py:1262-1285 | the reads of `BootImg3b.parse`: IVTs, tables as `SegBDS3b.parse` reads them, the DCD, both containers' images, the SCD and the CSF |
| ImgBootImg3b.ReadIvtsFrom3b | imx/img/images.py:1264-1265 | the two IVT reads on the stream compute `ReadIvts3b` |
| ImgBootImg3b.ReadTablesFrom3b | imx/img/images.py:1267-1268 | the two table reads on the stream compute `ReadTables3b`, with the as-written table parse |
| ImgBootImg3b.ReadSegments3b | imx/img/images.py:1262-1285 | the reads on the stream compute `ReadV3b`, with the as-written table parse |
| ImgBootImg3b.FilledApps3b | imx/img/images.py:1274-1277 | four APP slots: the data read for the counted ones without padding, empty ones after |
| ImgBootImg3b.BootImg3b.constructor | imx/img/images.py:1019-1037 | two IVTs of `version`, empty tables, APPs and SCD, disabled DCD and CSF, the two ROM load addresses when no list is given |
| ImgBootImg3b.BootImg3b.AddImage | imx/img/images.py:1139-1202 | the containers, SCD and SCD address become what `AddImage3b` says; a raise changes nothing |
| ImgBootImg3b.BootImg3b.UpdateContainer | imx/img/images.py:1045-1090 | one container round raises as `UpdateContainer3b` says, leaves that container as `Round3b` says (the partial writes of a round that raises included) and keeps the other |
| ImgBootImg3b.BootImg3b.Update | imx/img/images.py:1043-1102 | both containers, then the trailer, as the corrected `Update3b` says; a failure in a container round stops there, that container left as `Round3b` says and a later one untouched |
| ImgBootImg3b.BootImg3b.PlaceTrailer | imx/img/images.py:1092-1102 | corrected: container 0's SCD and CSF laid out after the last image of both containers (`TrailerStart`), not at `NextAsWritten`; the CSF takes its new padding |
| ImgBootImg3b.BootImg3b.Parse | imx/img/images.py:1228-1287 | on a stream entered at `start`: not an image iff the probe, bounded by the buffer's size from `start`, finds no v3b header; otherwise the image built from `ReadV3b` (tables parsed as written), or its error |
| ImgBootImg3b.BootImg3b.FromRead | imx/img/images.py:1262-1285 | the parsed image: the read IVTs and tables, the parsed DCD and CSF, image and SCD data without padding |
| ImgBootImg3b.BootImg3b.Export | imx/img/images.py:1204-1225 | corrected: the corrected `_update` (`Update3b`), then the blob `ExportImage3b` gives from the laid-out image |
| ImgBootImg3b.BootImg3b.ExportLaidOut | imx/img/images.py:1207-1225 | the concatenation `export` writes once `_update` has run |
| ImgDcdText.WriteLines | imx/img/segments.py:785-787 | one text line per address/value pair of a write command |
| ImgDcdText.WriteLinesSnoc | imx/img/segments.py:786-787 | one more pair adds one more line at the end |
| ImgDcdText.CheckWords | imx/img/segments.py:789-791 | a check line: check name, width, address, mask, then the count when set, glued to the mask as written or as its own word |
| ImgDcdText.ExportTxtWith | imx/img/segments.py:778-811 | `export_txt` appends each command's lines and a blank line to the prefix; it fails with TypeError iff a command is an Unlock |
| ImgDcdText.ExportTxtAsWritten | imx/img/segments.py:790-791 | as written: a check's count is glued to its mask |
| ImgDcdText.ExportTxt | imx/img/segments.py:778-811 | corrected: a space before a check's count |
| ImgDcdText.LinesSnoc | imx/img/segments.py:784-809 | one more command appends its own lines |
| ImgDcdText.AppendWriteLines | imx/img/segments.py:786-787 | the write-pair loop appends exactly the write's lines |
| ImgDcdText.TextPrefixStep | imx/img/segments.py:784-809 | the text of i+1 commands is the text of i commands plus the next command's |
| ImgDcdText.CommandText | imx/img/segments.py:785-809 | one command's text with its blank separator line; an Unlock raises TypeError |
| ImgDcdText.CommandsText | imx/img/segments.py:784-809 | the command loop gives the text of all commands, or TypeError iff one is an Unlock |
| ImgDcdText.ExportText | imx/img/segments.py:778-811 | corrected: `SegDCD.export_txt(txt_data)` is the corrected `ExportTxt` of the segment's commands after `txt_data` |
| ImgDcdText.Lookup | imx/img/segments.py:826-837 | the keyword table: four write names, four check names, Unlock and Nop, with their operations |
| ImgDcdText.CountWord | imx/img/segments.py:917 | a check line's fifth word, when there is one, is its count; a malformed one raises ValueError |
| ImgDcdText.AddPair | imx/img/segments.py:895-903 | a pending write of another kind is appended first; the pair then goes into the pending write of this kind |
| ImgDcdText.ExecWrite | imx/img/segments.py:886-903 | a write line needs four words (SyntaxError otherwise) and adds its address/value pair to the pending write |
| ImgDcdText.ExecCheck | imx/img/segments.py:905-918 | a check line needs four words, appends the pending write, then one check command with the line's fields |
| ImgDcdText.Exec | imx/img/segments.py:867-918 | one command line by its first word: Nop, write or check; the output only grows |
| ImgDcdText.Dispatch | imx/img/segments.py:860-863 | a trailing backslash continues the command on the next line, otherwise it runs |
| ImgDcdText.Step | imx/img/segments.py:844-863 | one loop pass: strip trailing NULs, skip empty and `#` lines, continue or start a command, skip unknown keywords |
| ImgDcdText.Run | imx/img/segments.py:844-918 | the loop over the lines keeps at most one pending write |
| ImgDcdText.RunFrom | imx/img/segments.py:844 | running from line i is one step, then the rest |
| ImgDcdText.AppendTo | imx/img/segments.py:763-766 | `dcd_obj.append(cmd)` adds the command at the end and keeps the header length in step |
| ImgDcdText.FlushInto | imx/img/segments.py:920-921 | the pending write, if any, is appended |
| ImgDcdText.WriteLineInto | imx/img/segments.py:886-903 | a write line run against the segment does what `ExecWrite` says |
| ImgDcdText.AddPairInto | imx/img/segments.py:895-903 | the pair added against the segment does what `AddPair` says |
| ImgDcdText.CheckLineInto | imx/img/segments.py:905-918 | a check line run against the segment does what `ExecCheck` says |
| ImgDcdText.ExecLine | imx/img/segments.py:867-918 | a command line run against the segment does what `Exec` says |
| ImgDcdText.LineInto | imx/img/segments.py:845-918 | one pass of the loop against the segment does what `Step` says |
| ImgDcdText.ParseTxt | imx/img/segments.py:825-923 | `parse_txt` gives an enabled DCD of parameter 0x41 whose commands are exactly those the lines describe, in order, or the loop's error |
| ImgDcdText.NamesShape | imx/img/segments.py:826-837 | every name export writes is a keyword the parser looks up to the same kind |
| ImgDcdText.StepWords | imx/img/segments.py:852-863 | a well-shaped line outside a continuation runs its words at once |
| ImgDcdText.StepBlank | imx/img/segments.py:849-850 | an empty line changes nothing |
| ImgDcdText.WriteWordsShape | imx/img/segments.py:787 | a written write line is well shaped and looks up to its own kind |
| ImgDcdText.ExecWriteOk | imx/img/segments.py:886-903 | the pair a written write line gives joins the pending write or starts a new one |
| ImgDcdText.SameParam | imx/img/commands.py:153-176 | two parameters are equal iff their widths and operations are |
| ImgDcdText.StepWriteLine | imx/img/segments.py:886-903 | a write line joins the pending write when its kind matches, else replaces it after appending it |
| ImgDcdText.RunConcat | imx/img/segments.py:844 | running two runs of lines is running the first, then the second |
| ImgDcdText.RunSteps | imx/img/segments.py:844 | lines each taking the parser to the next listed state run through all of them |
| ImgDcdText.WriteStepFirst | imx/img/segments.py:886-903 | the first line of a write's text starts or extends the pending write |
| ImgDcdText.WriteStepNext | imx/img/segments.py:886-903 | each further line adds its pair to the pending write |
| ImgDcdText.WriteStepLast | imx/img/segments.py:849-850 | the blank separator line ends the write's text |
| ImgDcdText.RunWrite | imx/img/segments.py:786-787 | reading back a write's text leaves the parser as `NormStep` says |
| ImgDcdText.CheckWordsShape | imx/img/segments.py:790-791 | a written check line is well shaped and looks up to its own kind |
| ImgDcdText.ExecCheckOk | imx/img/segments.py:905-918 | a check line whose numbers give c's fields appends c after the pending write |
| ImgDcdText.ExecCheckWords | imx/img/segments.py:790-791 | running a written check line gives `NormStep` |
| ImgDcdText.RunCheck | imx/img/segments.py:789-791 | reading back a check's text leaves the parser as `NormStep` says |
| ImgDcdText.RunOther | imx/img/segments.py:805-806 | reading back a Nop's text appends a Nop after the pending write |
| ImgDcdText.RunCommand | imx/img/segments.py:784-809 | reading back any exportable command's text leaves the parser as `NormStep` says |
| ImgDcdText.RunLines | imx/img/segments.py:784-809 | the lines of exportable commands take the parser through the states `ReplayFrom` lists |
| ImgDcdText.WriteLinesNoNewline | imx/img/segments.py:787 | no write line holds a newline |
| ImgDcdText.LinesNoNewline | imx/img/segments.py:784-809 | no exported line holds a newline, so splitting the text gives back the lines |
| ImgDcdText.RoundTripWith | imx/img/segments.py:778-923 | `parse_txt(export_txt(cs))` gives `Replay(cs)`, with the count glued or not |
| ImgDcdText.CanonicalExportable | imx/img/segments.py:784-806 | canonical commands are all exportable |
| ImgDcdText.CanonicalStep | imx/img/segments.py:784-806 | reading back one canonical command appends exactly that command |
| ImgDcdText.CanonicalReplay | imx/img/segments.py:784-806 | reading back canonical commands appends exactly them |
| ImgDcdText.TextRoundTrip | imx/img/segments.py:778-923 | corrected round trip: `parse_txt(export_txt(cs)) == cs` for canonical commands, counts included |
| ImgDcdText.ParseTxtMergesWrites | imx/img/segments.py:895-903 | two exported writes of one kind in a row come back as one write holding both pair lists |
| ImgDcdText.GluedWordsShape | imx/img/segments.py:790-791 | a glued check line has four words, the fourth the mask digits followed by the count digits |
| ImgDcdText.GluedCountLost | imx/img/segments.py:790-791 | as written: a check with a count reads back with no count and the glued digits as mask, never as itself |
| ImgDcdText.GluedCountReadsAsMask | imx/img/segments.py:790-791 | as written: mask 0 with count 5 reads back as mask 5 and no count |
| ImgDcdText.GluedMaskValue | imx/img/segments.py:790-791 | the glued word `0x00000000` + `5` reads as 5 |
| ImgDcdText.SpacedCountReadsBack | imx/img/segments.py:917 | with the count as its own word the same check reads back unchanged |
| ImgDcdText.ShortLineRaises | imx/img/segments.py:887-888 | a write or check line of fewer than four words raises SyntaxError |
| PyText.SplitLines | imx/img/segments.py:844 | `text.split('\n')` gives at least one piece, none holding a newline |
| PyText.SplitFirstLine | imx/img/segments.py:844 | a newline-free line followed by a newline splits off as one piece |
| PyText.SplitTerminated | imx/img/segments.py:844 | splitting newline-terminated lines gives them back, then what follows |
| PyText.TerminatedConcat | imx/img/segments.py:787-809 | terminating two runs of lines is terminating each, in order |
| PyText.JoinSplit | imx/img/segments.py:844 | joining the pieces with newlines gives the text back |
| PyText.RStripNul | imx/img/segments.py:845 | `rstrip('\0')` drops exactly the trailing NUL characters |
| PyText.WordLength | imx/img/segments.py:853-856 | the run of non-space characters at the start of the text |
| PyText.Words | imx/img/segments.py:853-856 | `split()` gives the maximal runs of non-space characters, in order |
| PyText.WordLengthOfWord | imx/img/segments.py:853-856 | a word followed by a separator is read as exactly that word |
| PyText.WordsOfWordThen | imx/img/segments.py:853-856 | a word followed by a separator is the first of the words |
| PyText.WordsJoin | imx/img/segments.py:853-856 | `split()` undoes joining words with spaces |
| PyText.DigitValue | imx/img/segments.py:891-893 | the digit value Python's `int` gives a character, below 37 |
| PyText.Digits | imx/img/segments.py:891-893 | the digits of a literal in a base, or ValueError iff one is not a digit of that base |
| PyText.IntDecimal | imx/img/segments.py:891 | `int(s)` succeeds iff after the sign only decimal digits remain |
| PyText.Magnitude | imx/img/segments.py:892-893 | `int(u, 0)`: a 0x/0o/0b prefix picks the base, else a decimal literal; errors are ValueError |
| PyText.IntAuto | imx/img/segments.py:892-893 | `int(s, 0)` with an optional sign; unsigned literals read as non-negative |
| PyText.Pow16 | imx/img/segments.py:787 | 16 to a power is at least 1 |
| PyText.HexDigits | imx/img/segments.py:787 | `'{:0nX}'` writes exactly n upper-case digits |
| PyText.DecimalOf | imx/img/segments.py:787 | `'{:d}'` writes at least one digit |
| PyText.HexDigitValues | imx/img/segments.py:892 | each upper-case hex digit reads back as its value |
| PyText.DecimalDigitValues | imx/img/segments.py:891 | each decimal digit reads back as its value |
| PyText.ValueOfSnoc | imx/img/segments.py:891-893 | one more digit multiplies by the base and adds its value |
| PyText.HexDigitsValue | imx/img/segments.py:787 | the hex digits written read back in base 16 as the number |
| PyText.DecimalOfValue | imx/img/segments.py:891 | the decimal digits read back as the number and start with 0 only for 0 |
| PyText.Pow16Eight | imx/img/segments.py:787 | 16^8 is 2^32 |
| PyText.IntAutoHex32 | imx/img/segments.py:892-893 | `int('0x{:08X}'.format(x), 0) == x` for every 32-bit x |
| PyText.IntDecimalOf | imx/img/segments.py:891 | `int('{:d}'.format(x)) == x` |
| PyText.IntAutoDecimalOf | imx/img/segments.py:917 | `int('{:d}'.format(x), 0) == x` for a positive x |
| PyText.Hex32IsWord | imx/img/segments.py:787 | `0x{:08X}` is one 10-character word with no NUL at its end and no newline |
| PyText.HexDigitsIn | imx/img/segments.py:787 | each written hex digit is an upper-case hex digit |
| PyText.DecimalOfIsWord | imx/img/segments.py:787 | `'{:d}'` is one word of decimal digits |
| LegacyCommands.TagsDistinct | src/imx/im/header.py:25-33 | the eight command classes are built with eight different header tags, so a parsed header names at most one class |
| LegacyCommands.Size | src/imx/im/commands.py:306-307 | `size` is 12 without a count and 16 with one for Check Data, the header size plus four per word for Unlock, and the header length for every other class |
| LegacyCommands.ExportEntries | src/imx/im/commands.py:443-447 | each Set entry is exported as four bytes, so the entries take four bytes apiece |
| LegacyCommands.Export | src/imx/im/commands.py:251-256 | `export` succeeds exactly when the size fits 16 bits and no Install Key hash word is stored; it then writes the class's tag, the parameter and the size, followed by the body, and fails with struct.error otherwise |
| LegacyCommands.RoundsExact | src/imx/im/commands.py:436-441 | the element loop of `parse` runs `n` times when the declared length lies `n` whole steps past the start index |
| LegacyCommands.RoundsRoundUp | src/imx/im/commands.py:436-441 | a declared length that stops part way into a step still makes the loop read one more whole element |
| LegacyCommands.ReadPairs | src/imx/im/commands.py:242-249 | the `>LL` loop appends as many pairs as the loop rounds when it passes, every one of them inside the data; it fails only with struct.error, or with an AssertionError when the loop checks its index first |
| LegacyCommands.ReadWords | src/imx/im/commands.py:501-508 | the `>L` loop appends one word per round when it passes, all inside the data, and fails only with struct.error or AssertionError |
| LegacyCommands.ReadEntries | src/imx/im/commands.py:434-441 | the `4B` loop appends one entry per round when it passes, all inside the data, and fails only with struct.error or AssertionError |
| LegacyCommands.Fresh | src/imx/im/commands.py:194-198 | what each class's constructor builds with its default arguments is of that class and passes the setters' checks |
| LegacyCommands.WithHeader | src/imx/im/header.py:111-116 | reading a header into a command keeps its class, takes the parameter read and, for every class that keeps its length in the header, the length read |
| LegacyCommands.ParseBody | src/imx/im/commands.py:333-339 | the body parse of every class keeps the class, the parameter and the header length the header parse stored |
| LegacyCommands.ParseInto | src/imx/im/commands.py:242-249 | `parse` raises UnparsedException, with the object unchanged, exactly when the header is in the buffer but carries another tag; when it passes, the parameter is the byte read at offset 3 |
| LegacyCommands.ReadPairsExport | src/imx/im/commands.py:242-256 | reading back the `>LL` pairs written by `export` over the length they declare gives exactly those pairs |
| LegacyCommands.ReadWordsExport | src/imx/im/commands.py:501-514 | reading back the `>L` words written by `export` over the length they declare gives exactly those words |
| LegacyCommands.ReadEntriesExport | src/imx/im/commands.py:434-447 | reading back the `4B` entries written by `export` over the length they declare gives exactly those entries |
| LegacyCommands.HeaderThenBody | src/imx/im/header.py:111-119 | an exported header parses back to itself with the matching tag, and what was written after it is found right after the header |
| LegacyCommands.ExportedHeader | src/imx/im/commands.py:251-256 | the header of an exported command parses back to its tag, parameter and size, and the body follows it |
| LegacyCommands.ExportLayout | src/imx/im/commands.py:251-256 | a successful export is the exported header followed by the body |
| LegacyCommands.RoundTripCheckData | src/imx/im/commands.py:333-348 | a Check Data command parses back from its export, with or without a count |
| LegacyCommands.InstallKeyBody | src/imx/im/commands.py:683-692 | the Install Key body parse recovers the protocol, algorithm, source, target and key data from the bytes that hold them |
| LegacyCommands.RoundTripInstallKey | src/imx/im/commands.py:683-699 | an Install Key command whose length counts its fixed fields parses back from its export |
| LegacyCommands.AuthDataBody | src/imx/im/commands.py:817-830 | the Authenticate Data body parse recovers the fixed fields and every block from the bytes that hold them |
| LegacyCommands.AuthDataFields | src/imx/im/commands.py:817-826 | when the eight fixed bytes are in the data and pass the setters, the fields take the bytes read and the block loop starts at index 12 |
| LegacyCommands.RoundTripAuthData | src/imx/im/commands.py:817-837 | an Authenticate Data command whose length counts its fixed fields and blocks parses back from its export |
| LegacyCommands.WriteDataBody | src/imx/im/commands.py:242-249 | a fresh Write Data object reads back exactly the pairs that follow a header declaring their length |
| LegacyCommands.SetBody | src/imx/im/commands.py:434-441 | a fresh Set object reads back exactly the entries that follow a header declaring their length |
| LegacyCommands.InitializeBody | src/imx/im/commands.py:501-508 | a fresh Initialize object reads back exactly the words that follow a header declaring their length |
| LegacyCommands.UnlockBody | src/imx/im/commands.py:577-584 | a fresh Unlock object reads back exactly the words that follow its header |
| LegacyCommands.RoundTrip | src/imx/im/commands.py:167-837 | any command whose declared size is the size of its export parses back to itself in a freshly constructed object of its class |
| LegacyCommands.NewAuthData | src/imx/im/commands.py:767-805 | after the constructor and appended blocks, the declared size counts the blocks but falls eight bytes short of the export |
| LegacyCommands.NewAuthDataLosesBlock | src/imx/im/commands.py:774-830 | as written, an Authenticate Data command built with one block parses back from its export with no block at all |
| LegacyCommands.NewAuthDataCorrected | src/imx/im/commands.py:767-805 | with the length starting at 12, the declared size equals the size of the export, whatever blocks are appended |
| LegacyCommands.NewAuthDataCorrectedRoundTrip | src/imx/im/commands.py:767-837 | with the corrected length, every appended block survives export and parse |
| LegacyCommandObjects.WriteDataCmd.constructor | src/imx/im/commands.py:194-198 | builds the Write Data tag with the width and ops packed into the parameter, no pairs and a length of 4 |
| LegacyCommandObjects.WriteDataCmd.SetWidth | src/imx/im/commands.py:174-178 | the `bytes` setter accepts exactly 1, 2 and 4 and replaces the width bits; any other value raises AssertionError and changes nothing |
| LegacyCommandObjects.WriteDataCmd.SetOps | src/imx/im/commands.py:184-188 | the `ops` setter accepts exactly the write operations and replaces the ops bits; any other value raises AssertionError and changes nothing |
| LegacyCommandObjects.WriteDataCmd.Append | src/imx/im/commands.py:226-230 | `append` accepts exactly a 32-bit address and value; it adds the pair at the end and grows the length by 8, and keeps the length in step with the export |
| LegacyCommandObjects.WriteDataCmd.Pop | src/imx/im/commands.py:232-236 | `pop` accepts exactly an index in range; it returns that pair, removes it and shrinks the length by 8 |
| LegacyCommandObjects.WriteDataCmd.Clear | src/imx/im/commands.py:238-240 | `clear` leaves no pairs and a length of 4, in step with the export |
| LegacyCommandObjects.WriteDataCmd.Parse | src/imx/im/commands.py:242-249 | the object after `parse` and its outcome are what the value-level parse gives |
| LegacyCommandObjects.CheckDataCmd.constructor | src/imx/im/commands.py:309-315 | builds the Check Data tag with the packed parameter and the given address, mask and count |
| LegacyCommandObjects.CheckDataCmd.SetWidth | src/imx/im/commands.py:265-269 | the `bytes` setter accepts exactly 1, 2 and 4 and replaces the width bits, else raises AssertionError |
| LegacyCommandObjects.CheckDataCmd.SetOps | src/imx/im/commands.py:275-279 | the `ops` setter accepts exactly the check operations and replaces the ops bits, else raises AssertionError |
| LegacyCommandObjects.CheckDataCmd.Parse | src/imx/im/commands.py:333-339 | the object after `parse` and its outcome are what the value-level parse gives |
| LegacyCommandObjects.CheckDataCmd.Export | src/imx/im/commands.py:341-348 | `export` first sets the header length to the size and then always succeeds with the value-level export |
| LegacyCommandObjects.NopCmd.constructor | src/imx/im/commands.py:358-359 | builds the Nop tag with the given parameter and a length of 4 |
| LegacyCommandObjects.NopCmd.Parse | src/imx/im/commands.py:373-374 | the object after `parse` and its outcome are what the value-level parse gives |
| LegacyCommandObjects.SetCmd.constructor | src/imx/im/commands.py:396-399 | keeps the entries it is given but leaves the length at 4, so it agrees with its export exactly when it is given none |
| LegacyCommandObjects.SetCmd.SetItm | src/imx/im/commands.py:387-390 | the `itm` setter accepts exactly the configuration items, else raises AssertionError |
| LegacyCommandObjects.SetCmd.Append | src/imx/im/commands.py:416-422 | `append` accepts exactly a known algorithm, a known engine and a byte; it adds the entry and grows the length by 4 |
| LegacyCommandObjects.SetCmd.Pop | src/imx/im/commands.py:424-428 | `pop` accepts exactly an index in range, returns and removes that entry and shrinks the length by 4 |
| LegacyCommandObjects.SetCmd.Clear | src/imx/im/commands.py:430-432 | `clear` leaves no entries and a length of 4 |
| LegacyCommandObjects.SetCmd.Parse | src/imx/im/commands.py:434-441 | the object after `parse` and its outcome are what the value-level parse gives |
| LegacyCommandObjects.InitializeCmd.constructor | src/imx/im/commands.py:466-469 | keeps the words it is given but leaves the length at 4, so it agrees with its export exactly when it is given none |
| LegacyCommandObjects.InitializeCmd.SetEngine | src/imx/im/commands.py:457-460 | the `engine` setter accepts exactly the engines, else raises AssertionError |
| LegacyCommandObjects.InitializeCmd.Append | src/imx/im/commands.py:485-489 | `append` accepts exactly the values below 0xFFFFFFFF; it adds the word and grows the length by 4 |
| LegacyCommandObjects.InitializeCmd.Pop | src/imx/im/commands.py:491-495 | `pop` accepts exactly an index in range, returns and removes that word and shrinks the length by 4 |
| LegacyCommandObjects.InitializeCmd.Clear | src/imx/im/commands.py:497-499 | `clear` leaves no words and a length of 4 |
| LegacyCommandObjects.InitializeCmd.Parse | src/imx/im/commands.py:501-508 | the object after `parse` and its outcome are what the value-level parse gives |
| LegacyCommandObjects.UnlockCmd.constructor | src/imx/im/commands.py:533-536 | builds the Unlock tag with the engine and the words given, its size counting every word |
| LegacyCommandObjects.UnlockCmd.SetEngine | src/imx/im/commands.py:524-527 | the `engine` setter accepts exactly the engines, else raises AssertionError |
| LegacyCommandObjects.UnlockCmd.Append | src/imx/im/commands.py:564-567 | `append` accepts exactly the values below 0xFFFFFFFF; it adds the word and the size grows by 4 |
| LegacyCommandObjects.UnlockCmd.Pop | src/imx/im/commands.py:569-572 | `pop` accepts exactly an index in range and returns and removes that word |
| LegacyCommandObjects.UnlockCmd.Clear | src/imx/im/commands.py:574-575 | `clear` leaves no words and a size of 4 |
| LegacyCommandObjects.UnlockCmd.Parse | src/imx/im/commands.py:577-584 | the object after `parse` and its outcome are what the value-level parse gives |
| LegacyCommandObjects.UnlockCmd.Export | src/imx/im/commands.py:586-591 | `export` sets the header length to the size, then gives the value-level export, which succeeds exactly when that size fits 16 bits |
| LegacyCommandObjects.InstallKeyCmd.constructor | src/imx/im/commands.py:651-663 | builds the Install Key tag with the given fields, no hash and a length of 4, with protocol and algorithm checked by their setters |
| LegacyCommandObjects.InstallKeyCmd.SetParam | src/imx/im/commands.py:600-603 | the `param` setter accepts exactly the Install Key flags, else raises AssertionError |
| LegacyCommandObjects.InstallKeyCmd.SetPcl | src/imx/im/commands.py:609-612 | the `pcl` setter accepts exactly the protocols, else raises AssertionError, and touches no other field |
| LegacyCommandObjects.InstallKeyCmd.SetAlg | src/imx/im/commands.py:618-621 | the `alg` setter accepts exactly the algorithms, else raises AssertionError, and touches no other field |
| LegacyCommandObjects.InstallKeyCmd.Parse | src/imx/im/commands.py:683-692 | the object after `parse` and its outcome are what the value-level parse gives |
| LegacyCommandObjects.InstallKeyCmd.ReadHash | src/imx/im/commands.py:686-692 | the hash loop appends exactly the words the value-level `>L` loop reads from index 12, and ends as it does |
| LegacyCommandObjects.AuthDataCmd.constructor | src/imx/im/commands.py:767-781 | builds the Authenticate Data tag with the given fields, no blocks and a length of 4 |
| LegacyCommandObjects.AuthDataCmd.SetFlag | src/imx/im/commands.py:708-711 | the `flag` setter accepts exactly the authentication flags, else raises AssertionError |
| LegacyCommandObjects.AuthDataCmd.SetPcl | src/imx/im/commands.py:725-728 | the `pcl` setter accepts exactly the protocols, else raises AssertionError, and touches no other field |
| LegacyCommandObjects.AuthDataCmd.SetEng | src/imx/im/commands.py:734-737 | the `eng` setter accepts exactly the engines, else raises AssertionError, and touches no other field |
| LegacyCommandObjects.AuthDataCmd.Append | src/imx/im/commands.py:803-805 | `append` adds the block unchecked and grows the length by 8, so the constructor and appends build exactly the object whose export loses its blocks |
| LegacyCommandObjects.AuthDataCmd.Pop | src/imx/im/commands.py:807-811 | `pop` accepts exactly an index in range, returns and removes that block and shrinks the length by 8 |
| LegacyCommandObjects.AuthDataCmd.Clear | src/imx/im/commands.py:813-815 | `clear` leaves no blocks and a length of 4, as the constructor left it |
| LegacyCommandObjects.AuthDataCmd.Parse | src/imx/im/commands.py:817-830 | the object after `parse` and its outcome are what the value-level parse gives |
| LegacyCommandObjects.AuthDataCmd.ReadBlocks | src/imx/im/commands.py:826-830 | the block loop appends exactly the pairs the value-level `>2L` loop reads from index 12, with no index check, and ends as it does |
| LegacySegments.IvtSegment.Fields | src/imx/im/segments.py:160-173 | the seven IVT words, in the order the `<7L` format packs them |
| LegacySegments.IvtSegment.constructor | src/imx/im/segments.py:135-149 | `SegIVT(version)` takes the version as parameter, sets the length to the header plus the seven words, and zeroes every word and the padding |
| LegacySegments.IvtSegment.Parse | src/imx/im/segments.py:160-173 | `parse` passes exactly when the header parses with the IVT tag and the 32 bytes are in the buffer, and then holds the seven words read; a header failure is its own error (struct.error or UnparsedException) and changes nothing; after a header that parses, a buffer short of the 32 bytes raises struct.error; a failure keeps the words |
| LegacySegments.IvtSegment.Export | src/imx/im/segments.py:175-190 | `export` succeeds exactly when the length fits 16 bits and every word fits 32 bits; it writes the header and the seven words, then the padding when asked |
| LegacySegments.IvtRoundTrip | src/imx/im/segments.py:160-190 | what an IVT exports parses back to its header and its seven words |
| LegacySegments.BdtSegment.Fields | src/imx/im/segments.py:248-249 | the start, length and plugin words, in the order `<3L` packs them |
| LegacySegments.BdtSegment.constructor | src/imx/im/segments.py:226-235 | `SegBDT(start, length, plugin)` holds the three words given and no padding |
| LegacySegments.BdtSegment.Parse | src/imx/im/segments.py:248-249 | `parse` passes exactly when twelve bytes are in the buffer and then holds the three words read; otherwise it raises struct.error and changes nothing |
| LegacySegments.BdtSegment.Export | src/imx/im/segments.py:251-255 | `export` succeeds exactly when the three words fit 32 bits; it writes them, then the padding when asked |
| LegacySegments.BdtRoundTrip | src/imx/im/segments.py:248-255 | what a BDT exports parses back to its three words |
| LegacySegments.AppSegment.constructor | src/imx/im/segments.py:273-278 | `SegAPP(data)` holds the payload given and no padding |
| LegacySegments.AppSegment.Size | src/imx/im/segments.py:270-271 | `size` is the payload length, and raises TypeError exactly when there is no payload |
| LegacySegments.AppSegment.Export | src/imx/im/segments.py:286-290 | `export` fails with TypeError exactly when padding is asked of a missing payload; otherwise it gives the payload followed by the padding's zero bytes |
| LegacySegments.SizeSumAppend | src/imx/im/segments.py:347-350 | appending a command adds its size to the sum of the sizes |
| LegacySegments.SizeSumConcat | src/imx/im/segments.py:347-356 | the size sum of two lists is the sum of their size sums |
| LegacySegments.SizeSumRemove | src/imx/im/segments.py:352-356 | removing one command takes exactly its size off the sum |
| LegacySegments.ExportCommands | src/imx/im/segments.py:383-393 | the commands' exports one after another; a failure is struct.error |
| LegacySegments.ExportCommandsSucceeds | src/imx/im/segments.py:383-393 | the commands export exactly when every one of them exports |
| LegacySegments.ExportCommandsLength | src/imx/im/segments.py:383-393 | commands whose sizes match their exports export exactly the sum of their sizes |
| LegacySegments.ProbeFrom | src/imx/im/segments.py:366-380 | the probe over the accepted classes never ends with UnparsedException, and what it finds is of an accepted class |
| LegacySegments.ProbeFromExported | src/imx/im/segments.py:366-380 | an exported command of an accepted class is found by the probe and parsed back to itself |
| LegacySegments.SourceStep | src/imx/im/segments.py:364-376 | one round of the loop as written moves the offset by exactly the size of the command found, or raises what the probe raised |
| LegacySegments.EmptyNopStalls | src/imx/im/segments.py:364-376 | as written, a No Operation header declaring length 0 is parsed and the offset does not move, so the loop never ends |
| LegacySegments.ReadCommands | src/imx/im/segments.py:364-380 | corrected: the guarded loop keeps only commands of accepted classes with a positive size, and never ends with UnparsedException |
| LegacySegments.ReadCommandsEnd | src/imx/im/segments.py:364 | the loop finishes with no command once the offset reaches the declared length |
| LegacySegments.ReadCommandsRaises | src/imx/im/segments.py:366-380 | a probe that raises ends the loop with that exception |
| LegacySegments.ReadCommandsStalls | src/imx/im/segments.py:364-376 | corrected: a command found with a size of 0 or less ends the guarded loop as corrupted, where the loop as written never ends |
| LegacySegments.ReadCommandsNext | src/imx/im/segments.py:364-376 | a command found with a positive size is kept and the loop goes on after it |
| LegacySegments.ReadCommandsCons | src/imx/im/segments.py:364-376 | a kept command followed by a loop that reads the rest reads the command and then the rest |
| LegacySegments.ExportedHead | src/imx/im/segments.py:383-393 | the export of a list of commands starts with the export of its first command |
| LegacySegments.ExportedTail | src/imx/im/segments.py:383-393 | after the first command's export comes the export of the rest of the list |
| LegacySegments.WellFormedRest | src/imx/im/segments.py:347-393 | the rest of a well-formed list is well formed, and the first command's size plus the rest's size sum is the list's size sum |
| LegacySegments.FirstProbed | src/imx/im/segments.py:366-376 | the probe finds the first command of an exported list |
| LegacySegments.ExportedRest | src/imx/im/segments.py:383-393 | the rest of an exported list is exported right after the first command |
| LegacySegments.ReadCommandsFirst | src/imx/im/segments.py:364-376 | a first command the probe finds, followed by a loop that reads the rest, makes the loop read the whole list |
| LegacySegments.ReadCommandsOfExport | src/imx/im/segments.py:362-393 | the exports of well-formed commands laid out where the loop starts and ending at the declared length parse back to the same commands |
| LegacySegments.EmptyNopCorrupted | src/imx/im/segments.py:364-380 | where the loop as written stalls on the empty No Operation, the guarded loop reports the segment corrupted |
| LegacySegments.BlobCheck | src/imx/im/segments.py:498-513 | the CSF blob check fails only with struct.error or UnparsedException, and passes whenever there is no Install Key and no Authenticate Data |
| LegacySegments.BlobAt | src/imx/im/segments.py:499-513 | one blob check fails only with struct.error or UnparsedException, and passes for every other class |
| LegacySegments.ParseFresh | src/imx/im/segments.py:368-370 | a fresh object of one class parsing at an offset gives what the value-level parse gives |
| LegacySegments.ProbeCmd | src/imx/im/segments.py:366-378 | the loop over the classes, one fresh object at a time, gives what the probe specification gives |
| LegacySegments.ReadStep | src/imx/im/segments.py:364-380 | corrected: one round either ends the loop as the guarded loop ends, or keeps a command and moves the offset forward |
| LegacySegments.ReadFrom | src/imx/im/segments.py:364-380 | corrected: the `while` loop from offset 4 gives exactly the commands and end of the guarded loop |
| LegacySegments.SegmentRoundTrip | src/imx/im/segments.py:362-393 | an enabled segment whose length counts its well-formed commands parses back to the same header, and the loop reads exactly its commands |
| LegacySegments.CheckBlob | src/imx/im/segments.py:499-513 | one round of the blob loop gives what the blob check specification gives for that command |
| LegacySegments.CmdSegment.DCD | src/imx/im/segments.py:319-325 | `SegDCD(enabled, param)` has the DCD tag, the given parameter, the four DCD classes, no commands and a length of 4 |
| LegacySegments.CmdSegment.CSF | src/imx/im/segments.py:421-435 | `SegCSF(enabled, param)` has the CSF tag, the given parameter, the eight CSF classes, no commands and a length of 4 |
| LegacySegments.CmdSegment.Size | src/imx/im/segments.py:312-313 | `size` is the header length when enabled and 0 otherwise |
| LegacySegments.CmdSegment.Space | src/imx/im/segments.py:316-317 | `space` is the size plus the padding when enabled and 0 otherwise |
| LegacySegments.CmdSegment.Append | src/imx/im/segments.py:347-350 | `append` accepts exactly a command of an accepted class; it adds the command and grows the length by its size, keeping the length in step with the commands |
| LegacySegments.CmdSegment.Pop | src/imx/im/segments.py:352-356 | `pop` accepts exactly an index in range; it returns and removes that command and takes its size off the length |
| LegacySegments.CmdSegment.Clear | src/imx/im/segments.py:358-360 | `clear` leaves no commands and a length of 4 |
| LegacySegments.CmdSegment.SetItem | src/imx/im/segments.py:333-335 | `seg[key] = cmd` accepts exactly an accepted class and a key in range, a negative key counting from the end, and replaces that command without changing the length; a class not accepted raises AssertionError, checked first, and only an accepted class with a key out of range raises IndexError; a failure changes nothing |
| LegacySegments.CmdSegment.Parse | src/imx/im/segments.py:362-381 | `parse` keeps everything when the header fails; otherwise it stores the header, appends the commands the guarded loop reads (corrected: a command of size 0 is reported corrupted), and is enabled only when that loop completes, a CSF then running its blob check |
| LegacySegments.CmdSegment.ReadInto | src/imx/im/segments.py:364-380 | corrected: the loop appends exactly the commands the guarded loop reads, and ends as it does |
| LegacySegments.CmdSegment.CheckBlobs | src/imx/im/segments.py:498-513 | the loop over the commands gives the outcome of the blob check specification |
| LegacySegments.CmdSegment.Export | src/imx/im/segments.py:383-393 | `export` is empty when disabled; when enabled it succeeds exactly when the length fits 16 bits and every command exports, and starts with the header followed by every command's export |

## Left out

- `BootImg4` and `KernelImg` (`imx/img/images.py`) are not modelled. `BootImg4` depends on a `SegBIC1` segment that the codec never defines, and its export and parse are marked incomplete. `KernelImg.parse` is a stub. The top-level parser dispatches a v4 header to a failure instead.
- `BootImg8m` is a line-for-line copy of `BootImg2`. `ImgImages.BootImg2` models both.
- The SRK table and fuse digest are not modelled, because they need SHA-256.
- The USB/serial transports and the command-line front-ends are not modelled, because they are device and file I/O.
- `sizeof_fmt` and every `info()`/`__str__` text are not modelled, because they are display text and floating-point formatting.
- Streams are modelled as an in-memory byte sequence. `ImgMisc.Stream` holds its data and a cursor.
- ImgParse.ParseImage, ImgParse.Dispatch: the top-level `parse` wraps a byte string in a fresh stream, so it always enters at position 0. The image parsers' own mix of an absolute position with a size counted from where they were entered (`ImgImages.BootImg2.Parse`, `ImgBootImg3a.BootImg3a.Parse`, `ImgBootImg3b.BootImg3b.Parse` take the entry position `start`) is modelled as written. A header found past the middle of the data is therefore missed by the probe.
- Object aliasing is not modelled. In Python, a command object appended to a DCD/CSF segment is shared with the caller, and so is a byte buffer handed to `SegAPP`. The model's segments hold the command and payload values, so a later change to the caller's object does not reach the segment.
- Unlock lines in the DCD text notation are not modelled. `parse_txt` calls `CmdUnlock(engine, data)`, which binds the list of words to the `features` argument. The Unlock then holds a list where its export packs one integer, so it cannot be exported; the model's text parser reports such a line as unsupported.
- Engine names in the DCD text notation are not modelled, because they are looked up through the external `easy_enum` library.
- `PyText.IntAuto` models `int(s, 0)` on an optional sign, the `0x`/`0o`/`0b` prefixes and decimal digits. It leaves out underscores between digits and surrounding whitespace other than what `split()` has already removed.
- Fields the source stores without a check but packs into a fixed width are typed by that width. These are a check command's address, mask and count, the Install Key location, the engine configuration, authentication blocks, the Unlock features and UID, and in the legacy codec the authentication `key` and `auth_start` and the No Operation `param`. The `struct.error` a larger Python integer would raise at export is therefore not modelled for them.
- ImgCommands.NewInitialize, ImgCommandObjects.InitializeCmd.constructor: the constructor's `data` argument (a ready-made list of words) is not modelled; an Initialize starts empty and grows through `append`, so its header length always counts its words.
- PyText.IsSpace, PyText.DigitValue: only ASCII whitespace and the ASCII digits are recognised. Python's `split()` and `int()` also accept Unicode whitespace and other decimal digits.
- SdpMisc.Fmt: `atos` accepts any `format` specification; the model covers the default `'02X'` and `'c'`, the two the codec uses.
- LegacySegments.AppSegment.Export: the source's `data = self._data; data += padding` extends a `bytearray` payload in place, so every padded export of such a payload makes it longer. The model's export leaves the payload as it is, which is the behaviour for a `bytes` payload.
- ImgImages.AppSizeAsWritten, ImgImages.ReadV2: the APP size `BootImg2.parse` reads without a CSF is the size as written, which overshoots the image (see Findings). `ImgImages.AppSize2` is the intended size, and `ImgImages.AppSizeOfLayout` states that it is exactly the APP's space. No export-then-parse round trip is claimed for v2 images: as written, the parse reads the bytes after the image into the APP.
- ImgBootImg3b.BootImg3b.Export, ImgBootImg3b.BootImg3b.PlaceTrailer, ImgBootImg3b.Update3b: these follow the corrected `_update`, which places the SCD and CSF after the last image of both containers (see Findings). The as-written placement is `ImgBootImg3b.NextAsWritten`, and what it loses is stated by `ImgBootImg3b.ScdDroppedAsWritten`. The lemmas `Update3bTrailer`, `Export3bLayout`, `Export3bTrailer`, `Export3bReadsContainers` and `Export3bReadsScdBack` are about the corrected layout.
- ImgSegments.ParseBDS3b: the parse of a 3b table that reads the trailing descriptors after the four fixed slots is the corrected one, and only `ImgSegments.ParseBDS3bOfExport` uses it. `ImgBootImg3b.BootImg3b.Parse` reads the tables as written, with `ImgSegments.ParseBDS3bAsWritten`; the two parses agree when all four slots are counted (`ImgSegments.ParseBDS3bAsWrittenFullCount`). The export round-trip lemmas of `ImgBootImg3b` read images and the SCD from the descriptors as exported, so for a table with fewer than four images they describe the corrected parse.
- ImgDcdText.ExportText: follows the corrected `ExportTxt`, which puts a space before a check's count (see Findings). The as-written text is `ImgDcdText.ExportTxtAsWritten`.
- LegacySegments.ReadCommandsStalls: states the guarded loop's report on a command of size 0 or less. The loop as written (src/imx/im/segments.py:364-376) never ends on such a command. `LegacySegments.EmptyNopStalls` states that non-termination, and no member follows it further.
- LegacySegments.ReadCommands, LegacySegments.ReadStep, LegacySegments.ReadFrom, LegacySegments.CmdSegment.ReadInto, LegacySegments.CmdSegment.Parse: these follow the guarded loop. On a zero-length command the source never terminates; the model reports CorruptedException instead. A loop without end cannot be a terminating method, so the as-written behaviour is stated only by `LegacySegments.EmptyNopStalls` (see Findings).
- `ImgImages.BootImg2.Size`: states only when `size` raises; the sum it returns on success is not restated, and the laid-out sizes are stated by `Update2`'s lemmas.
- `ImgCommandObjects.WriteDataCmd.constructor`, `ImgCommandObjects.CheckDataCmd.constructor`, `ImgCommandObjects.InitializeCmd.constructor`, `ImgCommandObjects.AuthDataCmd.constructor`: the source's argument assertions are preconditions here. The `AssertionError` path is modelled by the value-level `ImgCommands.New*` functions.
- `LegacyCommandObjects.WriteDataCmd.constructor`, `LegacyCommandObjects.CheckDataCmd.constructor`, `LegacyCommandObjects.SetCmd.constructor`, `LegacyCommandObjects.InitializeCmd.constructor`, `LegacyCommandObjects.UnlockCmd.constructor`, `LegacyCommandObjects.InstallKeyCmd.constructor`, `LegacyCommandObjects.AuthDataCmd.constructor`: the same. The arguments the legacy constructors assert on, or pass through asserting setters, are preconditions.
- Setters without a check need no method of their own and are modelled as plain field assignments. These are the legacy `src`, `tgt`, `keydat`, `key`, `cfg` and `auth_start` setters, and the `padding` setters.
- The `auth_data` argument and property of the legacy `CmdAuthData` are not modelled, because nothing reads them.
- The legacy Install Key hash: `parse` stores each hash word as a one-element tuple, which `export` cannot pack. `LegacyCommands.Export` fails with `struct.error` on such a command, so the round trip of the hash words is not claimed.
- The legacy `SecretKeyBlob` (`src/imx/im/secret.py`) is the same code as the newer codec's, and `ImgSecret` models it once.
- The legacy image classes (`src/imx/im/images.py`, `src/imx/im/image.py`) are not modelled, because they call `SegIVT` with arguments it does not take.
- The `__len__` methods of the legacy `CmdWriteData`, `CmdUnlock`, `SegDCD` and `SegCSF` return nothing and are not modelled. `__getitem__` and `__iter__` are read access to the held list.

## Findings

| source | as written | input that shows it | evidently intended | confidence | as-written member | corrected member |
|---|---|---|---|---|---|---|
| imx/img/segments.py:790-791 | `export_txt` writes a check command's count straight after the mask, with no space | a check with mask 0 and count 5 is written as `... 0x000000005`, which `parse_txt` reads as mask 5 with no count | a space before the count, so the text reads back as the same command | high (not executed) | ImgDcdText.GluedCountLost | ImgDcdText.TextRoundTrip (used by ImgDcdText.ExportText) |
| imx/img/segments.py:596-618 | `SegBDS3b.parse` reads the SCD, CSF and reserved descriptors right after `images_count` image slots, but `export` always writes all four slots | a table with no images and an SCD descriptor: the parse reads the SCD from the first, empty image slot | read the three trailing descriptors after the four fixed slots | high (not executed) | ImgSegments.ParseBDS3bAsWrittenLosesScd (used by ImgBootImg3b.ReadTables3b and ImgBootImg3b.BootImg3b.Parse) | ImgSegments.ParseBDS3bOfExport |
| imx/img/images.py:1084-1096 | `BootImg3b._update` computes the next free address only inside the image loop and resets it per container, then places the SCD there | one image in container 0: the SCD source becomes 0, and `export` and `parse` skip an SCD at 0 | place the SCD after the last image of both containers, where `export` writes it | medium (not executed) | ImgBootImg3b.ScdDroppedAsWritten | ImgBootImg3b.Update3bKeepsScd (used by ImgBootImg3b.BootImg3b.PlaceTrailer and ImgBootImg3b.BootImg3b.Export) |
| imx/img/images.py:337-340 | without a CSF, `BootImg2.parse` takes the APP size as `bdt.length - (bdt.start - app_address)` | the 4140-byte export of the tests' 100-byte image followed by `T` more bytes, `T` ≤ 2136: the size as written is 6232, clamped to the buffer, so the parse reads 4096+`T` APP bytes where the APP occupies 4096 | `bdt.start + bdt.length - app_address`, the distance from the APP to the image end | high (not executed) | ImgImages.HundredByteAppReadsTrailer (of ImgImages.ReadV2, used by ImgImages.BootImg2.Parse) | ImgImages.AppSizeOfLayout |
| imx/img/secret.py:99-101 | `Certificate.parse` and `Signature.parse` discard the header that `Header.parse` returns, then slice the payload with the stored length of 4 | a certificate exported with a one-byte payload parses back with an empty payload | keep the parsed header and slice the payload with its length | high (not executed) | ImgSecret.CertificateLosesPayload | ImgSecret.RecordRoundTrip |
| src/imx/im/commands.py:774-805 | the legacy `CmdAuthData` constructor leaves the header length at 4, although `export` always writes 8 bytes of fixed fields | one appended block: the export declares 12 bytes, so `parse` reads the fixed fields and no block | start the length at 12, as the newer codec does | high (not executed) | LegacyCommands.NewAuthDataLosesBlock | LegacyCommands.NewAuthDataCorrectedRoundTrip |
| src/imx/im/segments.py:364-376 | the legacy DCD/CSF parse loop advances by each parsed command's size, with no check that the size is positive | a No Operation header declaring length 0 inside a segment: the offset never moves and the loop never ends | report the segment as corrupted | medium (not executed) | LegacySegments.EmptyNopStalls | LegacySegments.EmptyNopCorrupted (used by LegacySegments.ReadCommands, LegacySegments.CmdSegment.ReadInto and LegacySegments.CmdSegment.Parse) |
