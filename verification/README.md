# Game Boy cartridge header reader, modelled in Dafny

The program reads the first 64 KiB of a Game Boy ROM image into a
`CartridgeReader` and prints what the fixed cartridge header says. The
header is the area from 0x0104 to 0x014F. The program runs one fixed
sequence of steps:

1. the boot-logo check, which counts how many of the 48 bytes at
   0x0104..0x0133 equal the reference signature;
2. the title, the 15 bytes 0x0134..0x0142;
3. the Game Boy Color flag (0x0143) and the Super Game Boy flag (0x0146);
4. the cartridge type, ROM size, RAM size and destination codes
   (0x0147..0x014A), each looked up in a table with a "not recognized"
   fallback;
5. the licensee (0x014B, or the two-byte new code at 0x0144..0x0145);
6. the header-checksum byte (0x014D) and the two global-checksum bytes
   (0x014E..0x014F).

The model is split into these modules:

- `Bytes`: the `u8` type, the 65536-byte `Buffer` and the 48-byte `Signature`.
- `BootLogo`: the reference signature and the counting loop. The loop has a
  `u8` counter, and the model proves that the counter never overflows. The
  module also gives a recursive count and a set-cardinality meaning for the
  count, with lemmas linking them.
- `HeaderFields`: one pure function per decoder. Each byte-to-label table is
  an explicit `map` with its labels copied verbatim, including the source's
  own typos (`"ROM + MBC2  BATT."`, `"ROM + + MMM01 + SRAM + BATT."`).
- `Utf8`: the UTF-8 encoding of characters (section 3 of RFC 3629) and the
  decoding of the two-byte new licensee code.
- `Decimal`: decimal rendering. It is used only to state the pattern behind
  the ROM-size labels.
- `Reader`: `CartridgeReader::new` and `load_memory`, the ordered report of
  `get_info`, and the ways a run can panic.

Printing is modelled as the sequence of `Line`s a run produces. A run that
panics keeps the lines printed before the panic. The decoders are pure
functions of an immutable buffer. Reading never changes the buffer, so
running the report twice on the same reader gives the same lines.

An all-zero logo region does not score "0 out of 48". The reference
signature holds 0x00 at the positions for offsets 0x010A, 0x010E, 0x0110,
0x0112, 0x0114 and 0x011A, so such a buffer scores at least 6
(`BootLogo.ZeroBufferScoresAtLeastSix`).

## Model

| member | source | states |
|---|---|---|
| `BootLogo.MatchCount` | src/main.rs:26-31 | counting matches one offset at a time over `0x0104..hi` never gives more than the number of offsets inspected |
| `BootLogo.LogoSuccesses` | src/main.rs:25-35 | the reported number of successes is at most 48 |
| `BootLogo.CheckNintendoCode` | src/main.rs:25-31 | the loop with its `u8` counter computes exactly the match count; every increment stays below 256, so the counter never overflows |
| `BootLogo.MatchCountIsCardinality` | src/main.rs:27-30 | the running count equals the number of offsets in `0x0104..hi` whose byte equals the signature byte |
| `BootLogo.LogoSuccessesCountsMatches` | src/main.rs:27-28 | the reported count is the number of offsets `n` in 0x0104..0x0133 with `cartridge[n] == signature[n - 0x0104]` |
| `BootLogo.MatchCountExtremes` | src/main.rs:27-30 | the count is maximal exactly when every inspected offset matches, and zero exactly when none does |
| `BootLogo.FullScoreIffSignature` | src/main.rs:25-31 | "48 out of 48" is reported if and only if bytes 0x0104..0x0133 equal the signature |
| `BootLogo.ZeroScoreIffNoMatch` | src/main.rs:25-31 | "0 out of 48" is reported if and only if no offset of the logo region holds its signature byte |
| `BootLogo.MatchCountLocal` | src/main.rs:27-28 | the count depends only on bytes 0x0104..0x0133: buffers agreeing there get the same count |
| `BootLogo.ZeroSignatureBytesMatch` | src/main.rs:13-18 | the signature holds 0x00 at offsets 0x010A, 0x010E, 0x0110, 0x0112, 0x0114 and 0x011A, so these match in an all-zero logo region |
| `BootLogo.ZeroBufferScoresAtLeastSix` | src/main.rs:13-31 | an all-zero logo region scores at least 6 against the reference signature, never 0 |
| `HeaderFields.Title` | src/main.rs:37-40 | the title is the 15 bytes 0x0134..0x0142, one short of the 16-byte title field |
| `HeaderFields.DeterminePlatform` | src/main.rs:41-47 | "Gameboy Color" is reported if and only if byte 0x0143 is 0x80 |
| `HeaderFields.ColorOnlyReportsGameboy` | src/main.rs:42-46 | the colour-only flag 0xC0 is reported as plain Game Boy |
| `HeaderFields.SuperGameboyEnabled` | src/main.rs:48-54 | Super Game Boy support is reported if and only if byte 0x0146 is 0x03 |
| `HeaderFields.CartridgeType` | src/main.rs:55-87 | every code gets a label; the fallback label appears exactly for codes outside the table, and a listed code gets its own label |
| `HeaderFields.CartridgeTypeCodes` | src/main.rs:57-85 | the codes with their own cartridge-type label are exactly the 26 listed ones |
| `HeaderFields.RomSize` | src/main.rs:88-104 | every code gets a label; the fallback appears exactly for codes outside the ROM-size table |
| `HeaderFields.RomSizePowerOfTwo` | src/main.rs:91-97 | for codes c = 0..6 the label is (32 << c) KB, written in MB from 1 MB on, with 2^(c+1) banks of 16 KB each |
| `HeaderFields.RamSize` | src/main.rs:105-116 | every code gets a label; the fallback appears exactly for codes outside the RAM-size table |
| `HeaderFields.RamSizeCodes` | src/main.rs:107-113 | the RAM-size codes with their own label are exactly 0..4 |
| `HeaderFields.Destination` | src/main.rs:117-125 | every code gets a label; the fallback appears exactly for codes outside the destination table |
| `HeaderFields.DestinationCodes` | src/main.rs:119-122 | only 0 (Japanese) and 1 (Non-Japanese) are destination codes |
| `HeaderFields.LicenseeCode` | src/main.rs:126-135 | the new code is read (exactly the two bytes 0x0144 and 0x0145) if and only if byte 0x014B is 0x33; 0x79 gives Accolade and 0xA4 gives Konami, in both directions; every other value is not recognized |
| `HeaderFields.LicenseeLabel` | src/main.rs:126-135 | the printed label is "Accolade" exactly for byte 0x014B = 0x79, "Konami" exactly for 0xA4, and the fallback label exactly for values other than 0x33, 0x79 and 0xA4; for 0x33 it is at most two characters whose UTF-8 encoding is bytes 0x0144..0x0145 |
| `Utf8.DecodePair` | src/main.rs:129 | decoding the two-byte new licensee code succeeds exactly for well-formed UTF-8 (two ASCII bytes, or lead 0xC2..0xDF with a continuation byte), and the text re-encodes to the same two bytes |
| `Utf8.DecodePairComplete` | src/main.rs:129 | every text whose UTF-8 encoding is two bytes long is decoded back to itself |
| `HeaderFields.HeaderFieldExamples` | src/main.rs:55-135 | codes 0x13, 0x02, 0x03, 0x00 and 0xA4 give "ROM + MBC3 + RAM + BATT.", "128KB (8 banks)", "32KB (4 banks)", "Japanese" and Konami |
| `HeaderFields.ComplementCheck` | src/main.rs:136-138 | the header-checksum byte shown is byte 0x014D, unvalidated |
| `HeaderFields.Checksum` | src/main.rs:139-141 | the global checksum shown is the two bytes 0x014E and 0x014F, unvalidated |
| `Reader.New` | src/main.rs:12-24 | a new reader holds the reference signature and an all-zero buffer |
| `Reader.LoadMemory` | src/main.rs:142-145 | loading overwrites the buffer from offset 0 with the file's bytes, up to the buffer's capacity, and leaves every later byte as it was |
| `Reader.ShortFileZeroFilled` | src/main.rs:142-145 | after loading a file shorter than 64 KiB into a new reader, the rest of the buffer is zero |
| `Reader.Describe` | src/main.rs:146-159 | the printed lines are a prefix of the eleven-line report in `get_info`'s order; the run completes if and only if the title is valid text and, when 0x014B is 0x33, the new licensee code is valid UTF-8; it panics on the title exactly when the title is not text, after the logo line; it panics on the licensee exactly when the title is text, 0x014B is 0x33 and the new code is not valid UTF-8, after eight lines |
| `Reader.GetInfo` | src/main.rs:142-159 | a file that cannot be opened or read ends the run with no line printed; a readable file always yields at least the logo line |
| `Reader.DescribeReadsOnlyHeader` | src/main.rs:146-159 | the whole report depends only on the signature and on bytes 0x0104..0x014F of the buffer |
| `Reader.ZeroHeaderFields` | src/main.rs:25-140 | an all-zero header decodes to a logo score of at least 6, a zero title, Game Boy, no Super Game Boy, "ROM ONLY.", "32KB (2 banks)", "0KB (no RAM)", "Japanese", the unrecognized-licensee label and zero checksums |
| `Reader.EmptyFileReport` | src/main.rs:142-159 | an empty file (with zero bytes accepted as text) runs to completion and prints the full report of an all-zero header |

## Left out

- Opening and reading the file (`File::open`, `File::read`) is not modelled. The file is
  given as a `FileState`: it cannot be opened, it cannot be read, or it
  delivers a sequence of bytes. A short read that returns fewer bytes than
  the file holds is not modelled separately.
- Argument handling in `main` (a missing path argument panics on `args[1]`)
  is I/O plumbing and is not modelled.
- UTF-8 validation of the 15-byte title (`from_utf8`) is a library call. It
  is the `isText` parameter of `Describe` and `GetInfo`, and it decides only
  whether the run panics at that step; the title line carries the bytes.
  The two-byte new licensee code is decoded by `Utf8.DecodePair`.
- HeaderFields.LicenseeLabel: for 0x33 with a new code that is not valid
  UTF-8 the label is empty. The program panics there before printing, and
  `Reader.Describe` stops the run before that line.
- The console text (`println!`), the fixed phrase before each label
  ("The cartridge type is ", ...) and the hexadecimal rendering of the
  checksum bytes are output formatting and are not modelled. Each `Line`
  carries the value it prints.
- BootLogo.ZeroBufferScoresAtLeastSix: states a lower bound of 6, not the exact count, for an
  all-zero region. Evaluating all 48 signature positions one by one is too
  costly for the solver.
- HeaderFields.RomSizePowerOfTwo: covers codes 0..6 only. The three odd codes 0x52, 0x53 and
  0x54 (72, 80 and 96 banks) follow no formula, so the table states them.
