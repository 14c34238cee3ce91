/** The header decoders of `CartridgeReader`: each reads one fixed offset
    (or a fixed slice) of the 0x0134..0x014F header area and yields a label
    or a byte slice. Every byte-to-label table is an explicit map with a
    "not recognized" fallback label, so every decoder is total over all 256
    byte values. */
module HeaderFields {
  import opened Bytes
  import opened Decimal
  import opened Utf8

  // Offsets read by the decoders.
  const TitleStart: nat := 0x0134
  const TitleEnd: nat := 0x0143
  const ColorFlagOffset: nat := 0x0143
  const NewLicenseeStart: nat := 0x0144
  const NewLicenseeEnd: nat := 0x0146
  const SuperFlagOffset: nat := 0x0146
  const CartridgeTypeOffset: nat := 0x0147
  const RomSizeOffset: nat := 0x0148
  const RamSizeOffset: nat := 0x0149
  const DestinationOffset: nat := 0x014A
  const OldLicenseeOffset: nat := 0x014B
  const ComplementOffset: nat := 0x014D
  const ChecksumStart: nat := 0x014E
  const ChecksumEnd: nat := 0x0150

  /** The title bytes (`get_cartridge_name`): the 15 bytes 0x0134..0x0142.
      The header's title field is 16 bytes long; the reader stops one short,
      at the colour flag. */
  function Title(cart: Buffer): (t: seq<byte>)
    ensures |t| == 15
    ensures forall i :: 0 <= i < 15 ==> t[i] == cart[TitleStart + i]
  {
    cart[TitleStart..TitleEnd]
  }

  /** Which console the colour flag announces (`determine_gbc`). */
  datatype Platform = Gameboy | GameboyColor

  /** Only 0x80 announces a Game Boy Color cartridge. */
  function DeterminePlatform(cart: Buffer): (p: Platform)
    ensures p == GameboyColor <==> cart[ColorFlagOffset] == 0x80
  {
    if cart[ColorFlagOffset] == 0x80 then GameboyColor else Gameboy
  }

  /** Whether the Super Game Boy flag is set (`determine_sgb`): only 0x03
      enables it. */
  function SuperGameboyEnabled(cart: Buffer): (enabled: bool)
    ensures enabled <==> cart[SuperFlagOffset] == 0x03
  {
    cart[SuperFlagOffset] == 0x03
  }

  /** The cartridge-type table (`get_cartridge_type`), labels verbatim. */
  const CartridgeTypes: map<byte, string> := map[
    0x00 := "ROM ONLY.",
    0x01 := "ROM + MBC1.",
    0x02 := "ROM + MBC1 + RAM.",
    0x03 := "ROM + MBC1 + RAM + BATT.",
    0x05 := "ROM + MBC2.",
    0x06 := "ROM + MBC2  BATT.",
    0x08 := "ROM + RAM.",
    0x09 := "ROM + RAM + BATT.",
    0x0B := "ROM + MMM01.",
    0x0C := "ROM + MMM01 + SRAM.",
    0x0D := "ROM + + MMM01 + SRAM + BATT.",
    0x0F := "ROM + MBC3 + TIMER + BATT.",
    0x10 := "ROM + MBC3 + TIMER + RAM + BATT.",
    0x11 := "ROM + MBC3.",
    0x12 := "ROM + MBC3 + RAM.",
    0x13 := "ROM + MBC3 + RAM + BATT.",
    0x19 := "ROM + MBC5.",
    0x1A := "ROM + MBC5 + RAM.",
    0x1B := "ROM + MBC5 + RAM + BATT.",
    0x1C := "ROM + MBC5 + RUMBLE.",
    0x1D := "ROM + MBC5 + RUMBLE + SRAM.",
    0x1E := "ROM + MBC5 + RUMBLE + SRAM + BATT.",
    0x1F := "Pocket Camera.",
    0xFD := "Bandai TAMA5",
    0xFE := "Hudson HuC - 3",
    0xFF := "Hudson HuC - 1"
  ]

  const CartridgeTypeNotRecognized: string := "ERROR, Cartridge type not recognized"

  /** The label of a cartridge-type code: the table's label for a listed
      code, the fallback label for every other code. */
  function CartridgeType(code: byte): (text: string)
    ensures code in CartridgeTypes <==> text != CartridgeTypeNotRecognized
    ensures code in CartridgeTypes ==> text == CartridgeTypes[code]
  {
    if code in CartridgeTypes then CartridgeTypes[code] else CartridgeTypeNotRecognized
  }

  /** The ROM-size table (`get_rom_size`), labels verbatim. */
  const RomSizes: map<byte, string> := map[
    0x00 := "32KB (2 banks)",
    0x01 := "64KB (4 banks)",
    0x02 := "128KB (8 banks)",
    0x03 := "256KB (16 banks)",
    0x04 := "512KB (32 banks)",
    0x05 := "1MB (64 banks)",
    0x06 := "2MB (128 banks)",
    0x52 := "1.1MB (72 banks)",
    0x53 := "1.2MB (80 banks)",
    0x54 := "1.5MB (96 banks)"
  ]

  const RomSizeNotRecognized: string := "ERROR, ROM size not recognized"

  function RomSize(code: byte): (text: string)
    ensures code in RomSizes <==> text != RomSizeNotRecognized
    ensures code in RomSizes ==> text == RomSizes[code]
  {
    if code in RomSizes then RomSizes[code] else RomSizeNotRecognized
  }

  /** The RAM-size table (`get_ram_size`), labels verbatim. */
  const RamSizes: map<byte, string> := map[
    0x00 := "0KB (no RAM)",
    0x01 := "2KB (1 bank)",
    0x02 := "8KB (1 bank)",
    0x03 := "32KB (4 banks)",
    0x04 := "128KB (16 banks)"
  ]

  const RamSizeNotRecognized: string := "ERROR, RAM size not recognized"

  function RamSize(code: byte): (text: string)
    ensures code in RamSizes <==> text != RamSizeNotRecognized
    ensures code in RamSizes ==> text == RamSizes[code]
  {
    if code in RamSizes then RamSizes[code] else RamSizeNotRecognized
  }

  /** The destination table (`get_destination_code`), labels verbatim. */
  const Destinations: map<byte, string> := map[
    0x00 := "Japanese",
    0x01 := "Non-Japanese"
  ]

  const DestinationNotRecognized: string := "ERROR, destination code  not recognized"

  function Destination(code: byte): (text: string)
    ensures code in Destinations <==> text != DestinationNotRecognized
    ensures code in Destinations ==> text == Destinations[code]
  {
    if code in Destinations then Destinations[code] else DestinationNotRecognized
  }

  /** What `get_licensee_code` reports: the two-byte new licensee code
      (shown as text), a fixed publisher name, or the fallback label. */
  datatype Licensee =
    | NewLicensee(code: seq<byte>)
    | Named(name: string)
    | LicenseeNotRecognized

  const LicenseeNotRecognizedLabel: string := "ERROR, licensee code not recognized"

  /** The licensee: 0x33 at 0x014B defers to the new code at 0x0144..0x0145,
      0x79 and 0xA4 name Accolade and Konami, everything else is not
      recognized. */
  function LicenseeCode(cart: Buffer): (l: Licensee)
    ensures l.NewLicensee? <==> cart[OldLicenseeOffset] == 0x33
    ensures l.NewLicensee? ==> |l.code| == 2
                               && l.code[0] == cart[NewLicenseeStart]
                               && l.code[1] == cart[NewLicenseeStart + 1]
    ensures l == Named("Accolade") <==> cart[OldLicenseeOffset] == 0x79
    ensures l == Named("Konami") <==> cart[OldLicenseeOffset] == 0xA4
    ensures l.LicenseeNotRecognized? <==> cart[OldLicenseeOffset] !in {0x33, 0x79, 0xA4}
  {
    match cart[OldLicenseeOffset]
    case 0x33 => NewLicensee(cart[NewLicenseeStart..NewLicenseeEnd])
    case 0x79 => Named("Accolade")
    case 0xA4 => Named("Konami")
    case _ => LicenseeNotRecognized
  }

  /** The licensee label `get_licensee_code` prints. For 0x33 it is the
      new code decoded as UTF-8; when those two bytes are not valid UTF-8
      the program panics before printing, and the label here is empty. */
  function LicenseeLabel(cart: Buffer): (text: string)
    ensures cart[OldLicenseeOffset] == 0x33 ==> |text| <= 2
    ensures cart[OldLicenseeOffset] == 0x33 && IsPair(cart[NewLicenseeStart..NewLicenseeEnd])
            ==> Encode(text) == cart[NewLicenseeStart..NewLicenseeEnd]
    ensures text == "Accolade" <==> cart[OldLicenseeOffset] == 0x79
    ensures text == "Konami" <==> cart[OldLicenseeOffset] == 0xA4
    ensures text == LicenseeNotRecognizedLabel <==> cart[OldLicenseeOffset] !in {0x33, 0x79, 0xA4}
  {
    match LicenseeCode(cart)
    case NewLicensee(code) =>
      (match DecodePair(code) case Some(s) => s case None => "")
    case Named(name) => name
    case LicenseeNotRecognized => LicenseeNotRecognizedLabel
  }

  /** The header-checksum byte (`get_complement_check`), reported as is. */
  function ComplementCheck(cart: Buffer): (b: byte)
    ensures b == cart[ComplementOffset]
  {
    cart[ComplementOffset]
  }

  /** The two global-checksum bytes (`get_checksum`), reported as is. */
  function Checksum(cart: Buffer): (s: seq<byte>)
    ensures |s| == 2
    ensures s[0] == cart[ChecksumStart] && s[1] == cart[ChecksumStart + 1]
  {
    cart[ChecksumStart..ChecksumEnd]
  }

  /** 2 to the power `n`. */
  function Pow2(n: nat): (p: nat)
    ensures 1 <= p
  {
    if n == 0 then 1 else 2 * Pow2(n - 1)
  }

  /** A ROM-size label in the table's format: the size in kilobytes below
      1024 KB and in whole megabytes from there on, then the bank count. */
  function RomSizeText(kb: nat, banks: nat): string
  {
    (if kb < 1024 then NatToString(kb) + "KB (" else NatToString(kb / 1024) + "MB (")
    + NatToString(banks) + " banks)"
  }

  /** The cartridge-type codes with a label of their own; every other
      code reports the fallback label. */
  lemma CartridgeTypeCodes()
    ensures CartridgeTypes.Keys == {
      0x00, 0x01, 0x02, 0x03, 0x05, 0x06, 0x08, 0x09, 0x0B, 0x0C, 0x0D, 0x0F, 0x10,
      0x11, 0x12, 0x13, 0x19, 0x1A, 0x1B, 0x1C, 0x1D, 0x1E, 0x1F, 0xFD, 0xFE, 0xFF}
  {
  }

  // One lemma per regular ROM-size row: rendering a label is costly for
  // the solver, so each row is checked on its own.
  lemma RomSizeRow0()
    ensures RomSize(0) == RomSizeText(32, 2)
  {
  }

  lemma RomSizeRow1()
    ensures RomSize(1) == RomSizeText(64, 4)
  {
  }

  lemma RomSizeRow2()
    ensures RomSize(2) == RomSizeText(128, 8)
  {
  }

  lemma RomSizeRow3()
    ensures RomSize(3) == RomSizeText(256, 16)
  {
  }

  lemma RomSizeRow4()
    ensures RomSize(4) == RomSizeText(512, 32)
  {
  }

  lemma RomSizeRow5()
    ensures RomSize(5) == RomSizeText(1024, 64)
  {
  }

  lemma RomSizeRow6()
    ensures RomSize(6) == RomSizeText(2048, 128)
  {
  }

  /** Codes 0..6 follow one pattern: (32 << c) KB, written in MB from 1 MB
      on, made of 2^(c+1) banks of 16 KB each. */
  lemma RomSizePowerOfTwo(c: byte)
    requires c <= 6
    ensures RomSize(c) == RomSizeText(32 * Pow2(c), Pow2(c + 1))
    ensures 32 * Pow2(c) == 16 * Pow2(c + 1)
  {
    match c
    case 0 =>
      assert Pow2(c) == Pow2(0) == 1 && Pow2(c + 1) == Pow2(1) == 2;
      RomSizeRow0();
    case 1 =>
      assert Pow2(c) == Pow2(1) == 2 && Pow2(c + 1) == Pow2(2) == 4;
      RomSizeRow1();
    case 2 =>
      assert Pow2(c) == Pow2(2) == 4 && Pow2(c + 1) == Pow2(3) == 8;
      RomSizeRow2();
    case 3 =>
      assert Pow2(c) == Pow2(3) == 8 && Pow2(c + 1) == Pow2(4) == 16;
      RomSizeRow3();
    case 4 =>
      assert Pow2(c) == Pow2(4) == 16 && Pow2(c + 1) == Pow2(5) == 32;
      RomSizeRow4();
    case 5 =>
      assert Pow2(c) == Pow2(5) == 32 && Pow2(c + 1) == Pow2(6) == 64;
      RomSizeRow5();
    case 6 =>
      assert Pow2(c) == Pow2(6) == 64 && Pow2(c + 1) == Pow2(7) == 128;
      RomSizeRow6();
  }

  /** The RAM-size codes 0..4 are listed; 0x05 and above are not. */
  lemma RamSizeCodes(code: byte)
    ensures code in RamSizes <==> code <= 4
  {
  }

  /** Only 0 (Japanese) and 1 (non-Japanese) are destination codes. */
  lemma DestinationCodes(code: byte)
    ensures code in Destinations <==> code <= 1
  {
  }

  /** A colour-only cartridge (flag 0xC0) is reported as plain Game Boy:
      the reader tests for 0x80 alone. */
  lemma ColorOnlyReportsGameboy(cart: Buffer)
    requires cart[ColorFlagOffset] == 0xC0
    ensures DeterminePlatform(cart) == Gameboy
  {
  }

  /** A worked header: an MBC3 cartridge with battery-backed RAM, 128 KB of
      ROM, 32 KB of RAM, sold in Japan by Konami. */
  lemma HeaderFieldExamples(cart: Buffer)
    requires cart[CartridgeTypeOffset] == 0x13 && cart[RomSizeOffset] == 0x02
    requires cart[RamSizeOffset] == 0x03 && cart[DestinationOffset] == 0x00
    requires cart[OldLicenseeOffset] == 0xA4
    ensures CartridgeType(cart[CartridgeTypeOffset]) == "ROM + MBC3 + RAM + BATT."
    ensures RomSize(cart[RomSizeOffset]) == "128KB (8 banks)"
    ensures RamSize(cart[RamSizeOffset]) == "32KB (4 banks)"
    ensures Destination(cart[DestinationOffset]) == "Japanese"
    ensures LicenseeCode(cart) == Named("Konami")
  {
  }
}
