/** The reader itself (`CartridgeReader`): construction, loading a file's
    bytes into the buffer, and `get_info`, which runs the decoders in a
    fixed order and prints one line per header field. Printing is modelled
    as the sequence of lines produced; a panic stops the sequence where it
    happens. */
module Reader {
  import opened Bytes
  import opened BootLogo
  import opened HeaderFields
  import opened Utf8

  /** The reader's state: the reference signature and the buffer. */
  datatype CartridgeReader = CartridgeReader(graphicsCode: Signature, cartridge: Buffer)

  /** `CartridgeReader::new`: the reference signature and a zeroed buffer. */
  function New(): (r: CartridgeReader)
    ensures r.graphicsCode == NintendoLogo
    ensures forall i :: 0 <= i < BufferSize ==> r.cartridge[i] == 0
  {
    CartridgeReader(NintendoLogo, Zeros(BufferSize))
  }

  /** The buffer after `load_memory` has read `data` into it: the first
      bytes of the file, up to the buffer's capacity, overwrite the buffer
      from offset 0; every later offset keeps its previous byte. */
  function LoadMemory(reader: CartridgeReader, data: seq<byte>): (r: CartridgeReader)
    ensures r.graphicsCode == reader.graphicsCode
    ensures forall i :: 0 <= i < |data| && i < BufferSize ==> r.cartridge[i] == data[i]
    ensures forall i :: |data| <= i < BufferSize ==> r.cartridge[i] == reader.cartridge[i]
  {
    var k := if |data| < BufferSize then |data| else BufferSize;
    reader.(cartridge := data[..k] + reader.cartridge[k..])
  }

  /** One printed line of the report, holding the value it shows. */
  datatype Line =
    | LogoLine(successes: nat)
    | NameLine(title: seq<byte>)
    | PlatformLine(platform: Platform)
    | SuperGameboyLine(enabled: bool)
    | CartridgeTypeLine(text: string)
    | RomSizeLine(text: string)
    | RamSizeLine(text: string)
    | DestinationLine(text: string)
    | LicenseeLine(text: string)
    | ComplementLine(value: byte)
    | ChecksumLine(bytes: seq<byte>)

  /** The eleven lines `get_info` prints when nothing panics, in its order. */
  function Report(reader: CartridgeReader): seq<Line>
  {
    var cart := reader.cartridge;
    [ LogoLine(LogoSuccesses(reader.graphicsCode, cart)),
      NameLine(Title(cart)),
      PlatformLine(DeterminePlatform(cart)),
      SuperGameboyLine(SuperGameboyEnabled(cart)),
      CartridgeTypeLine(CartridgeType(cart[CartridgeTypeOffset])),
      RomSizeLine(RomSize(cart[RomSizeOffset])),
      RamSizeLine(RamSize(cart[RamSizeOffset])),
      DestinationLine(Destination(cart[DestinationOffset])),
      LicenseeLine(LicenseeLabel(cart)),
      ComplementLine(ComplementCheck(cart)),
      ChecksumLine(Checksum(cart)) ]
  }

  /** Why a run stops early: the two `expect`s of `load_memory`, and the
      two `unwrap`s of text decoding. */
  datatype Panic = FileProblem | ReadIssue | TitleNotText | LicenseeNotText

  datatype Outcome = Completed | Panicked(reason: Panic)

  /** The lines printed by a run, and how the run ended. */
  datatype Run = Run(lines: seq<Line>, outcome: Outcome)

  /** The decoding part of `get_info`. Whether the title is valid text is
      decided by the text decoder, which is a parameter here; the two-byte
      new licensee code is decoded as UTF-8. */
  function Describe(reader: CartridgeReader, isText: seq<byte> -> bool): (r: Run)
    ensures r.lines <= Report(reader)
    ensures r.outcome == Completed
            <==> isText(Title(reader.cartridge))
                 && (reader.cartridge[OldLicenseeOffset] == 0x33
                     ==> IsPair(reader.cartridge[NewLicenseeStart..NewLicenseeEnd]))
    ensures r.outcome == Completed ==> r.lines == Report(reader)
    ensures r.outcome == Panicked(TitleNotText) <==> !isText(Title(reader.cartridge))
    ensures r.outcome == Panicked(TitleNotText) ==> |r.lines| == 1
    ensures r.outcome == Panicked(LicenseeNotText)
            <==> isText(Title(reader.cartridge))
                 && reader.cartridge[OldLicenseeOffset] == 0x33
                 && !IsPair(reader.cartridge[NewLicenseeStart..NewLicenseeEnd])
    ensures r.outcome == Panicked(LicenseeNotText) ==> |r.lines| == 8
  {
    var cart := reader.cartridge;
    var lines := Report(reader);
    if !isText(Title(cart)) then
      Run(lines[..1], Panicked(TitleNotText))
    else if cart[OldLicenseeOffset] == 0x33 && !IsPair(cart[NewLicenseeStart..NewLicenseeEnd]) then
      Run(lines[..8], Panicked(LicenseeNotText))
    else
      Run(lines, Completed)
  }

  /** What opening and reading the file yields. */
  datatype FileState = Unopenable | Unreadable | Contents(data: seq<byte>)

  /** `get_info` on a freshly constructed reader: a file that cannot be
      opened or read ends the run before any line is printed; otherwise
      its bytes are loaded and decoded. */
  function GetInfo(file: FileState, isText: seq<byte> -> bool): (r: Run)
    ensures file == Unopenable ==> r == Run([], Panicked(FileProblem))
    ensures file == Unreadable ==> r == Run([], Panicked(ReadIssue))
    ensures file.Contents? ==> r == Describe(LoadMemory(New(), file.data), isText)
    ensures file.Contents? <==> |r.lines| >= 1
  {
    match file
    case Unopenable => Run([], Panicked(FileProblem))
    case Unreadable => Run([], Panicked(ReadIssue))
    case Contents(data) => Describe(LoadMemory(New(), data), isText)
  }

  /** Equal slices `lo..hi` of `a` and `b` give equal sub-slices. */
  lemma SubSliceEqual(a: Buffer, b: Buffer, lo: nat, hi: nat, lo': nat, hi': nat)
    requires lo <= lo' <= hi' <= hi <= BufferSize
    requires a[lo..hi] == b[lo..hi]
    ensures a[lo'..hi'] == b[lo'..hi']
  {
    forall i | 0 <= i < hi' - lo'
      ensures a[lo'..hi'][i] == b[lo'..hi'][i]
    {
      assert a[lo'..hi'][i] == a[lo..hi][lo' - lo + i];
      assert b[lo'..hi'][i] == b[lo..hi][lo' - lo + i];
    }
  }

  /** Buffers that agree on the header region 0x0104..0x014F agree on
      every byte and slice a decoder reads. */
  lemma HeaderBytesAgree(x: Buffer, y: Buffer)
    requires x[LogoStart..ChecksumEnd] == y[LogoStart..ChecksumEnd]
    ensures x[LogoStart..LogoEnd] == y[LogoStart..LogoEnd]
    ensures x[TitleStart..TitleEnd] == y[TitleStart..TitleEnd]
    ensures x[NewLicenseeStart..NewLicenseeEnd] == y[NewLicenseeStart..NewLicenseeEnd]
    ensures x[ChecksumStart..ChecksumEnd] == y[ChecksumStart..ChecksumEnd]
    ensures forall k :: ColorFlagOffset <= k <= ComplementOffset ==> x[k] == y[k]
  {
    SubSliceEqual(x, y, LogoStart, ChecksumEnd, LogoStart, LogoEnd);
    SubSliceEqual(x, y, LogoStart, ChecksumEnd, TitleStart, TitleEnd);
    SubSliceEqual(x, y, LogoStart, ChecksumEnd, NewLicenseeStart, NewLicenseeEnd);
    SubSliceEqual(x, y, LogoStart, ChecksumEnd, ChecksumStart, ChecksumEnd);
    forall k | ColorFlagOffset <= k <= ComplementOffset
      ensures x[k] == y[k]
    {
      assert x[k] == x[LogoStart..ChecksumEnd][k - LogoStart];
      assert y[k] == y[LogoStart..ChecksumEnd][k - LogoStart];
    }
  }

  /** The report reads nothing outside the header region 0x0104..0x014F:
      two readers with the same signature whose buffers agree there print
      the same lines and end the same way. */
  lemma DescribeReadsOnlyHeader(a: CartridgeReader, b: CartridgeReader, isText: seq<byte> -> bool)
    requires a.graphicsCode == b.graphicsCode
    requires a.cartridge[LogoStart..ChecksumEnd] == b.cartridge[LogoStart..ChecksumEnd]
    ensures Describe(a, isText) == Describe(b, isText)
  {
    var x, y := a.cartridge, b.cartridge;
    HeaderBytesAgree(x, y);
    MatchCountLocal(a.graphicsCode, x, y, LogoEnd);
    assert Title(x) == Title(y);
    assert LicenseeLabel(x) == LicenseeLabel(y);
    assert Checksum(x) == Checksum(y);
    assert Report(a) == Report(b);
  }

  /** Reading a file shorter than the buffer into a new reader leaves the
      rest of the buffer zero. */
  lemma ShortFileZeroFilled(data: seq<byte>)
    requires |data| < BufferSize
    ensures forall i :: |data| <= i < BufferSize ==> LoadMemory(New(), data).cartridge[i] == 0
  {
  }

  /** What the decoders report for a buffer whose header region is all
      zero: the code-0 labels, a title of fifteen zero bytes, and a logo
      score of at least six (the zero bytes of the signature match). */
  lemma ZeroHeaderFields(cart: Buffer)
    requires forall i :: LogoStart <= i < ChecksumEnd ==> cart[i] == 0
    ensures LogoSuccesses(NintendoLogo, cart) >= 6
    ensures Title(cart) == Zeros(15)
    ensures DeterminePlatform(cart) == Gameboy && !SuperGameboyEnabled(cart)
    ensures CartridgeType(cart[CartridgeTypeOffset]) == "ROM ONLY."
    ensures RomSize(cart[RomSizeOffset]) == "32KB (2 banks)"
    ensures RamSize(cart[RamSizeOffset]) == "0KB (no RAM)"
    ensures Destination(cart[DestinationOffset]) == "Japanese"
    ensures LicenseeCode(cart) == LicenseeNotRecognized
    ensures LicenseeLabel(cart) == LicenseeNotRecognizedLabel
    ensures ComplementCheck(cart) == 0 && Checksum(cart) == [0, 0]
  {
    ZeroBufferScoresAtLeastSix(cart);
    assert Title(cart) == Zeros(15);
    assert Checksum(cart) == [0, 0];
  }

  /** An empty file runs to completion (given that fifteen zero bytes are
      valid text) and prints the full report of an all-zero header. */
  lemma EmptyFileReport(isText: seq<byte> -> bool)
    requires isText(Zeros(15))
    ensures GetInfo(Contents([]), isText) == Run(Report(New()), Completed)
  {
    assert LoadMemory(New(), []) == New();
    ZeroHeaderFields(New().cartridge);
  }
}
