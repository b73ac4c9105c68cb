/** The whole envelope: what the encoder assembles, and that the decoder accepts exactly that. */
module EnvelopeCodec {
  import opened Bytes
  import opened Envelope

  function Core(plaintextSize: nat, noncePrefix: seq<byte>): seq<byte>
  {
    ToBE(4, ChunkSize) + ToBE(8, plaintextSize) + noncePrefix
  }

  /** Everything an envelope carries, the door records in wire order. */
  datatype Wire = Wire(kind: byte, plaintextSize: nat, noncePrefix: seq<byte>, records: seq<Record>,
                       extensions: seq<Extension>,
                       commitment: seq<byte>, payload: seq<byte>)
  {
    function DoorSection(): seq<byte>
      requires |records| <= 0xFF
    {
      [|records|] + PrintAll(records, RecordBytes)
    }

    function ExtensionSection(): seq<byte>
      requires |extensions| <= 0xFF
    {
      [|extensions|] + PrintAll(extensions, ExtensionBytes)
    }

    function Body(): seq<byte>
      requires |records| <= 0xFF && |extensions| <= 0xFF
    {
      Core(plaintextSize, noncePrefix) + DoorSection() + ExtensionSection()
    }

    /** The header fields are within the widths of the format. */
    predicate HeaderFits()
    {
      && plaintextSize < 0x1_0000_0000_0000_0000 && |noncePrefix| == 16 && |commitment| == CommitmentSize
      && |records| <= 0xFF && RecordsOk(records) && |extensions| <= 0xFF && ExtensionsOk(extensions)
    }

    predicate Fits()
    {
      && HeaderFits() && SupportedKind(kind)
      && |Body()| + CommitmentSize <= MaxHeaderLength
      && |payload| == SealedLength(plaintextSize)
    }

    function View(): Header
      requires HeaderFits()
    {
      Header(plaintextSize, noncePrefix, Known(records), Opaque(records), extensions, commitment, Body())
    }

    function Print(): seq<byte>
      requires HeaderFits()
    {
      Assemble(kind, Body() + commitment, payload)
    }
  }

  /** Joins the preamble, the header and the payload. */
  function Assemble(kind: byte, header: seq<byte>, payload: seq<byte>): seq<byte>
  {
    Magic + ToBE(2, FormatVersion) + [kind] + ToBE(4, |header|) + header + payload
  }

  // ---- The header ----

  lemma AtWhole(x: seq<byte>, y: seq<byte>)
    ensures At(x + y, 0, x) && At(x + y, |x|, y)
  {
    assert (x + y)[..|x|] == x && (x + y)[|x|..] == y;
  }

  /** Where each part of a printed header sits. */
  lemma HeaderLayout(w: Wire, hdr: seq<byte>)
    requires w.HeaderFits() && hdr == w.Body() + w.commitment
    ensures var doors := w.DoorSection(); var end := CoreSize + |doors|; var exts := w.ExtensionSection();
            && At(hdr, 0, Core(w.plaintextSize, w.noncePrefix)) && At(hdr, CoreSize, doors) && At(hdr, end, exts)
            && At(hdr, end + |exts|, w.commitment) && |w.Body()| == end + |exts|
            && |hdr| == end + |exts| + CommitmentSize
  {
    var core, doors, exts := Core(w.plaintextSize, w.noncePrefix), w.DoorSection(), w.ExtensionSection();
    AtWhole(core + doors + exts, w.commitment);
    AtSplit(hdr, 0, core + doors, exts);
    AtSplit(hdr, 0, core, doors);
  }

  /** A counted section splits into its count and its items. */
  lemma SectionAt(b: seq<byte>, off: nat, count: byte, items: seq<byte>)
    ensures At(b, off, [count] + items) <==> off < |b| && b[off] == count && At(b, off + 1, items)
  {
    AtSplit(b, off, [count], items);
    if off < |b| { assert b[off..off + 1] == [b[off]]; }
    assert At(b, off, [count]) ==> b[off..off + 1][0] == count;
  }

  lemma CoreFields(b: seq<byte>, size: nat, nonce: seq<byte>)
    requires |nonce| == 16 && size < 0x1_0000_0000_0000_0000 && At(b, 0, Core(size, nonce))
    ensures |b| >= CoreSize && FromBE(b[..4]) == ChunkSize && FromBE(b[4..12]) == size && b[12..28] == nonce
  {
    AtSplit(b, 0, ToBE(4, ChunkSize) + ToBE(8, size), nonce);
    AtSplit(b, 0, ToBE(4, ChunkSize), ToBE(8, size));
    Widths();
    FromToBE(4, ChunkSize);
    FromToBE(8, size);
  }

  lemma CoreOfFields(b: seq<byte>)
    requires |b| >= CoreSize && FromBE(b[..4]) == ChunkSize
    ensures FromBE(b[4..12]) < 0x1_0000_0000_0000_0000
    ensures At(b, 0, Core(FromBE(b[4..12]), b[12..28]))
  {
    Widths();
    FromBEBound(b[4..12]);
    ToFromBE(b[..4]);
    ToFromBE(b[4..12]);
    assert b[..28] == b[..4] + b[4..12] + b[12..28];
  }

  lemma DoorSectionAt(b: seq<byte>, off: nat, rs: seq<Record>)
    requires |rs| <= 0xFF && RecordsOk(rs) && At(b, off, [|rs|] + PrintAll(rs, RecordBytes))
    ensures off < |b| && Yields(ParseDoors(b, off + 1, b[off]), rs, off + 1 + |PrintAll(rs, RecordBytes)|)
  {
    SectionAt(b, off, |rs|, PrintAll(rs, RecordBytes));
    DoorsPrinted(b, off + 1, rs);
  }

  lemma ExtensionSectionAt(b: seq<byte>, off: nat, es: seq<Extension>)
    requires |es| <= 0xFF && ExtensionsOk(es) && At(b, off, [|es|] + PrintAll(es, ExtensionBytes))
    ensures off < |b|
    ensures if DistinctTypes(es) then Yields(ParseExtensions(b, off + 1, b[off]), es,
      off + 1 + |PrintAll(es, ExtensionBytes)|)
            else ParseExtensions(b, off + 1, b[off]) == Err(Malformed)
  {
    SectionAt(b, off, |es|, PrintAll(es, ExtensionBytes));
    ExtensionsPrinted(b, off + 1, es);
  }

  lemma HeaderSections(w: Wire, hdr: seq<byte>)
    requires w.HeaderFits() && hdr == w.Body() + w.commitment
    ensures var end := CoreSize + |w.DoorSection()|;
            && end < |hdr| && Yields(ParseDoors(hdr, CoreSize + 1, hdr[CoreSize]), w.records, end)
            && if DistinctTypes(w.extensions) then Yields(ParseExtensions(hdr, end + 1, hdr[end]), w.extensions,
              |w.Body()|)
               else ParseExtensions(hdr, end + 1, hdr[end]) == Err(Malformed)
  {
    HeaderLayout(w, hdr);
    DoorSectionAt(hdr, CoreSize, w.records);
    ExtensionSectionAt(hdr, CoreSize + |w.DoorSection()|, w.extensions);
  }

  /** Decoding an encoded header gives its fields back, unless an extension type repeats. */
  lemma HeaderPrinted(w: Wire)
    requires w.HeaderFits()
    ensures ParseHeader(w.Body() + w.commitment) == if DistinctTypes(w.extensions) then Ok(w.View()) else Err(Malformed)
  {
    var hdr := w.Body() + w.commitment;
    HeaderLayout(w, hdr);
    CoreFields(hdr, w.plaintextSize, w.noncePrefix);
    HeaderSections(w, hdr);
    assert hdr[..|w.Body()|] == w.Body() && hdr[|w.Body()|..] == w.commitment;
  }

  lemma BodyIsPrefix(hdr: seq<byte>, core: seq<byte>, doors: seq<byte>, exts: seq<byte>)
    requires At(hdr, 0, core) && At(hdr, |core|, doors) && At(hdr, |core| + |doors|, exts)
    ensures var end := |core| + |doors| + |exts|;
            end <= |hdr| && hdr[..end] == core + doors + exts && hdr == hdr[..end] + hdr[end..]
  {
    AtSplit(hdr, 0, core, doors);
    AtSplit(hdr, 0, core + doors, exts);
  }

  lemma DoorSectionParsed(hdr: seq<byte>, off: nat)
    requires off < |hdr| && ParseDoors(hdr, off + 1, hdr[off]).Ok?
    ensures var s := ParseDoors(hdr, off + 1, hdr[off]).value;
            && |s.items| <= 0xFF && RecordsOk(s.items) && s.end == off + 1 + |PrintAll(s.items, RecordBytes)|
            && At(hdr, off, [|s.items|] + PrintAll(s.items, RecordBytes))
  {
    var s := ParseDoors(hdr, off + 1, hdr[off]).value;
    DoorsParsed(hdr, off + 1, hdr[off]);
    SectionAt(hdr, off, |s.items|, PrintAll(s.items, RecordBytes));
  }

  lemma ExtensionSectionParsed(hdr: seq<byte>, off: nat)
    requires off < |hdr| && ParseExtensions(hdr, off + 1, hdr[off]).Ok?
    ensures var s := ParseExtensions(hdr, off + 1, hdr[off]).value;
            && |s.items| <= 0xFF && ExtensionsOk(s.items) && DistinctTypes(s.items)
            && s.end == off + 1 + |PrintAll(s.items, ExtensionBytes)|
            && At(hdr, off, [|s.items|] + PrintAll(s.items, ExtensionBytes))
  {
    var s := ParseExtensions(hdr, off + 1, hdr[off]).value;
    ExtensionsParsed(hdr, off + 1, hdr[off]);
    SectionAt(hdr, off, |s.items|, PrintAll(s.items, ExtensionBytes));
  }

  /** The sections of an accepted header. */
  lemma ParsedSections(hdr: seq<byte>) returns (doors: Section<Record>, exts: Section<Extension>)
    requires ParseHeader(hdr).Ok?
    ensures |hdr| >= CoreSize && FromBE(hdr[..4]) == ChunkSize && |doors.items| <= 0xFF && |exts.items| <= 0xFF
    ensures RecordsOk(doors.items) && ExtensionsOk(exts.items) && DistinctTypes(exts.items)
    ensures At(hdr, CoreSize, [|doors.items|] + PrintAll(doors.items, RecordBytes))
    ensures At(hdr, doors.end, [|exts.items|] + PrintAll(exts.items, ExtensionBytes))
    ensures doors.end == CoreSize + 1 + |PrintAll(doors.items, RecordBytes)|
    ensures exts.end == doors.end + 1 + |PrintAll(exts.items, ExtensionBytes)| == |hdr| - CommitmentSize
    ensures ParseHeader(hdr).value ==
            Header(FromBE(hdr[4..12]), hdr[12..28], Known(doors.items), Opaque(doors.items), exts.items,
                   hdr[exts.end..], hdr[..exts.end])
  {
    doors := ParseDoors(hdr, CoreSize + 1, hdr[CoreSize]).value;
    DoorSectionParsed(hdr, CoreSize);
    exts := ParseExtensions(hdr, doors.end + 1, hdr[doors.end]).value;
    ExtensionSectionParsed(hdr, doors.end);
  }

  /** Everything the decoder accepts as a header is an encoded header. */
  lemma HeaderParsed(hdr: seq<byte>, kind: byte, payload: seq<byte>) returns (w: Wire)
    requires ParseHeader(hdr).Ok?
    ensures w.HeaderFits() && DistinctTypes(w.extensions) && w.kind == kind && w.payload == payload
    ensures hdr == w.Body() + w.commitment && ParseHeader(hdr).value == w.View()
  {
    var doors, exts := ParsedSections(hdr);
    CoreOfFields(hdr);
    w := Wire(kind, FromBE(hdr[4..12]), hdr[12..28], doors.items, exts.items, hdr[exts.end..], payload);
    BodyIsPrefix(hdr, Core(w.plaintextSize, w.noncePrefix), w.DoorSection(), w.ExtensionSection());
  }

  // ---- The envelope ----

  lemma EnvelopeLayout(raw: seq<byte>, kind: byte, header: seq<byte>, payload: seq<byte>)
    requires |header| < 0x1_0000_0000
    requires raw == Assemble(kind, header, payload)
    ensures |raw| == PreambleSize + |header| + |payload| && raw[..8] == Magic && FromBE(raw[8..10]) == FormatVersion
    ensures raw[10] == kind
    ensures FromBE(raw[11..15]) == |header| && raw[PreambleSize..PreambleSize + |header|] == header
    ensures raw[PreambleSize + |header|..] == payload
  {
    Widths();
    FromToBE(2, FormatVersion);
    FromToBE(4, |header|);
    assert raw[8..10] == ToBE(2, FormatVersion) && raw[11..15] == ToBE(4, |header|);
  }

  /** Where the wire holds each fixed field of an envelope. */
  lemma EnvelopeFields(w: Wire)
    requires w.Fits()
    ensures var raw := w.Print(); var end := 15 + |w.Body()| + 32;
            && |raw| == end + |w.payload| && raw[..8] == [83, 76, 73, 86, 69, 78, 67, 0]
            && raw[8..10] == [0, 1] && raw[10] == w.kind && FromBE(raw[11..15]) == |w.Body()| + 32
            && raw[15..19] == [0, 1, 0, 0] && FromBE(raw[19..27]) == w.plaintextSize && raw[27..43] == w.noncePrefix
            && raw[43] == |w.records| && raw[end - 32..end] == w.commitment && raw[end..] == w.payload
  {
    var raw, hdr := w.Print(), w.Body() + w.commitment;
    EnvelopeLayout(raw, w.kind, hdr, w.payload);
    HeaderLayout(w, hdr);
    CoreFields(hdr, w.plaintextSize, w.noncePrefix);
    SectionAt(hdr, CoreSize, |w.records|, PrintAll(w.records, RecordBytes));
    FieldsAt(raw, hdr);
    ToFromBE(raw[8..10]);
    ToFromBE(hdr[..4]);
    FixedFields();
  }

  lemma FieldsAt(raw: seq<byte>, hdr: seq<byte>)
    requires |raw| >= 15 + |hdr| && raw[15..15 + |hdr|] == hdr && |hdr| >= 60
    ensures raw[15..19] == hdr[..4] && raw[19..27] == hdr[4..12] && raw[27..43] == hdr[12..28] && raw[43] == hdr[28]
    ensures raw[15 + |hdr| - 32..15 + |hdr|] == hdr[|hdr| - 32..]
  {
    Within(raw, hdr, 0, 4);
    Within(raw, hdr, 4, 12);
    Within(raw, hdr, 12, 28);
    Within(raw, hdr, |hdr| - 32, |hdr|);
    assert raw[15..15 + |hdr|][28] == raw[43];
  }

  lemma Within(raw: seq<byte>, hdr: seq<byte>, lo: nat, hi: nat)
    requires |raw| >= 15 + |hdr| && raw[15..15 + |hdr|] == hdr && lo <= hi <= |hdr|
    ensures raw[15 + lo..15 + hi] == hdr[lo..hi]
  {
    forall i | 0 <= i < hi - lo ensures raw[15 + lo..15 + hi][i] == hdr[lo..hi][i] {
      assert raw[15..15 + |hdr|][lo + i] == raw[15 + (lo + i)];
    }
  }

  lemma FixedFields()
    ensures ToBE(2, 1) == [0, 1] && ToBE(4, ChunkSize) == [0, 1, 0, 0]
  {
    assert ToBE(0, 0) == [] && ToBE(1, 0) == [0] && ToBE(1, 1) == [1];
    assert ToBE(2, 1) == ToBE(1, 0) + [1] && ToBE(3, 0x100) == ToBE(2, 1) + [0];
  }

  lemma EnvelopeOfFields(raw: seq<byte>)
    requires |raw| >= PreambleSize && raw[..8] == Magic && FromBE(raw[8..10]) == FormatVersion
    requires PreambleSize + FromBE(raw[11..15]) <= |raw|
    ensures var end := PreambleSize + FromBE(raw[11..15]); raw == Assemble(raw[10], raw[PreambleSize..end], raw[end..])
  {
    ToFromBE(raw[8..10]);
    ToFromBE(raw[11..15]);
    var end := PreambleSize + FromBE(raw[11..15]);
    assert raw == raw[..8] + raw[8..10] + [raw[10]] + raw[11..15] + raw[15..end] + raw[end..];
  }

  /** Decoding an assembled envelope gives back everything that went in, unless an extension type repeats. */
  lemma DecodePrinted(w: Wire)
    requires w.Fits()
    ensures DecodeEnvelope(w.Print()) == if DistinctTypes(w.extensions) then Ok(Parsed(w.kind, w.View(), w.payload))
      else Err(Malformed)
  {
    EnvelopeLayout(w.Print(), w.kind, w.Body() + w.commitment, w.payload);
    HeaderPrinted(w);
  }

  /** What an accepted envelope is made of. */
  lemma DecodedParts(raw: seq<byte>) returns (hdr: seq<byte>, payload: seq<byte>)
    requires DecodeEnvelope(raw).Ok?
    ensures SupportedKind(raw[10]) && |hdr| <= MaxHeaderLength && raw == Assemble(raw[10], hdr, payload)
    ensures ParseHeader(hdr).Ok? && SealedLength(ParseHeader(hdr).value.plaintextSize) == |payload|
    ensures DecodeEnvelope(raw).value == Parsed(raw[10], ParseHeader(hdr).value, payload)
  {
    EnvelopeOfFields(raw);
    var end := PreambleSize + FromBE(raw[11..15]);
    return raw[PreambleSize..end], raw[end..];
  }

  /** Everything the decoder accepts is an assembled envelope of distinct extension types. */
  lemma DecodeAccepted(raw: seq<byte>) returns (w: Wire)
    requires DecodeEnvelope(raw).Ok?
    ensures w.Fits() && DistinctTypes(w.extensions) && raw == w.Print()
    ensures DecodeEnvelope(raw).value == Parsed(w.kind, w.View(), w.payload)
  {
    var hdr, payload := DecodedParts(raw);
    w := HeaderParsed(hdr, raw[10], payload);
  }

  ghost predicate Encoded(raw: seq<byte>)
  {
    exists w: Wire :: w.Fits() && DistinctTypes(w.extensions) && raw == w.Print()
  }

  /** The decoder accepts exactly the encoded envelopes. */
  lemma DecodesExactlyEncoded(raw: seq<byte>)
    ensures DecodeEnvelope(raw).Ok? <==> Encoded(raw)
  {
    if DecodeEnvelope(raw).Ok? {
      var w := DecodeAccepted(raw);
    }
    if Encoded(raw) {
      var w: Wire :| w.Fits() && DistinctTypes(w.extensions) && raw == w.Print();
      DecodePrinted(w);
    }
  }

  // ---- What the writers assemble ----

  /** encodeDoorRecords. */
  function EncodeDoorRecords(doors: seq<Door>): Result<seq<seq<byte>>>
  {
    if doors == [] then Ok([])
    else match EncodeDoorRecord(doors[0])
      case Err(e) => Err(e)
      case Ok(record) =>
        match EncodeDoorRecords(doors[1..])
        case Err(e) => Err(e)
        case Ok(rest) => Ok([record] + rest)
  }

  lemma {:induction false} DoorRecordsEncoded(doors: seq<Door>)
    requires forall d :: d in doors ==> d.Shaped()
    ensures EncodeDoorRecords(doors).Ok? <==> Writable(doors)
    ensures Writable(doors) ==> EncodeDoorRecords(doors).value == Mapped(RecordsOf(doors), RecordBytes)
  {
    if doors != [] {
      DoorRecordsEncoded(doors[1..]);
      assert doors == [doors[0]] + doors[1..];
      assert Writable(doors) <==>
             doors[0].Shaped() && SupportedDoor(doors[0].kind) && doors[0].kdf == KdfArgon2id && Writable(doors[1..]);
      assert RecordsOf(doors) == [RecordOf(doors[0])] + RecordsOf(doors[1..]);
      if Writable(doors) {
        assert EncodeDoorRecord(doors[0]) == Ok(RecordBytes(RecordOf(doors[0])));
        assert Mapped(RecordsOf(doors), RecordBytes) ==
          [RecordBytes(RecordOf(doors[0]))] + Mapped(RecordsOf(doors[1..]), RecordBytes);
      }
    }
  }

  /** encodeHeader over a body whose commitment is a function of it. */
  function EncodeHeader(core: seq<byte>, doorSection: seq<byte>, extensionSection: seq<byte>,
                        commit: seq<byte> -> seq<byte>): Result<seq<byte>>
  {
    var body := core + doorSection + extensionSection;
    if |body| + CommitmentSize > MaxHeaderLength then Err(Malformed) else Ok(body + commit(body))
  }

  /** The common tail of seal and Rewrap: supported doors first, then the opaque records carried over. */
  function Write(kind: byte, core: seq<byte>, doors: seq<Door>, opaqueRecords: seq<seq<byte>>,
                 extensions: seq<Extension>,
                 commit: seq<byte> -> seq<byte>, payload: seq<byte>): Result<seq<byte>>
  {
    match EncodeDoorRecords(doors)
    case Err(e) => Err(e)
    case Ok(records) =>
      match EncodeDoorSection(records + opaqueRecords)
      case Err(e) => Err(e)
      case Ok(doorSection) =>
        match EncodeExtensionSection(extensions)
        case Err(e) => Err(e)
        case Ok(extensionSection) =>
          match EncodeHeader(core, doorSection, extensionSection, commit)
          case Err(e) => Err(e)
          case Ok(header) => Ok(Assemble(kind, header, payload))
  }

  /** The envelope a successful write stands for. */
  function Written(kind: byte, size: nat, nonce: seq<byte>, doors: seq<Door>, unknown: seq<Record>,
                   extensions: seq<Extension>,
                   commit: seq<byte> -> seq<byte>, payload: seq<byte>): Wire
    requires |doors| + |unknown| <= 0xFF && |extensions| <= 0xFF
  {
    var bare := Wire(kind, size, nonce, RecordsOf(doors) + unknown, extensions, [], payload);
    bare.(commitment := commit(bare.Body()))
  }

  predicate WriteInputs(kind: byte, size: nat, nonce: seq<byte>, doors: seq<Door>, unknown: seq<Record>,
                        extensions: seq<Extension>, payload: seq<byte>)
  {
    && SupportedKind(kind) && size < 0x1_0000_0000_0000_0000 && |nonce| == 16 && |payload| == SealedLength(size)
    && (forall d :: d in doors ==> d.Shaped()) && RecordsOk(unknown) && (forall e :: e in extensions ==> e.Shaped())
  }

  ghost predicate Committing(commit: seq<byte> -> seq<byte>) { forall body :: |commit(body)| == CommitmentSize }

  /** The section of the supported doors and the opaque records. */
  lemma SectionOfRecords(doors: seq<Door>, unknown: seq<Record>)
    requires (forall d :: d in doors ==> d.Shaped()) && RecordsOk(unknown)
    requires EncodeDoorRecords(doors).Ok?
    ensures Writable(doors) && RecordsOk(RecordsOf(doors) + unknown)
    ensures EncodeDoorSection(EncodeDoorRecords(doors).value + Mapped(unknown, RecordBytes)) ==
            var records := RecordsOf(doors) + unknown;
            if |records| > 0xFF then Err(Unsupported) else Ok([|records|] + PrintAll(records, RecordBytes))
  {
    DoorRecordsEncoded(doors);
    DoorsRoundTrip(doors);
    var records := RecordsOf(doors) + unknown;
    assert Mapped(records, RecordBytes) == Mapped(RecordsOf(doors), RecordBytes) + Mapped(unknown, RecordBytes);
    ConcatOfMapped(records, RecordBytes);
  }

  lemma WriteIsPrint(kind: byte, size: nat, nonce: seq<byte>, doors: seq<Door>, unknown: seq<Record>,
                     extensions: seq<Extension>,
                     commit: seq<byte> -> seq<byte>, payload: seq<byte>)
    requires WriteInputs(kind, size, nonce, doors, unknown, extensions, payload) && Committing(commit)
    requires Write(kind, Core(size, nonce), doors, Mapped(unknown, RecordBytes), extensions, commit, payload).Ok?
    ensures Writable(doors) && |doors| + |unknown| <= 0xFF && |extensions| <= 0xFF
    ensures var w := Written(kind, size, nonce, doors, unknown, extensions, commit, payload);
            w.Fits() && Write(kind, Core(size, nonce), doors, Mapped(unknown, RecordBytes), extensions, commit,
              payload) == Ok(w.Print())
  {
    SectionOfRecords(doors, unknown);
    assert ExtensionsOk(extensions);
    var w := Written(kind, size, nonce, doors, unknown, extensions, commit, payload);
    assert w.Body() == Core(size, nonce) + w.DoorSection() + w.ExtensionSection();
    assert w.commitment == commit(w.Body());
  }

  lemma WrittenDoors(doors: seq<Door>, unknown: seq<Record>)
    requires Writable(doors) && Unknown(unknown) == unknown && Known(unknown) == []
    ensures Known(RecordsOf(doors) + unknown) == doors && Unknown(RecordsOf(doors) + unknown) == unknown
  {
    DoorsRoundTrip(doors);
    FlatMapAppend(RecordsOf(doors), unknown, KnownOf);
    FlatMapAppend(RecordsOf(doors), unknown, UnknownOf);
  }

  lemma WrittenBody(bare: Wire, w: Wire)
    requires w.HeaderFits() && bare == w.(commitment := [])
    ensures bare.Body() == w.Body() && w.Body()[..CoreSize] == Core(w.plaintextSize, w.noncePrefix)
  {
    assert w.Body()[..CoreSize] == Core(w.plaintextSize, w.noncePrefix);
  }

  /** decodeEnvelope inverts the encoder: the doors, the opaque records, the extensions, the core and the
      payload come back, exactly when no extension type repeats. */
  lemma DecodeInvertsWrite(kind: byte, size: nat, nonce: seq<byte>, doors: seq<Door>, unknown: seq<Record>,
                           extensions: seq<Extension>,
                           commit: seq<byte> -> seq<byte>, payload: seq<byte>)
    requires WriteInputs(kind, size, nonce, doors, unknown, extensions, payload) && Committing(commit)
    requires Unknown(unknown) == unknown && Known(unknown) == []
    requires Write(kind, Core(size, nonce), doors, Mapped(unknown, RecordBytes), extensions, commit, payload).Ok?
    ensures var raw := Write(kind, Core(size, nonce), doors, Mapped(unknown, RecordBytes), extensions, commit,
      payload).value;
            if !DistinctTypes(extensions) then DecodeEnvelope(raw) == Err(Malformed)
            else
              && DecodeEnvelope(raw).Ok?
              && var p := DecodeEnvelope(raw).value;
                 && p.kind == kind && p.payload == payload && p.header.plaintextSize == size
                 && p.header.noncePrefix == nonce
                 && p.header.doors == doors && p.header.unknown == Mapped(unknown, RecordBytes)
                 && p.header.extensions == extensions
                 && p.header.body[..CoreSize] == Core(size, nonce) && p.header.commitment == commit(p.header.body)
  {
    WriteIsPrint(kind, size, nonce, doors, unknown, extensions, commit, payload);
    var w := Written(kind, size, nonce, doors, unknown, extensions, commit, payload);
    DecodePrinted(w);
    WrittenDoors(doors, unknown);
    WrittenBody(w.(commitment := []), w);
  }

  /** The encoder writes a repeated extension type that the decoder then refuses. */
  lemma RepeatedExtensionIsLost(commit: seq<byte> -> seq<byte>)
    requires Committing(commit)
    ensures var es := [Extension(7, []), Extension(7, [])]; var payload := seq(16, i => 0 as byte);
            var raw := Write(KindPack, Core(0, payload), [], [], es, commit, payload);
            raw.Ok? && DecodeEnvelope(raw.value) == Err(Malformed)
  {
    var es := [Extension(7, []), Extension(7, [])];
    var payload: seq<byte> := seq(16, i => 0 as byte);
    assert es[0].kind == es[1].kind && !DistinctTypes(es);
    assert PrintAll(es, ExtensionBytes) == ExtensionBytes(es[0]) + (ExtensionBytes(es[1]) + []) by {
      assert es[1..] == [es[1]];
    }
    assert Mapped<Record>([], RecordBytes) == [];
    DecodeInvertsWrite(KindPack, 0, payload, [], [], es, commit, payload);
  }
}
