/** The version-one envelope wire format of internal/crypt/envelope.go and header.go: its encoders, the
    decoder as a function of the bytes, and the proof that the two are inverse. */
module Envelope {
  import opened Bytes

  datatype Error =
    Malformed | Unsupported | Authentication | TooLarge | KeyRejected | Locked | KdfFailed | BadCandidates | NoGate

  datatype Result<+T> = Ok(value: T) | Err(error: Error)

  const Magic: seq<byte> := [83, 76, 73, 86, 69, 78, 67, 0]
  const FormatVersion: nat := 1
  const PreambleSize: nat := 15
  const CoreSize: nat := 28
  const CommitmentSize: nat := 32
  const TagSize: nat := 16
  const DoorBodySize: nat := 97
  const ChunkSize: nat := 0x1_0000
  const MaxHeaderLength: nat := 0x10_0000
  const KindCurrent: byte := 1
  const KindPack: byte := 2
  const DoorPassphrase: byte := 1
  const DoorRecovery: byte := 2
  const KdfArgon2id: byte := 1

  predicate SupportedKind(kind: byte) { kind == KindCurrent || kind == KindPack }

  predicate SupportedDoor(kind: byte) { kind == DoorPassphrase || kind == DoorRecovery }

  // ---- Doors ----

  datatype Door = Door(kind: byte, kdf: byte, salt: seq<byte>, memory: nat, iterations: nat, parallelism: byte,
                       nonce: seq<byte>, wrapped: seq<byte>)
  {
    /** The fixed array and integer widths of the record. */
    predicate Shaped()
    {
      && |salt| == 16 && |nonce| == 24 && |wrapped| == 48
      && memory < 0x1_0000_0000 && iterations < 0x1_0000_0000
    }
  }

  function EncodeDoorBody(d: Door): seq<byte>
  {
    d.salt + ToBE(4, d.memory) + ToBE(4, d.iterations) + [d.parallelism] + d.nonce + d.wrapped
  }

  function DecodeDoorBody(kind: byte, kdf: byte, body: seq<byte>): Door
    requires |body| == DoorBodySize
  {
    Door(kind, kdf, body[..16], FromBE(body[16..20]), FromBE(body[20..24]), body[24], body[25..49], body[49..])
  }

  lemma DoorBodyRoundTrip(d: Door)
    requires d.Shaped()
    ensures |EncodeDoorBody(d)| == DoorBodySize
    ensures DecodeDoorBody(d.kind, d.kdf, EncodeDoorBody(d)) == d
  {
    Widths();
    FromToBE(4, d.memory);
    FromToBE(4, d.iterations);
    var body := EncodeDoorBody(d);
    assert body[..16] == d.salt && body[16..20] == ToBE(4, d.memory) && body[20..24] == ToBE(4, d.iterations);
    assert body[25..49] == d.nonce && body[49..] == d.wrapped;
  }

  /** Where the wire holds each field of a door. */
  lemma DoorBodyLayout(d: Door)
    requires d.Shaped()
    ensures var body := EncodeDoorBody(d);
            && |body| == 97 && body[..16] == d.salt && body[24] == d.parallelism
            && d.memory == Value(body[16], body[17], body[18], body[19])
            && d.iterations == Value(body[20], body[21], body[22], body[23])
            && body[25..49] == d.nonce && body[49..97] == d.wrapped
    ensures EncodeDoorRecord(d).Ok? ==> EncodeDoorRecord(d).value == [d.kind, 1, 0, 97] + EncodeDoorBody(d)
  {
    Widths();
    FromToBE(4, d.memory);
    FromToBE(4, d.iterations);
    BigEndian(ToBE(4, d.memory));
    BigEndian(ToBE(4, d.iterations));
    var body := EncodeDoorBody(d);
    assert body[16..20] == ToBE(4, d.memory) && body[20..24] == ToBE(4, d.iterations);
    assert ToBE(2, 97) == [0, 97] by { assert ToBE(1, 0) == [0] && ToBE(0, 0) == []; }
  }

  lemma DoorBodyIsCanonical(kind: byte, kdf: byte, body: seq<byte>)
    requires |body| == DoorBodySize
    ensures var d := DecodeDoorBody(kind, kdf, body); d.Shaped() && EncodeDoorBody(d) == body
  {
    Widths();
    ToFromBE(body[16..20]);
    ToFromBE(body[20..24]);
    FromBEBound(body[16..20]);
    FromBEBound(body[20..24]);
    assert body == body[..16] + body[16..20] + body[20..24] + [body[24]] + body[25..49] + body[49..];
  }

  /** One door record as the wire holds it. */
  datatype Record = Record(kind: byte, kdf: byte, body: seq<byte>)

  function RecordBytes(r: Record): seq<byte> { [r.kind, r.kdf] + ToBE(2, |r.body|) + r.body }

  /** What the decoder demands of a record: of an unknown type it only knows the length. */
  predicate RecordOk(r: Record)
  {
    |r.body| < 0x1_0000 && (SupportedDoor(r.kind) ==> r.kdf == KdfArgon2id && |r.body| == DoorBodySize)
  }

  predicate RecordsOk(rs: seq<Record>) { forall r :: r in rs ==> RecordOk(r) }

  function EncodeDoorRecord(d: Door): Result<seq<byte>>
  {
    if !SupportedDoor(d.kind) then Err(Unsupported)
    else if d.kdf != KdfArgon2id then Err(Unsupported)
    else Ok([d.kind, d.kdf] + ToBE(2, |EncodeDoorBody(d)|) + EncodeDoorBody(d))
  }

  function RecordOf(d: Door): Record { Record(d.kind, d.kdf, EncodeDoorBody(d)) }

  function RecordsOf(ds: seq<Door>): seq<Record> { seq(|ds|, i requires 0 <= i < |ds| => RecordOf(ds[i])) }

  function KnownOf(r: Record): seq<Door>
  {
    if SupportedDoor(r.kind) && |r.body| == DoorBodySize then [DecodeDoorBody(r.kind, r.kdf, r.body)] else []
  }

  function UnknownOf(r: Record): seq<Record> { if SupportedDoor(r.kind) then [] else [r] }

  function FlatMap<T, U>(s: seq<T>, f: T -> seq<U>): seq<U>
  {
    if s == [] then [] else f(s[0]) + FlatMap(s[1..], f)
  }

  lemma {:induction false} FlatMapAppend<T, U>(a: seq<T>, b: seq<T>, f: T -> seq<U>)
    ensures FlatMap(a + b, f) == FlatMap(a, f) + FlatMap(b, f)
  {
    if a == [] {
      assert a + b == b;
    } else {
      FlatMapAppend(a[1..], b, f);
      assert (a + b)[1..] == a[1..] + b;
      assert f(a[0]) + (FlatMap(a[1..], f) + FlatMap(b, f)) == f(a[0]) + FlatMap(a[1..], f) + FlatMap(b, f);
    }
  }

  /** The supported doors in wire order. */
  function Known(rs: seq<Record>): seq<Door> { FlatMap(rs, KnownOf) }

  /** The opaque records in wire order. */
  function Unknown(rs: seq<Record>): seq<Record> { FlatMap(rs, UnknownOf) }

  /** Keeping the opaque records twice keeps the same ones, and no supported door among them. */
  lemma {:induction false} UnknownOnly(rs: seq<Record>)
    requires RecordsOk(rs)
    ensures RecordsOk(Unknown(rs)) && Unknown(Unknown(rs)) == Unknown(rs) && Known(Unknown(rs)) == []
  {
    if rs != [] {
      UnknownOnly(rs[1..]);
      assert rs[0] in rs;
      FlatMapAppend(UnknownOf(rs[0]), Unknown(rs[1..]), UnknownOf);
      FlatMapAppend(UnknownOf(rs[0]), Unknown(rs[1..]), KnownOf);
      assert Unknown(UnknownOf(rs[0])) == UnknownOf(rs[0]) && Known(UnknownOf(rs[0])) == [];
    }
  }

  predicate Writable(ds: seq<Door>)
  {
    forall d :: d in ds ==> d.Shaped() && SupportedDoor(d.kind) && d.kdf == KdfArgon2id
  }

  /** Supported doors come back from their records, in order. */
  lemma {:induction false} DoorsRoundTrip(ds: seq<Door>)
    requires Writable(ds)
    ensures RecordsOk(RecordsOf(ds)) && Known(RecordsOf(ds)) == ds && Unknown(RecordsOf(ds)) == []
  {
    if ds != [] {
      var rs := RecordsOf(ds);
      assert ds[0] in ds;
      DoorBodyRoundTrip(ds[0]);
      assert rs[1..] == RecordsOf(ds[1..]);
      DoorsRoundTrip(ds[1..]);
      assert rs == [rs[0]] + rs[1..];
      assert ds == [ds[0]] + ds[1..];
    }
  }

  // ---- Sections ----

  function Concat(parts: seq<seq<byte>>): seq<byte>
  {
    if parts == [] then [] else parts[0] + Concat(parts[1..])
  }

  function Mapped<T>(items: seq<T>, enc: T -> seq<byte>): seq<seq<byte>>
  {
    seq(|items|, i requires 0 <= i < |items| => enc(items[i]))
  }

  /** The items of a section one after the other. */
  function PrintAll<T>(items: seq<T>, enc: T -> seq<byte>): seq<byte>
  {
    if items == [] then [] else enc(items[0]) + PrintAll(items[1..], enc)
  }

  lemma {:induction false} ConcatOfMapped<T>(items: seq<T>, enc: T -> seq<byte>)
    ensures Concat(Mapped(items, enc)) == PrintAll(items, enc)
  {
    if items != [] {
      ConcatOfMapped(items[1..], enc);
      assert Mapped(items, enc)[1..] == Mapped(items[1..], enc);
    }
  }

  /** The opaque records as the exact bytes the wire holds. */
  function Opaque(rs: seq<Record>): seq<seq<byte>> { Mapped(Unknown(rs), RecordBytes) }

  function EncodeDoorSection(records: seq<seq<byte>>): Result<seq<byte>>
  {
    if |records| > 0xFF then Err(Unsupported) else Ok([|records|] + Concat(records))
  }

  datatype Extension = Extension(kind: nat, value: seq<byte>)
  {
    predicate Shaped() { kind < 0x1_0000 }
  }

  function ExtensionBytes(e: Extension): seq<byte> { ToBE(2, e.kind) + ToBE(2, |e.value|) + e.value }

  /** Where the wire holds the fields of a record and of an extension. */
  lemma ItemLayout(r: Record, e: Extension)
    requires |r.body| < 0x1_0000 && e.Shaped() && |e.value| < 0x1_0000
    ensures var b := RecordBytes(r);
            && |b| == 4 + |r.body| && b[0] == r.kind && b[1] == r.kdf && Value(0, 0, b[2], b[3]) == |r.body|
            && b[4..] == r.body
    ensures var b := ExtensionBytes(e);
            && |b| == 4 + |e.value| && Value(0, 0, b[0], b[1]) == e.kind && Value(0, 0, b[2], b[3]) == |e.value|
            && b[4..] == e.value
  {
    Widths();
    FromToBE(2, |r.body|);
    FromToBE(2, e.kind);
    FromToBE(2, |e.value|);
    BigEndian(ToBE(2, |r.body|));
    BigEndian(ToBE(2, e.kind));
    BigEndian(ToBE(2, |e.value|));
  }

  predicate ExtensionsFit(es: seq<Extension>) { forall e :: e in es ==> |e.value| <= 0xFFFF }

  function EncodeExtensionSection(es: seq<Extension>): Result<seq<byte>>
  {
    if |es| > 0xFF then Err(Unsupported)
    else if !ExtensionsFit(es) then Err(Malformed)
    else Ok([|es|] + PrintAll(es, ExtensionBytes))
  }

  predicate DistinctTypes(es: seq<Extension>)
  {
    forall i, j :: 0 <= i < j < |es| ==> es[i].kind != es[j].kind
  }

  // ---- The decoder, as a function of the bytes ----

  /** A record at an offset, if the bytes reach that far. */
  function RecordAt(b: seq<byte>, off: nat): (r: Result<Record>)
    ensures r.Ok? ==> off + 4 + |r.value.body| <= |b| && |r.value.body| < 0x1_0000
  {
    if off + 4 > |b| then Err(Malformed)
    else
      var n := FromBE(b[off + 2..off + 4]);
      Widths(); FromBEBound(b[off + 2..off + 4]);
      if off + 4 + n > |b| then Err(Malformed)
      else Ok(Record(b[off], b[off + 1], b[off + 4..off + 4 + n]))
  }

  /** A record the decoder takes: of a supported type it checks the KDF and the body length. */
  function DoorAt(b: seq<byte>, off: nat): Result<Record>
  {
    match RecordAt(b, off)
    case Err(e) => Err(e)
    case Ok(r) =>
      if !SupportedDoor(r.kind) then Ok(r)
      else if r.kdf != KdfArgon2id then Err(Unsupported)
      else if |r.body| != DoorBodySize then Err(Malformed)
      else Ok(r)
  }

  function ExtensionAt(b: seq<byte>, off: nat): (r: Result<Extension>)
    ensures r.Ok? ==> off + 4 + |r.value.value| <= |b| && |r.value.value| <= 0xFFFF && r.value.Shaped()
  {
    if off + 4 > |b| then Err(Malformed)
    else
      var n := FromBE(b[off + 2..off + 4]);
      Widths(); FromBEBound(b[off..off + 2]); FromBEBound(b[off + 2..off + 4]);
      if off + 4 + n > |b| then Err(Malformed)
      else Ok(Extension(FromBE(b[off..off + 2]), b[off + 4..off + 4 + n]))
  }

  datatype Section<+T> = Section(items: seq<T>, end: nat)

  function Prepend<T>(items: seq<T>, rest: Result<Section<T>>): Result<Section<T>>
  {
    match rest
    case Err(e) => Err(e)
    case Ok(s) => Ok(Section(items + s.items, s.end))
  }

  type ItemParser<!T> = (seq<byte>, nat) -> Result<T>

  /** Reads n items one after the other. */
  function ParseMany<T>(b: seq<byte>, off: nat, n: nat, at: ItemParser<T>, enc: T -> seq<byte>): Result<Section<T>>
    decreases n
  {
    if n == 0 then Ok(Section([], off))
    else match at(b, off)
      case Err(e) => Err(e)
      case Ok(x) => Prepend([x], ParseMany(b, off + |enc(x)|, n - 1, at, enc))
  }

  function ParseDoors(b: seq<byte>, off: nat, n: nat): Result<Section<Record>>
  {
    ParseMany(b, off, n, DoorAt, RecordBytes)
  }

  /** A repeated extension type is malformed like every other defect of an extension list. */
  function ParseExtensions(b: seq<byte>, off: nat, n: nat): Result<Section<Extension>>
  {
    match ParseMany(b, off, n, ExtensionAt, ExtensionBytes)
    case Err(e) => Err(e)
    case Ok(s) => if DistinctTypes(s.items) then Ok(s) else Err(Malformed)
  }

  /** The structural view of a header.  body is the header without the commitment. */
  datatype Header = Header(plaintextSize: nat, noncePrefix: seq<byte>, doors: seq<Door>, unknown: seq<seq<byte>>,
                           extensions: seq<Extension>,
                           commitment: seq<byte>, body: seq<byte>)

  function ParseHeader(hdr: seq<byte>): (r: Result<Header>)
    ensures r.Ok? ==> |r.value.body| >= CoreSize
  {
    if |hdr| < CoreSize + 2 + CommitmentSize then Err(Malformed)
    else if FromBE(hdr[..4]) != ChunkSize then Err(Unsupported)
    else match ParseDoors(hdr, CoreSize + 1, hdr[CoreSize])
      case Err(e) => Err(e)
      case Ok(doors) =>
        if doors.end + 1 > |hdr| then Err(Malformed)
        else match ParseExtensions(hdr, doors.end + 1, hdr[doors.end])
          case Err(e) => Err(e)
          case Ok(exts) =>
            if exts.end + CommitmentSize != |hdr| then Err(Malformed)
            else
              Ok(Header(FromBE(hdr[4..12]), hdr[12..28], Known(doors.items), Opaque(doors.items), exts.items,
                hdr[exts.end..], hdr[..exts.end]))
  }

  /** Exactly the payload bytes a plaintext of this size is framed into. */
  function SealedLength(plaintextSize: nat): nat
  {
    plaintextSize + ((plaintextSize + ChunkSize - 1) / ChunkSize + 1) * TagSize
  }

  datatype Parsed = Parsed(kind: byte, header: Header, payload: seq<byte>)

  function DecodeEnvelope(raw: seq<byte>): (r: Result<Parsed>)
    ensures r.Ok? ==> |r.value.header.body| >= CoreSize
  {
    if |raw| < PreambleSize then Err(Malformed)
    else if raw[..8] != Magic then Err(Malformed)
    else if FromBE(raw[8..10]) != FormatVersion then Err(Unsupported)
    else if !SupportedKind(raw[10]) then Err(Unsupported)
    else
      var headerLength := FromBE(raw[11..15]);
      if headerLength > MaxHeaderLength then Err(Malformed)
      else if PreambleSize + headerLength > |raw| then Err(Malformed)
      else match ParseHeader(raw[PreambleSize..PreambleSize + headerLength])
        case Err(e) => Err(e)
        case Ok(h) =>
          var payload := raw[PreambleSize + headerLength..];
          if SealedLength(h.plaintextSize) != |payload| then Err(Malformed)
          else Ok(Parsed(raw[10], h, payload))
  }

  // ---- Parsing what was printed, and printing what was parsed ----

  /** The bytes at an offset are exactly these. */
  predicate At(b: seq<byte>, off: nat, part: seq<byte>)
  {
    off + |part| <= |b| && b[off..off + |part|] == part
  }

  lemma AtSplit(b: seq<byte>, off: nat, x: seq<byte>, y: seq<byte>)
    ensures At(b, off, x + y) <==> At(b, off, x) && At(b, off + |x|, y)
  {
    var xy := x + y;
    if At(b, off, xy) {
      assert b[off..off + |x|] == b[off..off + |xy|][..|x|] == xy[..|x|] == x;
      assert b[off + |x|..off + |xy|] == b[off..off + |xy|][|x|..] == xy[|x|..] == y;
    }
    if At(b, off, x) && At(b, off + |x|, y) {
      assert b[off..off + |xy|] == b[off..off + |x|] + b[off + |x|..off + |x| + |y|];
    }
  }

  predicate Yields<T(==)>(r: Result<Section<T>>, items: seq<T>, end: nat)
  {
    r.Ok? && r.value.items == items && r.value.end == end
  }

  lemma ManyStep<T>(b: seq<byte>, off: nat, items: seq<T>, end: nat, at: ItemParser<T>, enc: T -> seq<byte>)
    requires items != [] && at(b, off) == Ok(items[0])
    requires Yields(ParseMany(b, off + |enc(items[0])|, |items| - 1, at, enc), items[1..], end)
    ensures Yields(ParseMany(b, off, |items|, at, enc), items, end)
  {
    var rest := ParseMany(b, off + |enc(items[0])|, |items| - 1, at, enc);
    assert ParseMany(b, off, |items|, at, enc) == Prepend([items[0]], rest);
    assert items == [items[0]] + rest.value.items;
  }

  /** The parser reads each of the items wherever it is printed. */
  ghost predicate Reads<T(!new)>(b: seq<byte>, items: seq<T>, at: ItemParser<T>, enc: T -> seq<byte>)
  {
    forall x, k: nat :: x in items && At(b, k, enc(x)) ==> at(b, k) == Ok(x)
  }

  lemma FirstPrinted<T(!new)>(b: seq<byte>, off: nat, items: seq<T>, at: ItemParser<T>, enc: T -> seq<byte>)
    requires items != [] && At(b, off, PrintAll(items, enc)) && Reads(b, items, at, enc)
    ensures at(b, off) == Ok(items[0]) && Reads(b, items[1..], at, enc)
    ensures At(b, off + |enc(items[0])|, PrintAll(items[1..], enc))
    ensures |PrintAll(items, enc)| == |enc(items[0])| + |PrintAll(items[1..], enc)|
  {
    AtSplit(b, off, enc(items[0]), PrintAll(items[1..], enc));
    assert items[0] in items;
  }

  /** Reading back the items that were printed. */
  lemma {:induction false} ManyPrinted<T(!new)>(b: seq<byte>, off: nat, items: seq<T>, at: ItemParser<T>,
                                         enc: T -> seq<byte>)
    requires At(b, off, PrintAll(items, enc)) && Reads(b, items, at, enc)
    ensures Yields(ParseMany(b, off, |items|, at, enc), items, off + |PrintAll(items, enc)|)
    decreases |items|
  {
    if items != [] {
      FirstPrinted(b, off, items, at, enc);
      ManyPrinted(b, off + |enc(items[0])|, items[1..], at, enc);
      ManyStep(b, off, items, off + |PrintAll(items, enc)|, at, enc);
    }
  }

  /** The items read print as exactly the bytes read. */
  lemma {:induction false} ManyParsed<T>(b: seq<byte>, off: nat, n: nat, at: ItemParser<T>, enc: T -> seq<byte>,
                                         ok: T -> bool)
    requires off <= |b| && ParseMany(b, off, n, at, enc).Ok?
    requires forall k: nat :: at(b, k).Ok? ==> At(b, k, enc(at(b, k).value)) && ok(at(b, k).value)
    ensures var s := ParseMany(b, off, n, at, enc).value;
            && |s.items| == n && At(b, off, PrintAll(s.items, enc)) && s.end == off + |PrintAll(s.items, enc)|
            && forall x :: x in s.items ==> ok(x)
    decreases n
  {
    if n > 0 {
      var x, s := at(b, off).value, ParseMany(b, off, n, at, enc).value;
      ManyParsed(b, off + |enc(x)|, n - 1, at, enc, ok);
      assert s.items[1..] == ParseMany(b, off + |enc(x)|, n - 1, at, enc).value.items;
      AtSplit(b, off, enc(x), PrintAll(s.items[1..], enc));
    }
  }

  lemma RecordAtPrinted(b: seq<byte>, off: nat, r: Record)
    requires At(b, off, RecordBytes(r)) && |r.body| < 0x1_0000
    ensures RecordAt(b, off) == Ok(r)
  {
    var len := ToBE(2, |r.body|);
    assert RecordBytes(r) == [r.kind, r.kdf] + (len + r.body);
    AtSplit(b, off, [r.kind, r.kdf], len + r.body);
    AtSplit(b, off + 2, len, r.body);
    assert b[off..off + 2][0] == r.kind && b[off..off + 2][1] == r.kdf;
    Widths();
    FromToBE(2, |r.body|);
  }

  lemma RecordAtBytes(b: seq<byte>, off: nat)
    requires RecordAt(b, off).Ok?
    ensures At(b, off, RecordBytes(RecordAt(b, off).value))
  {
    var r := RecordAt(b, off).value;
    ToFromBE(b[off + 2..off + 4]);
    var len := ToBE(2, |r.body|);
    assert b[off..off + 2] == [r.kind, r.kdf];
    AtSplit(b, off + 2, len, r.body);
    AtSplit(b, off, [r.kind, r.kdf], len + r.body);
    assert RecordBytes(r) == [r.kind, r.kdf] + (len + r.body);
  }

  lemma DoorsPrinted(b: seq<byte>, off: nat, rs: seq<Record>)
    requires RecordsOk(rs) && At(b, off, PrintAll(rs, RecordBytes))
    ensures Yields(ParseDoors(b, off, |rs|), rs, off + |PrintAll(rs, RecordBytes)|)
  {
    forall r, k: nat | r in rs && At(b, k, RecordBytes(r)) ensures DoorAt(b, k) == Ok(r) { RecordAtPrinted(b, k, r); }
    assert Reads(b, rs, DoorAt, RecordBytes);
    ManyPrinted(b, off, rs, DoorAt, RecordBytes);
  }

  lemma DoorsParsed(b: seq<byte>, off: nat, n: nat)
    requires off <= |b| && ParseDoors(b, off, n).Ok?
    ensures var s := ParseDoors(b, off, n).value;
            |s.items| == n && RecordsOk(s.items) && At(b, off, PrintAll(s.items, RecordBytes)) &&
            s.end == off + |PrintAll(s.items, RecordBytes)|
  {
    forall k: nat | DoorAt(b, k).Ok? ensures At(b, k, RecordBytes(DoorAt(b, k).value)) { RecordAtBytes(b, k); }
    ManyParsed(b, off, n, DoorAt, RecordBytes, RecordOk);
  }

  lemma ExtensionAtPrinted(b: seq<byte>, off: nat, e: Extension)
    requires At(b, off, ExtensionBytes(e)) && |e.value| <= 0xFFFF && e.Shaped()
    ensures ExtensionAt(b, off) == Ok(e)
  {
    var kind, len := ToBE(2, e.kind), ToBE(2, |e.value|);
    assert ExtensionBytes(e) == kind + (len + e.value);
    AtSplit(b, off, kind, len + e.value);
    AtSplit(b, off + 2, len, e.value);
    Widths();
    FromToBE(2, e.kind);
    FromToBE(2, |e.value|);
  }

  lemma ExtensionAtBytes(b: seq<byte>, off: nat)
    requires ExtensionAt(b, off).Ok?
    ensures At(b, off, ExtensionBytes(ExtensionAt(b, off).value))
  {
    var e := ExtensionAt(b, off).value;
    ToFromBE(b[off..off + 2]);
    ToFromBE(b[off + 2..off + 4]);
    var kind, len := ToBE(2, e.kind), ToBE(2, |e.value|);
    AtSplit(b, off + 2, len, e.value);
    AtSplit(b, off, kind, len + e.value);
    assert ExtensionBytes(e) == kind + (len + e.value);
  }

  predicate ExtensionOk(e: Extension) { e.Shaped() && |e.value| <= 0xFFFF }

  predicate ExtensionsOk(es: seq<Extension>) { forall e :: e in es ==> ExtensionOk(e) }

  lemma ExtensionsPrinted(b: seq<byte>, off: nat, es: seq<Extension>)
    requires ExtensionsOk(es) && At(b, off, PrintAll(es, ExtensionBytes))
    ensures if DistinctTypes(es) then Yields(ParseExtensions(b, off, |es|), es, off + |PrintAll(es, ExtensionBytes)|)
            else ParseExtensions(b, off, |es|) == Err(Malformed)
  {
    forall e, k: nat | e in es && At(b, k, ExtensionBytes(e)) ensures ExtensionAt(b, k) == Ok(e) {
      assert ExtensionOk(e);
      ExtensionAtPrinted(b, k, e);
    }
    assert Reads(b, es, ExtensionAt, ExtensionBytes);
    ManyPrinted(b, off, es, ExtensionAt, ExtensionBytes);
  }

  lemma ExtensionsParsed(b: seq<byte>, off: nat, n: nat)
    requires off <= |b| && ParseExtensions(b, off, n).Ok?
    ensures var s := ParseExtensions(b, off, n).value;
            && |s.items| == n && ExtensionsOk(s.items) && DistinctTypes(s.items)
            && At(b, off, PrintAll(s.items, ExtensionBytes)) && s.end == off + |PrintAll(s.items, ExtensionBytes)|
  {
    forall k: nat | ExtensionAt(b, k).Ok? ensures At(b, k, ExtensionBytes(ExtensionAt(b, k).value)) {
      ExtensionAtBytes(b, k);
    }
    ManyParsed(b, off, n, ExtensionAt, ExtensionBytes, ExtensionOk);
  }
}
