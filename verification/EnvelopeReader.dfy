/** The header reader of internal/crypt/envelope.go and the decoding loops over it. */
module EnvelopeReader {
  import opened Bytes
  import opened Envelope
  import Payload

  /** Reads big-endian fields from a header and latches the first truncation. */
  class Reader {
    const b: seq<byte>
    var off: nat
    var failed: bool

    ghost predicate Valid()
      reads this
    {
      off <= |b|
    }

    constructor (b: seq<byte>)
      ensures Valid() && this.b == b && off == 0 && !failed
    {
      this.b := b;
      off, failed := 0, false;
    }

    method U8() returns (v: byte)
      requires Valid()
      modifies this
      ensures Valid() && failed == (old(failed) || old(off) + 1 > |b|)
      ensures if failed then off == old(off) && v == 0 else off == old(off) + 1 && v == b[old(off)]
    {
      if !failed && off + 1 > |b| {
        failed := true;
      }
      if failed {
        return 0;
      }
      v := b[off];
      off := off + 1;
    }

    method Take(n: nat) returns (part: seq<byte>)
      requires Valid()
      modifies this
      ensures Valid() && failed == (old(failed) || old(off) + n > |b|)
      ensures if failed then off == old(off) && part == [] else off == old(off) + n && part == b[old(off)..off]
    {
      if failed {
        return [];
      }
      if off + n > |b| {
        failed := true;
        return [];
      }
      part := b[off..off + n];
      off := off + n;
    }

    /** The fields of 2, 4 and 8 bytes. */
    method Uint(width: nat) returns (v: nat)
      requires Valid()
      modifies this
      ensures Valid() && failed == (old(failed) || old(off) + width > |b|)
      ensures if failed then off == old(off) && v == 0 else off == old(off) + width && v == FromBE(b[old(off)..off])
    {
      var part := Take(width);
      v := if failed then 0 else FromBE(part);
    }
  }

  method ReadRecord(r: Reader) returns (rec: Record)
    requires r.Valid() && !r.failed
    modifies r
    ensures r.Valid()
    ensures if r.failed then RecordAt(r.b, old(r.off)) == Err(Malformed)
            else RecordAt(r.b, old(r.off)) == Ok(rec) && r.off == old(r.off) + 4 + |rec.body|
  {
    var kind := r.U8();
    var kdf := r.U8();
    var n := r.Uint(2);
    var body := r.Take(n);
    rec := Record(kind, kdf, body);
  }

  method ReadExtension(r: Reader) returns (x: Extension)
    requires r.Valid() && !r.failed
    modifies r
    ensures r.Valid()
    ensures if r.failed then ExtensionAt(r.b, old(r.off)) == Err(Malformed)
            else ExtensionAt(r.b, old(r.off)) == Ok(x) && r.off == old(r.off) + 4 + |x.value|
  {
    var kind := r.Uint(2);
    var n := r.Uint(2);
    var value := r.Take(n);
    x := Extension(kind, value);
  }

  /** Reads one door and applies the checks of its type. */
  method ReadDoor(r: Reader) returns (error: Result<()>, rec: Record)
    requires r.Valid() && !r.failed
    modifies r
    ensures r.Valid() && (error.Ok? ==> !r.failed)
    ensures match DoorAt(r.b, old(r.off))
            case Err(e) => error == Err(e)
            case Ok(d) => error.Ok? && rec == d && r.off == old(r.off) + |RecordBytes(d)|
  {
    rec := ReadRecord(r);
    if r.failed {
      return Err(Malformed), rec;
    }
    assert |RecordBytes(rec)| == 4 + |rec.body|;
    if !SupportedDoor(rec.kind) {
      return Ok(()), rec;
    }
    if rec.kdf != KdfArgon2id {
      return Err(Unsupported), rec;
    }
    if |rec.body| != DoorBodySize {
      return Err(Malformed), rec;
    }
    return Ok(()), rec;
  }

  /** The items read so far and the outcome of the remaining ones make up the whole section. */
  ghost predicate Progress<T(!new)>(b: seq<byte>, all: Result<Section<T>>, read: seq<T>, off: nat, n: nat,
                             at: ItemParser<T>, enc: T -> seq<byte>)
  {
    all == Prepend(read, ParseMany(b, off, n, at, enc))
  }

  lemma ProgressStart<T(!new)>(b: seq<byte>, off: nat, n: nat, at: ItemParser<T>, enc: T -> seq<byte>)
    ensures Progress(b, ParseMany(b, off, n, at, enc), [], off, n, at, enc)
  {
    var all := ParseMany(b, off, n, at, enc);
    if all.Ok? { assert [] + all.value.items == all.value.items; }
  }

  lemma ProgressStep<T(!new)>(b: seq<byte>, all: Result<Section<T>>, read: seq<T>, off: nat, n: nat,
                       at: ItemParser<T>, enc: T -> seq<byte>)
    requires n > 0 && Progress(b, all, read, off, n, at, enc)
    ensures at(b, off).Err? ==> all == Err(at(b, off).error)
    ensures at(b, off).Ok? ==>
              var x := at(b, off).value;
              Progress(b, all, read + [x], off + |enc(x)|, n - 1, at, enc) &&
                (all.Ok? ==> read + [x] <= all.value.items)
  {
    if at(b, off).Ok? {
      var x := at(b, off).value;
      var rest := ParseMany(b, off + |enc(x)|, n - 1, at, enc);
      if rest.Ok? { assert read + ([x] + rest.value.items) == read + [x] + rest.value.items; }
    }
  }

  lemma ProgressEnd<T(!new)>(b: seq<byte>, all: Result<Section<T>>, read: seq<T>, off: nat, at: ItemParser<T>,
                      enc: T -> seq<byte>)
    requires Progress(b, all, read, off, 0, at, enc)
    ensures Yields(all, read, off)
  {
    assert read + [] == read;
  }

  /** Reads one door record, and decodes it or keeps it whole. */
  method TakeDoor(r: Reader, doors: seq<Door>, opaqueRecords: seq<seq<byte>>)
    returns (error: Result<()>, doors': seq<Door>, opaqueRecords': seq<seq<byte>>, ghost rec: Record)
    requires r.Valid() && !r.failed
    modifies r
    ensures r.Valid() && (error.Ok? ==> !r.failed)
    ensures match DoorAt(r.b, old(r.off))
            case Err(e) => error == Err(e)
            case Ok(d) =>
              && error.Ok? && rec == d && r.off == old(r.off) + |RecordBytes(d)| && doors' == doors + KnownOf(d)
              && opaqueRecords' == opaqueRecords + if SupportedDoor(d.kind) then [] else [RecordBytes(d)]
  {
    doors', opaqueRecords' := doors, opaqueRecords;
    var start := r.off;
    var door;
    error, door := ReadDoor(r);
    rec := door;
    if error.Ok? {
      RecordAtBytes(r.b, start);
      if SupportedDoor(door.kind) {
        doors' := doors + [DecodeDoorBody(door.kind, door.kdf, door.body)];
      } else {
        opaqueRecords' := opaqueRecords + [r.b[start..r.off]];
      }
    }
  }

  /** What the door loop holds after some turns. */
  ghost predicate DoorsSoFar(b: seq<byte>, all: Result<Section<Record>>, read: seq<Record>, off: nat, n: nat,
                             doors: seq<Door>, opaqueRecords: seq<seq<byte>>)
  {
    Progress(b, all, read, off, n, DoorAt, RecordBytes) && doors == Known(read) && opaqueRecords == Opaque(read)
  }

  lemma DoorsAdvance(b: seq<byte>, all: Result<Section<Record>>, read: seq<Record>, off: nat, n: nat,
                     doors: seq<Door>, opaqueRecords: seq<seq<byte>>)
    requires n > 0 && DoorsSoFar(b, all, read, off, n, doors, opaqueRecords)
    ensures match DoorAt(b, off)
            case Err(e) => all == Err(e)
            case Ok(d) => DoorsSoFar(b, all, read + [d], off + |RecordBytes(d)|, n - 1, doors + KnownOf(d),
                                     opaqueRecords + if SupportedDoor(d.kind) then [] else [RecordBytes(d)])
  {
    ProgressStep(b, all, read, off, n, DoorAt, RecordBytes);
    if DoorAt(b, off).Ok? { MoreDoors(read, DoorAt(b, off).value); }
  }

  /** One turn of the door loop. */
  method DoorTurn(r: Reader, doors: seq<Door>, opaqueRecords: seq<seq<byte>>, ghost all: Result<Section<Record>>,
                  ghost read: seq<Record>, ghost n: nat)
    returns (error: Result<()>, doors': seq<Door>, opaqueRecords': seq<seq<byte>>, ghost read': seq<Record>)
    requires r.Valid() && !r.failed && n > 0 && DoorsSoFar(r.b, all, read, r.off, n, doors, opaqueRecords)
    modifies r
    ensures r.Valid() && (error.Err? ==> all == Err(error.error))
    ensures error.Ok? ==> !r.failed && DoorsSoFar(r.b, all, read', r.off, n - 1, doors', opaqueRecords')
  {
    DoorsAdvance(r.b, all, read, r.off, n, doors, opaqueRecords);
    ghost var rec;
    error, doors', opaqueRecords', rec := TakeDoor(r, doors, opaqueRecords);
    read' := read + [rec];
  }

  /** The door loop against the functional decoder: supported doors decoded, unknown types kept whole. */
  method DecodeDoors(r: Reader, count: nat) returns (error: Result<()>, doors: seq<Door>, opaqueRecords: seq<seq<byte>>)
    requires r.Valid() && !r.failed
    modifies r
    ensures r.Valid() && (error.Ok? ==> !r.failed)
    ensures match ParseDoors(r.b, old(r.off), count)
            case Err(e) => error == Err(e)
            case Ok(s) => error.Ok? && r.off == s.end && doors == Known(s.items) && opaqueRecords == Opaque(s.items)
  {
    ghost var all := ParseDoors(r.b, r.off, count);
    ghost var read: seq<Record> := [];
    error, doors, opaqueRecords := Ok(()), [], [];
    ProgressStart(r.b, r.off, count, DoorAt, RecordBytes);
    for i := 0 to count
      invariant r.Valid() && !r.failed && error.Ok?
      invariant DoorsSoFar(r.b, all, read, r.off, count - i, doors, opaqueRecords)
    {
      error, doors, opaqueRecords, read := DoorTurn(r, doors, opaqueRecords, all, read, count - i);
      if error.Err? {
        return;
      }
    }
    DoorsEnd(r.b, all, read, r.off, doors, opaqueRecords);
  }

  lemma DoorsEnd(b: seq<byte>, all: Result<Section<Record>>, read: seq<Record>, off: nat, doors: seq<Door>,
                 opaqueRecords: seq<seq<byte>>)
    requires DoorsSoFar(b, all, read, off, 0, doors, opaqueRecords)
    ensures all.Ok? && all.value.end == off && doors == Known(all.value.items)
    ensures opaqueRecords == Opaque(all.value.items)
  {
    ProgressEnd(b, all, read, off, DoorAt, RecordBytes);
  }

  lemma MoreDoors(rs: seq<Record>, r: Record)
    ensures Known(rs + [r]) == Known(rs) + KnownOf(r)
    ensures Opaque(rs + [r]) == Opaque(rs) + if SupportedDoor(r.kind) then [] else [RecordBytes(r)]
  {
    FlatMapAppend(rs, [r], KnownOf);
    FlatMapAppend(rs, [r], UnknownOf);
    assert FlatMap([r], KnownOf) == KnownOf(r) + [] && FlatMap([r], UnknownOf) == UnknownOf(r) + [];
  }

  function TypesOf(es: seq<Extension>): set<nat> { set i | 0 <= i < |es| :: es[i].kind }

  lemma MoreTypes(es: seq<Extension>, x: Extension)
    ensures TypesOf(es + [x]) == TypesOf(es) + {x.kind}
    ensures DistinctTypes(es) ==> (DistinctTypes(es + [x]) <==> x.kind !in TypesOf(es))
  {
    var more := es + [x];
    assert more[|es|] == x;
    forall i | 0 <= i < |es| ensures more[i] == es[i] { }
  }

  lemma PrefixDistinct(a: seq<Extension>, b: seq<Extension>)
    requires a <= b && DistinctTypes(b)
    ensures DistinctTypes(a)
  {
  }

  ghost predicate ExtensionsSoFar(b: seq<byte>, all: Result<Section<Extension>>, read: seq<Extension>, off: nat,
                                  n: nat, seen: set<nat>)
  {
    Progress(b, all, read, off, n, ExtensionAt, ExtensionBytes) && seen == TypesOf(read) && DistinctTypes(read)
  }

  lemma ExtensionsAdvance(b: seq<byte>, all: Result<Section<Extension>>, read: seq<Extension>, off: nat, n: nat,
                          seen: set<nat>)
    requires n > 0 && ExtensionsSoFar(b, all, read, off, n, seen)
    ensures match ExtensionAt(b, off)
            case Err(e) => all == Err(e)
            case Ok(x) =>
              if x.kind in seen then all.Ok? ==> !DistinctTypes(all.value.items)
              else ExtensionsSoFar(b, all, read + [x], off + 4 + |x.value|, n - 1, seen + {x.kind})
  {
    ProgressStep(b, all, read, off, n, ExtensionAt, ExtensionBytes);
    if ExtensionAt(b, off).Ok? {
      var x := ExtensionAt(b, off).value;
      assert off + |ExtensionBytes(x)| == off + 4 + |x.value|;
      MoreTypes(read, x);
      if all.Ok? && DistinctTypes(all.value.items) { PrefixDistinct(read + [x], all.value.items); }
    }
  }

  /** The decoder's answer for the whole list, from the answer of the loop. */
  ghost predicate Answers(whole: Result<Section<Extension>>, error: Result<()>, extensions: seq<Extension>, off: nat)
  {
    match whole
    case Err(e) => error == Err(e)
    case Ok(s) => error.Ok? && off == s.end && extensions == s.items
  }

  lemma ExtensionsEnd(b: seq<byte>, off0: nat, count: nat, read: seq<Extension>, off: nat, seen: set<nat>)
    requires ExtensionsSoFar(b, ParseMany(b, off0, count, ExtensionAt, ExtensionBytes), read, off, 0, seen)
    ensures Answers(ParseExtensions(b, off0, count), Ok(()), read, off)
  {
    ProgressEnd(b, ParseMany(b, off0, count, ExtensionAt, ExtensionBytes), read, off, ExtensionAt, ExtensionBytes);
  }

  lemma ExtensionsRefused(b: seq<byte>, off0: nat, count: nat, read: seq<Extension>, off: nat, n: nat, seen: set<nat>)
    requires n > 0 && ExtensionsSoFar(b, ParseMany(b, off0, count, ExtensionAt, ExtensionBytes), read, off, n, seen)
    requires ExtensionAt(b, off).Ok? ==> ExtensionAt(b, off).value.kind in seen
    ensures ParseExtensions(b, off0, count) == Err(Malformed)
  {
    OnlyMalformed(b, off0, count);
    ExtensionsAdvance(b, ParseMany(b, off0, count, ExtensionAt, ExtensionBytes), read, off, n, seen);
  }

  /** One turn of the extension loop. */
  method ExtensionTurn(r: Reader, ghost off0: nat, ghost count: nat, ghost n: nat, read: seq<Extension>, seen: set<nat>)
    returns (error: Result<()>, read': seq<Extension>, seen': set<nat>)
    requires r.Valid() && !r.failed && n > 0
    requires ExtensionsSoFar(r.b, ParseMany(r.b, off0, count, ExtensionAt, ExtensionBytes), read, r.off, n, seen)
    modifies r
    ensures r.Valid()
    ensures error.Err? ==> error == Err(Malformed) && ParseExtensions(r.b, off0, count) == Err(Malformed)
    ensures error.Ok? ==>
              !r.failed && ExtensionsSoFar(r.b, ParseMany(r.b, off0, count, ExtensionAt, ExtensionBytes), read', r.off,
                n - 1, seen')
  {
    ghost var start := r.off;
    var x := ReadExtension(r);
    if r.failed || x.kind in seen {
      ExtensionsRefused(r.b, off0, count, read, start, n, seen);
      return Err(Malformed), read, seen;
    }
    ExtensionsAdvance(r.b, ParseMany(r.b, off0, count, ExtensionAt, ExtensionBytes), read, start, n, seen);
    return Ok(()), read + [x], seen + {x.kind};
  }

  method DecodeExtensions(r: Reader, count: nat) returns (error: Result<()>, extensions: seq<Extension>)
    requires r.Valid() && !r.failed
    modifies r
    ensures r.Valid() && (error.Ok? ==> !r.failed)
    ensures Answers(ParseExtensions(r.b, old(r.off), count), error, extensions, r.off)
  {
    ghost var off0 := r.off;
    ghost var all := ParseMany(r.b, off0, count, ExtensionAt, ExtensionBytes);
    ProgressStart(r.b, off0, count, ExtensionAt, ExtensionBytes);
    var seen: set<nat> := {};
    error, extensions := Ok(()), [];
    for i := 0 to count
      invariant r.Valid() && !r.failed && error.Ok?
      invariant ExtensionsSoFar(r.b, all, extensions, r.off, count - i, seen)
    {
      error, extensions, seen := ExtensionTurn(r, off0, count, count - i, extensions, seen);
      if error.Err? {
        return;
      }
    }
    ExtensionsEnd(r.b, off0, count, extensions, r.off, seen);
  }

  lemma {:induction false} OnlyMalformed(b: seq<byte>, off: nat, n: nat)
    ensures ParseMany(b, off, n, ExtensionAt, ExtensionBytes).Err? ==>
              ParseMany(b, off, n, ExtensionAt, ExtensionBytes).error == Malformed
    decreases n
  {
    if n > 0 && ExtensionAt(b, off).Ok? {
      OnlyMalformed(b, off + |ExtensionBytes(ExtensionAt(b, off).value)|, n - 1);
    }
  }

  /** decodeHeader computes the functional decoder, errors included. */
  method DecodeHeader(hdr: seq<byte>) returns (res: Result<Header>)
    ensures res == ParseHeader(hdr)
  {
    if |hdr| < CoreSize + 2 + CommitmentSize {
      return Err(Malformed);
    }
    var r := new Reader(hdr);
    var chunkSize := r.Uint(4);
    if chunkSize != ChunkSize {
      return Err(Unsupported);
    }
    var plaintextSize := r.Uint(8);
    var noncePrefix := r.Take(16);
    var doorCount := r.U8();
    var doorError, doors, opaqueRecords := DecodeDoors(r, doorCount);
    if doorError.Err? {
      return Err(doorError.error);
    }
    var extensionCount := r.U8();
    if r.failed {
      return Err(Malformed);
    }
    var extensionError, extensions := DecodeExtensions(r, extensionCount);
    if extensionError.Err? {
      return Err(extensionError.error);
    }
    if r.off + CommitmentSize != |hdr| {
      return Err(Malformed);
    }
    return Ok(Header(plaintextSize, noncePrefix, doors, opaqueRecords, extensions, hdr[r.off..], hdr[..r.off]));
  }

  /** decodeEnvelope, with the payload length checked in 64-bit arithmetic. */
  method Decode(raw: seq<byte>) returns (res: Result<Parsed>)
    requires |raw| <= Payload.MaxInt
    ensures res == DecodeEnvelope(raw)
  {
    if |raw| < PreambleSize {
      return Err(Malformed);
    }
    if raw[..8] != Magic {
      return Err(Malformed);
    }
    if FromBE(raw[8..10]) != FormatVersion {
      return Err(Unsupported);
    }
    if !SupportedKind(raw[10]) {
      return Err(Unsupported);
    }
    var headerLength := FromBE(raw[11..15]);
    if headerLength > MaxHeaderLength {
      return Err(Malformed);
    }
    var end := PreambleSize + headerLength;
    if end > |raw| {
      return Err(Malformed);
    }
    var header := DecodeHeader(raw[PreambleSize..end]);
    if header.Err? {
      return Err(header.error);
    }
    SizeFits(raw[PreambleSize..end]);
    var fits := LengthFits(header.value.plaintextSize, |raw| - end);
    if !fits {
      return Err(Malformed);
    }
    return Ok(Parsed(raw[10], header.value, raw[end..]));
  }

  /** The length check at the one supported chunk size. */
  method LengthFits(plaintextSize: nat, payloadLength: nat) returns (fits: bool)
    requires plaintextSize < Payload.Wrap && payloadLength <= Payload.MaxInt
    ensures fits <==> payloadLength == SealedLength(plaintextSize)
  {
    fits := Payload.CheckPayloadLength(plaintextSize, ChunkSize, payloadLength);
  }

  lemma SizeFits(hdr: seq<byte>)
    ensures ParseHeader(hdr).Ok? ==> ParseHeader(hdr).value.plaintextSize < Payload.Wrap
  {
    if |hdr| >= 12 {
      Widths();
      FromBEBound(hdr[4..12]);
    }
  }
}
