/** The payload framing of internal/crypt/envelope.go: one record per chunk and one empty final record,
    sealed under an ideal AEAD. */
module Payload {
  import opened Bytes
  import opened Envelope

  type Bs = seq<byte>

  /** The cipher as a parameter: key, nonce, text and associated data. */
  datatype Aead = Aead(seal: (Bs, Bs, Bs, Bs) -> Bs, open: (Bs, Bs, Bs, Bs) -> Result<Bs>)

  /** Opening inverts sealing and accepts nothing that was not sealed with the same inputs. */
  ghost predicate Ideal(a: Aead)
  {
    && (forall k, n, p, ad :: |a.seal(k, n, p, ad)| == |p| + TagSize && a.open(k, n, a.seal(k, n, p, ad), ad) == Ok(p))
    && (forall k, n, c, ad :: a.open(k, n, c, ad).Ok? ==> a.seal(k, n, a.open(k, n, c, ad).value, ad) == c)
  }

  /** What a payload is bound to. */
  datatype Context = Context(key: Bs, kind: byte, objectKey: Bs, core: Bs, noncePrefix: Bs)

  const RecordData: byte := 1
  const RecordFinal: byte := 2

  function Ascii(s: string): Bs { seq(|s|, i requires 0 <= i < |s| => if s[i] < 256 as char then s[i] as int else 0) }

  const PayloadDomain: Bs := Ascii("slivingdoc/envelope/payload/v1")

  function PayloadAD(x: Context, recordType: byte, counter: nat, length: nat): Bs
  {
    PayloadDomain + [0] + ToBE(2, FormatVersion) + [x.kind] + x.objectKey + x.core + [recordType] +
    ToBE(8, counter) + ToBE(4, length)
  }

  function NonceOf(x: Context, counter: nat): Bs { x.noncePrefix + ToBE(8, counter) }

  // ---- Framing, as a function of the plaintext ----

  function RecordCount(size: nat): nat { (size + ChunkSize - 1) / ChunkSize }

  function ChunkOf(p: Bs, c: nat): Bs
    requires c * ChunkSize <= |p|
  {
    if (c + 1) * ChunkSize <= |p| then p[c * ChunkSize..(c + 1) * ChunkSize] else p[c * ChunkSize..]
  }

  function SealRecord(a: Aead, x: Context, recordType: byte, c: nat, chunk: Bs): Bs
  {
    a.seal(x.key, NonceOf(x, c), chunk, PayloadAD(x, recordType, c, |chunk|))
  }

  function OpenRecord(a: Aead, x: Context, recordType: byte, c: nat, length: nat, record: Bs): Result<Bs>
  {
    a.open(x.key, NonceOf(x, c), record, PayloadAD(x, recordType, c, length))
  }

  /** The first c records, each made from its chunk. */
  function Frame(record: (nat, Bs) -> Bs, p: Bs, c: nat): Bs
    requires c * ChunkSize < |p| + ChunkSize
  {
    if c == 0 then [] else Frame(record, p, c - 1) + record(c - 1, ChunkOf(p, c - 1))
  }

  function DataRecord(a: Aead, x: Context): (nat, Bs) -> Bs { (c, chunk) => SealRecord(a, x, RecordData, c, chunk) }

  /** The first c data records. */
  function SealUpTo(a: Aead, x: Context, p: Bs, c: nat): Bs
    requires c * ChunkSize < |p| + ChunkSize
  {
    Frame(DataRecord(a, x), p, c)
  }

  function Sealed(a: Aead, x: Context, p: Bs): Bs
  {
    var n := RecordCount(|p|);
    SealUpTo(a, x, p, n) + SealRecord(a, x, RecordFinal, n, [])
  }

  /** Where record c starts. */
  function Offset(size: nat, c: nat): nat { (if c * ChunkSize <= size then c * ChunkSize else size) + c * TagSize }

  lemma {:induction false} UpToLength(a: Aead, x: Context, p: Bs, c: nat)
    requires Ideal(a) && c <= RecordCount(|p|)
    ensures |SealUpTo(a, x, p, c)| == Offset(|p|, c)
    decreases c
  {
    if c > 0 {
      UpToLength(a, x, p, c - 1);
      RecordOpens(a, x, RecordData, c - 1, ChunkOf(p, c - 1));
      OffsetStep(p, c);
    }
  }

  lemma OffsetStep(p: Bs, c: nat)
    requires 0 < c <= RecordCount(|p|)
    ensures Offset(|p|, c) == Offset(|p|, c - 1) + |ChunkOf(p, c - 1)| + TagSize
  {
  }

  /** The framed length is exactly what the decoder demands. */
  lemma SealedLengthIs(a: Aead, x: Context, p: Bs)
    requires Ideal(a)
    ensures |Sealed(a, x, p)| == SealedLength(|p|)
  {
    var n := RecordCount(|p|);
    UpToLength(a, x, p, n);
    assert |SealRecord(a, x, RecordFinal, n, [])| == TagSize;
  }

  lemma {:induction false} UpToIsPrefix(a: Aead, x: Context, p: Bs, c: nat, d: nat)
    requires c <= d <= RecordCount(|p|)
    ensures SealUpTo(a, x, p, c) <= SealUpTo(a, x, p, d)
    decreases d
  {
    if c < d { UpToIsPrefix(a, x, p, c, d - 1); }
  }

  function LengthOf(size: nat, c: nat): nat
    requires c * ChunkSize <= size
  {
    if (c + 1) * ChunkSize <= size then ChunkSize else size - c * ChunkSize
  }

  lemma RecordInPlace(a: Aead, x: Context, p: Bs, c: nat)
    requires c < RecordCount(|p|)
    ensures SealUpTo(a, x, p, c) + SealRecord(a, x, RecordData, c, ChunkOf(p, c)) <= Sealed(a, x, p)
  {
    UpToIsPrefix(a, x, p, c + 1, RecordCount(|p|));
  }

  lemma RecordOpens(a: Aead, x: Context, recordType: byte, c: nat, chunk: Bs)
    requires Ideal(a)
    ensures |SealRecord(a, x, recordType, c, chunk)| == |chunk| + TagSize
    ensures OpenRecord(a, x, recordType, c, |chunk|, SealRecord(a, x, recordType, c, chunk)) == Ok(chunk)
  {
  }

  /** Record c of a framed payload sits at its offset and opens to chunk c. */
  lemma RecordSlice(a: Aead, x: Context, p: Bs, c: nat)
    requires Ideal(a) && c < RecordCount(|p|)
    ensures var lo := Offset(|p|, c); var length := LengthOf(|p|, c); var s := Sealed(a, x, p);
            lo + length + TagSize <= |s| &&
            OpenRecord(a, x, RecordData, c, length, s[lo..lo + length + TagSize]) == Ok(ChunkOf(p, c))
  {
    var chunk := ChunkOf(p, c);
    assert |chunk| == LengthOf(|p|, c);
    RecordOpens(a, x, RecordData, c, chunk);
    UpToLength(a, x, p, c);
    RecordInPlace(a, x, p, c);
    SlicePrefix(Sealed(a, x, p), SealUpTo(a, x, p, c), SealRecord(a, x, RecordData, c, chunk));
  }

  lemma SlicePrefix(s: Bs, before: Bs, record: Bs)
    requires before + record <= s
    ensures |before| + |record| <= |s| && s[|before|..|before| + |record|] == record
  {
    assert s[..|before| + |record|] == before + record;
    assert s[|before|..|before| + |record|] == s[..|before| + |record|][|before|..];
  }

  lemma FinalSlice(a: Aead, x: Context, p: Bs)
    requires Ideal(a)
    ensures var n := RecordCount(|p|); var s := Sealed(a, x, p);
            Offset(|p|, n) <= |s| && OpenRecord(a, x, RecordFinal, n, 0, s[Offset(|p|, n)..]) == Ok([])
  {
    var n := RecordCount(|p|);
    UpToLength(a, x, p, n);
    assert Sealed(a, x, p)[Offset(|p|, n)..] == SealRecord(a, x, RecordFinal, n, []);
  }

  /** Where a payload holds chunk c: its 65536 bytes, or the rest, under counter c, behind c tags. */
  lemma DataRecordAt(a: Aead, x: Context, p: Bs, c: nat)
    requires Ideal(a) && c * 0x1_0000 < |p|
    ensures var s, lo := Sealed(a, x, p), c * 0x1_0000;
            var hi := if lo + 0x1_0000 <= |p| then lo + 0x1_0000 else |p|;
            && hi + c * 16 + 16 <= |s|
            && s[lo + c * 16..hi + c * 16 + 16] ==
               a.seal(x.key, x.noncePrefix + ToBE(8, c), p[lo..hi], PayloadAD(x, 1, c, hi - lo))
  {
    ChunkBounds(p, c);
    RecordAtOffset(a, x, p, c);
  }

  lemma ChunkBounds(p: Bs, c: nat)
    requires c * 0x1_0000 < |p|
    ensures var lo := c * 0x1_0000; var hi := if lo + 0x1_0000 <= |p| then lo + 0x1_0000 else |p|;
            && ChunkOf(p, c) == p[lo..hi] && |ChunkOf(p, c)| == hi - lo
            && c < RecordCount(|p|) && Offset(|p|, c) == lo + c * 16
  {
  }

  lemma RecordAtOffset(a: Aead, x: Context, p: Bs, c: nat)
    requires Ideal(a) && c < RecordCount(|p|)
    ensures var lo, chunk := Offset(|p|, c), ChunkOf(p, c);
            && lo + |chunk| + 16 <= |Sealed(a, x, p)|
            && Sealed(a, x, p)[lo..lo + |chunk| + 16] == SealRecord(a, x, RecordData, c, chunk)
  {
    RecordOpens(a, x, RecordData, c, ChunkOf(p, c));
    UpToLength(a, x, p, c);
    RecordInPlace(a, x, p, c);
    SlicePrefix(Sealed(a, x, p), SealUpTo(a, x, p, c), SealRecord(a, x, RecordData, c, ChunkOf(p, c)));
  }

  /** One empty record of the final type ends the payload, under the counter after the last chunk's. */
  lemma FinalRecordAt(a: Aead, x: Context, p: Bs, n: nat)
    requires Ideal(a) && |p| <= n * 0x1_0000 < |p| + 0x1_0000
    ensures var s, end := Sealed(a, x, p), |p| + n * 16;
            && |s| == end + 16
            && s[end..] == a.seal(x.key, x.noncePrefix + ToBE(8, n), [], PayloadAD(x, 2, n, 0))
  {
    assert n == RecordCount(|p|);
    UpToLength(a, x, p, n);
    assert Offset(|p|, n) == |p| + n * 16;
    assert Sealed(a, x, p)[Offset(|p|, n)..] == SealRecord(a, x, RecordFinal, n, []);
  }

  lemma SameChunks(p: Bs, q: Bs)
    requires |p| == |q| && forall c :: 0 <= c < RecordCount(|p|) ==> ChunkOf(p, c) == ChunkOf(q, c)
    ensures p == q
  {
    forall i | 0 <= i < |p| ensures p[i] == q[i] {
      var c := i / ChunkSize;
      assert ChunkOf(p, c) == ChunkOf(q, c);
      assert p[i] == ChunkOf(p, c)[i - c * ChunkSize] && q[i] == ChunkOf(q, c)[i - c * ChunkSize];
    }
  }

  lemma SameChunkAt(a: Aead, x: Context, p: Bs, q: Bs, c: nat)
    requires Ideal(a) && |p| == |q| && Sealed(a, x, p) == Sealed(a, x, q) && c < RecordCount(|p|)
    ensures ChunkOf(p, c) == ChunkOf(q, c)
  {
    var s, lo, length := Sealed(a, x, p), Offset(|p|, c), LengthOf(|p|, c);
    RecordSlice(a, x, p, c);
    RecordSlice(a, x, q, c);
    assert OpenRecord(a, x, RecordData, c, length, s[lo..lo + length + TagSize]) == Ok(ChunkOf(p, c));
  }

  /** One key, context and payload stand for at most one plaintext of the declared size. */
  lemma SealedInjective(a: Aead, x: Context, p: Bs, q: Bs)
    requires Ideal(a) && |p| == |q| && Sealed(a, x, p) == Sealed(a, x, q)
    ensures p == q
  {
    forall c | 0 <= c < RecordCount(|p|) ensures ChunkOf(p, c) == ChunkOf(q, c) { SameChunkAt(a, x, p, q, c); }
    SameChunks(p, q);
  }

  /** What opening answers: the plaintext this payload frames, if there is one of the declared size. */
  ghost function Opened(a: Aead, x: Context, payload: Bs, size: nat): Result<Bs>
  {
    if exists p :: |p| == size && Sealed(a, x, p) == payload
    then var p :| |p| == size && Sealed(a, x, p) == payload; Ok(p)
    else Err(Authentication)
  }

  lemma OpenedOfSealed(a: Aead, x: Context, p: Bs)
    requires Ideal(a)
    ensures Opened(a, x, Sealed(a, x, p), |p|) == Ok(p)
  {
    var q := Opened(a, x, Sealed(a, x, p), |p|).value;
    SealedInjective(a, x, p, q);
  }

  // ---- The loops ----

  const Wrap: nat := 0x1_0000_0000_0000_0000
  const MaxInt: nat := 0x7FFF_FFFF_FFFF_FFFF

  /** The record count in 64-bit arithmetic. */
  function RecordCount64(size: nat, chunkSize: nat): nat
    requires chunkSize > 0
  {
    (size + chunkSize - 1) % Wrap / chunkSize
  }

  lemma RecordCountFits(size: nat)
    requires size <= MaxInt
    ensures RecordCount64(size, ChunkSize) == RecordCount(size)
  {
  }

  /** The framed length at any chunk size, over unbounded integers. */
  function FramedLength(size: nat, chunkSize: nat): nat
    requires chunkSize > 0
  {
    size + ((size + chunkSize - 1) / chunkSize + 1) * TagSize
  }

  /** checkPayloadLength in 64-bit arithmetic: it demands the framed length reduced to 64 bits. */
  method CheckPayloadLength(plaintextSize: nat, chunkSize: nat, payloadLength: nat) returns (ok: bool)
    requires plaintextSize < Wrap && 0 < chunkSize < 0x1_0000_0000 && payloadLength <= MaxInt
    ensures ok <==> plaintextSize <= payloadLength && payloadLength == FramedLength(plaintextSize, chunkSize) % Wrap
    ensures chunkSize >= 32 ==> (ok <==> payloadLength == FramedLength(plaintextSize, chunkSize))
  {
    FramedLengthBounds(plaintextSize, chunkSize);
    if plaintextSize > payloadLength {
      return false;
    }
    var dataRecords := RecordCount64(plaintextSize, chunkSize);
    var want := (plaintextSize + (dataRecords + 1) * TagSize % Wrap) % Wrap;
    SumFits(plaintextSize, chunkSize);
    ModSum(plaintextSize, (dataRecords + 1) * TagSize);
    return want == payloadLength;
  }

  lemma SumFits(size: nat, chunkSize: nat)
    requires size <= MaxInt && 0 < chunkSize < 0x1_0000_0000
    ensures RecordCount64(size, chunkSize) == (size + chunkSize - 1) / chunkSize
  {
    assert (size + chunkSize - 1) % Wrap == size + chunkSize - 1;
  }

  lemma ModSum(a: nat, b: nat)
    ensures (a + b % Wrap) % Wrap == (a + b) % Wrap
  {
  }

  lemma {:induction false} ScaledBound(q: nat, n: nat)
    requires n >= 32
    ensures 32 * q <= n * q
  {
    if q > 0 {
      ScaledBound(q - 1, n);
      assert n * q == n * (q - 1) + n;
    }
  }

  lemma QuotientBound(a: nat, n: nat)
    requires n >= 32
    ensures 32 * (a / n) <= a
  {
    ScaledBound(a / n, n);
  }

  /** From 32 bytes a chunk on, the tags of a plaintext that fits an int do not overflow 64 bits. */
  lemma FramedLengthBounds(size: nat, chunkSize: nat)
    requires 0 < chunkSize < 0x1_0000_0000
    ensures size < FramedLength(size, chunkSize)
    ensures size <= MaxInt && chunkSize >= 32 ==> FramedLength(size, chunkSize) % Wrap == FramedLength(size, chunkSize)
  {
    if chunkSize >= 32 { QuotientBound(size + chunkSize - 1, chunkSize); }
  }

  /** With one-byte chunks the demanded length wraps, and a payload far too short is accepted. */
  lemma SmallChunksWrap()
    ensures var size := 0x1000_0000_0000_0000; FramedLength(size, 1) % Wrap == size + TagSize < FramedLength(size, 1)
  {
  }

  /** sealPayload. */
  method SealPayload(a: Aead, x: Context, plaintext: Bs) returns (out: Bs)
    requires |plaintext| <= MaxInt
    ensures out == Sealed(a, x, plaintext)
  {
    var dataRecords := RecordCount64(|plaintext|, ChunkSize);
    RecordCountFits(|plaintext|);
    out := [];
    for counter := 0 to dataRecords
      invariant out == SealUpTo(a, x, plaintext, counter)
    {
      var start := counter * ChunkSize;
      var end := if start + ChunkSize <= |plaintext| then start + ChunkSize else |plaintext|;
      var chunk := plaintext[start..end];
      ChunkIs(plaintext, counter, chunk);
      out := out + SealRecord(a, x, RecordData, counter, chunk);
    }
    out := out + SealRecord(a, x, RecordFinal, dataRecords, []);
  }

  lemma ChunkIs(p: Bs, c: nat, chunk: Bs)
    requires c < RecordCount(|p|)
    requires chunk == p[c * ChunkSize..if c * ChunkSize + ChunkSize <= |p| then c * ChunkSize + ChunkSize else |p|]
    ensures chunk == ChunkOf(p, c)
  {
  }

  lemma ChunkOfPrefix(q: Bs, r: Bs, c: nat)
    requires (c + 1) * ChunkSize <= |q|
    ensures ChunkOf(q + r, c) == ChunkOf(q, c)
  {
  }

  /** Records made so far do not depend on the chunks that follow. */
  lemma {:induction false} FrameOfPrefix(record: (nat, Bs) -> Bs, q: Bs, r: Bs, c: nat)
    requires c * ChunkSize <= |q|
    ensures Frame(record, q + r, c) == Frame(record, q, c)
    decreases c
  {
    if c > 0 {
      FrameOfPrefix(record, q, r, c - 1);
      ChunkOfPrefix(q, r, c - 1);
    }
  }

  /** The chunks opened so far, and the payload bytes they account for. */
  ghost predicate OpenedSoFar(a: Aead, x: Context, payload: Bs, size: nat, c: nat, q: Bs)
  {
    && |q| == Offset(size, c) - c * TagSize && c <= RecordCount(|q|)
    && Offset(size, c) <= |payload| && payload[..Offset(size, c)] == SealUpTo(a, x, q, c)
  }

  /** What record c of a payload of the right length opens to. */
  function OpenAt(a: Aead, x: Context, payload: Bs, size: nat, c: nat): Result<Bs>
    requires c <= RecordCount(size) && |payload| == SealedLength(size)
  {
    var lo := Offset(size, c);
    if c == RecordCount(size) then OpenRecord(a, x, RecordFinal, c, 0, payload[lo..])
    else var length := LengthOf(size, c); OpenRecord(a, x, RecordData, c, length, payload[lo..lo + length + TagSize])
  }

  /** A record that opens was sealed with the same inputs. */
  lemma OpenedRecord(a: Aead, x: Context, t: byte, c: nat, length: nat, record: Bs)
    requires Ideal(a) && |record| == length + TagSize && OpenRecord(a, x, t, c, length, record).Ok?
    ensures var chunk := OpenRecord(a, x, t, c, length, record).value;
            |chunk| == length && record == SealRecord(a, x, t, c, chunk)
  {
    var chunk := OpenRecord(a, x, t, c, length, record).value;
    assert a.seal(x.key, NonceOf(x, c), chunk, PayloadAD(x, t, c, length)) == record;
  }

  lemma OffsetNext(size: nat, c: nat)
    requires c < RecordCount(size)
    ensures Offset(size, c) == c * ChunkSize + c * TagSize
    ensures Offset(size, c + 1) == Offset(size, c) + LengthOf(size, c) + TagSize <= SealedLength(size)
    ensures 0 < LengthOf(size, c) <= ChunkSize
  {
  }

  lemma ChunkOfJoined(q: Bs, chunk: Bs, c: nat)
    requires |q| == c * ChunkSize && 0 < |chunk| <= ChunkSize
    ensures c + 1 <= RecordCount(|q + chunk|) && ChunkOf(q + chunk, c) == chunk
  {
    assert (q + chunk)[|q|..] == chunk;
  }

  lemma Extend(a: Aead, x: Context, payload: Bs, size: nat, c: nat, q: Bs, chunk: Bs)
    requires c < RecordCount(size) && |payload| == SealedLength(size) && OpenedSoFar(a, x, payload, size, c, q)
    requires var lo := Offset(size, c); var length := LengthOf(size, c);
             |chunk| == length && payload[lo..lo + length + TagSize] == SealRecord(a, x, RecordData, c, chunk)
    ensures OpenedSoFar(a, x, payload, size, c + 1, q + chunk)
  {
    OffsetNext(size, c);
    ChunkOfJoined(q, chunk, c);
    FrameOfPrefix(DataRecord(a, x), q, chunk, c);
    var lo, hi := Offset(size, c), Offset(size, c + 1);
    assert payload[..hi] == payload[..lo] + payload[lo..hi];
  }

  lemma OpenNext(a: Aead, x: Context, payload: Bs, size: nat, c: nat, q: Bs)
    requires Ideal(a) && c < RecordCount(size) && |payload| == SealedLength(size)
    requires OpenedSoFar(a, x, payload, size, c, q)
    requires OpenAt(a, x, payload, size, c).Ok?
    ensures OpenedSoFar(a, x, payload, size, c + 1, q + OpenAt(a, x, payload, size, c).value)
  {
    var lo, length := Offset(size, c), LengthOf(size, c);
    OpenedRecord(a, x, RecordData, c, length, payload[lo..lo + length + TagSize]);
    Extend(a, x, payload, size, c, q, OpenAt(a, x, payload, size, c).value);
  }

  lemma SealedOpensAt(a: Aead, x: Context, p: Bs, c: nat)
    requires Ideal(a) && c <= RecordCount(|p|)
    ensures |Sealed(a, x, p)| == SealedLength(|p|) && OpenAt(a, x, Sealed(a, x, p), |p|, c).Ok?
  {
    SealedLengthIs(a, x, p);
    if c < RecordCount(|p|) { RecordSlice(a, x, p, c); } else { FinalSlice(a, x, p); }
  }

  /** If some plaintext frames to the payload, every record of it opens. */
  lemma MustOpen(a: Aead, x: Context, payload: Bs, size: nat, c: nat)
    requires Ideal(a) && c <= RecordCount(size) && |payload| == SealedLength(size)
    requires OpenAt(a, x, payload, size, c).Err?
    ensures Opened(a, x, payload, size) == Err(Authentication)
  {
    forall p | |p| == size ensures Sealed(a, x, p) != payload { SealedOpensAt(a, x, p, c); }
  }

  lemma OpenDone(a: Aead, x: Context, payload: Bs, size: nat, q: Bs)
    requires Ideal(a) && |payload| == SealedLength(size)
    requires var n := RecordCount(size); OpenedSoFar(a, x, payload, size, n, q) && OpenAt(a, x, payload, size, n).Ok?
    ensures |q| == size && Sealed(a, x, q) == payload && Opened(a, x, payload, size) == Ok(q)
  {
    var n := RecordCount(size);
    var lo := Offset(size, n);
    OpenedRecord(a, x, RecordFinal, n, 0, payload[lo..]);
    assert payload == payload[..lo] + payload[lo..];
    OpenedOfSealed(a, x, q);
  }

  /** One turn of the opening loop. */
  method OpenChunk(a: Aead, x: Context, payload: Bs, plaintextSize: nat, dataRecords: nat, counter: nat, offset: nat)
    returns (length: nat, chunk: Result<Bs>)
    requires |payload| == SealedLength(plaintextSize) && dataRecords == RecordCount(plaintextSize)
    requires counter < dataRecords && offset == Offset(plaintextSize, counter)
    ensures chunk == OpenAt(a, x, payload, plaintextSize, counter)
    ensures offset + length + TagSize == Offset(plaintextSize, counter + 1)
  {
    length := ChunkSize;
    if counter == dataRecords - 1 {
      length := plaintextSize - counter * ChunkSize;
    }
    assert length == LengthOf(plaintextSize, counter);
    chunk := OpenRecord(a, x, RecordData, counter, length, payload[offset..offset + length + TagSize]);
  }

  /** openPayload: every slice is in range, and it answers exactly the plaintext the payload frames. */
  method OpenPayload(a: Aead, x: Context, payload: Bs, plaintextSize: nat) returns (r: Result<Bs>)
    requires Ideal(a) && |payload| == SealedLength(plaintextSize) && |payload| <= MaxInt
    ensures r == Opened(a, x, payload, plaintextSize)
  {
    var dataRecords := RecordCount64(plaintextSize, ChunkSize);
    RecordCountFits(plaintextSize);
    var plaintext: Bs := [];
    var offset := 0;
    for counter := 0 to dataRecords
      invariant offset == Offset(plaintextSize, counter)
      invariant OpenedSoFar(a, x, payload, plaintextSize, counter, plaintext)
    {
      var length, chunk := OpenChunk(a, x, payload, plaintextSize, dataRecords, counter, offset);
      if chunk.Err? {
        MustOpen(a, x, payload, plaintextSize, counter);
        return Err(Authentication);
      }
      OpenNext(a, x, payload, plaintextSize, counter, plaintext);
      plaintext := plaintext + chunk.value;
      offset := offset + length + TagSize;
    }
    var final := OpenRecord(a, x, RecordFinal, dataRecords, 0, payload[offset..]);
    assert final == OpenAt(a, x, payload, plaintextSize, dataRecords);
    if final.Err? {
      MustOpen(a, x, payload, plaintextSize, dataRecords);
      return Err(Authentication);
    }
    OpenDone(a, x, payload, plaintextSize, plaintext);
    return Ok(plaintext);
  }

  // ---- What the associated data binds ----

  predicate Bound(x: Context) { |x.core| == CoreSize }

  /** Equal associated data means the same kind, object, core, record type, counter and length. */
  lemma AssociatedDataInjective(x: Context, t: byte, c: nat, n: nat, x': Context, t': byte, c': nat, n': nat)
    requires Bound(x) && Bound(x') && c < Wrap && c' < Wrap && n < 0x1_0000_0000 && n' < 0x1_0000_0000
    requires PayloadAD(x, t, c, n) == PayloadAD(x', t', c', n')
    ensures x.kind == x'.kind && x.objectKey == x'.objectKey && x.core == x'.core && t == t' && c == c' && n == n'
  {
    var head := PayloadDomain + [0] + ToBE(2, FormatVersion);
    PeelLast(head + [x.kind] + x.objectKey + x.core + [t] + ToBE(8, c), ToBE(4, n),
      head + [x'.kind] + x'.objectKey + x'.core + [t'] + ToBE(8, c'), ToBE(4, n'));
    PeelLast(head + [x.kind] + x.objectKey + x.core + [t], ToBE(8, c),
      head + [x'.kind] + x'.objectKey + x'.core + [t'], ToBE(8, c'));
    PeelLast(head + [x.kind] + x.objectKey + x.core, [t], head + [x'.kind] + x'.objectKey + x'.core, [t']);
    PeelLast(head + [x.kind] + x.objectKey, x.core, head + [x'.kind] + x'.objectKey, x'.core);
    PeelFirst(head + [x.kind], x.objectKey, head + [x'.kind], x'.objectKey);
    PeelLast(head, [x.kind], head, [x'.kind]);
    Widths();
    ToBEInjective(4, n, n');
    ToBEInjective(8, c, c');
    assert [t][0] == [t'][0] && [x.kind][0] == [x'.kind][0];
  }

  lemma PeelLast(a: Bs, b: Bs, c: Bs, d: Bs)
    requires a + b == c + d && |b| == |d|
    ensures a == c && b == d
  {
    PeelFirst(a, b, c, d);
  }

  lemma PeelFirst(a: Bs, b: Bs, c: Bs, d: Bs)
    requires a + b == c + d && (|a| == |c| || |b| == |d|)
    ensures a == c && b == d
  {
    assert |a| + |b| == |c| + |d|;
    assert (a + b)[..|a|] == a && (c + d)[..|c|] == c && (a + b)[|a|..] == b && (c + d)[|c|..] == d;
  }

  /** No two records of one payload share a nonce. */
  lemma NoncesDistinct(x: Context, c: nat, d: nat)
    requires c < d < Wrap
    ensures NonceOf(x, c) != NonceOf(x, d)
  {
    if NonceOf(x, c) == NonceOf(x, d) {
      PeelFirst(x.noncePrefix, ToBE(8, c), x.noncePrefix, ToBE(8, d));
      Widths();
      ToBEInjective(8, c, d);
    }
  }
}
