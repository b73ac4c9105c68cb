/** Sealing, opening and rewriting whole envelopes (internal/crypt/keyring.go, header.go). */
module Keyring {
  import opened Bytes
  import opened Envelope
  import opened EnvelopeCodec
  import opened Payload

  /** The primitives as parameters: the cipher, key derivation, the header MAC and the password KDF,
      which may fail for reasons outside the model. */
  datatype Crypto = Crypto(aead: Aead, derive: (Bs, Bs) -> Bs, mac: (Bs, Bs) -> Bs,
                           kek: (Bs, Bs, nat, nat, byte) -> Result<Bs>)

  ghost predicate IdealCrypto(cr: Crypto)
  {
    Ideal(cr.aead) && forall k, t :: |cr.mac(k, t)| == CommitmentSize
  }

  const HkdfDomain: Bs := Ascii("slivingdoc/envelope/v1/")
  const HeaderDomain: Bs := Ascii("slivingdoc/envelope/header/v1")
  const WrapDomain: Bs := Ascii("slivingdoc/envelope/wrap/v1")
  const HeaderPurpose: Bs := Ascii("header-mac")
  const PayloadPurpose: Bs := Ascii("payload-aead")
  const CurrentEnvelopeLimit: nat := 0x10_0000
  const CurrentWrapperOverhead: nat := 27

  predicate IsAscii(s: Bs) { forall i :: 0 <= i < |s| ==> s[i] < 0x80 }

  function EncodeObjectKey(objectKey: Bs): Result<Bs>
  {
    if objectKey == [] then Err(Malformed)
    else if |objectKey| > 0xFFFF then Err(Malformed)
    else if !IsAscii(objectKey) then Err(Malformed)
    else Ok(ToBE(2, |objectKey|) + objectKey)
  }

  lemma ObjectKeysDiffer(a: Bs, b: Bs)
    requires EncodeObjectKey(a).Ok? && EncodeObjectKey(a) == EncodeObjectKey(b)
    ensures a == b
  {
    PeelFirst(ToBE(2, |a|), a, ToBE(2, |b|), b);
  }

  function DeriveInfo(purpose: Bs, encodedKey: Bs): Bs { HkdfDomain + purpose + [0] + encodedKey }

  /** The notebook key expanded for one purpose and one object. */
  function DerivedKey(cr: Crypto, key: Bs, purpose: Bs, encodedKey: Bs): Bs
  {
    cr.derive(key, DeriveInfo(purpose, encodedKey))
  }

  function Transcript(kind: byte, encodedKey: Bs, body: Bs): Bs
  {
    HeaderDomain + [0] + ToBE(2, FormatVersion) + [kind] + encodedKey + body
  }

  /** The header commitment as a function of the body. */
  function Commit(cr: Crypto, key: Bs, kind: byte, encodedKey: Bs): Bs -> Bs
  {
    body => cr.mac(DerivedKey(cr, key, HeaderPurpose, encodedKey), Transcript(kind, encodedKey, body))
  }

  function PayloadContext(cr: Crypto, key: Bs, kind: byte, encodedKey: Bs, core: Bs, noncePrefix: Bs): Context
  {
    Context(DerivedKey(cr, key, PayloadPurpose, encodedKey), kind, encodedKey, core, noncePrefix)
  }

  /** The base64 wrapper of the stored current object. */
  function WrappedCurrentSize(n: nat): nat { CurrentWrapperOverhead + (n + 2) / 3 * 4 }

  function CheckSize(kind: byte, written: Result<Bs>): Result<Bs>
  {
    if written.Ok? && kind == KindCurrent && WrappedCurrentSize(|written.value|) > CurrentEnvelopeLimit
    then Err(TooLarge) else written
  }

  // ---- The three operations, as functions ----

  function SealEnvelope(cr: Crypto, held: Result<Bs>, objectKey: Bs, kind: byte, plaintext: Bs, doors: seq<Door>,
                        extensions: seq<Extension>, nonce: Bs): Result<Bs>
  {
    if !SupportedKind(kind) then Err(Unsupported)
    else match EncodeObjectKey(objectKey)
      case Err(e) => Err(e)
      case Ok(encodedKey) =>
        match held
        case Err(e) => Err(e)
        case Ok(key) =>
          var core := Core(|plaintext|, nonce);
          var payload := Sealed(cr.aead, PayloadContext(cr, key, kind, encodedKey, core, nonce), plaintext);
          CheckSize(kind, Write(kind, core, doors, [], extensions, Commit(cr, key, kind, encodedKey), payload))
  }

  datatype Content = Content(plaintext: Bs, header: Header)

  /** Opening a parsed envelope with a known key. */
  ghost function OpenParsed(cr: Crypto, key: Bs, encodedKey: Bs, p: Parsed): Result<Content>
    requires |p.header.body| >= CoreSize
  {
    if p.header.commitment != Commit(cr, key, p.kind, encodedKey)(p.header.body) then Err(Authentication)
    else match Opened(cr.aead, PayloadContext(cr, key, p.kind, encodedKey, p.header.body[..CoreSize],
      p.header.noncePrefix), p.payload, p.header.plaintextSize)
      case Err(e) => Err(e)
      case Ok(plaintext) => Ok(Content(plaintext, p.header))
  }

  ghost function OpenEnvelope(cr: Crypto, key: Bs, objectKey: Bs, envelope: Bs): Result<Content>
  {
    match DecodeEnvelope(envelope)
    case Err(e) => Err(e)
    case Ok(p) =>
      match EncodeObjectKey(objectKey)
      case Err(e) => Err(e)
      case Ok(encodedKey) => OpenParsed(cr, key, encodedKey, p)
  }

  function RewrapEnvelope(cr: Crypto, held: Result<Bs>, objectKey: Bs, envelope: Bs, doors: seq<Door>): Result<Bs>
  {
    match DecodeEnvelope(envelope)
    case Err(e) => Err(e)
    case Ok(p) =>
      match EncodeObjectKey(objectKey)
      case Err(e) => Err(e)
      case Ok(encodedKey) =>
        match held
        case Err(e) => Err(e)
        case Ok(key) =>
          var commit := Commit(cr, key, p.kind, encodedKey);
          if p.header.commitment != commit(p.header.body) then Err(Authentication)
          else CheckSize(p.kind, Write(p.kind, p.header.body[..CoreSize], doors, p.header.unknown, p.header.extensions,
            commit, p.payload))
  }

  /** A current object never outgrows its limit: it is written exactly when its base64 groups and the wrapper
      around them stay within one MiB, and a pack has no such limit. */
  lemma CurrentFits(kind: byte, written: Bs, groups: nat)
    requires 3 * groups < |written| + 3 <= 3 * groups + 3
    ensures CheckSize(kind, Ok(written)) ==
            if kind == 1 && 27 + 4 * groups > 0x10_0000 then Err(TooLarge) else Ok(written)
  {
    assert (|written| + 2) / 3 == groups;
  }

  predicate DoorsShaped(doors: seq<Door>) { forall d :: d in doors ==> d.Shaped() }

  /** What every opened envelope promises about its inputs. */
  predicate SealInputs(plaintext: Bs, doors: seq<Door>, extensions: seq<Extension>, nonce: Bs)
  {
    |plaintext| < Wrap && DoorsShaped(doors) && |nonce| == 16 && forall e :: e in extensions ==> e.Shaped()
  }

  lemma CommitCommits(cr: Crypto, key: Bs, kind: byte, encodedKey: Bs)
    requires IdealCrypto(cr)
    ensures Committing(Commit(cr, key, kind, encodedKey))
  {
    var commit := Commit(cr, key, kind, encodedKey);
    forall body ensures |commit(body)| == CommitmentSize {
      assert commit(body) == cr.mac(DerivedKey(cr, key, HeaderPurpose, encodedKey), Transcript(kind, encodedKey, body));
    }
  }

  /** A sealed envelope decodes to what was sealed, unless an extension type repeats. */
  lemma SealDecodes(cr: Crypto, key: Bs, objectKey: Bs, kind: byte, plaintext: Bs, doors: seq<Door>,
                    extensions: seq<Extension>, nonce: Bs)
    requires IdealCrypto(cr) && SealInputs(plaintext, doors, extensions, nonce)
    requires SealEnvelope(cr, Ok(key), objectKey, kind, plaintext, doors, extensions, nonce).Ok?
    ensures var raw := SealEnvelope(cr, Ok(key), objectKey, kind, plaintext, doors, extensions, nonce).value;
            var encodedKey := EncodeObjectKey(objectKey).value; var core := Core(|plaintext|, nonce);
            if !DistinctTypes(extensions) then DecodeEnvelope(raw) == Err(Malformed)
            else
              && DecodeEnvelope(raw).Ok?
              && var p := DecodeEnvelope(raw).value;
                 && p.kind == kind
                 && p.payload == Sealed(cr.aead, PayloadContext(cr, key, kind, encodedKey, core, nonce), plaintext)
                 && p.header.plaintextSize == |plaintext| && p.header.noncePrefix == nonce && p.header.doors == doors
                 && p.header.unknown == []
                 && p.header.extensions == extensions && p.header.body[..CoreSize] == core
                 && p.header.commitment == Commit(cr, key, kind, encodedKey)(p.header.body)
  {
    var encodedKey := EncodeObjectKey(objectKey).value;
    var core := Core(|plaintext|, nonce);
    var x := PayloadContext(cr, key, kind, encodedKey, core, nonce);
    SealedLengthIs(cr.aead, x, plaintext);
    CommitCommits(cr, key, kind, encodedKey);
    assert Mapped<Record>([], RecordBytes) == [];
    DecodeInvertsWrite(kind, |plaintext|, nonce, doors, [], extensions, Commit(cr, key, kind, encodedKey),
      Sealed(cr.aead, x, plaintext));
  }

  /** Opening what was sealed under the same key and object key gives the plaintext, the doors and the
      extensions back; a repeated extension type is the only way to lose them. */
  lemma OpenInvertsSeal(cr: Crypto, key: Bs, objectKey: Bs, kind: byte, plaintext: Bs, doors: seq<Door>,
                        extensions: seq<Extension>, nonce: Bs)
    requires IdealCrypto(cr) && SealInputs(plaintext, doors, extensions, nonce)
    requires SealEnvelope(cr, Ok(key), objectKey, kind, plaintext, doors, extensions, nonce).Ok?
    ensures var raw := SealEnvelope(cr, Ok(key), objectKey, kind, plaintext, doors, extensions, nonce).value;
            if !DistinctTypes(extensions) then OpenEnvelope(cr, key, objectKey, raw) == Err(Malformed)
            else
              && OpenEnvelope(cr, key, objectKey, raw).Ok?
              && var c := OpenEnvelope(cr, key, objectKey, raw).value;
                 c.plaintext == plaintext && c.header.doors == doors && c.header.extensions == extensions
  {
    SealDecodes(cr, key, objectKey, kind, plaintext, doors, extensions, nonce);
    var encodedKey := EncodeObjectKey(objectKey).value;
    OpenedOfSealed(cr.aead, PayloadContext(cr, key, kind, encodedKey, Core(|plaintext|, nonce), nonce), plaintext);
  }

  /** An envelope sealed without extensions always decodes. */
  lemma SealedWithoutExtensionsDecodes(cr: Crypto, key: Bs, objectKey: Bs, kind: byte, plaintext: Bs,
                                       doors: seq<Door>, nonce: Bs)
    requires IdealCrypto(cr) && SealInputs(plaintext, doors, [], nonce)
    requires SealEnvelope(cr, Ok(key), objectKey, kind, plaintext, doors, [], nonce).Ok?
    ensures DecodeEnvelope(SealEnvelope(cr, Ok(key), objectKey, kind, plaintext, doors, [], nonce).value).Ok?
  {
    SealDecodes(cr, key, objectKey, kind, plaintext, doors, [], nonce);
  }

  /** Every accepted envelope can be written again with the parts that were read. */
  lemma AcceptedParts(envelope: Bs) returns (unknown: seq<Record>)
    requires DecodeEnvelope(envelope).Ok?
    ensures var p := DecodeEnvelope(envelope).value;
            && p.header.unknown == Mapped(unknown, RecordBytes) && Unknown(unknown) == unknown && Known(unknown) == []
            && WriteInputs(p.kind, p.header.plaintextSize, p.header.noncePrefix, [], unknown, p.header.extensions,
              p.payload)
            && DistinctTypes(p.header.extensions)
            && p.header.body[..CoreSize] == Core(p.header.plaintextSize, p.header.noncePrefix)
  {
    var w := DecodeAccepted(envelope);
    WrittenBody(w.(commitment := []), w);
    UnknownOnly(w.records);
    unknown := Unknown(w.records);
    assert forall e :: e in w.extensions ==> ExtensionOk(e);
  }

  /** Rewriting the doors of any accepted envelope keeps its kind, core, extensions, opaque records and
      payload, and installs exactly the given doors under a fresh commitment. */
  lemma RewrapKeeps(cr: Crypto, key: Bs, objectKey: Bs, envelope: Bs, doors: seq<Door>)
    requires IdealCrypto(cr) && DoorsShaped(doors) && RewrapEnvelope(cr, Ok(key), objectKey, envelope, doors).Ok?
    ensures DecodeEnvelope(envelope).Ok? && EncodeObjectKey(objectKey).Ok?
    ensures var raw := RewrapEnvelope(cr, Ok(key), objectKey, envelope, doors).value;
            && DecodeEnvelope(raw).Ok?
            && var p := DecodeEnvelope(envelope).value; var q := DecodeEnvelope(raw).value;
               && q.kind == p.kind && q.payload == p.payload && q.header.doors == doors
               && q.header.unknown == p.header.unknown
               && q.header.extensions == p.header.extensions && q.header.plaintextSize == p.header.plaintextSize
               && q.header.noncePrefix == p.header.noncePrefix
               && q.header.body[..CoreSize] == p.header.body[..CoreSize]
               && q.header.commitment == Commit(cr, key, q.kind, EncodeObjectKey(objectKey).value)(q.header.body)
  {
    var p := DecodeEnvelope(envelope).value;
    var encodedKey := EncodeObjectKey(objectKey).value;
    var unknown := AcceptedParts(envelope);
    CommitCommits(cr, key, p.kind, encodedKey);
    DecodeInvertsWrite(p.kind, p.header.plaintextSize, p.header.noncePrefix, doors, unknown, p.header.extensions,
      Commit(cr, key, p.kind, encodedKey), p.payload);
  }

  /** A rewritten envelope opens to the same plaintext as the one it was made from. */
  lemma RewrapOpensTheSame(cr: Crypto, key: Bs, objectKey: Bs, envelope: Bs, doors: seq<Door>)
    requires IdealCrypto(cr) && DoorsShaped(doors) && RewrapEnvelope(cr, Ok(key), objectKey, envelope, doors).Ok?
    ensures var raw := RewrapEnvelope(cr, Ok(key), objectKey, envelope, doors).value;
            var was := OpenEnvelope(cr, key, objectKey, envelope); var now := OpenEnvelope(cr, key, objectKey, raw);
            && (was.Ok? <==> now.Ok?) && (was.Err? ==> now == was)
            && (was.Ok? ==> now.value.plaintext == was.value.plaintext && now.value.header.doors == doors)
  {
    RewrapKeeps(cr, key, objectKey, envelope, doors);
  }
}
