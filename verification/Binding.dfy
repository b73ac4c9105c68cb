/** What a door, a header and a derived key of internal/crypt/header.go are bound to: nothing that was
    sealed for one object, door or header is accepted for another. */
module Binding {
  import opened Bytes
  import opened Envelope
  import opened EnvelopeCodec
  import opened Payload
  import opened Keyring
  import opened KeyringState

  // ---- Encoded object keys ----

  /** The length prefix makes encoded object keys self-delimiting. */
  lemma KeysAreDelimited(a: Bs, b: Bs, rest: Bs, more: Bs)
    requires EncodeObjectKey(a).Ok? && EncodeObjectKey(b).Ok?
    requires EncodeObjectKey(a).value + rest == EncodeObjectKey(b).value + more
    ensures a == b && rest == more
  {
    assert EncodeObjectKey(a).value + rest == ToBE(2, |a|) + (a + rest);
    assert EncodeObjectKey(b).value + more == ToBE(2, |b|) + (b + more);
    PeelFirst(ToBE(2, |a|), a + rest, ToBE(2, |b|), b + more);
    Widths();
    ToBEInjective(2, |a|, |b|);
    PeelFirst(a, rest, b, more);
  }

  // ---- Derived keys ----

  /** The header key and the payload key of an object, and the keys of two objects, are derived from
      different inputs. */
  lemma DerivationsDiffer(purpose: Bs, a: Bs, other: Bs, b: Bs)
    requires purpose in {HeaderPurpose, PayloadPurpose} && other in {HeaderPurpose, PayloadPurpose}
    requires EncodeObjectKey(a).Ok? && EncodeObjectKey(b).Ok?
    ensures DeriveInfo(purpose, EncodeObjectKey(a).value) == DeriveInfo(other, EncodeObjectKey(b).value) <==>
            purpose == other && a == b
  {
    var x, y := EncodeObjectKey(a).value, EncodeObjectKey(b).value;
    if DeriveInfo(purpose, x) == DeriveInfo(other, y) {
      assert DeriveInfo(purpose, x) == HkdfDomain + (purpose + [0] + x);
      assert DeriveInfo(other, y) == HkdfDomain + (other + [0] + y);
      PeelFirst(HkdfDomain, purpose + [0] + x, HkdfDomain, other + [0] + y);
      assert purpose[0] == (purpose + [0] + x)[0] == (other + [0] + y)[0] == other[0];
      assert HeaderPurpose[0] != PayloadPurpose[0];
      PeelFirst(purpose + [0], x, other + [0], y);
      ObjectKeysDiffer(a, b);
    }
  }

  // ---- Doors ----

  /** The associated data of a wrapped key fixes the object, the door type, the KDF, the salt and the costs. */
  lemma WrapADBinds(a: Bs, d: Door, b: Bs, e: Door)
    requires EncodeObjectKey(a).Ok? && EncodeObjectKey(b).Ok? && |d.salt| == |e.salt| == 16
    requires d.memory < 0x1_0000_0000 && d.iterations < 0x1_0000_0000
    requires e.memory < 0x1_0000_0000 && e.iterations < 0x1_0000_0000
    requires WrapAD(EncodeObjectKey(a).value, d) == WrapAD(EncodeObjectKey(b).value, e)
    ensures a == b && d.kind == e.kind && d.kdf == e.kdf && d.salt == e.salt
    ensures d.memory == e.memory && d.iterations == e.iterations && d.parallelism == e.parallelism
  {
    var x, y := EncodeObjectKey(a).value, EncodeObjectKey(b).value;
    WrapADParts(x, d);
    WrapADParts(y, e);
    PeelFirst(WrapHead(), x + DoorTail(d), WrapHead(), y + DoorTail(e));
    KeysAreDelimited(a, b, DoorTail(d), DoorTail(e));
    DoorTailsDiffer(d, e);
  }

  function WrapHead(): Bs { WrapDomain + [0] + ToBE(2, FormatVersion) }

  lemma WrapADParts(encodedKey: Bs, d: Door)
    ensures WrapAD(encodedKey, d) == WrapHead() + (encodedKey + DoorTail(d))
  {
  }

  function DoorTail(d: Door): Bs
  {
    [d.kind, d.kdf] + d.salt + ToBE(4, d.memory) + ToBE(4, d.iterations) + [d.parallelism]
  }

  lemma DoorTailsDiffer(d: Door, e: Door)
    requires |d.salt| == |e.salt| == 16 && DoorTail(d) == DoorTail(e)
    requires d.memory < 0x1_0000_0000 && d.iterations < 0x1_0000_0000
    requires e.memory < 0x1_0000_0000 && e.iterations < 0x1_0000_0000
    ensures d.kind == e.kind && d.kdf == e.kdf && d.salt == e.salt
    ensures d.memory == e.memory && d.iterations == e.iterations && d.parallelism == e.parallelism
  {
    PeelLast([d.kind, d.kdf] + d.salt + ToBE(4, d.memory) + ToBE(4, d.iterations), [d.parallelism],
             [e.kind, e.kdf] + e.salt + ToBE(4, e.memory) + ToBE(4, e.iterations), [e.parallelism]);
    PeelLast([d.kind, d.kdf] + d.salt + ToBE(4, d.memory), ToBE(4, d.iterations),
             [e.kind, e.kdf] + e.salt + ToBE(4, e.memory), ToBE(4, e.iterations));
    PeelLast([d.kind, d.kdf] + d.salt, ToBE(4, d.memory), [e.kind, e.kdf] + e.salt, ToBE(4, e.memory));
    PeelLast([d.kind, d.kdf], d.salt, [e.kind, e.kdf], e.salt);
    Widths();
    ToBEInjective(4, d.memory, e.memory);
    ToBEInjective(4, d.iterations, e.iterations);
    assert [d.parallelism][0] == [e.parallelism][0];
    assert [d.kind, d.kdf][0] == [e.kind, e.kdf][0] && [d.kind, d.kdf][1] == [e.kind, e.kdf][1];
  }

  /** No other key, nonce or associated data seals anything to this text. */
  ghost predicate SealedOnlyBy(a: Aead, text: Bs, key: Bs, nonce: Bs, ad: Bs)
  {
    forall k, n, p, x :: a.seal(k, n, p, x) == text ==> k == key && n == nonce && x == ad
  }

  /** The key-encryption key of a door under a secret. */
  function KekOf(cr: Crypto, d: Door, secret: Bs): Result<Bs>
  {
    cr.kek(secret, d.salt, d.memory, d.iterations, d.parallelism)
  }

  /** A wrapped key opens exactly as the door it was wrapped into: for its object key, door type, salt,
      costs and nonce and under its key-encryption key it gives the notebook key, and everywhere else it
      is rejected. */
  lemma WrappedKeyOpensOnlyThere(cr: Crypto, key: Bs, secret: Bs, a: Bs, d: Door, e: Door, guess: Bs, b: Bs)
    requires IdealCrypto(cr) && |d.salt| == |e.salt| == 16 && |key| == 32
    requires d.memory < 0x1_0000_0000 && d.iterations < 0x1_0000_0000
    requires e.memory < 0x1_0000_0000 && e.iterations < 0x1_0000_0000
    requires WrapKey(cr, key, secret, a, d.kind, d.memory, d.iterations, d.parallelism, d.salt, d.nonce) == Ok(d)
    requires SealedOnlyBy(cr.aead, d.wrapped, KekOf(cr, d, secret).value, d.nonce, WrapAD(EncodeObjectKey(a).value, d))
    requires e.wrapped == d.wrapped && SupportedDoor(e.kind) && e.kdf == KdfArgon2id
    requires EncodeObjectKey(b).Ok? && KekOf(cr, e, guess).Ok?
    ensures UnwrapKey(cr, e, guess, b) ==
            if b == a && e == d && KekOf(cr, e, guess) == KekOf(cr, d, secret) then Ok(key) else Err(KeyRejected)
  {
    var x, y := EncodeObjectKey(a).value, EncodeObjectKey(b).value;
    var kek, tried := KekOf(cr, d, secret).value, KekOf(cr, e, guess).value;
    assert WrapAD(x, d) == WrapAD(x, d.(wrapped := []));
    assert d.wrapped == cr.aead.seal(kek, d.nonce, key, WrapAD(x, d));
    var answer := cr.aead.open(tried, e.nonce, e.wrapped, WrapAD(y, e));
    if answer.Ok? {
      assert cr.aead.seal(tried, e.nonce, answer.value, WrapAD(y, e)) == d.wrapped;
      WrapADBinds(a, d, b, e);
    }
  }

  // ---- Headers ----

  function HeaderHead(): Bs { HeaderDomain + [0] + ToBE(2, FormatVersion) }

  lemma TranscriptParts(kind: byte, encodedKey: Bs, body: Bs)
    ensures Transcript(kind, encodedKey, body) == HeaderHead() + ([kind] + (encodedKey + body))
  {
  }

  /** The commitment of a header fixes the kind, the object and every byte of the body. */
  lemma TranscriptBinds(kind: byte, a: Bs, body: Bs, kind': byte, b: Bs, body': Bs)
    requires EncodeObjectKey(a).Ok? && EncodeObjectKey(b).Ok?
    requires Transcript(kind, EncodeObjectKey(a).value, body) == Transcript(kind', EncodeObjectKey(b).value, body')
    ensures kind == kind' && a == b && body == body'
  {
    var x, y := EncodeObjectKey(a).value, EncodeObjectKey(b).value;
    TranscriptParts(kind, x, body);
    TranscriptParts(kind', y, body');
    PeelFirst(HeaderHead(), [kind] + (x + body), HeaderHead(), [kind'] + (y + body'));
    PeelFirst([kind], x + body, [kind'], y + body');
    assert [kind][0] == [kind'][0];
    KeysAreDelimited(a, b, body, body');
  }

  /** No other key or text has this commitment. */
  ghost predicate CommittedOnlyBy(cr: Crypto, tag: Bs, macKey: Bs, text: Bs)
  {
    forall k, t :: cr.mac(k, t) == tag ==> k == macKey && t == text
  }

  /** The commitment of a parsed envelope is genuine for this key and object. */
  ghost predicate Genuine(cr: Crypto, key: Bs, a: Bs, p: Parsed)
    requires EncodeObjectKey(a).Ok?
  {
    var encodedKey := EncodeObjectKey(a).value;
    && p.header.commitment == Commit(cr, key, p.kind, encodedKey)(p.header.body)
    && CommittedOnlyBy(cr, p.header.commitment, DerivedKey(cr, key, HeaderPurpose, encodedKey),
                       Transcript(p.kind, encodedKey, p.header.body))
  }

  lemma SameBodySameHeader(raw: Bs, raw': Bs)
    requires DecodeEnvelope(raw).Ok? && DecodeEnvelope(raw').Ok?
    requires var p, q := DecodeEnvelope(raw).value, DecodeEnvelope(raw').value;
             p.header.body == q.header.body && p.header.commitment == q.header.commitment
    ensures DecodeEnvelope(raw).value.header == DecodeEnvelope(raw').value.header
  {
    var hdr, payload := DecodedParts(raw);
    var hdr', payload' := DecodedParts(raw');
    var w := HeaderParsed(hdr, 0, []);
    var w' := HeaderParsed(hdr', 0, []);
    assert hdr == hdr';
  }

  /** What carries the commitment of a genuine envelope opens only as that envelope: under another object
      key, with another kind, or with any door, extension, size or nonce changed it is refused. */
  lemma CommitmentOpensOnlyThere(cr: Crypto, key: Bs, a: Bs, raw: Bs, tried: Bs, b: Bs, raw': Bs)
    requires EncodeObjectKey(a).Ok? && EncodeObjectKey(b).Ok?
    requires DecodeEnvelope(raw).Ok? && Genuine(cr, key, a, DecodeEnvelope(raw).value)
    requires DecodeEnvelope(raw').Ok?
    requires DecodeEnvelope(raw').value.header.commitment == DecodeEnvelope(raw).value.header.commitment
    ensures var p, q := DecodeEnvelope(raw).value, DecodeEnvelope(raw').value;
            b != a || q.kind != p.kind || q.header != p.header ==>
              OpenEnvelope(cr, tried, b, raw') == Err(Authentication)
  {
    var p, q := DecodeEnvelope(raw).value, DecodeEnvelope(raw').value;
    var x, y := EncodeObjectKey(a).value, EncodeObjectKey(b).value;
    if q.header.commitment == Commit(cr, tried, q.kind, y)(q.header.body) {
      assert Commit(cr, tried, q.kind, y)(q.header.body) ==
             cr.mac(DerivedKey(cr, tried, HeaderPurpose, y), Transcript(q.kind, y, q.header.body));
      TranscriptBinds(q.kind, b, q.header.body, p.kind, a, p.header.body);
      SameBodySameHeader(raw, raw');
    }
  }
}
