/** The stateful keyring of internal/crypt/keyring.go: candidate secrets, the door search and the
    operations that use the resolved key. */
module KeyringState {
  import opened Bytes
  import opened Envelope
  import opened EnvelopeCodec
  import opened Payload
  import opened Keyring
  import EnvelopeReader
  import opened Wrappers

  const MaxCandidateSources: nat := 4
  const SourcePrompt: nat := 1
  const SourceKeyRecord: nat := 4

  datatype Candidate = Candidate(source: nat, secret: Bs)

  // ---- Doors ----

  function WrapAD(encodedKey: Bs, d: Door): Bs
  {
    WrapDomain + [0] + ToBE(2, FormatVersion) + encodedKey + [d.kind, d.kdf] + d.salt + ToBE(4, d.memory) +
    ToBE(4, d.iterations) + [d.parallelism]
  }

  /** WrapKey; the salt and the nonce are drawn by the caller. */
  function WrapKey(cr: Crypto, key: Bs, secret: Bs, objectKey: Bs, kind: byte, memory: nat, iterations: nat,
                   parallelism: byte, salt: Bs, nonce: Bs): Result<Door>
  {
    if !SupportedDoor(kind) then Err(Unsupported)
    else match EncodeObjectKey(objectKey)
      case Err(e) => Err(e)
      case Ok(encodedKey) =>
        match cr.kek(secret, salt, memory, iterations, parallelism)
        case Err(e) => Err(e)
        case Ok(kek) =>
          var d := Door(kind, KdfArgon2id, salt, memory, iterations, parallelism, nonce, []);
          Ok(d.(wrapped := cr.aead.seal(kek, nonce, key, WrapAD(encodedKey, d))))
  }

  function UnwrapKey(cr: Crypto, d: Door, secret: Bs, objectKey: Bs): Result<Bs>
  {
    if !SupportedDoor(d.kind) then Err(Unsupported)
    else if d.kdf != KdfArgon2id then Err(Unsupported)
    else match EncodeObjectKey(objectKey)
      case Err(e) => Err(e)
      case Ok(encodedKey) =>
        match cr.kek(secret, d.salt, d.memory, d.iterations, d.parallelism)
        case Err(e) => Err(e)
        case Ok(kek) =>
          match cr.aead.open(kek, d.nonce, d.wrapped, WrapAD(encodedKey, d))
          case Err(_) => Err(KeyRejected)
          case Ok(key) => Ok(key)
  }

  /** The secret that wrapped a key opens the door, and the door fits the wire format. */
  lemma UnwrapInvertsWrap(cr: Crypto, key: Bs, secret: Bs, objectKey: Bs, kind: byte, memory: nat, iterations: nat,
                          parallelism: byte, salt: Bs, nonce: Bs)
    requires IdealCrypto(cr) && |key| == 32 && |salt| == 16 && |nonce| == 24 && memory < 0x1_0000_0000
    requires iterations < 0x1_0000_0000
    requires WrapKey(cr, key, secret, objectKey, kind, memory, iterations, parallelism, salt, nonce).Ok?
    ensures var d := WrapKey(cr, key, secret, objectKey, kind, memory, iterations, parallelism, salt, nonce).value;
            d.Shaped() && Writable([d]) && UnwrapKey(cr, d, secret, objectKey) == Ok(key)
  {
    var d := WrapKey(cr, key, secret, objectKey, kind, memory, iterations, parallelism, salt, nonce).value;
    assert WrapAD(EncodeObjectKey(objectKey).value, d) == WrapAD(EncodeObjectKey(objectKey).value, d.(wrapped := []));
  }

  // ---- Candidates ----

  /** The bounds of a candidate set; the bounds of a secret are a parameter. */
  ghost predicate CandidatesOk(cs: seq<Candidate>, secretOk: Bs -> bool)
  {
    && |cs| <= MaxCandidateSources
    && (forall c :: c in cs ==> SourcePrompt <= c.source <= SourceKeyRecord && secretOk(c.secret))
    && forall i, j :: 0 <= i < j < |cs| ==> cs[i].source != cs[j].source
  }

  method ValidateCandidates(cs: seq<Candidate>, secretOk: Bs -> bool) returns (ok: bool)
    ensures ok <==> CandidatesOk(cs, secretOk)
  {
    if |cs| > MaxCandidateSources {
      return false;
    }
    var seen: set<nat> := {};
    for i := 0 to |cs|
      invariant forall s :: s in seen <==> exists j :: 0 <= j < i && cs[j].source == s
      invariant forall j :: 0 <= j < i ==> SourcePrompt <= cs[j].source <= SourceKeyRecord && secretOk(cs[j].secret)
      invariant forall j, k :: 0 <= j < k < i ==> cs[j].source != cs[k].source
    {
      var c := cs[i];
      if c.source < SourcePrompt || c.source > SourceKeyRecord {
        return false;
      }
      if c.source in seen {
        return false;
      }
      seen := seen + {c.source};
      if !secretOk(c.secret) {
        return false;
      }
    }
    return true;
  }

  /** Candidate i against door j. */
  function Attempt(cr: Crypto, cs: seq<Candidate>, doors: seq<Door>, objectKey: Bs, i: nat, j: nat): Result<Bs>
    requires i < |cs| && j < |doors|
  {
    UnwrapKey(cr, doors[j], cs[i].secret, objectKey)
  }

  /** Every attempt before candidate i and door j was a plain rejection. */
  ghost predicate RejectedBefore(cr: Crypto, cs: seq<Candidate>, doors: seq<Door>, objectKey: Bs, i: nat, j: nat)
  {
    forall m, n :: 0 <= m < |cs| && 0 <= n < |doors| && (m < i || (m == i && n < j)) ==>
      Attempt(cr, cs, doors, objectKey, m, n) == Err(KeyRejected)
  }

  /** The search stopped at candidate i and door j with this answer. */
  ghost predicate StoppedAt(cr: Crypto, cs: seq<Candidate>, doors: seq<Door>, objectKey: Bs, i: nat, j: nat,
                            r: Result<Bs>)
  {
    && i < |cs| && j < |doors| && RejectedBefore(cr, cs, doors, objectKey, i, j)
    && Attempt(cr, cs, doors, objectKey, i, j) == r && r != Err(KeyRejected)
  }

  /** A search that stops gives one answer: the first attempt that is not a rejection. */
  lemma SearchIsDeterministic(cr: Crypto, cs: seq<Candidate>, doors: seq<Door>, objectKey: Bs, i: nat, j: nat,
                              r: Result<Bs>, i': nat, j': nat, r': Result<Bs>)
    requires StoppedAt(cr, cs, doors, objectKey, i, j, r) && StoppedAt(cr, cs, doors, objectKey, i', j', r')
    ensures i == i' && j == j' && r == r'
  {
    assert Attempt(cr, cs, doors, objectKey, i, j) == r && Attempt(cr, cs, doors, objectKey, i', j') == r';
  }

  /** NewKeyring: a locked keyring over a valid candidate set; gate says whether a KDF gate was given. */
  method NewKeyring(cr: Crypto, secretOk: Bs -> bool, candidates: seq<Candidate>, gate: bool)
    returns (r: Result<KeyStore>)
    ensures r.Ok? <==> CandidatesOk(candidates, secretOk) && gate
    ensures r.Err? ==> r.error == if CandidatesOk(candidates, secretOk) then NoGate else BadCandidates
    ensures r.Ok? ==>
              && fresh(r.value) && r.value.Valid() && !r.value.unlocked && r.value.source == 0
              && r.value.candidates == candidates && r.value.cr == cr && r.value.secretOk == secretOk
  {
    var ok := ValidateCandidates(candidates, secretOk);
    if !ok {
      return Err(BadCandidates);
    }
    if !gate {
      return Err(NoGate);
    }
    var k := new KeyStore(cr, secretOk, candidates);
    return Ok(k);
  }

  /** NewUnlockedKeyring: the candidates are validated alike and then dropped. */
  method NewUnlockedKeyring(cr: Crypto, secretOk: Bs -> bool, key: Bs, candidates: seq<Candidate>, gate: bool)
    returns (r: Result<KeyStore>)
    ensures r.Ok? <==> CandidatesOk(candidates, secretOk) && gate
    ensures r.Err? ==> r.error == if CandidatesOk(candidates, secretOk) then NoGate else BadCandidates
    ensures r.Ok? ==>
              && fresh(r.value) && r.value.Valid() && r.value.Held() == Ok(key) && r.value.source == 0
              && r.value.candidates == [] && r.value.cr == cr && r.value.secretOk == secretOk
  {
    var ok := ValidateCandidates(candidates, secretOk);
    if !ok {
      return Err(BadCandidates);
    }
    if !gate {
      return Err(NoGate);
    }
    var k := new KeyStore.Unlocked(cr, secretOk, key);
    return Ok(k);
  }

  class KeyStore {
    const cr: Crypto
    const secretOk: Bs -> bool
    var key: Bs
    var unlocked: bool
    var source: nat
    var candidates: seq<Candidate>

    function Held(): Result<Bs>
      reads this
    {
      if unlocked then Ok(key) else Err(Locked)
    }

    /** The candidates are a valid set, and a source once resolved names one of them. */
    ghost predicate Valid()
      reads this
    {
      && CandidatesOk(candidates, secretOk)
      && (source != 0 ==> unlocked && exists i :: 0 <= i < |candidates| && candidates[i].source == source)
    }

    constructor (cr: Crypto, secretOk: Bs -> bool, candidates: seq<Candidate>)
      requires CandidatesOk(candidates, secretOk)
      ensures Valid() && !unlocked && source == 0 && this.candidates == candidates && this.cr == cr
      ensures this.secretOk == secretOk
    {
      this.cr, this.secretOk := cr, secretOk;
      this.candidates, key, unlocked, source := candidates, [], false, 0;
    }

    constructor Unlocked(cr: Crypto, secretOk: Bs -> bool, key: Bs)
      ensures Valid() && Held() == Ok(key) && source == 0 && candidates == [] && this.cr == cr
      ensures this.secretOk == secretOk
    {
      this.cr, this.secretOk := cr, secretOk;
      this.candidates, this.key, unlocked, source := [], key, true, 0;
    }

    method AddCandidate(c: Candidate) returns (ok: bool)
      requires Valid()
      modifies this`candidates
      ensures Valid()
      ensures old(unlocked) ==> ok && candidates == old(candidates)
      ensures !old(unlocked) ==> (ok <==> CandidatesOk(old(candidates) + [c], secretOk))
      ensures !old(unlocked) ==> candidates == if ok then old(candidates) + [c] else old(candidates)
    {
      if unlocked {
        return true;
      }
      ok := ValidateCandidates(candidates + [c], secretOk);
      if ok {
        candidates := candidates + [c];
      }
    }

    /** Tries every candidate against every door in order and keeps the first key found.  Only a
        rejection goes on to the next attempt; any other failure ends the search. */
    method Resolve(objectKey: Bs, doors: seq<Door>) returns (r: Result<Bs>)
      requires Valid()
      modifies this`key, this`unlocked, this`source
      ensures Valid() && (r.Ok? ==> Held() == r)
      ensures old(unlocked) ==> r == Ok(old(key)) && key == old(key) && unlocked && source == old(source)
      ensures !old(unlocked) && r.Ok? ==>
                exists i: nat, j: nat :: StoppedAt(cr, candidates, doors, objectKey, i, j, r) &&
                  source == candidates[i].source
      ensures r.Err? ==> !unlocked && key == old(key) && source == old(source)
      ensures r == Err(KeyRejected) ==> RejectedBefore(cr, candidates, doors, objectKey, |candidates|, 0)
      ensures r.Err? && r.error != KeyRejected ==>
                exists i: nat, j: nat :: StoppedAt(cr, candidates, doors, objectKey, i, j, r)
    {
      if unlocked {
        return Ok(key);
      }
      for i := 0 to |candidates|
        invariant !unlocked && key == old(key) && source == old(source)
        invariant RejectedBefore(cr, candidates, doors, objectKey, i, 0)
      {
        for j := 0 to |doors|
          invariant !unlocked && key == old(key) && source == old(source)
          invariant RejectedBefore(cr, candidates, doors, objectKey, i, j)
        {
          r := UnwrapKey(cr, doors[j], candidates[i].secret, objectKey);
          assert r == Attempt(cr, candidates, doors, objectKey, i, j);
          if r.Ok? {
            key, unlocked, source := r.value, true, candidates[i].source;
            assert StoppedAt(cr, candidates, doors, objectKey, i, j, r);
            return;
          }
          if r.error != KeyRejected {
            assert StoppedAt(cr, candidates, doors, objectKey, i, j, r);
            return;
          }
        }
      }
      return Err(KeyRejected);
    }

    /** The secret of the candidate that resolved the key: sources are distinct, so there is one. */
    method ResolvedSecret() returns (secret: Option<Bs>)
      requires Valid()
      ensures source == 0 ==> secret == None
      ensures source != 0 ==>
                secret.Some? && exists i :: 0 <= i < |candidates| && candidates[i] == Candidate(source, secret.value)
      ensures forall i :: 0 <= i < |candidates| && candidates[i].source == source ==>
                unlocked && secret == Some(candidates[i].secret)
    {
      if !unlocked {
        return None;
      }
      for i := 0 to |candidates|
        invariant forall j :: 0 <= j < i ==> candidates[j].source != source
      {
        if candidates[i].source == source {
          return Some(candidates[i].secret);
        }
      }
      return None;
    }

    method Open(objectKey: Bs, envelope: Bs) returns (r: Result<Content>)
      requires Valid() && IdealCrypto(cr) && |envelope| <= MaxInt
      modifies this`key, this`unlocked, this`source
      ensures Valid()
      ensures old(unlocked) ==> unlocked && key == old(key)
      ensures unlocked ==> r == OpenEnvelope(cr, key, objectKey, envelope)
      ensures !unlocked ==> r.Err? && key == old(key) && source == old(source)
      ensures !old(unlocked) && unlocked ==>
                DecodeEnvelope(envelope).Ok? &&
                exists i: nat, j: nat ::
                  StoppedAt(cr, candidates, DecodeEnvelope(envelope).value.header.doors, objectKey, i, j, Ok(key)) &&
                    source == candidates[i].source
    {
      var decoded := EnvelopeReader.Decode(envelope);
      if decoded.Err? {
        return Err(decoded.error);
      }
      var p := decoded.value;
      var encodedKey := EncodeObjectKey(objectKey);
      if encodedKey.Err? {
        return Err(encodedKey.error);
      }
      var found := Resolve(objectKey, p.header.doors);
      if found.Err? {
        return Err(found.error);
      }
      var want := Commit(cr, found.value, p.kind, encodedKey.value)(p.header.body);
      if p.header.commitment != want {
        return Err(Authentication);
      }
      var x := PayloadContext(cr, found.value, p.kind, encodedKey.value, p.header.body[..CoreSize],
        p.header.noncePrefix);
      var plaintext := OpenPayload(cr.aead, x, p.payload, p.header.plaintextSize);
      if plaintext.Err? {
        return Err(plaintext.error);
      }
      return Ok(Content(plaintext.value, p.header));
    }

    /** Seal; the nonce prefix is drawn by the caller. */
    method Seal(objectKey: Bs, kind: byte, plaintext: Bs, doors: seq<Door>, nonce: Bs) returns (r: Result<Bs>)
      requires |plaintext| <= MaxInt
      ensures r == SealEnvelope(cr, Held(), objectKey, kind, plaintext, doors, [], nonce)
      ensures r.Ok? && IdealCrypto(cr) && SealInputs(plaintext, doors, [], nonce) ==> DecodeEnvelope(r.value).Ok?
    {
      if !SupportedKind(kind) {
        return Err(Unsupported);
      }
      var encodedKey := EncodeObjectKey(objectKey);
      if encodedKey.Err? {
        return Err(encodedKey.error);
      }
      if !unlocked {
        return Err(Locked);
      }
      var core := Core(|plaintext|, nonce);
      var payload := SealPayload(cr.aead, PayloadContext(cr, key, kind, encodedKey.value, core, nonce), plaintext);
      if IdealCrypto(cr) && SealInputs(plaintext, doors, [], nonce)
         && SealEnvelope(cr, Ok(key), objectKey, kind, plaintext, doors, [], nonce).Ok? {
        SealedWithoutExtensionsDecodes(cr, key, objectKey, kind, plaintext, doors, nonce);
      }
      return CheckSize(kind, Write(kind, core, doors, [], [], Commit(cr, key, kind, encodedKey.value), payload));
    }

    method Rewrap(objectKey: Bs, envelope: Bs, doors: seq<Door>) returns (r: Result<Bs>)
      requires |envelope| <= MaxInt
      ensures r == RewrapEnvelope(cr, Held(), objectKey, envelope, doors)
      ensures r.Ok? && IdealCrypto(cr) && DoorsShaped(doors) ==> DecodeEnvelope(r.value).Ok?
    {
      var decoded := EnvelopeReader.Decode(envelope);
      if decoded.Err? {
        return Err(decoded.error);
      }
      var p := decoded.value;
      var encodedKey := EncodeObjectKey(objectKey);
      if encodedKey.Err? {
        return Err(encodedKey.error);
      }
      if !unlocked {
        return Err(Locked);
      }
      var commit := Commit(cr, key, p.kind, encodedKey.value);
      if p.header.commitment != commit(p.header.body) {
        return Err(Authentication);
      }
      if IdealCrypto(cr) && DoorsShaped(doors) && RewrapEnvelope(cr, Ok(key), objectKey, envelope, doors).Ok? {
        RewrapKeeps(cr, key, objectKey, envelope, doors);
      }
      return CheckSize(p.kind, Write(p.kind, p.header.body[..CoreSize], doors, p.header.unknown, p.header.extensions,
        commit, p.payload));
    }
  }
}
