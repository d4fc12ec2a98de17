/**
 * `QWEDCertificateIssuer`: the issuer's DID and key description, the
 * course-completion credential it issues, and the in-place signing envelope.
 * The RSA key is represented by its public numbers; signing, SHA-256 and
 * the canonical JSON serialiser are function parameters.
 */
module CertificateIssuer {
  import opened Values
  import opened Base64Url
  import opened Calendar

  /** A positive int: an RSA modulus and public exponent are both positive. */
  type Positive = x: int | 0 < x witness 1

  /** An issuer: its domain and the public numbers (modulus, exponent) of its key. */
  datatype Issuer = Issuer(domain: string, n: Positive, e: Positive)

  const DefaultDomain: string := "qwed-ai.com"
  const DefaultModules: int := 11

  /** `self.did`. */
  function Did(iss: Issuer): string {
    "did:web:" + iss.domain
  }

  /** The key reference `"{did}#key-1"`. */
  function KeyRef(did: string): string {
    did + "#key-1"
  }

  /** The JWK record of an RSA signing key. */
  function Jwk(kid: string, n: string, e: string): Json {
    JObj([("kty", JStr("RSA")), ("kid", JStr(kid)), ("use", JStr("sig")),
          ("alg", JStr("RS256")), ("n", JStr(n)), ("e", JStr(e))])
  }

  /** `get_public_key_jwk`: the key's numbers through `_int_to_base64url`. */
  function PublicKeyJwk(iss: Issuer): Json {
    Jwk(KeyRef(Did(iss)), IntToBase64Url(iss.n).value, IntToBase64Url(iss.e).value)
  }

  /** The DID document record. */
  function DidDocument(did: string, jwk: Json): Json {
    JObj([("@context", JStr("https://w3id.org/did/v1")), ("id", JStr(did)),
          ("publicKey", JArr([jwk])),
          ("authentication", JArr([JStr(KeyRef(did))])),
          ("assertionMethod", JArr([JStr(KeyRef(did))]))])
  }

  /** `create_did_document`. */
  function CreateDidDocument(iss: Issuer): Json {
    DidDocument(Did(iss), PublicKeyJwk(iss))
  }

  lemma JwkFields(kid: string, n: string, e: string)
    ensures var jwk := Jwk(kid, n, e);
      && Field(jwk, "kty") == Some(JStr("RSA")) && Field(jwk, "kid") == Some(JStr(kid))
      && Field(jwk, "use") == Some(JStr("sig")) && Field(jwk, "alg") == Some(JStr("RS256"))
      && Field(jwk, "n") == Some(JStr(n)) && Field(jwk, "e") == Some(JStr(e))
  {
    var fs := Jwk(kid, n, e).fields;
    LookupAt(fs, 0, "kty");
    LookupAt(fs, 1, "kid");
    LookupAt(fs, 2, "use");
    LookupAt(fs, 3, "alg");
    LookupAt(fs, 4, "n");
    LookupAt(fs, 5, "e");
  }

  /** The JWK names its key `did#key-1` and carries the key's numbers as
      `_int_to_base64url` writes them, which for these positive numbers is
      the Base64urlUInt text of section 2 of RFC 7518. */
  lemma PublicKeyJwkFields(iss: Issuer)
    ensures var jwk := PublicKeyJwk(iss);
      && Field(jwk, "kty") == Some(JStr("RSA"))
      && Field(jwk, "kid") == Some(JStr("did:web:" + iss.domain + "#key-1"))
      && Field(jwk, "use") == Some(JStr("sig"))
      && Field(jwk, "alg") == Some(JStr("RS256"))
      && Field(jwk, "n") == Some(JStr(IntToBase64Url(iss.n).value))
      && Field(jwk, "e") == Some(JStr(IntToBase64Url(iss.e).value))
      && Field(jwk, "n") == Some(JStr(Base64UrlUInt(iss.n)))
      && Field(jwk, "e") == Some(JStr(Base64UrlUInt(iss.e)))
  {
    JwkFields(KeyRef(Did(iss)), IntToBase64Url(iss.n).value, IntToBase64Url(iss.e).value);
    Base64UrlUIntAgrees(iss.n);
    Base64UrlUIntAgrees(iss.e);
  }

  /** `n` and `e` decode to the key's numbers as minimal big-endian octets,
      the first of them non-zero. */
  lemma PublicKeyJwkNumbers(iss: Issuer)
    ensures var d := Decode(Repad(IntToBase64Url(iss.n).value));
      d.Some? && |d.value| == (BitLength(iss.n) + 7) / 8 && FromBytes(d.value) == iss.n && d.value[0] != 0
    ensures var d := Decode(Repad(IntToBase64Url(iss.e).value));
      d.Some? && |d.value| == (BitLength(iss.e) + 7) / 8 && FromBytes(d.value) == iss.e && d.value[0] != 0
  {
    IntToBase64UrlRoundTrip(iss.n);
    IntToBase64UrlRoundTrip(iss.e);
  }

  lemma DidDocumentShape(did: string, jwk: Json)
    ensures var doc := DidDocument(did, jwk);
      && Field(doc, "@context") == Some(JStr("https://w3id.org/did/v1"))
      && Field(doc, "id") == Some(JStr(did))
      && Field(doc, "publicKey") == Some(JArr([jwk]))
      && Field(doc, "authentication") == Some(JArr([JStr(did + "#key-1")]))
      && Field(doc, "assertionMethod") == Some(JArr([JStr(did + "#key-1")]))
  {
    var fs := DidDocument(did, jwk).fields;
    LookupAt(fs, 0, "@context");
    LookupAt(fs, 1, "id");
    LookupAt(fs, 2, "publicKey");
    LookupAt(fs, 3, "authentication");
    LookupAt(fs, 4, "assertionMethod");
  }

  /** The DID document is about `did:web:<domain>`, and it authenticates and
      asserts with the one key it publishes, `did#key-1`. */
  lemma DidDocumentFields(iss: Issuer)
    ensures var doc, did := CreateDidDocument(iss), "did:web:" + iss.domain;
      && Field(doc, "@context") == Some(JStr("https://w3id.org/did/v1"))
      && Field(doc, "id") == Some(JStr(did))
      && Field(doc, "publicKey") == Some(JArr([PublicKeyJwk(iss)]))
      && Field(doc, "authentication") == Some(JArr([JStr(did + "#key-1")]))
      && Field(doc, "assertionMethod") == Field(doc, "authentication")
      && Field(PublicKeyJwk(iss), "kid") == Some(JStr(did + "#key-1"))
  {
    DidDocumentShape(Did(iss), PublicKeyJwk(iss));
    PublicKeyJwkFields(iss);
  }

  // ---------------------------------------------------------------------
  // Credential ids

  /** `bytes.hex()`: two lowercase hex digits per octet. */
  function LowerHex(bs: seq<byte>): (h: string)
    ensures |h| == 2 * |bs|
  {
    if |bs| == 0 then "" else [HexDigit(bs[0] / 16), HexDigit(bs[0] % 16)] + LowerHex(bs[1..])
  }

  predicate IsLowerHexDigit(c: char) {
    ('0' <= c <= '9') || ('a' <= c <= 'f')
  }

  lemma {:induction false} LowerHexPrefix(bs: seq<byte>, k: nat)
    requires k <= |bs|
    ensures LowerHex(bs)[..2 * k] == LowerHex(bs[..k])
  {
    if k > 0 {
      LowerHexPrefix(bs[1..], k - 1);
      assert bs[..k] == [bs[0]] + bs[1..][..k - 1];
    }
  }

  lemma {:induction false} LowerHexDigits(bs: seq<byte>)
    ensures forall i :: 0 <= i < |LowerHex(bs)| ==> IsLowerHexDigit(LowerHex(bs)[i])
  {
    if |bs| > 0 {
      LowerHexDigits(bs[1..]);
    }
  }

  /** `s[:k]`. */
  function Take(s: string, k: nat): string {
    if |s| <= k then s else s[..k]
  }

  /** `_generate_credential_id`: `hash` stands for SHA-256 of the UTF-8 text,
      `timestamp` for the text of the clock reading. */
  function GenerateCredentialId(username: string, timestamp: string, hash: string -> seq<byte>): string {
    "urn:qwed:credential:" + username + ":" + Take(LowerHex(hash(username + ":" + timestamp)), 16)
  }

  /** With a 32-octet digest the id is the prefix, the user name, a colon and
      16 lowercase hex digits: the hex of the digest's first 8 octets. */
  lemma CredentialIdFormat(username: string, timestamp: string, hash: string -> seq<byte>)
    requires |hash(username + ":" + timestamp)| == 32
    ensures var id, p := GenerateCredentialId(username, timestamp, hash), "urn:qwed:credential:" + username + ":";
      && |id| == |p| + 16 && id[..|p|] == p
      && (forall i :: |p| <= i < |id| ==> IsLowerHexDigit(id[i]))
      && id[|p|..] == LowerHex(hash(username + ":" + timestamp)[..8])
  {
    var d := hash(username + ":" + timestamp);
    LowerHexPrefix(d, 8);
    LowerHexDigits(d);
    var id, p := GenerateCredentialId(username, timestamp, hash), "urn:qwed:credential:" + username + ":";
    assert id == p + LowerHex(d)[..16];
  }

  // ---------------------------------------------------------------------
  // Signing

  /** The message Python gives when `proof["signatureValue"] = …` is applied
      to something that is not a dictionary. */
  function ItemAssignmentError(v: Json): string {
    if v.JArr? then "list indices must be integers or slices, not str"
    else "'" + TypeName(v) + "' object does not support item assignment"
  }

  /** What `_sign_credential` turns a credential into: `proof` is taken out,
      the rest is serialised by `canon` and signed by `sign`, and `proof`
      comes back last with `signatureValue` set to the unpadded base64url
      signature. */
  function SignedCredential(fs: seq<(string, Json)>, canon: seq<(string, Json)> -> string,
                            sign: string -> seq<byte>): Result<seq<(string, Json)>, PyError>
  {
    match Lookup(fs, "proof")
    case None => Err(KeyError("proof"))
    case Some(proof) =>
      var rest := Remove(fs, "proof");
      var sig := EncodeNoPad(sign(canon(rest)));
      match proof
      case JObj(pf) => Ok(SetItem(rest, "proof", JObj(SetItem(pf, "signatureValue", JStr(sig)))))
      case _ => Err(TypeError(ItemAssignmentError(proof)))
  }

  /** Signing fails exactly when there is no `proof`, or `proof` is not a dictionary. */
  lemma SignedCredentialFails(fs: seq<(string, Json)>, canon: seq<(string, Json)> -> string, sign: string -> seq<byte>)
    ensures SignedCredential(fs, canon, sign) == Err(KeyError("proof")) <==> !HasKey(fs, "proof")
    ensures SignedCredential(fs, canon, sign).Err? <==> !HasKey(fs, "proof") || !Lookup(fs, "proof").value.JObj?
  {
    LookupSpec(fs, "proof");
  }

  /** Every field but `proof` is unchanged; `proof` keeps every field but
      `signatureValue`, which is the signature of the credential without
      `proof`; and taking `proof` out of the result gives back exactly the
      text that was signed. */
  lemma SignedCredentialFields(fs: seq<(string, Json)>, canon: seq<(string, Json)> -> string,
                               sign: string -> seq<byte>, key: string)
    requires SignedCredential(fs, canon, sign).Ok?
    ensures var out := SignedCredential(fs, canon, sign).value;
      && (key != "proof" ==> Lookup(out, key) == Lookup(fs, key))
      && Remove(out, "proof") == Remove(fs, "proof")
      && Lookup(out, "proof").Some? && Lookup(out, "proof").value.JObj?
      && var pf, pf' := Lookup(fs, "proof").value.fields, Lookup(out, "proof").value.fields;
         && (key != "signatureValue" ==> Lookup(pf', key) == Lookup(pf, key))
         && Lookup(pf', "signatureValue") == Some(JStr(EncodeNoPad(sign(canon(Remove(fs, "proof"))))))
  {
    var rest := Remove(fs, "proof");
    var pf := Lookup(fs, "proof").value.fields;
    var sig := EncodeNoPad(sign(canon(rest)));
    var proof' := JObj(SetItem(pf, "signatureValue", JStr(sig)));
    LookupSetItem(rest, "proof", proof', key);
    LookupSetItem(rest, "proof", proof', "proof");
    LookupRemove(fs, "proof", key);
    RemoveSetItem(rest, "proof", proof');
    RemoveSetItem(fs, "proof", proof');
    LookupSetItem(pf, "signatureValue", JStr(sig), key);
    LookupSetItem(pf, "signatureValue", JStr(sig), "signatureValue");
  }

  /** Signing an already signed credential changes nothing. */
  lemma SignedCredentialIdempotent(fs: seq<(string, Json)>, canon: seq<(string, Json)> -> string,
                                   sign: string -> seq<byte>)
    requires SignedCredential(fs, canon, sign).Ok?
    ensures SignedCredential(SignedCredential(fs, canon, sign).value, canon, sign) == SignedCredential(fs, canon, sign)
  {
    var out := SignedCredential(fs, canon, sign).value;
    var rest := Remove(fs, "proof");
    var pf := Lookup(fs, "proof").value.fields;
    var sig := EncodeNoPad(sign(canon(rest)));
    var proof' := JObj(SetItem(pf, "signatureValue", JStr(sig)));
    LookupSetItem(rest, "proof", proof', "proof");
    RemoveSetItem(rest, "proof", proof');
    RemoveSetItem(fs, "proof", proof');
    SetItemTwice(pf, "signatureValue", JStr(sig));
  }

  /** Signing keeps the keys distinct. */
  lemma SignedUnique(fs: seq<(string, Json)>, canon: seq<(string, Json)> -> string, sign: string -> seq<byte>)
    requires UniqueKeys(fs) && SignedCredential(fs, canon, sign).Ok?
    ensures UniqueKeys(SignedCredential(fs, canon, sign).value)
  {
    var rest := Remove(fs, "proof");
    UniqueRemove(fs, "proof");
    var pf := Lookup(fs, "proof").value.fields;
    var sig := EncodeNoPad(sign(canon(rest)));
    UniqueSetItem(rest, "proof", JObj(SetItem(pf, "signatureValue", JStr(sig))));
  }

  /** A Python dictionary mutated in place; its keys are distinct. */
  class JsonDict {
    var entries: seq<(string, Json)>

    ghost predicate Valid()
      reads this
    {
      UniqueKeys(entries)
    }

    constructor (fs: seq<(string, Json)>)
      ensures entries == fs
    {
      entries := fs;
    }

    /** `d.pop(key)`: KeyError when the key is missing. */
    method Pop(key: string) returns (r: Result<Json, PyError>)
      requires Valid()
      modifies this
      ensures Valid()
      ensures r == (match Lookup(old(entries), key) case Some(v) => Ok(v) case None => Err(KeyError(key)))
      ensures entries == if r.Ok? then Remove(old(entries), key) else old(entries)
    {
      match Lookup(entries, key)
      case Some(v) =>
        UniqueRemove(entries, key);
        entries := Remove(entries, key);
        r := Ok(v);
      case None =>
        r := Err(KeyError(key));
    }

    /** `d[key] = value`. */
    method Put(key: string, value: Json)
      requires Valid()
      modifies this
      ensures Valid()
      ensures entries == SetItem(old(entries), key, value)
    {
      UniqueSetItem(entries, key, value);
      entries := SetItem(entries, key, value);
    }
  }

  /** `_sign_credential`: works on the credential in place and returns it. A
      missing `proof` raises KeyError before anything changes; a `proof` that
      is not a dictionary raises TypeError after it has been popped. */
  method SignCredential(cred: JsonDict, canon: seq<(string, Json)> -> string, sign: string -> seq<byte>)
    returns (r: Result<JsonDict, PyError>)
    requires cred.Valid()
    modifies cred
    ensures cred.Valid()
    ensures r.Ok? <==> SignedCredential(old(cred.entries), canon, sign).Ok?
    ensures r.Ok? ==> r.value == cred && cred.entries == SignedCredential(old(cred.entries), canon, sign).value
    ensures r.Err? ==> r.error == SignedCredential(old(cred.entries), canon, sign).error
    ensures r.Err? ==> cred.entries == if Lookup(old(cred.entries), "proof").Some? then Remove(old(cred.entries), "proof") else old(cred.entries)
  {
    var popped := cred.Pop("proof");
    if popped.Err? {
      return Err(popped.error);
    }
    var payload := canon(cred.entries);
    var signature := EncodeNoPad(sign(payload));
    match popped.value
    case JObj(pf) =>
      cred.Put("proof", JObj(SetItem(pf, "signatureValue", JStr(signature))));
      r := Ok(cred);
    case _ =>
      r := Err(TypeError(ItemAssignmentError(popped.value)));
  }

  // ---------------------------------------------------------------------
  // Issuing

  /** The clock readings `issue_certificate` takes, in evaluation order: the
      timestamp hashed into the id (as its text), then `utcnow()` for
      `issuanceDate`, for the five-year expiry and for `proof.created`. */
  datatype ClockReads = ClockReads(idTimestamp: string, issued: DateTime, expiryBase: DateTime, created: DateTime)

  predicate ValidClock(clock: ClockReads) {
    Valid(clock.issued) && Valid(clock.expiryBase) && Valid(clock.created)
  }

  const CourseTitle: string := "Master AI Verification: Stop LLM Hallucinations in Production"

  /** The `credentialSubject` record. */
  function Subject(username: string, completionDate: string, modules: int): Json {
    JObj([("id", JStr("did:github:" + username)),
          ("name", JStr(username)),
          ("courseTitle", JStr(CourseTitle)),
          ("courseCode", JStr("QWED-AI-2026")),
          ("completionDate", JStr(completionDate)),
          ("modulesCertified", JInt(modules)),
          ("coursePath", JStr("Full Course (11 Modules)")),
          ("issuerName", JStr("QWED-AI"))])
  }

  /** The `proof` record before signing. */
  function UnsignedProof(did: string, created: string): Json {
    JObj([("type", JStr("RsaSignature2018")),
          ("created", JStr(created)),
          ("verificationMethod", JStr(KeyRef(did))),
          ("signatureValue", JStr(""))])
  }

  /** The credential `issue_certificate` builds before signing. */
  function UnsignedCredential(did: string, id: string, issuanceDate: string, expirationDate: string,
                              subject: Json, proof: Json): seq<(string, Json)>
  {
    [("@context", JArr([JStr("https://www.w3.org/2018/credentials/v1"),
                        JStr("https://www.w3.org/2018/credentials/examples/v1")])),
     ("type", JArr([JStr("VerifiableCredential"), JStr("CourseCompletionCredential")])),
     ("id", JStr(id)),
     ("issuer", JStr(did)),
     ("issuanceDate", JStr(issuanceDate)),
     ("expirationDate", JStr(expirationDate)),
     ("credentialSubject", subject),
     ("proof", proof)]
  }

  lemma SubjectFields(username: string, completionDate: string, modules: int)
    ensures var s := Subject(username, completionDate, modules);
      && Field(s, "id") == Some(JStr("did:github:" + username))
      && Field(s, "name") == Some(JStr(username))
      && Field(s, "completionDate") == Some(JStr(completionDate))
      && Field(s, "modulesCertified") == Some(JInt(modules))
      && UniqueKeys(s.fields)
  {
    var fs := Subject(username, completionDate, modules).fields;
    LookupAt(fs, 0, "id");
    LookupAt(fs, 1, "name");
    LookupAt(fs, 4, "completionDate");
    LookupAt(fs, 5, "modulesCertified");
  }

  lemma UnsignedProofFields(did: string, created: string)
    ensures var p := UnsignedProof(did, created);
      && Field(p, "type") == Some(JStr("RsaSignature2018"))
      && Field(p, "created") == Some(JStr(created))
      && Field(p, "verificationMethod") == Some(JStr(did + "#key-1"))
      && UniqueKeys(p.fields)
  {
    var fs := UnsignedProof(did, created).fields;
    LookupAt(fs, 0, "type");
    LookupAt(fs, 1, "created");
    LookupAt(fs, 2, "verificationMethod");
  }

  lemma UnsignedCredentialFields(did: string, id: string, issuanceDate: string, expirationDate: string,
                                 subject: Json, proof: Json)
    ensures var fs := UnsignedCredential(did, id, issuanceDate, expirationDate, subject, proof);
      && UniqueKeys(fs)
      && Lookup(fs, "@context") == Some(fs[0].1)
      && Lookup(fs, "type") == Some(JArr([JStr("VerifiableCredential"), JStr("CourseCompletionCredential")]))
      && Lookup(fs, "id") == Some(JStr(id))
      && Lookup(fs, "issuer") == Some(JStr(did))
      && Lookup(fs, "issuanceDate") == Some(JStr(issuanceDate))
      && Lookup(fs, "expirationDate") == Some(JStr(expirationDate))
      && Lookup(fs, "credentialSubject") == Some(subject)
      && Lookup(fs, "proof") == Some(proof)
  {
    var fs := UnsignedCredential(did, id, issuanceDate, expirationDate, subject, proof);
    LookupAt(fs, 0, "@context");
    LookupAt(fs, 1, "type");
    LookupAt(fs, 2, "id");
    LookupAt(fs, 3, "issuer");
    LookupAt(fs, 4, "issuanceDate");
    LookupAt(fs, 5, "expirationDate");
    LookupAt(fs, 6, "credentialSubject");
    LookupAt(fs, 7, "proof");
  }

  /** The expiry `_add_years(utcnow(), 5)`. */
  function Expiry(clock: ClockReads): Result<DateTime, PyError>
    requires ValidClock(clock)
  {
    AddYears(clock.expiryBase, 5)
  }

  /** `issue_certificate`, as a value: the signed credential, or the
      ValueError `_add_years` raises when five years on is past year 9999. */
  function IssuedCredential(iss: Issuer, username: string, completionDate: string, modules: int,
                            clock: ClockReads, hash: string -> seq<byte>,
                            canon: seq<(string, Json)> -> string, sign: string -> seq<byte>): Result<seq<(string, Json)>, PyError>
    requires ValidClock(clock)
  {
    match Expiry(clock)
    case Err(e) => Err(e)
    case Ok(expiry) =>
      SignedCredential(UnsignedCredential(Did(iss), GenerateCredentialId(username, clock.idTimestamp, hash),
                                          IsoFormat(clock.issued) + "Z", IsoFormat(expiry) + "Z",
                                          Subject(username, completionDate, modules),
                                          UnsignedProof(Did(iss), IsoFormat(clock.created) + "Z")), canon, sign)
  }

  /** `issue_certificate`: builds a fresh credential dictionary and signs it in place. */
  method IssueCertificate(iss: Issuer, username: string, completionDate: string, modules: int,
                          clock: ClockReads, hash: string -> seq<byte>,
                          canon: seq<(string, Json)> -> string, sign: string -> seq<byte>)
    returns (r: Result<JsonDict, PyError>)
    requires ValidClock(clock)
    ensures r.Ok? <==> IssuedCredential(iss, username, completionDate, modules, clock, hash, canon, sign).Ok?
    ensures r.Ok? ==> (fresh(r.value) && r.value.Valid() &&
      r.value.entries == IssuedCredential(iss, username, completionDate, modules, clock, hash, canon, sign).value)
    ensures r.Err? ==> r.error == IssuedCredential(iss, username, completionDate, modules, clock, hash, canon, sign).error
  {
    var id := GenerateCredentialId(username, clock.idTimestamp, hash);
    var expiry := Expiry(clock);
    if expiry.Err? {
      return Err(expiry.error);
    }
    var fs := UnsignedCredential(Did(iss), id, IsoFormat(clock.issued) + "Z", IsoFormat(expiry.value) + "Z",
                                 Subject(username, completionDate, modules),
                                 UnsignedProof(Did(iss), IsoFormat(clock.created) + "Z"));
    UnsignedCredentialFields(Did(iss), id, IsoFormat(clock.issued) + "Z", IsoFormat(expiry.value) + "Z",
                             Subject(username, completionDate, modules),
                             UnsignedProof(Did(iss), IsoFormat(clock.created) + "Z"));
    var credential := new JsonDict(fs);
    r := SignCredential(credential, canon, sign);
  }

  /** Issuing fails only when the expiry year would pass 9999, with the
      ValueError of `datetime.replace`. */
  lemma IssuedCredentialFails(iss: Issuer, username: string, completionDate: string, modules: int,
                              clock: ClockReads, hash: string -> seq<byte>,
                              canon: seq<(string, Json)> -> string, sign: string -> seq<byte>)
    requires ValidClock(clock)
    ensures IssuedCredential(iss, username, completionDate, modules, clock, hash, canon, sign).Err?
        <==> clock.expiryBase.year > 9994
    ensures clock.expiryBase.year > 9994 ==>
      IssuedCredential(iss, username, completionDate, modules, clock, hash, canon, sign).error
        == ValueError("year " + DecimalString(clock.expiryBase.year + 5) + " is out of range")
  {
    AddYearsFails(clock.expiryBase, 5);
    if clock.expiryBase.year <= 9994 {
      var expiry := Expiry(clock).value;
      UnsignedCredentialFields(Did(iss), GenerateCredentialId(username, clock.idTimestamp, hash),
                               IsoFormat(clock.issued) + "Z", IsoFormat(expiry) + "Z",
                               Subject(username, completionDate, modules),
                               UnsignedProof(Did(iss), IsoFormat(clock.created) + "Z"));
    }
  }

  /** The issued credential, field by field: issued by `did:web:<domain>`, a
      course-completion credential about `did:github:<username>` certifying
      `modules` modules, dated by the clock and expiring five years on, with
      a proof by `did#key-1` whose signature covers everything but the proof. */
  lemma IssuedCredentialFields(iss: Issuer, username: string, completionDate: string, modules: int,
                               clock: ClockReads, hash: string -> seq<byte>,
                               canon: seq<(string, Json)> -> string, sign: string -> seq<byte>)
    requires ValidClock(clock) && clock.expiryBase.year <= 9994
    ensures IssuedCredential(iss, username, completionDate, modules, clock, hash, canon, sign).Ok?
    ensures var out, did := IssuedCredential(iss, username, completionDate, modules, clock, hash, canon, sign).value,
                            "did:web:" + iss.domain;
      && UniqueKeys(out)
      && Lookup(out, "issuer") == Some(JStr(did))
      && Lookup(out, "type") == Some(JArr([JStr("VerifiableCredential"), JStr("CourseCompletionCredential")]))
      && Lookup(out, "id") == Some(JStr(GenerateCredentialId(username, clock.idTimestamp, hash)))
      && Lookup(out, "issuanceDate") == Some(JStr(IsoFormat(clock.issued) + "Z"))
      && Lookup(out, "expirationDate") == Some(JStr(IsoFormat(Expiry(clock).value) + "Z"))
      && Lookup(out, "credentialSubject") == Some(Subject(username, completionDate, modules))
      && Lookup(out, "@context").Some?
      && Lookup(out, "proof").Some? && Lookup(out, "proof").value.JObj?
      && var proof := Lookup(out, "proof").value;
         && Field(proof, "type") == Some(JStr("RsaSignature2018"))
         && Field(proof, "created") == Some(JStr(IsoFormat(clock.created) + "Z"))
         && Field(proof, "verificationMethod") == Some(JStr(did + "#key-1"))
         && Field(proof, "signatureValue") == Some(JStr(EncodeNoPad(sign(canon(Remove(out, "proof"))))))
  {
    IssuedCredentialFails(iss, username, completionDate, modules, clock, hash, canon, sign);
    var expiry := Expiry(clock).value;
    var id := GenerateCredentialId(username, clock.idTimestamp, hash);
    var subject := Subject(username, completionDate, modules);
    var proof := UnsignedProof(Did(iss), IsoFormat(clock.created) + "Z");
    var fs := UnsignedCredential(Did(iss), id, IsoFormat(clock.issued) + "Z", IsoFormat(expiry) + "Z", subject, proof);
    UnsignedCredentialFields(Did(iss), id, IsoFormat(clock.issued) + "Z", IsoFormat(expiry) + "Z", subject, proof);
    UnsignedProofFields(Did(iss), IsoFormat(clock.created) + "Z");
    SignedUnique(fs, canon, sign);
    SignedCredentialFields(fs, canon, sign, "issuer");
    SignedCredentialFields(fs, canon, sign, "type");
    SignedCredentialFields(fs, canon, sign, "id");
    SignedCredentialFields(fs, canon, sign, "issuanceDate");
    SignedCredentialFields(fs, canon, sign, "expirationDate");
    SignedCredentialFields(fs, canon, sign, "credentialSubject");
    SignedCredentialFields(fs, canon, sign, "@context");
    SignedCredentialFields(fs, canon, sign, "created");
    SignedCredentialFields(fs, canon, sign, "verificationMethod");
  }
}
