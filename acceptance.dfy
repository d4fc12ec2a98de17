/**
 * The issuer and the verifier together: a credential `issue_certificate`
 * produces is accepted by `verify_credential` for the issuer's DID exactly
 * when it certifies all 11 modules.
 */
module Acceptance {
  import opened Values
  import opened Calendar
  import opened CertificateIssuer
  import opened CertificateVerifier

  /** The facts about a credential dictionary that the verifier reads. */
  predicate Shape(out: seq<(string, Json)>, did: string, username: string, modules: int) {
    var subject := GetOr(out, "credentialSubject", JObj([]));
    && HasRequiredFields(out)
    && GetOr(out, "issuer", JNull) == JStr(did)
    && IsCourseCompletion(GetOr(out, "type", JArr([])))
    && subject.JObj?
    && GetOr(subject.fields, "modulesCertified", JNull) == JInt(modules)
    && GetOr(subject.fields, "name", JNull) == JStr(username)
  }

  lemma ShapeOfLookups(out: seq<(string, Json)>, did: string, username: string, completionDate: string, modules: int)
    requires Lookup(out, "issuer") == Some(JStr(did))
    requires Lookup(out, "type") == Some(JArr([JStr("VerifiableCredential"), JStr("CourseCompletionCredential")]))
    requires Lookup(out, "credentialSubject") == Some(Subject(username, completionDate, modules))
    requires Lookup(out, "@context").Some? && Lookup(out, "proof").Some?
    ensures Shape(out, did, username, modules)
  {
    LookupSpec(out, "@context");
    LookupSpec(out, "type");
    LookupSpec(out, "credentialSubject");
    LookupSpec(out, "proof");
    SubjectFields(username, completionDate, modules);
  }

  /** An issued credential has that shape, for the issuer's DID. */
  lemma IssuedShape(iss: Issuer, username: string, completionDate: string, modules: int,
                    clock: ClockReads, hash: string -> seq<byte>,
                    canon: seq<(string, Json)> -> string, sign: string -> seq<byte>)
    requires ValidClock(clock) && clock.expiryBase.year <= 9994
    ensures IssuedCredential(iss, username, completionDate, modules, clock, hash, canon, sign).Ok?
    ensures Shape(IssuedCredential(iss, username, completionDate, modules, clock, hash, canon, sign).value,
                  Did(iss), username, modules)
  {
    IssuedCredentialFields(iss, username, completionDate, modules, clock, hash, canon, sign);
    var out := IssuedCredential(iss, username, completionDate, modules, clock, hash, canon, sign).value;
    ShapeOfLookups(out, Did(iss), username, completionDate, modules);
  }

  /** What the verifier answers on a credential of that shape. */
  lemma VerifyShape(out: seq<(string, Json)>, did: string, username: string, modules: int, trusted: string)
    requires Shape(out, did, username, modules)
    ensures trusted != did ==> VerifyCredential(JObj(out), trusted) == (false, "Unknown issuer: " + did)
    ensures trusted == did && modules != 11 ==>
      VerifyCredential(JObj(out), trusted) == (false, "Only " + DecimalString(modules) + " modules certified (need 11)")
    ensures trusted == did && modules == 11 ==>
      VerifyCredential(JObj(out), trusted) == (true, "✅ Certificate verified for " + username)
  {
    VerifyCredentialOrder(out, trusted);
    if trusted == did && modules == 11 {
      GetOrSpec(out, "issuer", JNull);
      var subject := GetOr(out, "credentialSubject", JObj([]));
      GetOrSpec(subject.fields, "modulesCertified", JNull);
      assert Accepts(JObj(out), trusted);
    }
  }

  /** Issued with 11 modules, the credential is verified for the issuer's
      DID, and the message names the holder. */
  lemma IssuedIsVerified(iss: Issuer, username: string, completionDate: string,
                         clock: ClockReads, hash: string -> seq<byte>,
                         canon: seq<(string, Json)> -> string, sign: string -> seq<byte>)
    requires ValidClock(clock) && clock.expiryBase.year <= 9994
    ensures IssuedCredential(iss, username, completionDate, 11, clock, hash, canon, sign).Ok?
    ensures var out := IssuedCredential(iss, username, completionDate, 11, clock, hash, canon, sign).value;
      VerifyCredential(JObj(out), "did:web:" + iss.domain) == (true, "✅ Certificate verified for " + username)
  {
    IssuedShape(iss, username, completionDate, 11, clock, hash, canon, sign);
    var out := IssuedCredential(iss, username, completionDate, 11, clock, hash, canon, sign).value;
    VerifyShape(out, Did(iss), username, 11, Did(iss));
  }

  /** Issued with any other module count, it is refused with that count. */
  lemma IssuedWithFewerModules(iss: Issuer, username: string, completionDate: string, modules: int,
                               clock: ClockReads, hash: string -> seq<byte>,
                               canon: seq<(string, Json)> -> string, sign: string -> seq<byte>)
    requires ValidClock(clock) && clock.expiryBase.year <= 9994 && modules != 11
    ensures IssuedCredential(iss, username, completionDate, modules, clock, hash, canon, sign).Ok?
    ensures var out := IssuedCredential(iss, username, completionDate, modules, clock, hash, canon, sign).value;
      VerifyCredential(JObj(out), "did:web:" + iss.domain)
        == (false, "Only " + DecimalString(modules) + " modules certified (need 11)")
  {
    IssuedShape(iss, username, completionDate, modules, clock, hash, canon, sign);
    var out := IssuedCredential(iss, username, completionDate, modules, clock, hash, canon, sign).value;
    VerifyShape(out, Did(iss), username, modules, Did(iss));
  }

  /** A verifier that trusts another DID refuses it and names the actual issuer. */
  lemma IssuedForOtherIssuer(iss: Issuer, username: string, completionDate: string, modules: int,
                             clock: ClockReads, hash: string -> seq<byte>,
                             canon: seq<(string, Json)> -> string, sign: string -> seq<byte>,
                             trusted: string)
    requires ValidClock(clock) && clock.expiryBase.year <= 9994 && trusted != "did:web:" + iss.domain
    ensures IssuedCredential(iss, username, completionDate, modules, clock, hash, canon, sign).Ok?
    ensures var out := IssuedCredential(iss, username, completionDate, modules, clock, hash, canon, sign).value;
      VerifyCredential(JObj(out), trusted) == (false, "Unknown issuer: " + Did(iss))
  {
    IssuedShape(iss, username, completionDate, modules, clock, hash, canon, sign);
    var out := IssuedCredential(iss, username, completionDate, modules, clock, hash, canon, sign).value;
    VerifyShape(out, Did(iss), username, modules, trusted);
  }

  /** The default issuer's DID is the default the verifier trusts. */
  lemma DefaultsAgree(n: Positive, e: Positive)
    ensures Did(Issuer(DefaultDomain, n, e)) == DefaultIssuerDid
  {
  }
}
