/**
 * `QWEDCertificateVerifier.verify_credential`: an ordered chain of checks on
 * a decoded credential whose first failure decides the answer, with every
 * Python exception turned into a "Verification error" answer; and
 * `verify_jwt_credential`, which wraps it around a decoded token.
 */
module CertificateVerifier {
  import opened Values

  const DefaultIssuerDid: string := "did:web:qwed-ai.com"

  /** The fields whose presence is checked first. */
  const RequiredFields: seq<string> := ["@context", "type", "credentialSubject", "proof"]

  /** `all(field in credential for field in fields)`: stops at the first
      missing field; an `in` that raises stops everything. */
  function AllPresent(credential: Json, fields: seq<string>): Result<bool, PyError>
    decreases |fields|
  {
    if |fields| == 0 then Ok(true)
    else
      match Contains(credential, fields[0])
      case Err(e) => Err(e)
      case Ok(false) => Ok(false)
      case Ok(true) => AllPresent(credential, fields[1..])
  }

  /** The checks of `verify_credential` in source order; an Err is an
      exception that escapes them. */
  function Check(credential: Json, issuerDid: string): Result<(bool, string), PyError> {
    match AllPresent(credential, RequiredFields)
    case Err(e) => Err(e)
    case Ok(false) => Ok((false, "Missing required fields"))
    case Ok(true) =>
      match Get(credential, "issuer", JNull)
      case Err(e) => Err(e)
      case Ok(issuer) =>
        if issuer != JStr(issuerDid) then Ok((false, "Unknown issuer: " + Str(issuer)))
        else
          match Get(credential, "type", JArr([]))
          case Err(e) => Err(e)
          case Ok(types) =>
            match Contains(types, "CourseCompletionCredential")
            case Err(e) => Err(e)
            case Ok(false) => Ok((false, "Not a course completion credential"))
            case Ok(true) =>
              match Get(credential, "credentialSubject", JObj([]))
              case Err(e) => Err(e)
              case Ok(subject) =>
                match Get(subject, "modulesCertified", JNull)
                case Err(e) => Err(e)
                case Ok(modules) =>
                  if modules != JInt(11) then Ok((false, "Only " + Str(modules) + " modules certified (need 11)"))
                  else
                    match Get(subject, "name", JNull)
                    case Err(e) => Err(e)
                    case Ok(name) => Ok((true, "✅ Certificate verified for " + Str(name)))
  }

  /** `verify_credential(credential)`: never raises. */
  function VerifyCredential(credential: Json, issuerDid: string): (bool, string) {
    match Check(credential, issuerDid)
    case Ok(answer) => answer
    case Err(e) => (false, "Verification error: " + ErrorText(e))
  }

  // ---------------------------------------------------------------------
  // What the checks mean

  predicate HasRequiredFields(fs: seq<(string, Json)>) {
    HasKey(fs, "@context") && HasKey(fs, "type") && HasKey(fs, "credentialSubject") && HasKey(fs, "proof")
  }

  /** The type list (or string, or dictionary) names a course completion. */
  predicate IsCourseCompletion(types: Json) {
    Contains(types, "CourseCompletionCredential") == Ok(true)
  }

  /** What an accepted credential is: a dictionary with the required fields,
      the expected issuer, the course-completion type and a subject dictionary
      certifying 11 modules. */
  predicate Accepts(credential: Json, issuerDid: string) {
    && credential.JObj?
    && HasRequiredFields(credential.fields)
    && Lookup(credential.fields, "issuer") == Some(JStr(issuerDid))
    && IsCourseCompletion(GetOr(credential.fields, "type", JArr([])))
    && GetOr(credential.fields, "credentialSubject", JObj([])).JObj?
    && Lookup(GetOr(credential.fields, "credentialSubject", JObj([])).fields, "modulesCertified") == Some(JInt(11))
  }

  lemma AllPresentDict(fs: seq<(string, Json)>)
    ensures AllPresent(JObj(fs), RequiredFields) == Ok(HasRequiredFields(fs))
  {
    var c := JObj(fs);
    var r := RequiredFields;
    assert r[1..] == ["type", "credentialSubject", "proof"];
    assert r[1..][1..] == ["credentialSubject", "proof"];
    assert r[1..][1..][1..] == ["proof"];
    assert AllPresent(c, r[1..][1..][1..]) == Ok(HasKey(fs, "proof"));
  }

  /** Lists and strings support `in` but not `get`. */
  lemma AllPresentSequence(credential: Json, fields: seq<string>)
    requires credential.JArr? || credential.JStr?
    ensures AllPresent(credential, fields).Ok?
    decreases |fields|
  {
    if |fields| > 0 {
      AllPresentSequence(credential, fields[1..]);
    }
  }

  /** `verify_credential` accepts exactly the credentials `Accepts` describes. */
  lemma VerifyCredentialAccepts(credential: Json, issuerDid: string)
    ensures VerifyCredential(credential, issuerDid).0 <==> Accepts(credential, issuerDid)
  {
    if credential.JObj? {
      var fs := credential.fields;
      AllPresentDict(fs);
      GetOrSpec(fs, "issuer", JNull);
      GetOrSpec(fs, "type", JArr([]));
      GetOrSpec(fs, "credentialSubject", JObj([]));
      var subject := GetOr(fs, "credentialSubject", JObj([]));
      if subject.JObj? {
        GetOrSpec(subject.fields, "modulesCertified", JNull);
      }
    } else if credential.JArr? || credential.JStr? {
      AllPresentSequence(credential, RequiredFields);
    }
  }

  /** The checks run in order and the first failure alone decides the answer:
      missing fields, then the issuer, then the type, then the module count. */
  lemma VerifyCredentialOrder(fs: seq<(string, Json)>, issuerDid: string)
    ensures var r := VerifyCredential(JObj(fs), issuerDid);
      var issuer := GetOr(fs, "issuer", JNull);
      var types := GetOr(fs, "type", JArr([]));
      var subject := GetOr(fs, "credentialSubject", JObj([]));
      && (!HasRequiredFields(fs) ==> r == (false, "Missing required fields"))
      && (HasRequiredFields(fs) && issuer != JStr(issuerDid) ==>
            r == (false, "Unknown issuer: " + Str(issuer)))
      && (HasRequiredFields(fs) && issuer == JStr(issuerDid) && Contains(types, "CourseCompletionCredential") == Ok(false) ==>
            r == (false, "Not a course completion credential"))
      && (HasRequiredFields(fs) && issuer == JStr(issuerDid) && IsCourseCompletion(types) && subject.JObj?
          && GetOr(subject.fields, "modulesCertified", JNull) != JInt(11) ==>
            r == (false, "Only " + Str(GetOr(subject.fields, "modulesCertified", JNull)) + " modules certified (need 11)"))
      && (Accepts(JObj(fs), issuerDid) ==>
            r == (true, "✅ Certificate verified for " + Str(GetOr(subject.fields, "name", JNull))))
  {
    AllPresentDict(fs);
    GetOrSpec(fs, "type", JArr([]));
    GetOrSpec(fs, "issuer", JNull);
    GetOrSpec(fs, "credentialSubject", JObj([]));
    var subject := GetOr(fs, "credentialSubject", JObj([]));
    if subject.JObj? {
      GetOrSpec(subject.fields, "modulesCertified", JNull);
    }
  }

  /** `issuer` is not a required field: without it the answer names None. */
  lemma MissingIssuer(fs: seq<(string, Json)>, issuerDid: string)
    requires HasRequiredFields(fs) && !HasKey(fs, "issuer")
    ensures VerifyCredential(JObj(fs), issuerDid) == (false, "Unknown issuer: None")
  {
    VerifyCredentialOrder(fs, issuerDid);
    GetOrSpec(fs, "issuer", JNull);
    assert "Unknown issuer: " + "None" == "Unknown issuer: None";
  }

  /** What escapes the checks is reported, not raised: a credential that
      does not support `in`... */
  lemma NotIterableReported(credential: Json, issuerDid: string)
    requires credential.JNull? || credential.JBool? || credential.JInt?
    ensures VerifyCredential(credential, issuerDid)
         == (false, "Verification error: argument of type '" + TypeName(credential) + "' is not iterable")
  {
    var t := TypeName(credential);
    var m := "argument of type '" + t + "' is not iterable";
    assert AllPresent(credential, RequiredFields) == Err(TypeError(m));
    assert "Verification error: " + m == "Verification error: argument of type '" + t + "' is not iterable";
  }

  /** ...and a list or string, which has no `get`, that passes the presence check. */
  lemma NoGetReported(credential: Json, issuerDid: string)
    requires credential.JArr? || credential.JStr?
    requires AllPresent(credential, RequiredFields) == Ok(true)
    ensures VerifyCredential(credential, issuerDid)
         == (false, "Verification error: '" + TypeName(credential) + "' object has no attribute 'get'")
  {
    var t := TypeName(credential);
    var m := "'" + t + "' object has no attribute 'get'";
    assert Get(credential, "issuer", JNull) == Err(AttributeError(m));
    assert Check(credential, issuerDid) == Err(AttributeError(m));
    assert "Verification error: " + m == "Verification error: '" + t + "' object has no attribute 'get'";
  }

  /** The signature is never checked: whatever `proof` holds, the answer is the same. */
  lemma ProofIgnored(fs: seq<(string, Json)>, issuerDid: string, proof: Json)
    requires HasKey(fs, "proof")
    ensures VerifyCredential(JObj(SetItem(fs, "proof", proof)), issuerDid) == VerifyCredential(JObj(fs), issuerDid)
  {
    var fs' := SetItem(fs, "proof", proof);
    GetOrSetItem(fs, "proof", proof, "proof", JNull);
    GetOrSetItem(fs, "proof", proof, "@context", JNull);
    GetOrSetItem(fs, "proof", proof, "type", JArr([]));
    GetOrSetItem(fs, "proof", proof, "credentialSubject", JObj([]));
    GetOrSetItem(fs, "proof", proof, "issuer", JNull);
    AllPresentDict(fs);
    AllPresentDict(fs');
    assert AllPresent(JObj(fs'), RequiredFields) == AllPresent(JObj(fs), RequiredFields);
    assert Get(JObj(fs'), "issuer", JNull) == Get(JObj(fs), "issuer", JNull);
    assert Get(JObj(fs'), "type", JArr([])) == Get(JObj(fs), "type", JArr([]));
    assert Get(JObj(fs'), "credentialSubject", JObj([])) == Get(JObj(fs), "credentialSubject", JObj([]));
    assert Check(JObj(fs'), issuerDid) == Check(JObj(fs), issuerDid);
  }

  // ---------------------------------------------------------------------
  // JWT

  /** `verify_jwt_credential(token)`, with `jwt.decode` abstracted to its
      outcome: the payload dictionary, or the message of the exception. */
  function VerifyJwtCredential(decoded: Result<seq<(string, Json)>, string>, issuerDid: string): (bool, Json) {
    match decoded
    case Err(msg) => (false, JObj([("valid", JBool(false)), ("message", JStr("JWT decode error: " + msg))]))
    case Ok(payload) =>
      var credential := GetOr(payload, "vc", JObj([]));
      var (valid, message) := VerifyCredential(credential, issuerDid);
      (valid, JObj([("valid", JBool(valid)), ("message", JStr(message)), ("credential", credential)]))
  }

  /** The returned flag is the dictionary's `valid`; a decode failure is
      never valid; otherwise the flag is `verify_credential`'s on `vc`, and a
      payload without `vc` is missing its fields. */
  lemma VerifyJwtCredentialResult(decoded: Result<seq<(string, Json)>, string>, issuerDid: string)
    ensures var (valid, info) := VerifyJwtCredential(decoded, issuerDid);
      && Field(info, "valid") == Some(JBool(valid))
      && (decoded.Err? ==> !valid && Field(info, "message") == Some(JStr("JWT decode error: " + decoded.error)))
      && (decoded.Ok? ==> valid == Accepts(GetOr(decoded.value, "vc", JObj([])), issuerDid))
      && (decoded.Ok? && !HasKey(decoded.value, "vc") ==>
            !valid && Field(info, "message") == Some(JStr("Missing required fields")))
  {
    var (valid, info) := VerifyJwtCredential(decoded, issuerDid);
    LookupAt(info.fields, 0, "valid");
    LookupAt(info.fields, 1, "message");
    if decoded.Ok? {
      var credential := GetOr(decoded.value, "vc", JObj([]));
      VerifyCredentialAccepts(credential, issuerDid);
      GetOrSpec(decoded.value, "vc", JObj([]));
      if !HasKey(decoded.value, "vc") {
        VerifyCredentialOrder([], issuerDid);
      }
    }
  }
}
