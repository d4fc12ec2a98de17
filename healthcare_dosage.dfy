/**
 * `HIPAACompliantDosageCalculator`: a weight-based dosage obtained from the
 * external math verifier, capped at an optional maximum, with every outcome
 * written to an append-only audit log that can be filtered by patient.
 */
module HealthcareDosage {
  import opened Values
  import opened Calendar

  /** The two `datetime.now()` reads of one `_log_audit_event` call: one for
      the audit id, one for the timestamp. */
  datatype LogClock = LogClock(idNow: DateTime, stampNow: DateTime)

  predicate ValidLogClock(c: LogClock) {
    Valid(c.idNow) && Valid(c.stampNow)
  }

  /** `f"AUD-{datetime.now().strftime('%Y%m%d%H%M%S%f')}"`. */
  function AuditId(d: DateTime): string
    requires Valid(d)
  {
    "AUD-" + ZeroPad(d.year, 4) + ZeroPad(d.month, 2) + ZeroPad(d.day, 2)
    + ZeroPad(d.hour, 2) + ZeroPad(d.minute, 2) + ZeroPad(d.second, 2) + ZeroPad(d.microsecond, 6)
  }

  predicate AllDigits(s: string) {
    forall i :: 0 <= i < |s| ==> '0' <= s[i] <= '9'
  }

  lemma DigitsConcat(a: string, b: string)
    requires AllDigits(a) && AllDigits(b)
    ensures AllDigits(a + b)
  {
    assert forall i :: |a| <= i < |a + b| ==> (a + b)[i] == b[i - |a|];
  }

  lemma ZeroPadDigits(n: nat, w: nat)
    requires 1 <= w && n < Pow10(w)
    ensures |ZeroPad(n, w)| == w && AllDigits(ZeroPad(n, w))
  {
    ZeroPadFits(n, w);
  }

  /** An audit id is "AUD-" and twenty digits. */
  lemma AuditIdShape(d: DateTime)
    requires Valid(d)
    ensures |AuditId(d)| == 24 && AuditId(d)[..4] == "AUD-" && AllDigits(AuditId(d)[4..])
  {
    var y, mo, da := ZeroPad(d.year, 4), ZeroPad(d.month, 2), ZeroPad(d.day, 2);
    var h, mi, se, us := ZeroPad(d.hour, 2), ZeroPad(d.minute, 2), ZeroPad(d.second, 2), ZeroPad(d.microsecond, 6);
    ZeroPadDigits(d.year, 4);
    ZeroPadDigits(d.month, 2);
    ZeroPadDigits(d.day, 2);
    ZeroPadDigits(d.hour, 2);
    ZeroPadDigits(d.minute, 2);
    ZeroPadDigits(d.second, 2);
    ZeroPadDigits(d.microsecond, 6);
    IdLayout(y, mo, da, h, mi, se, us);
  }

  lemma IdLayout(y: string, mo: string, da: string, h: string, mi: string, se: string, us: string)
    requires AllDigits(y) && AllDigits(mo) && AllDigits(da) && AllDigits(h)
    requires AllDigits(mi) && AllDigits(se) && AllDigits(us)
    ensures var s := "AUD-" + y + mo + da + h + mi + se + us;
      s[..4] == "AUD-" && AllDigits(s[4..]) && |s| == 4 + |y + mo + da + h + mi + se + us|
  {
    var s := "AUD-" + y + mo + da + h + mi + se + us;
    assert s[4..] == y + mo + da + h + mi + se + us;
    DigitsConcat(y, mo);
    DigitsConcat(y + mo, da);
    DigitsConcat(y + mo + da, h);
    DigitsConcat(y + mo + da + h, mi);
    DigitsConcat(y + mo + da + h + mi, se);
    DigitsConcat(y + mo + da + h + mi + se, us);
  }

  /** One entry of `audit_log`; a missing dosage, `pii_masked` or error is None. */
  datatype AuditEvent = AuditEvent(
    auditId: string, timestamp: string, patient: string, drug: string, weightKg: real,
    calculatedDosageMg: Option<real>, verified: bool, piiMasked: Json, error: Option<string>)

  /** The entry `_log_audit_event` builds. */
  function NewEvent(clock: LogClock, patient: string, drug: string, weight: real, dosage: Option<real>,
                    verified: bool, piiMasked: Json, error: Option<string>): AuditEvent
    requires ValidLogClock(clock)
  {
    AuditEvent(AuditId(clock.idNow), IsoFormat(clock.stampNow) , patient, drug, weight, dosage, verified, piiMasked, error)
  }

  /** The dictionary a successful calculation returns. */
  datatype DosageResult = DosageResult(
    dosageMg: real, verified: bool, confidence: real, capped: bool, maxDosage: Option<real>,
    piiDetected: Json, auditId: string, timestamp: string)

  /** `max_dosage` as a Python condition: None and 0 are false. */
  predicate HasCap(maxDosage: Option<real>) {
    maxDosage.Some? && maxDosage.value != 0.0
  }

  /** `if max_dosage and calculated_dosage > max_dosage`: the dosage used and
      whether it was capped. */
  function CapDosage(value: real, maxDosage: Option<real>): (real, bool) {
    if HasCap(maxDosage) && value > maxDosage.value then (maxDosage.value, true) else (value, false)
  }

  /** A cap lowers the dosage to the maximum and says so; otherwise the
      verified value is used as it is. A truthy maximum is never exceeded. */
  lemma CapDosageSpec(value: real, maxDosage: Option<real>)
    ensures var (dosage, capped) := CapDosage(value, maxDosage);
      && (capped <==> HasCap(maxDosage) && value > maxDosage.value)
      && (capped ==> dosage == maxDosage.value && dosage < value)
      && (!capped ==> dosage == value)
      && (HasCap(maxDosage) ==> dosage <= maxDosage.value)
  {
  }

  function FailedMessage(e: string): string {
    "Dosage calculation failed: " + e
  }

  function UnverifiedMessage(drug: string, error: Option<string>): string {
    "Cannot verify " + drug + " dosage calculation. Error: " + OptStr(error) + ". Manual calculation required."
  }

  /** What `calculate_weight_based_dosage` does for one outcome of
      `verify_math`: the result or the `SafetyError` message, and the audit
      entries it appends. `first` and `second` are the clock reads of the
      first and of a possible second log call. */
  function DosageOutcome(patient: string, weight: real, drug: string, maxDosage: Option<real>,
                         call: Call, first: LogClock, second: LogClock): (Result<DosageResult, string>, seq<AuditEvent>)
    requires ValidLogClock(first) && ValidLogClock(second)
  {
    match call
    case Raised(e) =>
      (Err(FailedMessage(e)), [NewEvent(first, patient, drug, weight, None, false, JNull, Some(e))])
    case Returned(result) =>
      if !result.verified then
        (Err(UnverifiedMessage(drug, result.error)),
         [NewEvent(first, patient, drug, weight, None, false, JNull, result.error)])
      else VerifiedOutcome(patient, weight, drug, maxDosage, result, first, second)
  }

  /** The verified branch: cap, log the success, then read `pii_detected`. */
  function VerifiedOutcome(patient: string, weight: real, drug: string, maxDosage: Option<real>,
                           result: QwedResult, first: LogClock, second: LogClock): (Result<DosageResult, string>, seq<AuditEvent>)
    requires ValidLogClock(first) && ValidLogClock(second)
  {
    var (dosage, capped) := CapDosage(result.value, maxDosage);
    var pii := GetOr(result.evidence, "pii_masked", JObj([]));
    var logged := NewEvent(first, patient, drug, weight, Some(dosage), true, pii, None);
    match Get(pii, "pii_detected", JInt(0))
    case Ok(detected) =>
      (Ok(DosageResult(dosage, true, 100.0, capped, maxDosage, detected, logged.auditId, logged.timestamp)), [logged])
    case Err(e) =>
      var msg := ErrorText(e);
      (Err(FailedMessage(msg)), [logged, NewEvent(second, patient, drug, weight, None, false, JNull, Some(msg))])
  }

  /** Failures log exactly one entry, without a dosage and unverified, and
      raise SafetyError; the unverified case does not log again when the
      SafetyError passes through the handler. */
  lemma DosageFailures(patient: string, weight: real, drug: string, maxDosage: Option<real>,
                       call: Call, first: LogClock, second: LogClock)
    requires ValidLogClock(first) && ValidLogClock(second)
    requires call.Raised? || !call.result.verified
    ensures var (r, entries) := DosageOutcome(patient, weight, drug, maxDosage, call, first, second);
      && r.Err? && |entries| == 1
      && entries[0].calculatedDosageMg == None && !entries[0].verified
      && entries[0].patient == patient && entries[0].drug == drug
      && entries[0].error == (if call.Raised? then Some(call.exception) else call.result.error)
      && r.error == (if call.Raised? then FailedMessage(call.exception) else UnverifiedMessage(drug, call.result.error))
  {
  }

  /** A success logs one verified entry whose dosage is the returned one and
      whose id is the returned audit id; the dosage is the verifier's value,
      capped when a truthy maximum is exceeded. */
  lemma DosageSuccess(patient: string, weight: real, drug: string, maxDosage: Option<real>,
                      call: Call, first: LogClock, second: LogClock)
    requires ValidLogClock(first) && ValidLogClock(second)
    requires DosageOutcome(patient, weight, drug, maxDosage, call, first, second).0.Ok?
    ensures var (r, entries) := DosageOutcome(patient, weight, drug, maxDosage, call, first, second);
      && call.Returned? && call.result.verified
      && |entries| == 1
      && entries[0].verified && entries[0].calculatedDosageMg == Some(r.value.dosageMg)
      && entries[0].patient == patient
      && r.value.auditId == entries[0].auditId && r.value.timestamp == entries[0].timestamp
      && r.value.verified && r.value.confidence == 100.0
      && (r.value.dosageMg, r.value.capped) == CapDosage(call.result.value, maxDosage)
      && (HasCap(maxDosage) ==> r.value.dosageMg <= maxDosage.value)
  {
    CapDosageSpec(call.result.value, maxDosage);
  }

  /** A verified result whose `pii_masked` evidence is not a dictionary: the
      success entry is already logged when `.get` fails, so a second,
      failed entry follows it. */
  lemma DosagePiiNotDict(patient: string, weight: real, drug: string, maxDosage: Option<real>,
                         call: Call, first: LogClock, second: LogClock)
    requires ValidLogClock(first) && ValidLogClock(second)
    requires call.Returned? && call.result.verified
    requires !GetOr(call.result.evidence, "pii_masked", JObj([])).JObj?
    ensures var (r, entries) := DosageOutcome(patient, weight, drug, maxDosage, call, first, second);
      && r.Err? && |entries| == 2
      && entries[0].verified && entries[0].calculatedDosageMg.Some?
      && !entries[1].verified && entries[1].calculatedDosageMg == None
  {
  }

  // ---------------------------------------------------------------------
  // The audit trail

  /** `[e for e in audit_log if e['patient'] == patient_name]`. */
  function EventsFor(log: seq<AuditEvent>, name: string): seq<AuditEvent> {
    if |log| == 0 then []
    else (if log[0].patient == name then [log[0]] else []) + EventsFor(log[1..], name)
  }

  /** The filter keeps exactly the patient's entries... */
  lemma {:induction false} EventsForMembers(log: seq<AuditEvent>, name: string)
    ensures forall e :: e in EventsFor(log, name) <==> e in log && e.patient == name
  {
    if |log| > 0 {
      EventsForMembers(log[1..], name);
      assert log == [log[0]] + log[1..];
    }
  }

  /** ...in log order: filtering a log made of two parts filters each part. */
  lemma {:induction false} EventsForAppend(a: seq<AuditEvent>, b: seq<AuditEvent>, name: string)
    ensures EventsFor(a + b, name) == EventsFor(a, name) + EventsFor(b, name)
  {
    if |a| > 0 {
      EventsForAppend(a[1..], b, name);
      assert (a + b)[1..] == a[1..] + b;
    } else {
      assert a + b == b;
    }
  }

  class DosageCalculator {
    var auditLog: seq<AuditEvent>

    constructor()
      ensures auditLog == []
    {
      auditLog := [];
    }

    /** `_log_audit_event`: appends one entry and returns it. */
    method LogAuditEvent(clock: LogClock, patient: string, drug: string, weight: real, dosage: Option<real>,
                         verified: bool, piiMasked: Json, error: Option<string>) returns (event: AuditEvent)
      requires ValidLogClock(clock)
      modifies this
      ensures event == NewEvent(clock, patient, drug, weight, dosage, verified, piiMasked, error)
      ensures auditLog == old(auditLog) + [event]
    {
      event := AuditEvent(AuditId(clock.idNow), IsoFormat(clock.stampNow), patient, drug, weight,
                          dosage, verified, piiMasked, error);
      auditLog := auditLog + [event];
    }

    /** `calculate_weight_based_dosage`; `dosage_per_kg` only enters the query
        text, so it has no effect here. */
    method CalculateWeightBasedDosage(patient: string, weight: real, drug: string, dosagePerKg: real,
                                      maxDosage: Option<real>, call: Call, first: LogClock, second: LogClock)
      returns (r: Result<DosageResult, string>)
      requires ValidLogClock(first) && ValidLogClock(second)
      modifies this
      ensures r == DosageOutcome(patient, weight, drug, maxDosage, call, first, second).0
      ensures auditLog == old(auditLog) + DosageOutcome(patient, weight, drug, maxDosage, call, first, second).1
    {
      if call.Raised? {
        var _ := LogAuditEvent(first, patient, drug, weight, None, false, JNull, Some(call.exception));
        return Err(FailedMessage(call.exception));
      }
      var result := call.result;
      if !result.verified {
        var _ := LogAuditEvent(first, patient, drug, weight, None, false, JNull, result.error);
        return Err(UnverifiedMessage(drug, result.error));
      }
      var calculated := result.value;
      var capped: bool;
      if HasCap(maxDosage) && calculated > maxDosage.value {
        calculated := maxDosage.value;
        capped := true;
      } else {
        capped := false;
      }
      assert (calculated, capped) == CapDosage(result.value, maxDosage);
      var pii := GetOr(result.evidence, "pii_masked", JObj([]));
      var info := LogAuditEvent(first, patient, drug, weight, Some(calculated), true, pii, None);
      var detected := Get(pii, "pii_detected", JInt(0));
      if detected.Err? {
        var msg := ErrorText(detected.error);
        var failure := LogAuditEvent(second, patient, drug, weight, None, false, JNull, Some(msg));
        assert VerifiedOutcome(patient, weight, drug, maxDosage, result, first, second) == (Err(FailedMessage(msg)), [info, failure]);
        assert auditLog == old(auditLog) + [info, failure];
        return Err(FailedMessage(msg));
      }
      r := Ok(DosageResult(calculated, true, 100.0, capped, maxDosage, detected.value, info.auditId, info.timestamp));
      assert VerifiedOutcome(patient, weight, drug, maxDosage, result, first, second) == (r, [info]);
    }

    /** `get_audit_trail(patient_name)`: a falsy name (None or "") gives the whole log. */
    function GetAuditTrail(patientName: Option<string>): (trail: seq<AuditEvent>)
      reads this
      ensures patientName.None? || patientName.value == "" ==> trail == auditLog
      ensures patientName.Some? && patientName.value != "" ==>
        trail == EventsFor(auditLog, patientName.value)
      ensures patientName.Some? && patientName.value != "" ==>
        forall e :: e in trail <==> e in auditLog && e.patient == patientName.value
    {
      if patientName.Some? && patientName.value != "" then
        EventsForMembers(auditLog, patientName.value);
        EventsFor(auditLog, patientName.value)
      else auditLog
    }
  }

  /** A patient's trail after a calculation is the trail before it followed by
      that patient's new entries, which are all of them when it is that
      patient's calculation. */
  lemma TrailAfterLogging(before: seq<AuditEvent>, entries: seq<AuditEvent>, name: string)
    requires forall i :: 0 <= i < |entries| ==> entries[i].patient == name
    ensures EventsFor(before + entries, name) == EventsFor(before, name) + entries
  {
    EventsForAppend(before, entries, name);
    EventsForAll(entries, name);
  }

  lemma {:induction false} EventsForAll(log: seq<AuditEvent>, name: string)
    requires forall i :: 0 <= i < |log| ==> log[i].patient == name
    ensures EventsFor(log, name) == log
  {
    if |log| > 0 {
      EventsForAll(log[1..], name);
    }
  }

  /** Every entry a calculation appends names its patient. */
  lemma OutcomeEntriesBelongToPatient(patient: string, weight: real, drug: string, maxDosage: Option<real>,
                                      call: Call, first: LogClock, second: LogClock)
    requires ValidLogClock(first) && ValidLogClock(second)
    ensures var entries := DosageOutcome(patient, weight, drug, maxDosage, call, first, second).1;
      forall i :: 0 <= i < |entries| ==> entries[i].patient == patient
  {
    var entries := DosageOutcome(patient, weight, drug, maxDosage, call, first, second).1;
    if call.Returned? && call.result.verified {
      var pii := GetOr(call.result.evidence, "pii_masked", JObj([]));
      if pii.JObj? {
        assert |entries| == 1 && entries[0].patient == patient;
      } else {
        assert |entries| == 2 && entries[0].patient == patient && entries[1].patient == patient;
      }
    } else {
      assert |entries| == 1 && entries[0].patient == patient;
    }
  }
}
