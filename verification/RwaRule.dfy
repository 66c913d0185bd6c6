/** The compliance rule for tokenized assets: a pure judgement of an already resolved transfer. */
module RwaRule {
  import opened Wrappers
  import opened Intents

  datatype Severity = SevYellow | SevRed

  datatype Finding = Finding(code: string, severity: Severity)

  const NOT_AUTHORIZED := Finding("rwa_destination_not_authorized", SevRed)
  const NOT_PERMITTED := Finding("rwa_transfer_not_permitted", SevRed)
  const MISSING_CREDENTIAL := Finding("rwa_missing_required_credential", SevRed)
  const OUTSIDE_DOMAIN := Finding("rwa_destination_outside_permissioned_domain", SevRed)
  const CLAWBACK := Finding("rwa_clawback_exposure", SevYellow)

  function Add(findings: seq<Finding>, condition: bool, f: Finding): seq<Finding> {
    if condition then findings + [f] else findings
  }

  predicate HasDomain(domainId: Option<string>) {
    domainId.Some? && domainId.value != ""
  }

  /** The findings a transfer deserves, in the order they are reported. */
  function Findings(rwa: RwaTransfer): seq<Finding> {
    if !rwa.isRwa then []
    else
      var f1 := Add([], rwa.requiresAuthorization && rwa.destinationAuthorized != Some(true), NOT_AUTHORIZED);
      var f2 := Add(f1, rwa.transferDisabled && !rwa.destinationIsIssuer, NOT_PERMITTED);
      var f3 := Add(f2, Missing(rwa.requiredCredentials, rwa.destinationCredentials) != [], MISSING_CREDENTIAL);
      var f4 := Add(f3, HasDomain(rwa.domainId) && rwa.destinationInDomain != Some(true), OUTSIDE_DOMAIN);
      Add(f4, rwa.clawbackEnabled, CLAWBACK)
  }

  predicate AnyRed(fs: seq<Finding>) {
    exists i :: 0 <= i < |fs| && fs[i].severity == SevRed
  }

  /** The rule as written: a findings list grown branch by branch. */
  method EvaluateRwa(rwa: Option<RwaTransfer>) returns (findings: seq<Finding>)
    ensures findings == if rwa.Some? then Findings(rwa.value) else []
  {
    findings := [];
    if rwa.None? || !rwa.value.isRwa {
      return;
    }
    var t := rwa.value;
    if t.requiresAuthorization && t.destinationAuthorized != Some(true) {
      findings := findings + [NOT_AUTHORIZED];
    }
    if t.transferDisabled && !t.destinationIsIssuer {
      findings := findings + [NOT_PERMITTED];
    }
    if Missing(t.requiredCredentials, t.destinationCredentials) != [] {
      findings := findings + [MISSING_CREDENTIAL];
    }
    if HasDomain(t.domainId) && t.destinationInDomain != Some(true) {
      findings := findings + [OUTSIDE_DOMAIN];
    }
    if t.clawbackEnabled {
      findings := findings + [CLAWBACK];
    }
  }

  /** The required credentials that are not held. */
  function Missing(required: seq<Credential>, held: seq<Credential>): (missing: seq<Credential>)
    ensures missing == [] <==> forall c :: c in required ==> c in held
    ensures forall c :: c in missing ==> c in required && c !in held
  {
    if required == [] then []
    else (if required[0] in held then [] else [required[0]]) + Missing(required[1..], held)
  }

  // ---------------------------------------------------------------- what the findings mean

  /** The four conditions a compliant transfer meets. */
  predicate Authorized(rwa: RwaTransfer) {
    rwa.requiresAuthorization ==> rwa.destinationAuthorized == Some(true)
  }

  predicate Transferable(rwa: RwaTransfer) {
    rwa.transferDisabled ==> rwa.destinationIsIssuer
  }

  predicate Credentialed(rwa: RwaTransfer) {
    forall c :: c in rwa.requiredCredentials ==> c in rwa.destinationCredentials
  }

  predicate InsideDomain(rwa: RwaTransfer) {
    rwa.domainId == None || rwa.domainId == Some("") || rwa.destinationInDomain == Some(true)
  }

  predicate HasCode(fs: seq<Finding>, code: string) {
    exists i :: 0 <= i < |fs| && fs[i].code == code
  }

  lemma AddCodes(fs: seq<Finding>, condition: bool, f: Finding, code: string)
    ensures HasCode(Add(fs, condition, f), code) <==> HasCode(fs, code) || (condition && f.code == code)
  {
    if condition {
      assert (fs + [f])[|fs|] == f;
      if i :| 0 <= i < |fs| && fs[i].code == code {
        assert (fs + [f])[i] == fs[i];
      }
    }
  }

  lemma CodeIff(rwa: RwaTransfer, code: string)
    requires rwa.isRwa
    ensures HasCode(Findings(rwa), code) <==>
            (!Authorized(rwa) && code == NOT_AUTHORIZED.code) || (!Transferable(rwa) && code == NOT_PERMITTED.code)
            || (!Credentialed(rwa) && code == MISSING_CREDENTIAL.code)
            || (!InsideDomain(rwa) && code == OUTSIDE_DOMAIN.code) || (rwa.clawbackEnabled && code == CLAWBACK.code)
  {
    var f1 := Add([], !Authorized(rwa), NOT_AUTHORIZED);
    var f2 := Add(f1, !Transferable(rwa), NOT_PERMITTED);
    var f3 := Add(f2, !Credentialed(rwa), MISSING_CREDENTIAL);
    var f4 := Add(f3, !InsideDomain(rwa), OUTSIDE_DOMAIN);
    AddCodes([], !Authorized(rwa), NOT_AUTHORIZED, code);
    AddCodes(f1, !Transferable(rwa), NOT_PERMITTED, code);
    AddCodes(f2, !Credentialed(rwa), MISSING_CREDENTIAL, code);
    AddCodes(f3, !InsideDomain(rwa), OUTSIDE_DOMAIN, code);
    AddCodes(f4, rwa.clawbackEnabled, CLAWBACK, code);
  }

  /** Every condition not met is named, and clawback; nothing else is, and nothing if it is no asset transfer. */
  lemma FindingsName(rwa: RwaTransfer)
    ensures !rwa.isRwa ==> Findings(rwa) == []
    ensures rwa.isRwa ==>
              (HasCode(Findings(rwa), "rwa_destination_not_authorized") <==> !Authorized(rwa))
              && (HasCode(Findings(rwa), "rwa_transfer_not_permitted") <==> !Transferable(rwa))
              && (HasCode(Findings(rwa), "rwa_missing_required_credential") <==> !Credentialed(rwa))
              && (HasCode(Findings(rwa), "rwa_destination_outside_permissioned_domain") <==> !InsideDomain(rwa))
              && (HasCode(Findings(rwa), "rwa_clawback_exposure") <==> rwa.clawbackEnabled)
  {
    if rwa.isRwa {
      CodeIff(rwa, "rwa_destination_not_authorized");
      CodeIff(rwa, "rwa_transfer_not_permitted");
      CodeIff(rwa, "rwa_missing_required_credential");
      CodeIff(rwa, "rwa_destination_outside_permissioned_domain");
      CodeIff(rwa, "rwa_clawback_exposure");
    }
  }

  /** Nothing at all is found exactly when the conditions are met and there is no clawback. */
  lemma NothingFoundIff(rwa: RwaTransfer)
    ensures Findings(rwa) == [] <==>
            rwa.isRwa ==>
              Authorized(rwa) && Transferable(rwa) && Credentialed(rwa) && InsideDomain(rwa) && !rwa.clawbackEnabled
  {
    FindingsName(rwa);
    if rwa.isRwa {
      RedFreeIff(rwa);
    }
  }

  /**
   A transfer is free of RED findings exactly when it meets all four compliance conditions; clawback
   never makes it RED.
   */
  lemma RedFreeIff(rwa: RwaTransfer)
    requires rwa.isRwa
    ensures !AnyRed(Findings(rwa)) <==>
            Authorized(rwa) && Transferable(rwa) && Credentialed(rwa) && InsideDomain(rwa)
    ensures !AnyRed(Findings(rwa)) ==>
            Findings(rwa) == if rwa.clawbackEnabled then [Finding("rwa_clawback_exposure", SevYellow)] else []
  {
    var c1 := rwa.requiresAuthorization && rwa.destinationAuthorized != Some(true);
    var c2 := rwa.transferDisabled && !rwa.destinationIsIssuer;
    var c3 := Missing(rwa.requiredCredentials, rwa.destinationCredentials) != [];
    var c4 := HasDomain(rwa.domainId) && rwa.destinationInDomain != Some(true);
    var f1 := Add([], c1, NOT_AUTHORIZED);
    var f2 := Add(f1, c2, NOT_PERMITTED);
    var f3 := Add(f2, c3, MISSING_CREDENTIAL);
    var f4 := Add(f3, c4, OUTSIDE_DOMAIN);
    AddRed([], c1, NOT_AUTHORIZED);
    AddRed(f1, c2, NOT_PERMITTED);
    AddRed(f2, c3, MISSING_CREDENTIAL);
    AddRed(f3, c4, OUTSIDE_DOMAIN);
    AddRed(f4, rwa.clawbackEnabled, CLAWBACK);
  }

  lemma AddRed(findings: seq<Finding>, condition: bool, f: Finding)
    ensures AnyRed(Add(findings, condition, f)) <==> AnyRed(findings) || (condition && f.severity == SevRed)
  {
    if condition {
      assert (findings + [f])[|findings|] == f;
      if AnyRed(findings) {
        var i :| 0 <= i < |findings| && findings[i].severity == SevRed;
        assert (findings + [f])[i] == findings[i];
      }
    }
  }
}
