/**
 The payout account of a vendor: four handlers that change one record
 (backend/src/controllers/payout.controller.js) and the `isPayable` gate over it
 (backend/src/models/vendorPayoutAccount.model.js). The fingerprint is modelled by
 the text that is hashed.
 */
module PayoutAccount {
  import opened Wrappers
  import opened JsStrings

  datatype Method = Bank | Upi

  /** The request body; a missing field is `None`. */
  datatype Details = Details(kind: Method, holder: string, accountNumber: Option<string>, ifsc: Option<string>,
                             vpa: Option<string>, bankName: Option<string>)

  datatype VerificationStatus = Unverified | Verified

  datatype Verification = Verification(status: VerificationStatus, how: Option<string>, ref: Option<string>,
                                       nameMatchScore: Option<int>, verifiedAt: Option<int>)

  datatype KycStatus = NotSubmitted | Pending | Approved | Rejected

  datatype Kyc = Kyc(pan: Option<string>, gstin: Option<string>, documents: seq<string>, status: KycStatus,
                     reviewedBy: Option<string>, reviewedAt: Option<int>, rejectionReason: Option<string>)

  datatype Account = Account(
    kind: Method, holder: Option<string>, accountNumber: Option<string>, ifsc: Option<string>, vpa: Option<string>,
    bankName: Option<string>, masked: Option<string>, fingerprint: Option<string>,
    verification: Verification, kyc: Kyc, frozenUntil: Option<int>, active: bool)

  datatype Error = NoAccount | ReasonRequired

  const FREEZE_MS: int := 24 * 3600 * 1000

  predicate IsPayable(a: Account, now: int) {
    && a.active
    && a.verification.status == Verified
    && a.kyc.status == Approved
    && (a.frozenUntil.None? || a.frozenUntil.value <= now)
  }

  // ---------------------------------------------------------------- fingerprints

  /** `String(x)`. */
  function Text(x: Option<string>): string { if x.Some? then x.value else "undefined" }

  function Fingerprint(d: Details): string {
    if d.kind.Upi? then Text(d.vpa) else Text(d.accountNumber) + "|" + Text(d.ifsc)
  }

  /** Where the money goes. */
  datatype Destination = ToVpa(vpa: string) | ToBank(accountNumber: string, ifsc: string)

  function DestinationOf(d: Details): Destination {
    if d.kind.Upi? then ToVpa(Text(d.vpa)) else ToBank(Text(d.accountNumber), Text(d.ifsc))
  }

  /** What request validation guarantees of the IFSC. */
  predicate Validated(d: Details) { d.kind.Bank? ==> d.ifsc.Some? && |d.ifsc.value| == 11 }

  /** A UPI address that reads like the account and IFSC of the other request. */
  predicate LooksLike(a: Details, b: Details) {
    a.kind.Upi? && b.kind.Bank? && Text(a.vpa) == Text(b.accountNumber) + "|" + Text(b.ifsc)
  }

  /** Equal fingerprints mean the same destination, exactly unless a UPI address spells out a bank account. */
  lemma FingerprintIdentifiesIff(a: Details, b: Details)
    requires Validated(a) && Validated(b)
    ensures Fingerprint(a) == Fingerprint(b)
            <==> DestinationOf(a) == DestinationOf(b) || LooksLike(a, b) || LooksLike(b, a)
  {
    if a.kind.Bank? && b.kind.Bank? && Fingerprint(a) == Fingerprint(b) {
      var (x, y) := (Text(a.accountNumber), Text(b.accountNumber));
      assert |x| == |y|;
      assert Fingerprint(a)[..|x|] == x && Fingerprint(b)[..|y|] == y;
      assert Fingerprint(a)[|x| + 1..] == Text(a.ifsc) && Fingerprint(b)[|y| + 1..] == Text(b.ifsc);
    }
  }

  // ---------------------------------------------------------------- the handlers

  datatype Event =
    | Save(details: Details, t: int)
    | Verify(t: int)
    | SubmitKyc(pan: string, gstin: Option<string>, documents: seq<string>, t: int)
    | ReviewKyc(status: string, reason: Option<string>, actor: string, t: int)

  function OrNull(x: Option<string>): Option<string> { if x == Some("") then None else x }

  function Mask(account: Option<string>): Option<string> {
    match OrNull(account)
    case None => None
    case Some(n) => Some("****" + if |n| <= 4 then n else n[|n| - 4..])
  }

  /** The schema defaults. */
  function Fresh(): Account {
    Account(Upi, None, None, None, None, None, None, None, Verification(Unverified, None, None, None, None),
            Kyc(None, None, [], NotSubmitted, None, None, None), None, true)
  }

  function Saved(slot: Option<Account>, d: Details, t: int): Account {
    var a := if slot.Some? then slot.value else Fresh();
    var b := a.(kind := d.kind, holder := Some(d.holder), accountNumber := OrNull(d.accountNumber),
                ifsc := OrNull(d.ifsc), vpa := OrNull(d.vpa), bankName := OrNull(d.bankName),
                masked := if d.kind.Upi? then d.vpa else Mask(d.accountNumber),
                fingerprint := Some(Fingerprint(d)), active := true);
    if slot.None? || slot.value.fingerprint != Some(Fingerprint(d)) then
      b.(verification := a.verification.(status := Unverified, verifiedAt := None), frozenUntil := Some(t + FREEZE_MS))
    else b
  }

  function VerifiedAt(a: Account, t: int): Account {
    a.(verification := Verification(Verified, Some(if a.kind.Upi? then "vpa_validate" else "penny_drop"),
                                    Some("verify_" + if t >= 0 then PrintNat(t) else "-" + PrintNat(-t)),
                                    Some(1), Some(t)))
  }

  function Submitted(slot: Option<Account>, pan: string, gstin: Option<string>, documents: seq<string>): Account {
    var a := if slot.Some? then slot.value else Fresh();
    a.(kyc := a.kyc.(pan := Some(pan), gstin := OrNull(gstin), documents := documents, status := Pending,
                     rejectionReason := None))
  }

  function Reviewed(a: Account, status: string, reason: Option<string>, actor: string, t: int): Account {
    a.(kyc := a.kyc.(status := if status == "approved" then Approved else Rejected,
                     reviewedBy := Some(actor), reviewedAt := Some(t), rejectionReason := OrNull(reason)))
  }

  function Handle(slot: Option<Account>, e: Event): Result<Account, Error> {
    match e
    case Save(d, t) => Ok(Saved(slot, d, t))
    case Verify(t) => if slot.None? then Err(NoAccount) else Ok(VerifiedAt(slot.value, t))
    case SubmitKyc(pan, gstin, documents, _) => Ok(Submitted(slot, pan, gstin, documents))
    case ReviewKyc(status, reason, actor, t) =>
      if slot.None? then Err(NoAccount)
      else if status == "rejected" && OrNull(reason).None? then Err(ReasonRequired)
      else Ok(Reviewed(slot.value, status, reason, actor, t))
  }

  function After(slot: Option<Account>, e: Event): Option<Account> {
    match Handle(slot, e)
    case Ok(a) => Some(a)
    case Err(_) => slot
  }

  /** The account holds the saved details, an empty text as none; only a mask of the number is for display. */
  predicate Holds(a: Account, d: Details) {
    && a.kind == d.kind && a.holder == Some(d.holder) && a.active
    && a.accountNumber == (if d.accountNumber == Some("") then None else d.accountNumber)
    && a.ifsc == (if d.ifsc == Some("") then None else d.ifsc)
    && a.vpa == (if d.vpa == Some("") then None else d.vpa)
    && a.bankName == (if d.bankName == Some("") then None else d.bankName)
    && (d.kind.Upi? ==> a.masked == d.vpa)
    && (d.kind.Bank? && d.accountNumber.Some? && |d.accountNumber.value| >= 4 ==>
          var n := |d.accountNumber.value|; a.masked == Some("****" + d.accountNumber.value[n - 4..]))
    && (d.kind.Bank? && d.accountNumber.None? ==> a.masked.None?)
  }

  /** A submission replaces the KYC details and starts a new review. */
  predicate Submits(k: Kyc, pan: string, gstin: Option<string>, documents: seq<string>) {
    && k.pan == Some(pan) && k.gstin == (if gstin == Some("") then None else gstin) && k.documents == documents
    && k.status == Pending && k.rejectionReason.None?
  }

  /** The default accounts of all vendors. */
  class Accounts {
    var byVendor: map<string, Account>

    constructor ()
      ensures byVendor == map[]
    {
      byVendor := map[];
    }

    function At(vendor: string): Option<Account> reads this {
      if vendor in byVendor then Some(byVendor[vendor]) else None
    }

    twostate predicate OnlyChanges(vendor: string) reads this {
      forall v :: v != vendor ==> At(v) == old(At(v))
    }

    method UpsertMyAccount(vendor: string, d: Details, t: int) returns (changed: bool)
      modifies this
      ensures At(vendor) == After(old(At(vendor)), Save(d, t)) && OnlyChanges(vendor)
      ensures changed <==> old(At(vendor)).None? || old(At(vendor)).value.fingerprint != Some(Fingerprint(d))
      ensures At(vendor).Some? && Holds(At(vendor).value, d)
    {
      var fingerprint := Fingerprint(d);
      changed := vendor !in byVendor || byVendor[vendor].fingerprint != Some(fingerprint);
      var a := if vendor in byVendor then byVendor[vendor] else Fresh();
      a := a.(kind := d.kind, holder := Some(d.holder), accountNumber := OrNull(d.accountNumber),
              ifsc := OrNull(d.ifsc), vpa := OrNull(d.vpa), bankName := OrNull(d.bankName),
              masked := if d.kind.Upi? then d.vpa else Mask(d.accountNumber),
              fingerprint := Some(fingerprint), active := true);
      if changed {
        a := a.(verification := a.verification.(status := Unverified, verifiedAt := None));
        a := a.(frozenUntil := Some(t + FREEZE_MS));
      }
      byVendor := byVendor[vendor := a];
    }

    method VerifyMyAccount(vendor: string, t: int) returns (r: Result<Account, Error>)
      modifies this
      ensures r == Handle(old(At(vendor)), Verify(t))
      ensures r.Ok? ==>
                && old(At(vendor)).Some? && r.value.verification.status == Verified
                && r.value.verification.verifiedAt == Some(t) && r.value.verification.nameMatchScore == Some(1)
                && r.value.verification.how == Some(if r.value.kind.Upi? then "vpa_validate" else "penny_drop")
                && r.value == old(At(vendor)).value.(verification := r.value.verification)
      ensures At(vendor) == After(old(At(vendor)), Verify(t)) && OnlyChanges(vendor)
    {
      if vendor !in byVendor { return Err(NoAccount); }
      byVendor := byVendor[vendor := VerifiedAt(byVendor[vendor], t)];
      return Ok(byVendor[vendor]);
    }

    method SubmitMyKyc(vendor: string, pan: string, gstin: Option<string>, documents: seq<string>, t: int)
      modifies this
      ensures At(vendor) == After(old(At(vendor)), SubmitKyc(pan, gstin, documents, t)) && OnlyChanges(vendor)
      ensures At(vendor).Some? && Submits(At(vendor).value.kyc, pan, gstin, documents)
      ensures old(At(vendor)).Some? ==>
                && At(vendor).value == old(At(vendor)).value.(kyc := At(vendor).value.kyc)
                && At(vendor).value.kyc.reviewedBy == old(At(vendor)).value.kyc.reviewedBy
                && At(vendor).value.kyc.reviewedAt == old(At(vendor)).value.kyc.reviewedAt
    {
      var a := if vendor in byVendor then byVendor[vendor] else Fresh();
      a := a.(kyc := a.kyc.(pan := Some(pan), gstin := OrNull(gstin), documents := documents));
      a := a.(kyc := a.kyc.(status := Pending, rejectionReason := None));
      byVendor := byVendor[vendor := a];
    }

    method ReviewVendorKyc(vendor: string, status: string, reason: Option<string>, actor: string, t: int)
      returns (r: Result<Account, Error>)
      modifies this
      ensures r == Handle(old(At(vendor)), ReviewKyc(status, reason, actor, t))
      ensures r.Ok? ==>
                && old(At(vendor)).Some?
                && r.value.kyc == old(At(vendor)).value.kyc.(
                     status := if status == "approved" then Approved else Rejected, reviewedBy := Some(actor),
                     reviewedAt := Some(t), rejectionReason := if reason == Some("") then None else reason)
                && r.value == old(At(vendor)).value.(kyc := r.value.kyc)
      ensures At(vendor) == After(old(At(vendor)), ReviewKyc(status, reason, actor, t)) && OnlyChanges(vendor)
    {
      if vendor !in byVendor { return Err(NoAccount); }
      if status == "rejected" && OrNull(reason).None? { return Err(ReasonRequired); }
      byVendor := byVendor[vendor := Reviewed(byVendor[vendor], status, reason, actor, t)];
      return Ok(byVendor[vendor]);
    }
  }

  // ---------------------------------------------------------------- histories

  function Run(es: seq<Event>): Option<Account> {
    if es == [] then None else After(Run(es[..|es| - 1]), es[|es| - 1])
  }

  /** An account exists once anything was saved or submitted. */
  predicate Created(es: seq<Event>) { exists i :: 0 <= i < |es| && (es[i].Save? || es[i].SubmitKyc?) }

  function LastSaved(es: seq<Event>): Option<Details> {
    if es == [] then None
    else if es[|es| - 1].Save? then Some(es[|es| - 1].details)
    else LastSaved(es[..|es| - 1])
  }

  /** Event `i` saves a destination other than the one saved before it. */
  predicate Changes(es: seq<Event>, i: nat)
    requires i < |es|
  {
    && es[i].Save?
    && (LastSaved(es[..i]).None? || Fingerprint(LastSaved(es[..i]).value) != Fingerprint(es[i].details))
  }

  predicate Verifies(es: seq<Event>, i: nat)
    requires i < |es|
  {
    es[i].Verify? && Created(es[..i])
  }

  /** An accepted KYC event: a submission, or a review that did not fail. */
  predicate KycEvent(es: seq<Event>, i: nat)
    requires i < |es|
  {
    || es[i].SubmitKyc?
    || (es[i].ReviewKyc? && Created(es[..i]) && (es[i].status == "rejected" ==> OrNull(es[i].reason).Some?))
  }

  predicate Approves(es: seq<Event>, i: nat)
    requires i < |es|
  {
    KycEvent(es, i) && es[i].ReviewKyc? && es[i].status == "approved"
  }

  predicate LastKycApproves(es: seq<Event>) {
    exists i :: 0 <= i < |es| && Approves(es, i) && forall j :: i < j < |es| ==> !KycEvent(es, j)
  }

  predicate VerifiedSinceChange(es: seq<Event>) {
    exists i :: 0 <= i < |es| && Verifies(es, i) && forall j :: i < j < |es| ==> !Changes(es, j)
  }

  /** Every change of destination is at least the freeze old. */
  predicate Thawed(es: seq<Event>, now: int) {
    forall i :: 0 <= i < |es| && Changes(es, i) ==> es[i].t + FREEZE_MS <= now
  }

  predicate Ascending(es: seq<Event>) { forall i, j :: 0 <= i < j < |es| ==> es[i].t <= es[j].t }

  /** Events before the last one look the same without it. */
  lemma SameBefore(es: seq<Event>, i: nat)
    requires i < |es| - 1
    ensures Changes(es, i) == Changes(es[..|es| - 1], i)
    ensures Verifies(es, i) == Verifies(es[..|es| - 1], i)
    ensures KycEvent(es, i) == KycEvent(es[..|es| - 1], i)
    ensures Approves(es, i) == Approves(es[..|es| - 1], i)
  {
    assert es[..|es| - 1][..i] == es[..i];
  }

  lemma AllSameBefore(es: seq<Event>)
    requires es != []
    ensures forall i :: 0 <= i < |es| - 1 ==> Changes(es, i) == Changes(es[..|es| - 1], i)
    ensures forall i :: 0 <= i < |es| - 1 ==> Verifies(es, i) == Verifies(es[..|es| - 1], i)
    ensures forall i :: 0 <= i < |es| - 1 ==> KycEvent(es, i) == KycEvent(es[..|es| - 1], i)
    ensures forall i :: 0 <= i < |es| - 1 ==> Approves(es, i) == Approves(es[..|es| - 1], i)
  {
    forall i | 0 <= i < |es| - 1
      ensures Changes(es, i) == Changes(es[..|es| - 1], i) && Verifies(es, i) == Verifies(es[..|es| - 1], i)
      ensures KycEvent(es, i) == KycEvent(es[..|es| - 1], i) && Approves(es, i) == Approves(es[..|es| - 1], i)
    {
      SameBefore(es, i);
    }
  }

  lemma {:induction false} AccountExistsIff(es: seq<Event>)
    ensures Run(es).Some? <==> Created(es)
  {
    if es != [] {
      var (p, n) := (es[..|es| - 1], |es| - 1);
      AccountExistsIff(p);
      if Created(p) {
        var i :| 0 <= i < |p| && (p[i].Save? || p[i].SubmitKyc?);
        assert es[i] == p[i];
      }
      if Created(es) {
        var i :| 0 <= i < |es| && (es[i].Save? || es[i].SubmitKyc?);
        if i < n { assert p[i] == es[i]; }
      }
    }
  }

  lemma {:induction false} FingerprintIsLastSaved(es: seq<Event>)
    requires Run(es).Some?
    ensures Run(es).value.active
    ensures Run(es).value.fingerprint
            == if LastSaved(es).None? then None else Some(Fingerprint(LastSaved(es).value))
  {
    hide Fingerprint, OrNull, Mask, PrintNat;
    var p := es[..|es| - 1];
    if Run(p).Some? {
      FingerprintIsLastSaved(p);
    } else {
      AccountExistsIff(p);
      NeverSaved(p);
    }
  }

  lemma {:induction false} NeverSaved(es: seq<Event>)
    requires !Created(es)
    ensures LastSaved(es).None?
  {
    if es != [] {
      var p := es[..|es| - 1];
      assert forall i :: 0 <= i < |p| ==> p[i] == es[i];
      NeverSaved(p);
    }
  }

  lemma {:induction false} KycIsLast(es: seq<Event>)
    ensures Run(es).Some? && Run(es).value.kyc.status == Approved <==> LastKycApproves(es)
  {
    if es != [] {
      var (p, n) := (es[..|es| - 1], |es| - 1);
      KycIsLast(p);
      AccountExistsIff(p);
      AllSameBefore(es);
      KycLastStep(es);
      hide Changes, Verifies, LastKycApproves, Created, Fingerprint, Mask, PrintNat;
    }
  }

  /** How the last event decides. */
  lemma KycLastStep(es: seq<Event>)
    requires es != []
    ensures var (p, n) := (es[..|es| - 1], |es| - 1);
            LastKycApproves(es) <==> if KycEvent(es, n) then Approves(es, n) else LastKycApproves(p)
  {
    var (p, n) := (es[..|es| - 1], |es| - 1);
    AllSameBefore(es);
    hide KycEvent, Changes, Verifies;
    if LastKycApproves(es) && !KycEvent(es, n) {
      var i :| 0 <= i < |es| && Approves(es, i) && forall j :: i < j < |es| ==> !KycEvent(es, j);
      assert i < n;
      forall j | i < j < |p| ensures !KycEvent(p, j) { SameBefore(es, j); }
      assert Approves(p, i);
    }
    if LastKycApproves(p) && !KycEvent(es, n) {
      var i :| 0 <= i < |p| && Approves(p, i) && forall j :: i < j < |p| ==> !KycEvent(p, j);
      assert Approves(es, i) && forall j :: i < j < |es| ==> !KycEvent(es, j);
    }
  }

  lemma {:induction false} VerificationIsSince(es: seq<Event>)
    ensures Run(es).Some? && Run(es).value.verification.status == Verified <==> VerifiedSinceChange(es)
  {
    if es != [] {
      var (p, n) := (es[..|es| - 1], |es| - 1);
      VerificationIsSince(p);
      AccountExistsIff(p);
      if Run(p).Some? { FingerprintIsLastSaved(p); } else { NeverSaved(p); }
      VerifiedStep(es);
      hide KycEvent, Approves, VerifiedSinceChange, Created, Fingerprint, Mask, PrintNat, OrNull;
    }
  }

  lemma VerifiedStep(es: seq<Event>)
    requires es != []
    ensures var (p, n) := (es[..|es| - 1], |es| - 1);
            VerifiedSinceChange(es) <==> Verifies(es, n) || (!Changes(es, n) && VerifiedSinceChange(p))
  {
    var (p, n) := (es[..|es| - 1], |es| - 1);
    AllSameBefore(es);
    hide KycEvent, Changes, Verifies;
    if VerifiedSinceChange(es) && !Verifies(es, n) {
      var i :| 0 <= i < |es| && Verifies(es, i) && forall j :: i < j < |es| ==> !Changes(es, j);
      assert i < n;
      forall j | i < j < |p| ensures !Changes(p, j) { SameBefore(es, j); }
      assert Verifies(p, i);
    }
    if !Changes(es, n) && VerifiedSinceChange(p) {
      var i :| 0 <= i < |p| && Verifies(p, i) && forall j :: i < j < |p| ==> !Changes(p, j);
      assert Verifies(es, i) && forall j :: i < j < |es| ==> !Changes(es, j);
    }
  }

  lemma {:induction false} FreezeIsFromChange(es: seq<Event>, now: int)
    requires Run(es).Some? && Ascending(es)
    ensures (Run(es).value.frozenUntil.None? || Run(es).value.frozenUntil.value <= now) <==> Thawed(es, now)
    ensures Run(es).value.frozenUntil.Some? ==>
              es != [] && Run(es).value.frozenUntil.value <= es[|es| - 1].t + FREEZE_MS
  {
    var (p, n) := (es[..|es| - 1], |es| - 1);
    AllSameBefore(es);
    AccountExistsIff(p);
    if Run(p).Some? {
      FreezeIsFromChange(p, now);
      FingerprintIsLastSaved(p);
    } else {
      NeverSaved(p);
      NeverChanged(p);
    }
    assert Thawed(es, now) <==> Thawed(p, now) && (Changes(es, n) ==> es[n].t + FREEZE_MS <= now) by {
      hide Changes;
    }
    hide KycEvent, Approves, VerifiedSinceChange, Created, Fingerprint, Mask, PrintNat, OrNull;
  }

  lemma NeverChanged(es: seq<Event>)
    requires !Created(es)
    ensures forall i :: 0 <= i < |es| ==> !Changes(es, i)
  {
  }

  /**
   Payable exactly when: the latest KYC event is an approving review, a verification came
   after the last change of destination, and every change is at least 24 hours old.
   */
  lemma PayableIff(es: seq<Event>, now: int)
    requires Ascending(es)
    ensures Run(es).Some? && IsPayable(Run(es).value, now)
            <==> LastKycApproves(es) && VerifiedSinceChange(es) && Thawed(es, now)
  {
    hide LastKycApproves, VerifiedSinceChange, Thawed, Ascending, Run;
    KycIsLast(es);
    VerificationIsSince(es);
    if Run(es).Some? {
      FreezeIsFromChange(es, now);
      FingerprintIsLastSaved(es);
    }
  }

  /** Payout safety: once a destination was saved, money only goes to one saved, then verified, and a day old. */
  lemma PayoutSafety(es: seq<Event>, now: int)
    requires Ascending(es) && LastSaved(es).Some?
    requires Run(es).Some? && IsPayable(Run(es).value, now)
    ensures exists c, v :: 0 <= c < v < |es| && Changes(es, c) && Verifies(es, v)
              && es[c].t + FREEZE_MS <= now
              && Fingerprint(es[c].details) == Fingerprint(LastSaved(es).value)
              && forall j :: c < j < |es| ==> !Changes(es, j)
    ensures LastKycApproves(es)
  {
    PayableIff(es, now);
    var v :| 0 <= v < |es| && Verifies(es, v) && forall j :: v < j < |es| ==> !Changes(es, j);
    var c := LastChange(es);
    assert c != v;
  }

  lemma {:induction false} LastChange(es: seq<Event>) returns (c: nat)
    requires LastSaved(es).Some?
    ensures c < |es| && Changes(es, c) && Fingerprint(es[c].details) == Fingerprint(LastSaved(es).value)
    ensures forall j :: c < j < |es| ==> !Changes(es, j)
  {
    var (p, n) := (es[..|es| - 1], |es| - 1);
    AllSameBefore(es);
    if Changes(es, n) { c := n; } else { c := LastChange(p); }
  }

  // ---------------------------------------------------------------- destinations

  predicate AllValidated(es: seq<Event>) {
    forall i :: 0 <= i < |es| && es[i].Save? ==> Validated(es[i].details)
  }

  predicate Alike(a: Details, b: Details) { LooksLike(a, b) || LooksLike(b, a) }

  /** Event `i` saves a destination other than the one saved before it. */
  predicate Redirects(es: seq<Event>, i: nat)
    requires i < |es|
  {
    && es[i].Save?
    && (LastSaved(es[..i]).None? || DestinationOf(LastSaved(es[..i]).value) != DestinationOf(es[i].details))
  }

  /** ... and reads like it, so that the fingerprint does not tell them apart. */
  predicate Disguised(es: seq<Event>, i: nat)
    requires i < |es|
  {
    es[i].Save? && LastSaved(es[..i]).Some? && Alike(LastSaved(es[..i]).value, es[i].details)
  }

  lemma {:induction false} LastSavedValidated(es: seq<Event>)
    requires AllValidated(es)
    ensures LastSaved(es).Some? ==> Validated(LastSaved(es).value)
  {
    if es != [] {
      var p := es[..|es| - 1];
      assert forall i :: 0 <= i < |p| ==> p[i] == es[i];
      LastSavedValidated(p);
    }
  }

  lemma ChangesIff(es: seq<Event>, i: nat)
    requires i < |es| && AllValidated(es)
    ensures Changes(es, i) <==> Redirects(es, i) && !Disguised(es, i)
  {
    assert AllValidated(es[..i]) by {
      assert forall k :: 0 <= k < i ==> es[..i][k] == es[k];
    }
    LastSavedValidated(es[..i]);
    if es[i].Save? && LastSaved(es[..i]).Some? {
      FingerprintIdentifiesIff(LastSaved(es[..i]).value, es[i].details);
    }
  }

  /**
   In every validated history a new destination resets verification and freezes the account
   exactly unless it is disguised as the old one; then verification and freeze stay as they were.
   */
  lemma RedirectFreezesIff(es: seq<Event>, i: nat)
    requires i < |es| && AllValidated(es) && Redirects(es, i)
    ensures var (before, after) := (Run(es[..i]), Run(es[..i + 1]));
            && after.Some?
            && if Disguised(es, i) then
                 && before.Some?
                 && after.value.verification == before.value.verification
                 && after.value.frozenUntil == before.value.frozenUntil
               else
                 && after.value.verification.status == Unverified
                 && after.value.frozenUntil == Some(es[i].t + FREEZE_MS)
  {
    ChangesIff(es, i);
    var p := es[..i];
    assert es[..i + 1] == p + [es[i]] && (p + [es[i]])[..|p|] == p;
    assert Run(es[..i + 1]) == After(Run(p), es[i]);
    hide Fingerprint, OrNull, Mask, Alike, DestinationOf, Run, LastSaved, Created;
    AccountExistsIff(p);
    if Run(p).Some? { FingerprintIsLastSaved(p); } else { NeverSaved(p); }
  }

  /** A disguised change is paid at once: a verified and approved account can be redirected without a pause. */
  lemma DisguisedIsPaidAtOnce(number: string, ifsc: string, now: int)
    requires |ifsc| == 11 && number != "" && now >= FREEZE_MS
    ensures var upi := Details(Upi, "A", None, None, Some(number + "|" + ifsc), None);
            var bank := Details(Bank, "A", Some(number), Some(ifsc), None, None);
            var es := [Save(upi, 0), Verify(1), SubmitKyc("ABCDE1234F", None, [], 2),
                       ReviewKyc("approved", None, "admin", 3), Save(bank, now)];
            && AllValidated(es) && Ascending(es) && Redirects(es, 4)
            && Run(es).Some? && IsPayable(Run(es).value, now)
            && Run(es).value.kind == Bank && Run(es).value.accountNumber == Some(number)
  {
    var upi := Details(Upi, "A", None, None, Some(number + "|" + ifsc), None);
    var bank := Details(Bank, "A", Some(number), Some(ifsc), None, None);
    var e1, e2, e3 := Save(upi, 0), Verify(1), SubmitKyc("ABCDE1234F", None, [], 2);
    var e4, e5 := ReviewKyc("approved", None, "admin", 3), Save(bank, now);
    var p := [e1, e2, e3, e4];
    ApprovedAccount(upi, e3.pan);
    RunSnoc(p, e5);
    hide PrintNat, Mask, Run, LastSaved;
    assert [e1, e2, e3, e4, e5] == p + [e5] && (p + [e5])[..4] == p;
  }

  lemma ApprovedAccount(d: Details, pan: string)
    ensures var es := [Save(d, 0), Verify(1), SubmitKyc(pan, None, [], 2), ReviewKyc("approved", None, "admin", 3)];
            && Run(es).Some? && LastSaved(es) == Some(d)
            && Run(es).value.fingerprint == Some(Fingerprint(d)) && Run(es).value.active
            && Run(es).value.verification.status == Verified && Run(es).value.kyc.status == Approved
            && Run(es).value.frozenUntil == Some(FREEZE_MS)
  {
    hide PrintNat, Mask, Fingerprint, OrNull;
    var e1, e2, e3 := Save(d, 0), Verify(1), SubmitKyc(pan, None, [], 2);
    var e4 := ReviewKyc("approved", None, "admin", 3);
    assert [] + [e1] == [e1] && [e1] + [e2] == [e1, e2] && [e1, e2] + [e3] == [e1, e2, e3];
    assert [e1, e2, e3] + [e4] == [e1, e2, e3, e4];
    RunSnoc([], e1);
    RunSnoc([e1], e2);
    RunSnoc([e1, e2], e3);
    RunSnoc([e1, e2, e3], e4);
    hide Run, LastSaved;
  }

  lemma RunSnoc(es: seq<Event>, e: Event)
    ensures Run(es + [e]) == After(Run(es), e)
    ensures LastSaved(es + [e]) == if e.Save? then Some(e.details) else LastSaved(es)
  {
    assert (es + [e])[..|es|] == es;
  }

  lemma SavedHolds(slot: Option<Account>, d: Details, t: int)
    ensures Holds(Saved(slot, d, t), d)
  {
    MaskIs(d.accountNumber);
    hide Fingerprint, Mask;
  }

  lemma MaskIs(number: Option<string>)
    ensures number.None? ==> Mask(number).None?
    ensures number.Some? && |number.value| >= 4 ==>
              Mask(number) == Some("****" + number.value[|number.value| - 4..])
  {
    if number.Some? && |number.value| == 4 { assert number.value[0..] == number.value; }
  }

  lemma OthersKeepDetails(a: Account, d: Details, e: Event)
    requires Holds(a, d) && !e.Save?
    ensures After(Some(a), e).Some? && Holds(After(Some(a), e).value, d)
  {
    hide PrintNat;
  }

  /** Whatever was verified, submitted or reviewed since, the account holds the details of the last save. */
  lemma {:induction false} HoldsLastSaved(es: seq<Event>)
    requires LastSaved(es).Some?
    ensures Run(es).Some? && Holds(Run(es).value, LastSaved(es).value)
  {
    var (p, e) := (es[..|es| - 1], es[|es| - 1]);
    assert Run(es) == After(Run(p), e);
    if e.Save? {
      SavedHolds(Run(p), e.details, e.t);
      hide Run, Saved, Holds;
    } else {
      HoldsLastSaved(p);
      OthersKeepDetails(Run(p).value, LastSaved(p).value, e);
      hide Run, After, Holds;
    }
  }

  /** ... and the KYC details of the last submission. */
  lemma {:induction false} HoldsLastSubmitted(es: seq<Event>)
    requires LastSubmitted(es).Some?
    ensures var s := LastSubmitted(es).value;
            && Run(es).Some? && Run(es).value.kyc.pan == Some(s.pan) && Run(es).value.kyc.documents == s.documents
            && Run(es).value.kyc.gstin == if s.gstin == Some("") then None else s.gstin
  {
    hide Fingerprint, PrintNat, Mask;
    if !es[|es| - 1].SubmitKyc? { HoldsLastSubmitted(es[..|es| - 1]); }
  }

  function LastSubmitted(es: seq<Event>): (r: Option<Event>)
    ensures r.Some? ==> r.value.SubmitKyc?
  {
    if es == [] then None
    else if es[|es| - 1].SubmitKyc? then Some(es[|es| - 1])
    else LastSubmitted(es[..|es| - 1])
  }

  /** Where a payout to this account goes. */
  function PaidTo(a: Account): Destination {
    if a.kind.Upi? then ToVpa(Text(a.vpa)) else ToBank(Text(a.accountNumber), Text(a.ifsc))
  }

  /** What request validation guarantees of the destination: its fields are there and not empty. */
  predicate Complete(d: Details) {
    if d.kind.Upi? then d.vpa.Some? && d.vpa.value != ""
    else d.accountNumber.Some? && d.accountNumber.value != "" && d.ifsc.Some? && d.ifsc.value != ""
  }

  /**
   Payout safety in terms of destinations: money goes to a destination saved at least a day
   ago and verified after that, or to one disguised as it; every save since then is that
   destination or a disguise of it.
   */
  lemma DestinationSafety(es: seq<Event>, now: int)
    requires AllValidated(es) && Ascending(es) && LastSaved(es).Some?
    requires Run(es).Some? && IsPayable(Run(es).value, now)
    ensures exists c, v :: 0 <= c < v < |es| && Redirects(es, c) && !Disguised(es, c) && Verifies(es, v)
              && es[c].t + FREEZE_MS <= now
              && SameOrAlike(es[c].details, LastSaved(es).value)
              && forall j :: c < j < |es| && Redirects(es, j) ==> Disguised(es, j)
    ensures Complete(LastSaved(es).value) ==> PaidTo(Run(es).value) == DestinationOf(LastSaved(es).value)
  {
    HoldsLastSaved(es);
    PayoutSafety(es, now);
    hide Run, Redirects, Disguised, Ascending, Changes, Verifies, IsPayable, Fingerprint, LastSaved, LastKycApproves;
    hide DestinationOf, Alike, Validated;
    var c, v :| 0 <= c < v < |es| && Changes(es, c) && Verifies(es, v)
                && es[c].t + FREEZE_MS <= now
                && Fingerprint(es[c].details) == Fingerprint(LastSaved(es).value)
                && forall j :: c < j < |es| ==> !Changes(es, j);
    LastSavedValidated(es);
    ChangeIsSave(es, c);
    SameText(es[c].details, LastSaved(es).value);
    forall j | c <= j < |es| ensures Changes(es, j) <==> Redirects(es, j) && !Disguised(es, j) { ChangesIff(es, j); }
  }

  lemma SameText(a: Details, b: Details)
    requires Validated(a) && Validated(b) && Fingerprint(a) == Fingerprint(b)
    ensures SameOrAlike(a, b)
  {
    FingerprintIdentifiesIff(a, b);
  }

  predicate SameOrAlike(a: Details, b: Details) { DestinationOf(a) == DestinationOf(b) || Alike(a, b) }

  lemma ChangeIsSave(es: seq<Event>, i: nat)
    requires i < |es| && Changes(es, i)
    ensures es[i].Save?
  {
  }

  /** Without any destination an account can be payable: KYC alone creates one that is never frozen. */
  lemma PayableWithoutDestination(now: int)
    ensures var es := [SubmitKyc("ABCDE1234F", None, [], 0), Verify(1), ReviewKyc("approved", None, "admin", 2)];
            && LastSaved(es).None?
            && Run(es).Some? && IsPayable(Run(es).value, now) && Run(es).value.fingerprint.None?
  {
    var e1 := SubmitKyc("ABCDE1234F", None, [], 0);
    var e2 := Verify(1);
    var e3 := ReviewKyc("approved", None, "admin", 2);
    var es := [e1, e2, e3];
    assert es[..2] == [e1, e2] && [e1, e2][..1] == [e1] && [e1][..0] == [];
    assert Run([e1]) == After(None, e1);
    assert Run([e1, e2]) == After(Run([e1]), e2);
    assert Run(es) == After(Run([e1, e2]), e3);
    assert LastSaved([e1]) == LastSaved([]);
    assert LastSaved([e1, e2]) == LastSaved([e1]);
  }
}
