/**
  Push: a batch of compare-and-sets in one transaction, held to quotas.

  `OfferAll` is the batch as a fold of single offers; `PushWithin` is the whole
  call. `Database.PushWithin` is the loop of the source, proved equal to it.
 */
module Pushing {
  import opened Basics
  import opened Wrappers
  import opened Mailbox

  datatype Accepted = Accepted(id: RecordId, seqNo: nat)

  datatype PushResponse = PushResponse(accepted: seq<Accepted>, conflicts: seq<Envelope>, cursor: nat)

  /** What becomes of one envelope. */
  datatype Outcome = Taken(seqNo: nat) | Conflict(held: Envelope)

  datatype Folded = Folded(account: AccountRow, outcomes: seq<Outcome>)

  function SealedBytes(envelopes: seq<Envelope>): nat {
    if envelopes == [] then 0
    else SealedBytes(envelopes[..|envelopes| - 1]) + |envelopes[|envelopes| - 1].blob|
  }

  /** What the server can check of an envelope without a key. */
  function Check(limits: Limits, vault: VaultId, e: Envelope): Option<Error> {
    if e.vault != vault then Some(OtherVault)
    else if |e.nonce| != NONCE_BYTES then Some(BadNonce)
    else if e.blob == [] then Some(NothingSealed)
    else if |e.blob| > limits.maxBlobBytes then Some(RecordTooLarge)
    else None
  }

  /** The first complaint about any envelope, in batch order. */
  function FirstRefused(limits: Limits, vault: VaultId, envelopes: seq<Envelope>): Option<Error> {
    if envelopes == [] then None
    else
      var earlier := FirstRefused(limits, vault, envelopes[..|envelopes| - 1]);
      if earlier.Some? then earlier else Check(limits, vault, envelopes[|envelopes| - 1])
  }

  function NewRow(e: Envelope, seqNo: nat, device: DeviceId, now: nat): Row {
    Row(e.kind, seqNo, e.updatedAt, e.deleted, e.nonce, e.blob, device, now)
  }

  /** Offer one envelope: compare the version it was based on, and set. */
  function Offer(a: AccountRow, e: Envelope, device: DeviceId, now: nat): (AccountRow, Outcome) {
    if e.id in a.records && a.records[e.id].seqNo != e.baseSeq then
      (a, Conflict(ToEnvelope(a.vault, e.id, a.records[e.id])))
    else
      var held := e.id in a.records;
      var n := a.seqNo + 1;
      (AccountRow(
         a.vault, n,
         a.recordCount + (if held then 0 else 1),
         a.recordBytes + |e.blob| - (if held then |a.records[e.id].blob| else 0),
         a.records[e.id := NewRow(e, n, device, now)]),
       Taken(n))
  }

  /** The clock as it is read for each envelope of a batch in turn. */
  type Clock = seq<nat>

  function Reading(clock: Clock, i: nat): nat {
    if i < |clock| then clock[i] else 0
  }

  function Later(clock: Clock, n: nat): Clock {
    if n <= |clock| then clock[n..] else []
  }

  function OfferAll(a: AccountRow, envelopes: seq<Envelope>, device: DeviceId, clock: Clock): (r: Folded)
    ensures |r.outcomes| == |envelopes|
  {
    if envelopes == [] then Folded(a, []) else
    var before := OfferAll(a, envelopes[..|envelopes| - 1], device, clock);
    var (after, outcome) := Offer(before.account, envelopes[|envelopes| - 1], device, Reading(clock, |envelopes| - 1));
    Folded(after, before.outcomes + [outcome])
  }

  function AcceptedOf(envelopes: seq<Envelope>, outcomes: seq<Outcome>): seq<Accepted>
    requires |envelopes| == |outcomes|
  {
    if outcomes == [] then [] else
    var n := |outcomes| - 1;
    AcceptedOf(envelopes[..n], outcomes[..n])
      + (if outcomes[n].Taken? then [Accepted(envelopes[n].id, outcomes[n].seqNo)] else [])
  }

  function ConflictsOf(outcomes: seq<Outcome>): seq<Envelope> {
    if outcomes == [] then [] else
    var n := |outcomes| - 1;
    ConflictsOf(outcomes[..n]) + (if outcomes[n].Conflict? then [outcomes[n].held] else [])
  }

  /** Why the account as it would be is refused, if it is. */
  function QuotaRefusal(quota: Quota, before: AccountRow, after: AccountRow, server: int): Option<Error> {
    if (after.recordCount > before.recordCount && after.recordCount > quota.records)
       || (after.recordBytes > before.recordBytes && after.recordBytes > quota.bytes)
    then Some(AccountFull)
    else if after.recordBytes > before.recordBytes
            && Max(server - before.recordBytes + after.recordBytes, 0) > quota.serverBytes
    then Some(ServerFull)
    else None
  }

  /** Why a batch is not even looked at, if it is not. */
  function BatchRefusal(limits: Limits, vault: VaultId, envelopes: seq<Envelope>): Option<Error> {
    if |envelopes| > limits.maxBatch then Some(BatchTooLong)
    else if |envelopes| > 1 && SealedBytes(envelopes) > limits.maxBatchBytes then Some(BatchTooHeavy)
    else FirstRefused(limits, vault, envelopes)
  }

  ghost function PushWithin(
    limits: Limits, quota: Quota, db: Db, account: AccountId, device: DeviceId,
    envelopes: seq<Envelope>, clock: Clock): (Db, Result<PushResponse, Error>)
    requires account in db.accounts
  {
    var before := db.accounts[account];
    var refused := BatchRefusal(limits, before.vault, envelopes);
    if refused.Some? then (db, Failure(refused.value)) else
    var folded := OfferAll(before, envelopes, device, clock);
    var full := QuotaRefusal(quota, before, folded.account, ServerBytes(db.accounts));
    if full.Some? then (db, Failure(full.value)) else
    (db.(accounts := db.accounts[account := folded.account]),
     Success(PushResponse(
       AcceptedOf(envelopes, folded.outcomes), ConflictsOf(folded.outcomes), folded.account.seqNo)))
  }

  // ---- One offer ----

  lemma NewestNumberIsFree(records: Records, seqNo: nat, id: RecordId, row: Row)
    requires DistinctNumbers(records) && row.seqNo > seqNo
    requires forall i :: i in records ==> records[i].seqNo <= seqNo
    ensures DistinctNumbers(records[id := row])
  {
    var after := records[id := row];
    forall i, j
      ensures !Clash(after, i, j)
    {
      assert !Clash(records, i, j);
    }
  }

  lemma OfferKeepsOk(limits: Limits, a: AccountRow, e: Envelope, device: DeviceId, now: nat)
    requires AccountOk(limits, a)
    requires 1 <= |e.blob| <= limits.maxBlobBytes
    ensures AccountOk(limits, Offer(a, e, device, now).0)
  {
    if e.id !in a.records || a.records[e.id].seqNo == e.baseSeq {
      var row := NewRow(e, a.seqNo + 1, device, now);
      BlobBytesUpdated(a.records, e.id, row);
      NewestNumberIsFree(a.records, a.seqNo, e.id, row);
    }
  }

  // ---- The batch ----

  lemma {:induction false} CheckedOneByOne(limits: Limits, vault: VaultId, envelopes: seq<Envelope>)
    ensures FirstRefused(limits, vault, envelopes).None? <==>
            forall i :: 0 <= i < |envelopes| ==> Check(limits, vault, envelopes[i]).None?
  {
    if envelopes != [] {
      CheckedOneByOne(limits, vault, envelopes[..|envelopes| - 1]);
    }
  }

  lemma {:induction false} RefusalStands(limits: Limits, vault: VaultId, envelopes: seq<Envelope>, k: nat)
    requires k <= |envelopes|
    requires FirstRefused(limits, vault, envelopes[..k]).Some?
    ensures FirstRefused(limits, vault, envelopes) == FirstRefused(limits, vault, envelopes[..k])
  {
    if k == |envelopes| {
      assert envelopes[..k] == envelopes;
    } else {
      var n := |envelopes| - 1;
      assert envelopes[..n][..k] == envelopes[..k];
      RefusalStands(limits, vault, envelopes[..n], k);
    }
  }

  lemma {:induction false} OfferAllKeepsOk(
    limits: Limits, a: AccountRow, envelopes: seq<Envelope>, device: DeviceId, clock: Clock)
    requires AccountOk(limits, a)
    requires forall i :: 0 <= i < |envelopes| ==> 1 <= |envelopes[i].blob| <= limits.maxBlobBytes
    ensures AccountOk(limits, OfferAll(a, envelopes, device, clock).account)
  {
    if envelopes != [] {
      var n := |envelopes| - 1;
      OfferAllKeepsOk(limits, a, envelopes[..n], device, clock);
      OfferKeepsOk(limits, OfferAll(a, envelopes[..n], device, clock).account, envelopes[n], device, Reading(clock, n));
    }
  }

  /** A push of two batches at once is a push of one and then the other. */
  lemma {:induction false} BatchIsSequential(
    a: AccountRow, first: seq<Envelope>, second: seq<Envelope>, device: DeviceId, clock: Clock)
    ensures
      var one := OfferAll(a, first, device, clock);
      var two := OfferAll(one.account, second, device, Later(clock, |first|));
      OfferAll(a, first + second, device, clock) == Folded(two.account, one.outcomes + two.outcomes)
  {
    if second == [] {
      assert first + second == first;
      assert OfferAll(a, first, device, clock).outcomes + [] == OfferAll(a, first, device, clock).outcomes;
    } else {
      var n := |second| - 1;
      BatchIsSequential(a, first, second[..n], device, clock);
      assert (first + second)[..|first + second| - 1] == first + second[..n];
    }
  }

  /** How each envelope fares is decided by the account as the ones before it left it. */
  lemma OutcomeAt(a: AccountRow, envelopes: seq<Envelope>, i: nat, device: DeviceId, clock: Clock)
    requires i < |envelopes|
    ensures
      var before := OfferAll(a, envelopes[..i], device, clock);
      var all := OfferAll(a, envelopes, device, clock);
      && all.outcomes[i] == Offer(before.account, envelopes[i], device, Reading(clock, i)).1
      && all.outcomes[..i] == before.outcomes
      && OfferAll(a, envelopes[..i + 1], device, clock).account
         == Offer(before.account, envelopes[i], device, Reading(clock, i)).0
  {
    assert envelopes == envelopes[..i + 1] + envelopes[i + 1..];
    BatchIsSequential(a, envelopes[..i + 1], envelopes[i + 1..], device, clock);
    assert envelopes[..i + 1][..i] == envelopes[..i];
  }

  /** A fold, and the lists made of it. */
  ghost predicate Reached(
    a: AccountRow, envelopes: seq<Envelope>, i: nat, device: DeviceId, clock: Clock,
    account: AccountRow, accepted: seq<Accepted>, conflicts: seq<Envelope>)
    requires i <= |envelopes|
  {
    var folded := OfferAll(a, envelopes[..i], device, clock);
    && account == folded.account
    && accepted == AcceptedOf(envelopes[..i], folded.outcomes)
    && conflicts == ConflictsOf(folded.outcomes)
  }

  /** The lists and the account after one more envelope. */
  lemma OneMoreOffer(
    a: AccountRow, envelopes: seq<Envelope>, i: nat, device: DeviceId, clock: Clock,
    account: AccountRow, accepted: seq<Accepted>, conflicts: seq<Envelope>)
    requires i < |envelopes|
    requires Reached(a, envelopes, i, device, clock, account, accepted, conflicts)
    ensures
      var (next, outcome) := Offer(account, envelopes[i], device, Reading(clock, i));
      Reached(a, envelopes, i + 1, device, clock, next,
        if outcome.Taken? then accepted + [Accepted(envelopes[i].id, outcome.seqNo)] else accepted,
        if outcome.Taken? then conflicts else conflicts + [outcome.held])
  {
    assert envelopes[..i + 1][..i] == envelopes[..i];
    assert OfferAll(a, envelopes[..i + 1], device, clock).outcomes[..i]
        == OfferAll(a, envelopes[..i], device, clock).outcomes;
  }

  lemma OneMoreConflict(
    a: AccountRow, envelopes: seq<Envelope>, i: nat, device: DeviceId, clock: Clock,
    account: AccountRow, accepted: seq<Accepted>, conflicts: seq<Envelope>, held: Envelope)
    requires i < |envelopes|
    requires Reached(a, envelopes, i, device, clock, account, accepted, conflicts)
    requires Offer(account, envelopes[i], device, Reading(clock, i)) == (account, Conflict(held))
    ensures Reached(a, envelopes, i + 1, device, clock, account, accepted, conflicts + [held])
  {
    OneMoreOffer(a, envelopes, i, device, clock, account, accepted, conflicts);
  }

  lemma OneMoreTaken(
    a: AccountRow, envelopes: seq<Envelope>, i: nat, device: DeviceId, clock: Clock,
    account: AccountRow, accepted: seq<Accepted>, conflicts: seq<Envelope>, next: AccountRow)
    requires i < |envelopes|
    requires Reached(a, envelopes, i, device, clock, account, accepted, conflicts)
    requires Offer(account, envelopes[i], device, Reading(clock, i)) == (next, Taken(next.seqNo))
    ensures Reached(a, envelopes, i + 1, device, clock, next,
      accepted + [Accepted(envelopes[i].id, next.seqNo)], conflicts)
  {
    OneMoreOffer(a, envelopes, i, device, clock, account, accepted, conflicts);
  }

  /** A version held after a batch is the one held before, or newer than all before. */
  lemma {:induction false} HeldIsOldOrNew(a: AccountRow, envelopes: seq<Envelope>, device: DeviceId, clock: Clock)
    ensures
      var after := OfferAll(a, envelopes, device, clock).account;
      && after.vault == a.vault
      && a.seqNo <= after.seqNo
      && a.records.Keys <= after.records.Keys
      && (forall id :: id in after.records ==>
            || after.records[id].seqNo > a.seqNo
            || (id in a.records && after.records[id] == a.records[id]))
  {
    if envelopes != [] {
      HeldIsOldOrNew(a, envelopes[..|envelopes| - 1], device, clock);
    }
  }

  /** What earlier envelopes put on either list stays where it is. */
  lemma {:induction false} ListsGrowAtTheEnd(envelopes: seq<Envelope>, outcomes: seq<Outcome>, k: nat)
    requires k <= |envelopes| == |outcomes|
    ensures AcceptedOf(envelopes[..k], outcomes[..k]) <= AcceptedOf(envelopes, outcomes)
    ensures ConflictsOf(outcomes[..k]) <= ConflictsOf(outcomes)
    ensures |AcceptedOf(envelopes, outcomes)| + |ConflictsOf(outcomes)| == |outcomes|
  {
    var n := |outcomes| - 1;
    if outcomes == [] {
    } else if k == |outcomes| {
      assert envelopes[..k] == envelopes && outcomes[..k] == outcomes;
      ListsGrowAtTheEnd(envelopes[..n], outcomes[..n], n);
    } else {
      assert envelopes[..n][..k] == envelopes[..k] && outcomes[..n][..k] == outcomes[..k];
      ListsGrowAtTheEnd(envelopes[..n], outcomes[..n], k);
    }
  }

  /** Accepted records are numbered one after the other, in batch order. */
  lemma {:induction false} NumbersAreConsecutive(
    a: AccountRow, envelopes: seq<Envelope>, device: DeviceId, clock: Clock)
    ensures
      var all := OfferAll(a, envelopes, device, clock);
      var accepted := AcceptedOf(envelopes, all.outcomes);
      && all.account.seqNo == a.seqNo + |accepted|
      && (forall k :: 0 <= k < |accepted| ==> accepted[k].seqNo == a.seqNo + 1 + k)
  {
    if envelopes != [] {
      var n := |envelopes| - 1;
      NumbersAreConsecutive(a, envelopes[..n], device, clock);
      assert OfferAll(a, envelopes, device, clock).outcomes[..n] == OfferAll(a, envelopes[..n], device, clock).outcomes;
    }
  }

  lemma PlaceInLists(envelopes: seq<Envelope>, outcomes: seq<Outcome>, i: nat)
    requires i < |envelopes| == |outcomes|
    ensures
      var k := |AcceptedOf(envelopes[..i], outcomes[..i])|;
      var accepted, conflicts := AcceptedOf(envelopes, outcomes), ConflictsOf(outcomes);
      && k <= i
      && |accepted| + |conflicts| == |envelopes|
      && (outcomes[i].Taken? ==> k < |accepted| && accepted[k] == Accepted(envelopes[i].id, outcomes[i].seqNo))
      && (outcomes[i].Conflict? ==> i - k < |conflicts| && conflicts[i - k] == outcomes[i].held)
  {
    ListsGrowAtTheEnd(envelopes, outcomes, i + 1);
    ListsGrowAtTheEnd(envelopes[..i], outcomes[..i], i);
    assert envelopes[..i + 1][..i] == envelopes[..i] && outcomes[..i + 1][..i] == outcomes[..i];
  }

  /**
    Every envelope lands in exactly one of the two lists, at the place the
    envelopes before it leave for it, with the number it got or the version
    that was held when its turn came.
   */
  lemma EachLandsOnce(a: AccountRow, envelopes: seq<Envelope>, i: nat, device: DeviceId, clock: Clock)
    requires i < |envelopes|
    ensures
      var all := OfferAll(a, envelopes, device, clock);
      var accepted := AcceptedOf(envelopes, all.outcomes);
      var conflicts := ConflictsOf(all.outcomes);
      var e := envelopes[i];
      var then_ := OfferAll(a, envelopes[..i], device, clock).account;
      var k := |AcceptedOf(envelopes[..i], all.outcomes[..i])|;
      && |accepted| + |conflicts| == |envelopes|
      && k <= i
      && (if e.id !in then_.records || then_.records[e.id].seqNo == e.baseSeq
          then k < |accepted| && accepted[k] == Accepted(e.id, a.seqNo + 1 + k)
          else i - k < |conflicts| && conflicts[i - k] == ToEnvelope(then_.vault, e.id, then_.records[e.id]))
  {
    OutcomeAt(a, envelopes, i, device, clock);
    PlaceInLists(envelopes, OfferAll(a, envelopes, device, clock).outcomes, i);
    NumbersAreConsecutive(a, envelopes, device, clock);
  }

  /**
    A conflict is reported based on itself: offered again on that base, to any
    later state that still holds the record, it is taken exactly when the
    version held is still the one reported.
   */
  lemma RetryPassesUndisturbed(
    a: AccountRow, envelopes: seq<Envelope>, i: nat, clock: Clock,
    later: AccountRow, retry: Envelope, device: DeviceId, now: nat)
    requires i < |envelopes|
    requires OfferAll(a, envelopes, device, clock).outcomes[i].Conflict?
    requires
      var held := OfferAll(a, envelopes, device, clock).outcomes[i].held;
      retry.id == held.id && held.id in later.records && retry.baseSeq == held.baseSeq
    ensures
      var then_ := OfferAll(a, envelopes[..i], device, clock).account;
      var id := envelopes[i].id;
      && retry.id == id && id in then_.records
      && (Offer(later, retry, device, now).1.Taken? <==> later.records[id].seqNo == then_.records[id].seqNo)
  {
    OutcomeAt(a, envelopes, i, device, clock);
  }

  /** Once a record is taken, what is held of it is newer than what was. */
  lemma TakenIsNewer(
    a: AccountRow, envelopes: seq<Envelope>, i: nat, j: nat, device: DeviceId, clock: Clock)
    requires i < j <= |envelopes|
    requires OfferAll(a, envelopes, device, clock).outcomes[i].Taken?
    ensures
      var earlier := OfferAll(a, envelopes[..i], device, clock).account;
      var later := OfferAll(a, envelopes[..j], device, clock).account;
      var id := envelopes[i].id;
      id in later.records && later.records[id].seqNo > earlier.seqNo
  {
    var next := OfferAll(a, envelopes[..i + 1], device, clock).account;
    OutcomeAt(a, envelopes, i, device, clock);
    assert envelopes[..j] == envelopes[..i + 1] + envelopes[i + 1..j];
    BatchIsSequential(a, envelopes[..i + 1], envelopes[i + 1..j], device, clock);
    HeldIsOldOrNew(next, envelopes[i + 1..j], device, Later(clock, i + 1));
  }

  /** Of two envelopes in one batch that update a record from the same version, one is refused. */
  lemma OneUpdatePerBase(
    limits: Limits, a: AccountRow, envelopes: seq<Envelope>, i: nat, j: nat, device: DeviceId, clock: Clock)
    requires AccountOk(limits, a)
    requires forall k :: 0 <= k < |envelopes| ==> 1 <= |envelopes[k].blob| <= limits.maxBlobBytes
    requires i < j < |envelopes| && envelopes[i].id == envelopes[j].id
    requires envelopes[i].id in OfferAll(a, envelopes[..i], device, clock).account.records
    requires OfferAll(a, envelopes, device, clock).outcomes[i].Taken?
    requires OfferAll(a, envelopes, device, clock).outcomes[j].Taken?
    ensures envelopes[i].baseSeq != envelopes[j].baseSeq
  {
    OutcomeAt(a, envelopes, i, device, clock);
    OutcomeAt(a, envelopes, j, device, clock);
    OfferAllKeepsOk(limits, a, envelopes[..i], device, clock);
    TakenIsNewer(a, envelopes, i, j, device, clock);
  }

  // ---- What a push stores ----

  /** A record that no taken envelope names stays as it is. */
  lemma {:induction false} UntakenStays(
    a: AccountRow, envelopes: seq<Envelope>, device: DeviceId, clock: Clock, id: RecordId)
    requires
      var outcomes := OfferAll(a, envelopes, device, clock).outcomes;
      forall i :: 0 <= i < |envelopes| && outcomes[i].Taken? ==> envelopes[i].id != id
    ensures
      var after := OfferAll(a, envelopes, device, clock).account;
      (id in after.records <==> id in a.records) && (id in a.records ==> after.records[id] == a.records[id])
  {
    if envelopes != [] {
      var n := |envelopes| - 1;
      var all, earlier := OfferAll(a, envelopes, device, clock), OfferAll(a, envelopes[..n], device, clock);
      assert all.outcomes[..n] == earlier.outcomes;
      assert forall i :: 0 <= i < n ==> all.outcomes[i] == earlier.outcomes[i];
      UntakenStays(a, envelopes[..n], device, clock, id);
      assert all.outcomes[n].Taken? ==> envelopes[n].id != id;
    }
  }

  /** The last envelope taken for a record is what is held of it, field by field. */
  lemma LastTakenIsHeld(a: AccountRow, envelopes: seq<Envelope>, i: nat, device: DeviceId, clock: Clock)
    requires i < |envelopes|
    requires
      var outcomes := OfferAll(a, envelopes, device, clock).outcomes;
      && outcomes[i].Taken?
      && forall j :: i < j < |envelopes| && outcomes[j].Taken? ==> envelopes[j].id != envelopes[i].id
    ensures
      var all, e := OfferAll(a, envelopes, device, clock), envelopes[i];
      && e.id in all.account.records
      && var row := all.account.records[e.id];
         && row.kind == e.kind && row.updatedAt == e.updatedAt && row.deleted == e.deleted
         && row.nonce == e.nonce && row.blob == e.blob
         && row.seqNo == all.outcomes[i].seqNo && row.device == device
         && row.updatedMs == (if i < |clock| then clock[i] else 0)
  {
    var first, rest := envelopes[..i + 1], envelopes[i + 1..];
    var all, one := OfferAll(a, envelopes, device, clock), OfferAll(a, first, device, clock);
    var two := OfferAll(one.account, rest, device, Later(clock, |first|));
    assert envelopes == first + rest;
    BatchIsSequential(a, first, rest, device, clock);
    OutcomeAt(a, envelopes, i, device, clock);
    forall j | 0 <= j < |rest| && two.outcomes[j].Taken?
      ensures rest[j].id != envelopes[i].id
    {
      assert all.outcomes[i + 1 + j] == two.outcomes[j] && envelopes[i + 1 + j] == rest[j];
    }
    UntakenStays(one.account, rest, device, Later(clock, |first|), envelopes[i].id);
  }

  /** The place on the list of the accepted that an envelope has. */
  lemma TakenIsListed(envelopes: seq<Envelope>, outcomes: seq<Outcome>, i: nat)
    requires i < |envelopes| == |outcomes| && outcomes[i].Taken?
    ensures Accepted(envelopes[i].id, outcomes[i].seqNo) in AcceptedOf(envelopes, outcomes)
  {
    PlaceInLists(envelopes, outcomes, i);
  }

  /**
    What a push that is answered leaves in the tables: of each record the last
    envelope accepted for it, field by field, under the number it was accepted
    with; every other record and every other account as it was; and its answer
    names the account's number.
   */
  lemma PushStores(
    limits: Limits, quota: Quota, db: Db, account: AccountId, device: DeviceId,
    envelopes: seq<Envelope>, clock: Clock, i: nat)
    requires account in db.accounts && i < |envelopes|
    requires PushWithin(limits, quota, db, account, device, envelopes, clock).1.Success?
    requires
      var outcomes := OfferAll(db.accounts[account], envelopes, device, clock).outcomes;
      && outcomes[i].Taken?
      && forall j :: i < j < |envelopes| && outcomes[j].Taken? ==> envelopes[j].id != envelopes[i].id
    ensures
      var (after, answer) := PushWithin(limits, quota, db, account, device, envelopes, clock);
      var e := envelopes[i];
      && account in after.accounts && e.id in after.accounts[account].records
      && var row := after.accounts[account].records[e.id];
         && row.kind == e.kind && row.updatedAt == e.updatedAt && row.deleted == e.deleted
         && row.nonce == e.nonce && row.blob == e.blob && row.device == device
         && row.updatedMs == (if i < |clock| then clock[i] else 0)
         && OfferAll(db.accounts[account], envelopes, device, clock).outcomes[i] == Taken(row.seqNo)
         && Accepted(e.id, row.seqNo) in answer.value.accepted
  {
    LastTakenIsHeld(db.accounts[account], envelopes, i, device, clock);
    TakenIsListed(envelopes, OfferAll(db.accounts[account], envelopes, device, clock).outcomes, i);
  }

  /**
    What a push that is answered says of each envelope: it is on exactly one of
    the two lists, at the place those before it leave for it - accepted under
    the next number, or turned away with the version held when its turn came,
    field by field.
   */
  lemma PushAnswersEach(
    limits: Limits, quota: Quota, db: Db, account: AccountId, device: DeviceId,
    envelopes: seq<Envelope>, clock: Clock, i: nat) returns (k: nat)
    requires account in db.accounts && i < |envelopes|
    requires PushWithin(limits, quota, db, account, device, envelopes, clock).1.Success?
    ensures
      var answer := PushWithin(limits, quota, db, account, device, envelopes, clock).1.value;
      var before, e := db.accounts[account], envelopes[i];
      var held := OfferAll(before, envelopes[..i], device, clock).account.records;
      && |answer.accepted| + |answer.conflicts| == |envelopes|
      && k <= i
      && (e.id !in held || held[e.id].seqNo == e.baseSeq ==>
            k < |answer.accepted| && answer.accepted[k] == Accepted(e.id, before.seqNo + 1 + k))
      && (e.id in held && held[e.id].seqNo != e.baseSeq ==>
            i - k < |answer.conflicts|
            && var row := held[e.id];
               answer.conflicts[i - k] == Envelope(e.id, before.vault, row.kind, row.updatedAt, row.seqNo,
                 row.deleted, row.nonce, row.blob, Some(row.seqNo)))
  {
    var all := OfferAll(db.accounts[account], envelopes, device, clock);
    k := |AcceptedOf(envelopes[..i], all.outcomes[..i])|;
    EachLandsOnce(db.accounts[account], envelopes, i, device, clock);
    HeldIsOldOrNew(db.accounts[account], envelopes[..i], device, clock);
  }

  lemma PushLeavesTheRest(
    limits: Limits, quota: Quota, db: Db, account: AccountId, device: DeviceId,
    envelopes: seq<Envelope>, clock: Clock)
    requires account in db.accounts
    ensures
      var (after, answer) := PushWithin(limits, quota, db, account, device, envelopes, clock);
      && after.devices == db.devices && after.accounts.Keys == db.accounts.Keys
      && (forall other :: other in db.accounts && other != account ==> after.accounts[other] == db.accounts[other])
      && (answer.Failure? ==> after == db)
      && (answer.Success? ==>
            var before, now := db.accounts[account], after.accounts[account];
            && now.vault == before.vault && answer.value.cursor == now.seqNo
            && now.seqNo == before.seqNo + |answer.value.accepted|
            && forall id :: (forall k :: 0 <= k < |answer.value.accepted| ==> answer.value.accepted[k].id != id) ==>
                 (id in now.records <==> id in before.records)
                 && (id in before.records ==> now.records[id] == before.records[id]))
  {
    var before := db.accounts[account];
    var all := OfferAll(before, envelopes, device, clock);
    var accepted := AcceptedOf(envelopes, all.outcomes);
    HeldIsOldOrNew(before, envelopes, device, clock);
    NumbersAreConsecutive(before, envelopes, device, clock);
    forall id | forall k :: 0 <= k < |accepted| ==> accepted[k].id != id
      ensures (id in all.account.records <==> id in before.records)
        && (id in before.records ==> all.account.records[id] == before.records[id])
    {
      forall i | 0 <= i < |envelopes| && all.outcomes[i].Taken?
        ensures envelopes[i].id != id
      {
        TakenIsListed(envelopes, all.outcomes, i);
      }
      UntakenStays(before, envelopes, device, clock, id);
    }
  }

  // ---- What a push is refused for ----

  /** What an envelope must be: of the vault, with a nonce of 24 bytes, and something sealed, not too large. */
  predicate Sound(limits: Limits, vault: VaultId, e: Envelope) {
    e.vault == vault && |e.nonce| == 24 && 1 <= |e.blob| <= limits.maxBlobBytes
  }

  /** The first envelope that is not sound is the `i`th. */
  ghost predicate FirstUnsound(limits: Limits, vault: VaultId, envelopes: seq<Envelope>, i: nat) {
    && i < |envelopes| && !Sound(limits, vault, envelopes[i])
    && forall j :: 0 <= j < i ==> Sound(limits, vault, envelopes[j])
  }

  lemma CheckFindsTheUnsound(limits: Limits, vault: VaultId, e: Envelope)
    ensures Check(limits, vault, e) == None <==> Sound(limits, vault, e)
  {
  }

  lemma NoneRefusedIsSound(limits: Limits, vault: VaultId, envelopes: seq<Envelope>)
    ensures FirstRefused(limits, vault, envelopes) == None <==>
      forall i :: 0 <= i < |envelopes| ==> Sound(limits, vault, envelopes[i])
  {
    CheckedOneByOne(limits, vault, envelopes);
    forall i | 0 <= i < |envelopes|
      ensures Check(limits, vault, envelopes[i]) == None <==> Sound(limits, vault, envelopes[i])
    {
      CheckFindsTheUnsound(limits, vault, envelopes[i]);
    }
  }

  lemma {:induction false} FirstRefusedIs(limits: Limits, vault: VaultId, envelopes: seq<Envelope>) returns (i: nat)
    requires FirstRefused(limits, vault, envelopes).Some?
    ensures FirstUnsound(limits, vault, envelopes, i)
    ensures FirstRefused(limits, vault, envelopes) == Check(limits, vault, envelopes[i])
  {
    var n := |envelopes| - 1;
    if FirstRefused(limits, vault, envelopes[..n]).Some? {
      i := FirstRefusedIs(limits, vault, envelopes[..n]);
    } else {
      NoneRefusedIsSound(limits, vault, envelopes[..n]);
      CheckFindsTheUnsound(limits, vault, envelopes[n]);
      assert forall j :: 0 <= j < n ==> envelopes[..n][j] == envelopes[j];
      i := n;
    }
  }

  lemma OneFirstUnsound(limits: Limits, vault: VaultId, envelopes: seq<Envelope>, i: nat, j: nat)
    requires FirstUnsound(limits, vault, envelopes, i) && FirstUnsound(limits, vault, envelopes, j)
    ensures i == j
  {
  }

  /** A batch that is looked at: not too many records, and not too many bytes unless it is one record. */
  predicate FitsOneRequest(limits: Limits, envelopes: seq<Envelope>) {
    |envelopes| <= limits.maxBatch && (|envelopes| <= 1 || SealedBytes(envelopes) <= limits.maxBatchBytes)
  }

  /** When a batch is refused before it is offered, and for which reason. */
  lemma RefusedExactlyWhen(limits: Limits, vault: VaultId, envelopes: seq<Envelope>)
    ensures
      var refusal := BatchRefusal(limits, vault, envelopes);
      && (refusal == None <==>
            (FitsOneRequest(limits, envelopes)
             && forall i :: 0 <= i < |envelopes| ==> Sound(limits, vault, envelopes[i])))
      && (refusal == Some(BatchTooLong) <==> |envelopes| > limits.maxBatch)
      && (refusal == Some(BatchTooHeavy) <==>
            1 < |envelopes| <= limits.maxBatch && SealedBytes(envelopes) > limits.maxBatchBytes)
      && (forall i: nat :: FitsOneRequest(limits, envelopes) && FirstUnsound(limits, vault, envelopes, i) ==>
            var e := envelopes[i];
            && (refusal == Some(OtherVault) <==> e.vault != vault)
            && (refusal == Some(BadNonce) <==> e.vault == vault && |e.nonce| != 24)
            && (refusal == Some(NothingSealed) <==> e.vault == vault && |e.nonce| == 24 && |e.blob| == 0)
            && (refusal == Some(RecordTooLarge) <==>
                  e.vault == vault && |e.nonce| == 24 && |e.blob| > limits.maxBlobBytes))
  {
    NoneRefusedIsSound(limits, vault, envelopes);
    if FirstRefused(limits, vault, envelopes).Some? {
      var i := FirstRefusedIs(limits, vault, envelopes);
      forall j: nat | FirstUnsound(limits, vault, envelopes, j)
        ensures j == i
      {
        OneFirstUnsound(limits, vault, envelopes, i, j);
      }
    }
  }

  // ---- Quotas ----

  ghost predicate WithinQuota(quota: Quota, db: Db) {
    && (forall a :: a in db.accounts ==>
          && db.accounts[a].recordCount <= quota.records
          && db.accounts[a].recordBytes <= quota.bytes)
    && ServerBytes(db.accounts) <= quota.serverBytes
  }

  /** A push leaves every account, and all of them together, within what they may hold. */
  lemma PushKeepsQuota(
    limits: Limits, quota: Quota, db: Db, account: AccountId, device: DeviceId,
    envelopes: seq<Envelope>, clock: Clock)
    requires account in db.accounts && WithinQuota(quota, db)
    ensures WithinQuota(quota, PushWithin(limits, quota, db, account, device, envelopes, clock).0)
  {
    ServerBytesUpdated(db.accounts, account, OfferAll(db.accounts[account], envelopes, device, clock).account);
  }

  /**
    When quotas have their say: from any state, over-full or not, a push that
    passes the checks is refused exactly when it adds to something that is then
    past its line - so never when it raises neither the count nor the bytes.
   */
  lemma OnlyGrowthIsRefused(
    limits: Limits, quota: Quota, db: Db, account: AccountId, device: DeviceId,
    envelopes: seq<Envelope>, clock: Clock)
    requires DbOk(limits, db) && account in db.accounts
    requires BatchRefusal(limits, db.accounts[account].vault, envelopes).None?
    ensures
      var before := db.accounts[account];
      var after := OfferAll(before, envelopes, device, clock).account;
      var result := PushWithin(limits, quota, db, account, device, envelopes, clock).1;
      var others := ServerBytes(db.accounts) - BlobBytes(before.records);
      && (result.Failure? <==>
            || |after.records| > Max(|before.records|, quota.records)
            || BlobBytes(after.records) > Max(BlobBytes(before.records), quota.bytes)
            || (BlobBytes(after.records) > BlobBytes(before.records)
                && others + BlobBytes(after.records) > quota.serverBytes))
      && (result == Failure(AccountFull) <==>
            || |after.records| > Max(|before.records|, quota.records)
            || BlobBytes(after.records) > Max(BlobBytes(before.records), quota.bytes))
      && (result.Failure? ==> result == Failure(AccountFull) || result == Failure(ServerFull))
      && ((|after.records| <= |before.records| && BlobBytes(after.records) <= BlobBytes(before.records))
          ==> result.Success?)
  {
    var before := db.accounts[account];
    var after := OfferAll(before, envelopes, device, clock).account;
    assert AccountOk(limits, before);
    assert AccountOk(limits, after) by {
      CheckedOneByOne(limits, before.vault, envelopes);
      OfferAllKeepsOk(limits, before, envelopes, device, clock);
    }
    QuotaVerdict(quota, before, after, ServerBytes(db.accounts));
  }

  lemma QuotaVerdict(quota: Quota, before: AccountRow, after: AccountRow, server: int)
    ensures QuotaRefusal(quota, before, after, server) == Some(AccountFull) <==>
            || after.recordCount > Max(before.recordCount, quota.records)
            || after.recordBytes > Max(before.recordBytes, quota.bytes)
    ensures QuotaRefusal(quota, before, after, server) in {None, Some(AccountFull), Some(ServerFull)}
    ensures QuotaRefusal(quota, before, after, server).Some? <==>
            || after.recordCount > Max(before.recordCount, quota.records)
            || after.recordBytes > Max(before.recordBytes, quota.bytes)
            || (after.recordBytes > before.recordBytes
                && server - before.recordBytes + after.recordBytes > quota.serverBytes)
  {
  }
}
