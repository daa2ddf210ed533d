/**
  What devices have read, which of them are shut out, and what may be
  forgotten because of it.
 */
module Housekeeping {
  import opened Basics
  import opened Wrappers
  import opened Mailbox

  // ---- Forgetting records ----

  predicate Forgettable(row: Row, beforeMs: nat, belowSeq: nat) {
    row.deleted && row.updatedMs < beforeMs && row.seqNo <= belowSeq
  }

  function Tombstones(records: Records, beforeMs: nat, belowSeq: nat): (ids: set<RecordId>)
    ensures ids <= records.Keys
  {
    set id | id in records && Forgettable(records[id], beforeMs, belowSeq)
  }

  function ManifestsOf(records: Records, device: DeviceId): (ids: set<RecordId>)
    ensures ids <= records.Keys
  {
    set id | id in records && records[id].device == device && records[id].kind.Manifest?
  }

  /** Take records out, and off the account's count and bytes as the source does, clamped at 0. */
  ghost function Without(a: AccountRow, gone: set<RecordId>): AccountRow
    requires gone <= a.records.Keys
  {
    a.(recordCount := Max(a.recordCount - |gone|, 0),
       recordBytes := Max(a.recordBytes - BlobBytes(Only(a.records, gone)), 0),
       records := a.records - gone)
  }

  /** The counters still say what is there afterwards, so the clamps change nothing. */
  lemma WithoutKeepsOk(limits: Limits, a: AccountRow, gone: set<RecordId>)
    requires AccountOk(limits, a) && gone <= a.records.Keys
    ensures AccountOk(limits, Without(a, gone))
    ensures Without(a, gone).recordCount == a.recordCount - |gone|
    ensures Without(a, gone).recordBytes == a.recordBytes - BlobBytes(Only(a.records, gone))
    ensures Without(a, gone).recordBytes <= a.recordBytes
  {
    BlobBytesSplit(a.records, gone);
    BlobBytesNonNegative(a.records - gone);
    BlobBytesNonNegative(Only(a.records, gone));
    assert (a.records - gone).Keys == a.records.Keys - gone;
    assert |a.records.Keys - gone| == |a.records.Keys| - |gone|;
    forall i, j
      ensures !Clash(a.records - gone, i, j)
    {
      assert !Clash(a.records, i, j);
    }
  }

  ghost function PurgeTombstones(db: Db, account: AccountId, beforeMs: nat, belowSeq: nat): Db
    requires account in db.accounts
  {
    var a := db.accounts[account];
    db.(accounts := db.accounts[account := Without(a, Tombstones(a.records, beforeMs, belowSeq))])
  }

  ghost function DropManifestsOf(db: Db, account: AccountId, device: DeviceId): Db
    requires account in db.accounts
  {
    var a := db.accounts[account];
    db.(accounts := db.accounts[account := Without(a, ManifestsOf(a.records, device))])
  }

  // ---- Devices ----

  predicate Unrevoked(db: Db, account: AccountId, d: DeviceId) {
    d in db.devices && db.devices[d].account == account && db.devices[d].revokedMs == None
  }

  function Live(db: Db, account: AccountId): set<DeviceId> {
    set d | d in db.devices && db.devices[d].account == account && db.devices[d].revokedMs.None?
  }

  ghost predicate IsFurthestBehind(db: Db, account: AccountId, d: DeviceId) {
    && d in Live(db, account)
    && forall e :: e in Live(db, account) ==> db.devices[d].cursor <= db.devices[e].cursor
  }

  lemma {:induction false} SomeDeviceIsLast(db: Db, ids: set<DeviceId>)
    requires ids != {} && ids <= db.devices.Keys
    ensures exists d :: d in ids && forall e :: e in ids ==> db.devices[d].cursor <= db.devices[e].cursor
  {
    var d :| d in ids;
    if ids != {d} {
      SomeDeviceIsLast(db, ids - {d});
      var best :| best in ids - {d}
        && forall e :: e in ids - {d} ==> db.devices[best].cursor <= db.devices[e].cursor;
      var last := if db.devices[d].cursor <= db.devices[best].cursor then d else best;
      assert forall e :: e in ids ==> e == d || e in ids - {d};
      assert forall e :: e in ids ==> db.devices[last].cursor <= db.devices[e].cursor;
    } else {
      assert forall e :: e in ids ==> db.devices[d].cursor <= db.devices[e].cursor;
    }
  }

  /** `min(cursor)` over the devices that still read, and 0 where there is none. */
  ghost function LowestCursor(db: Db, account: AccountId): (n: nat)
    ensures Live(db, account) == {} ==> n == 0
    ensures Live(db, account) != {} ==> exists d :: d in Live(db, account) && db.devices[d].cursor == n
    ensures forall d :: d in Live(db, account) ==> n <= db.devices[d].cursor
  {
    if Live(db, account) == {} then 0 else
    SomeDeviceIsLast(db, Live(db, account));
    assert exists d :: IsFurthestBehind(db, account, d) by {
      var last :| last in Live(db, account)
        && forall e :: e in Live(db, account) ==> db.devices[last].cursor <= db.devices[e].cursor;
      assert IsFurthestBehind(db, account, last);
    }
    var d :| IsFurthestBehind(db, account, d);
    db.devices[d].cursor
  }

  /** Note that a device was here, and how far it has read: a cursor never steps back. */
  function Seen(db: Db, device: DeviceId, cursor: nat, now: nat): Db {
    if device !in db.devices then db else
    var d := db.devices[device];
    db.(devices := db.devices[device := d.(lastSeenMs := Some(now), cursor := Max(d.cursor, cursor))])
  }

  /** Shut a device of this account out, and forget what it said it holds. */
  ghost function Revoke(db: Db, account: AccountId, device: DeviceId, now: nat): (Db, bool)
    requires account in db.accounts
  {
    if device in db.devices && db.devices[device].account == account && db.devices[device].revokedMs.None? then
      var marked := db.(devices := db.devices[device := db.devices[device].(revokedMs := Some(now))]);
      (DropManifestsOf(marked, account, device), true)
    else
      (db, false)
  }

  /** The handler: never the last device, and only one of the account's own. */
  ghost function RevokeHandler(db: Db, account: AccountId, device: DeviceId, now: nat): (Db, Result<(), Error>)
    requires account in db.accounts
  {
    if |Live(db, account)| <= 1 then (db, Failure(LastDevice)) else
    var (after, changed) := Revoke(db, account, device, now);
    (after, if changed then Success(()) else Failure(NotFound))
  }

  /** One device shut out, and of the account's records the manifests it wrote taken out: nothing else. */
  ghost predicate ShutsOut(db: Db, after: Db, account: AccountId, device: DeviceId, now: nat)
    requires account in db.accounts && device in db.devices
  {
    var d := db.devices[device];
    && after.devices == db.devices[device := DeviceRow(d.account, d.cursor, d.lastSeenMs, Some(now))]
    && after.accounts.Keys == db.accounts.Keys
    && (forall other :: other in db.accounts && other != account ==> after.accounts[other] == db.accounts[other])
    && var held, left := db.accounts[account], after.accounts[account];
       && left.vault == held.vault && left.seqNo == held.seqNo
       && (forall id :: id in left.records <==>
             id in held.records && !(held.records[id].kind.Manifest? && held.records[id].device == device))
       && (forall id :: id in left.records ==> left.records[id] == held.records[id])
  }

  lemma TwoAreLive(db: Db, account: AccountId)
    ensures |Live(db, account)| <= 1 <==>
      !exists d, e :: d != e && Unrevoked(db, account, d) && Unrevoked(db, account, e)
  {
    var live := Live(db, account);
    assert forall d :: d in live <==> Unrevoked(db, account, d);
    if d: DeviceId, e: DeviceId :| d != e && Unrevoked(db, account, d) && Unrevoked(db, account, e) {
      PartIsSmaller({d, e}, live);
    } else if live != {} {
      var d :| d in live;
      assert forall e :: e in live ==> e == d;
      assert live == {d};
    }
  }

  /**
    When a device is shut out: exactly when it is an unrevoked one of the
    account and not the only one. It is refused as the last device when there
    are no two, else as not found, and a refusal changes nothing.
   */
  lemma RevokesExactlyWhen(db: Db, account: AccountId, device: DeviceId, now: nat)
    requires account in db.accounts
    ensures
      var (after, answer) := RevokeHandler(db, account, device, now);
      && (answer.Success? <==>
            (Unrevoked(db, account, device) && exists other :: other != device && Unrevoked(db, account, other)))
      && (answer == Failure(LastDevice) <==>
            !exists d, e :: d != e && Unrevoked(db, account, d) && Unrevoked(db, account, e))
      && (answer == Failure(NotFound) <==>
            (!Unrevoked(db, account, device)
             && exists d, e :: d != e && Unrevoked(db, account, d) && Unrevoked(db, account, e)))
      && (answer.Failure? ==> after == db)
      && (answer.Success? ==> ShutsOut(db, after, account, device, now))
  {
    TwoAreLive(db, account);
    if d: DeviceId, e: DeviceId :| d != e && Unrevoked(db, account, d) && Unrevoked(db, account, e) {
      assert (if d != device then d else e) != device;
    }
  }

  /** A new device has read nothing yet. */
  function AddDevice(db: Db, account: AccountId, device: DeviceId): Db
    requires device !in db.devices
  {
    db.(devices := db.devices[device := DeviceRow(account, 0, None, None)])
  }

  function CreateAccount(db: Db, account: AccountId, vault: VaultId): Db
    requires account !in db.accounts
  {
    db.(accounts := db.accounts[account := AccountRow(vault, 0, 0, 0, map[])])
  }

  const NINETY_DAYS_MS := 90 * 24 * 60 * 60 * 1000

  /** One account's share of the nightly purge. */
  ghost function PurgeAccount(db: Db, account: AccountId, now: nat): Db
    requires account in db.accounts
  {
    PurgeTombstones(db, account, Max(now - NINETY_DAYS_MS, 0), LowestCursor(db, account))
  }

  // ---- What all of it keeps ----

  ghost function Forget(db: Db, account: AccountId, gone: set<RecordId>): Db
    requires account in db.accounts && gone <= db.accounts[account].records.Keys
  {
    db.(accounts := db.accounts[account := Without(db.accounts[account], gone)])
  }

  lemma ForgettingKeepsOk(limits: Limits, db: Db, account: AccountId, gone: set<RecordId>)
    requires DbOk(limits, db) && account in db.accounts && gone <= db.accounts[account].records.Keys
    ensures DbOk(limits, Forget(db, account, gone))
    ensures ServerBytes(Forget(db, account, gone).accounts) <= ServerBytes(db.accounts)
  {
    WithoutKeepsOk(limits, db.accounts[account], gone);
    ServerBytesUpdated(db.accounts, account, Without(db.accounts[account], gone));
  }

  lemma PurgeKeepsOk(limits: Limits, db: Db, account: AccountId, now: nat)
    requires DbOk(limits, db) && account in db.accounts
    ensures DbOk(limits, PurgeAccount(db, account, now))
    ensures ServerBytes(PurgeAccount(db, account, now).accounts) <= ServerBytes(db.accounts)
  {
    ForgettingKeepsOk(limits, db, account,
      Tombstones(db.accounts[account].records, Max(now - NINETY_DAYS_MS, 0), LowestCursor(db, account)));
  }

  lemma RevokeKeepsOk(limits: Limits, db: Db, account: AccountId, device: DeviceId, now: nat)
    requires DbOk(limits, db) && account in db.accounts
    ensures DbOk(limits, Revoke(db, account, device, now).0)
    ensures ServerBytes(Revoke(db, account, device, now).0.accounts) <= ServerBytes(db.accounts)
  {
    ForgettingKeepsOk(limits, db, account, ManifestsOf(db.accounts[account].records, device));
  }

  /**
    A tombstone goes only when every device that still reads has read past it;
    so an account nobody reads, or that a device has not read at all, keeps
    every one of them. Nothing but old tombstones goes.
   */
  lemma PurgeWaitsForEveryDevice(limits: Limits, db: Db, account: AccountId, now: nat, id: RecordId)
    requires DbOk(limits, db) && account in db.accounts
    requires id in db.accounts[account].records
    ensures
      var row := db.accounts[account].records[id];
      var after := PurgeAccount(db, account, now).accounts[account].records;
      && (id in after ==> after[id] == row)
      && (id !in after <==>
            && row.deleted && row.updatedMs + 7_776_000_000 < now
            && (exists d :: Unrevoked(db, account, d))
            && forall d :: Unrevoked(db, account, d) ==> row.seqNo <= db.devices[d].cursor)
  {
    assert AccountOk(limits, db.accounts[account]);
    assert db.accounts[account].records[id].seqNo >= 1;
    assert forall d :: Unrevoked(db, account, d) <==> d in Live(db, account);
    if Live(db, account) != {} {
      var d :| d in Live(db, account) && db.devices[d].cursor == LowestCursor(db, account);
    }
  }

  /** A purge leaves every device, every other account, the account's number and vault, and adds nothing. */
  lemma PurgeLeavesTheRest(db: Db, account: AccountId, now: nat)
    requires account in db.accounts
    ensures
      var after := PurgeAccount(db, account, now);
      && after.devices == db.devices && after.accounts.Keys == db.accounts.Keys
      && (forall other :: other in db.accounts && other != account ==> after.accounts[other] == db.accounts[other])
      && after.accounts[account].vault == db.accounts[account].vault
      && after.accounts[account].seqNo == db.accounts[account].seqNo
      && (forall id :: id in after.accounts[account].records ==>
            id in db.accounts[account].records
            && after.accounts[account].records[id] == db.accounts[account].records[id])
  {
  }
}
