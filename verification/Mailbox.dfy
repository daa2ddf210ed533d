/**
  The tables of the mailbox and what must hold of them.

  A table of the database is a map from its primary key. The records of an
  account are kept inside its row, since every statement of the source that
  touches a record names the account first.
 */
module Mailbox {
  import opened Wrappers
  import opened Sums

  type AccountId = nat
  type DeviceId = nat
  type RecordId = nat
  type VaultId = nat

  newtype byte = x: int | 0 <= x < 256
  type Bytes = seq<byte>

  /** The kinds matter only as far as the server tells them apart. */
  datatype Kind = Host | Manifest | Other(tag: nat)

  datatype Hlc = Hlc(wallMs: nat, counter: nat, device: nat)

  /** A record as it travels. `seqNo` is only there on its way out. */
  datatype Envelope = Envelope(
    id: RecordId, vault: VaultId, kind: Kind, updatedAt: Hlc, baseSeq: nat,
    deleted: bool, nonce: Bytes, blob: Bytes, seqNo: Option<nat>)

  /** A record as it is stored: its newest version, and nothing older. */
  datatype Row = Row(
    kind: Kind, seqNo: nat, updatedAt: Hlc, deleted: bool, nonce: Bytes, blob: Bytes,
    device: DeviceId, updatedMs: nat)

  type Records = map<RecordId, Row>

  /** `recordCount` and `recordBytes` are kept up to date as records come and go. */
  datatype AccountRow = AccountRow(
    vault: VaultId, seqNo: nat, recordCount: int, recordBytes: int, records: Records)

  datatype DeviceRow = DeviceRow(
    account: AccountId, cursor: nat, lastSeenMs: Option<nat>, revokedMs: Option<nat>)

  datatype Db = Db(accounts: map<AccountId, AccountRow>, devices: map<DeviceId, DeviceRow>)

  const NONCE_BYTES := 24

  /**
    The sizes the wire protocol allows. The crate that fixes them is not part
    of this model; the server's own README, lines 201 and 202, names 500 records,
    8 MiB and 256 KiB.
   */
  datatype RawLimits = Limits(maxBatch: nat, maxBatchBytes: nat, maxBlobBytes: nat)

  type Limits = l: RawLimits | 1 <= l.maxBatch && 1 <= l.maxBlobBytes <= l.maxBatchBytes
    witness Limits(500, 8 * 1024 * 1024, 256 * 1024)

  datatype Quota = Quota(records: nat, bytes: nat, serverBytes: nat)

  datatype Error =
    | BatchTooLong | BatchTooHeavy
    | OtherVault | BadNonce | NothingSealed | RecordTooLarge
    | AccountFull | ServerFull
    | NoSuchAccount | Unauthorized | LastDevice | NotFound

  /** The envelope a stored row is handed out as: based on the very version it is. */
  function ToEnvelope(vault: VaultId, id: RecordId, row: Row): Envelope {
    Envelope(id, vault, row.kind, row.updatedAt, row.seqNo, row.deleted, row.nonce, row.blob, Some(row.seqNo))
  }

  ghost function Sizes(records: Records): map<RecordId, int> {
    map id | id in records :: |records[id].blob|
  }

  /** `sum(length(blob))` over an account's records. */
  ghost function BlobBytes(records: Records): int {
    Sum(Sizes(records))
  }

  /** `sum(record_bytes)` over the accounts. */
  ghost function ServerBytes(accounts: map<AccountId, AccountRow>): int {
    Sum(Shares(accounts))
  }

  ghost function Shares(accounts: map<AccountId, AccountRow>): map<AccountId, int> {
    map a | a in accounts :: accounts[a].recordBytes
  }

  /** The rows a `WHERE` clause picks out. */
  function Only(records: Records, ids: set<RecordId>): Records
    requires ids <= records.Keys
  {
    map id | id in ids :: records[id]
  }

  predicate Clash(records: Records, i: RecordId, j: RecordId) {
    i in records && j in records && i != j && records[i].seqNo == records[j].seqNo
  }

  /** No number is on two records. */
  ghost predicate DistinctNumbers(records: Records) {
    forall i, j :: !Clash(records, i, j)
  }

  /** What holds of an account between any two statements. */
  ghost predicate AccountOk(limits: Limits, a: AccountRow) {
    && a.recordCount == |a.records|
    && a.recordBytes == BlobBytes(a.records)
    && DistinctNumbers(a.records)
    && (forall id :: id in a.records ==> 1 <= a.records[id].seqNo <= a.seqNo)
    && (forall id :: id in a.records ==> 1 <= |a.records[id].blob| <= limits.maxBlobBytes)
  }

  ghost predicate DbOk(limits: Limits, db: Db) {
    && (forall a {:trigger AccountOk(limits, db.accounts[a])} :: a in db.accounts ==> AccountOk(limits, db.accounts[a]))
    && (forall d :: d in db.devices ==> db.devices[d].account in db.accounts)
  }

  lemma BlobBytesUpdated(records: Records, id: RecordId, row: Row)
    ensures BlobBytes(records[id := row])
         == BlobBytes(records) + |row.blob| - (if id in records then |records[id].blob| else 0)
  {
    assert Sizes(records[id := row]) == Sizes(records)[id := |row.blob|];
    SumUpdated(Sizes(records), id, |row.blob|);
  }

  lemma BlobBytesSplit(records: Records, gone: set<RecordId>)
    requires gone <= records.Keys
    ensures BlobBytes(records)
         == BlobBytes(records - gone) + BlobBytes(Only(records, gone))
  {
    SumSplit(Sizes(records), gone);
    assert Sizes(records) - gone == Sizes(records - gone);
    assert Part(Sizes(records), gone) == Sizes(Only(records, gone));
  }

  lemma BlobBytesNonNegative(records: Records)
    ensures 0 <= BlobBytes(records)
  {
    SumIsNonNegative(Sizes(records));
  }

  lemma ServerBytesUpdated(accounts: map<AccountId, AccountRow>, a: AccountId, row: AccountRow)
    ensures ServerBytes(accounts[a := row])
         == ServerBytes(accounts) + row.recordBytes - (if a in accounts then accounts[a].recordBytes else 0)
  {
    assert Shares(accounts[a := row]) == Shares(accounts)[a := row.recordBytes];
    SumUpdated(Shares(accounts), a, row.recordBytes);
  }
}
