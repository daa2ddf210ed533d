/**
  The database as the source works on it: tables rewritten in place, statement
  by statement and row by row. Each method is proved to do what the functions
  of `Pushing`, `Paging` and `Housekeeping` say, so what is proved of runs of
  those is proved of runs of these.
 */
module Store {
  import opened Basics
  import opened Wrappers
  import opened Sums
  import opened Mailbox
  import opened Pushing
  import opened Paging
  import opened Housekeeping
  import Runs

  class Database {
    const limits: Limits
    var accounts: map<AccountId, AccountRow>
    var devices: map<DeviceId, DeviceRow>

    ghost function State(): Db
      reads this
    {
      Db(accounts, devices)
    }

    ghost predicate Valid()
      reads this
    {
      DbOk(limits, State())
    }

    constructor (limits: Limits)
      ensures Valid() && this.limits == limits && State() == Db(map[], map[])
    {
      this.limits := limits;
      accounts, devices := map[], map[];
    }

    // ---- Queries ----

    /** `SELECT sum(record_bytes) FROM accounts`. */
    method SumRecordBytes() returns (sum: int)
      ensures sum == ServerBytes(accounts)
    {
      sum := 0;
      var left := accounts.Keys;
      ghost var shares := Shares(accounts);
      assert Part(shares, left) == shares;
      while left != {}
        invariant left <= accounts.Keys
        invariant sum + Sum(Part(shares, left)) == ServerBytes(accounts)
        decreases |left|
      {
        var a :| a in left;
        SumWithout(Part(shares, left), a);
        assert Part(shares, left) - {a} == Part(shares, left - {a});
        sum := sum + accounts[a].recordBytes;
        left := left - {a};
      }
    }

    /** `SELECT count(*), sum(length(blob))` over the rows a delete will take. */
    static method Tally(rows: Records, gone: set<RecordId>) returns (count: nat, bytes: int)
      requires gone <= rows.Keys
      ensures count == |gone| && bytes == BlobBytes(Only(rows, gone))
    {
      count, bytes := 0, 0;
      var left := gone;
      while left != {}
        invariant left <= gone
        invariant count + |left| == |gone|
        invariant bytes + BlobBytes(Only(rows, left)) == BlobBytes(Only(rows, gone))
        decreases |left|
      {
        var id :| id in left;
        assert Only(rows, left) == Only(rows, left - {id})[id := rows[id]];
        BlobBytesUpdated(Only(rows, left - {id}), id, rows[id]);
        count, bytes := count + 1, bytes + |rows[id].blob|;
        left := left - {id};
      }
    }

    /** The row with the lowest number past a cursor. */
    static method NextRow(rows: Records, since: nat) returns (next: Option<RecordId>)
      requires DistinctNumbers(rows)
      ensures
        if next.None? then Past(rows, since) == {}
        else Past(rows, since) != {} && next.value == First(rows, since)
    {
      next := None;
      var left := set id | id in rows && rows[id].seqNo > since;
      ghost var all := left;
      assert all == Past(rows, since);
      while left != {}
        invariant left <= all
        invariant next.None? ==> left == all
        invariant next.Some? ==> next.value in all
        invariant next.Some? ==> forall id :: id in all && id !in left ==> rows[next.value].seqNo <= rows[id].seqNo
        decreases |left|
      {
        var id :| id in left;
        if next.None? || rows[id].seqNo < rows[next.value].seqNo {
          next := Some(id);
        }
        left := left - {id};
      }
      if next.Some? {
        assert !Clash(rows, next.value, First(rows, since));
      }
    }

    /** `WHERE seq > since ORDER BY seq`. */
    static method SelectAfter(vault: VaultId, records: Records, since: nat) returns (rows: seq<Envelope>)
      requires DistinctNumbers(records)
      ensures rows == Rows(vault, records, since)
    {
      rows := [];
      var at := since;
      var next := NextRow(records, at);
      while next.Some?
        invariant since <= at
        invariant
          if next.None? then Past(records, at) == {}
          else Past(records, at) != {} && next.value == First(records, at)
        invariant Rows(vault, records, since) == rows + Rows(vault, records, at)
        decreases |Past(records, at)|
      {
        SelectOneMore(vault, records, since, rows, at);
        rows := rows + [ToEnvelope(vault, next.value, records[next.value])];
        at := records[next.value].seqNo;
        next := NextRow(records, at);
      }
      RowsUnfold(vault, records, at);
    }

    /** `min(cursor)` over the devices of an account that are not shut out. */
    method ReadLowestCursor(account: AccountId) returns (lowest: nat)
      ensures lowest == LowestCursor(State(), account)
    {
      var best: Option<nat> := None;
      var live := set d | d in devices && devices[d].account == account && devices[d].revokedMs.None?;
      var left := live;
      assert live == Live(State(), account);
      while left != {}
        invariant left <= live
        invariant best.None? ==> left == live
        invariant best.Some? ==> exists d :: d in live && devices[d].cursor == best.value
        invariant best.Some? ==> forall d :: d in live && d !in left ==> best.value <= devices[d].cursor
        decreases |left|
      {
        var d :| d in left;
        if best.None? || devices[d].cursor < best.value {
          best := Some(devices[d].cursor);
        }
        left := left - {d};
      }
      lowest := if best.Some? then best.value else 0;
    }

    // ---- Push ----

    method CheckBatch(account: AccountId, envelopes: seq<Envelope>) returns (refused: Option<Error>)
      requires account in accounts
      ensures refused == BatchRefusal(limits, accounts[account].vault, envelopes)
    {
      if |envelopes| > limits.maxBatch {
        return Some(BatchTooLong);
      }
      var sealed := 0;
      for i := 0 to |envelopes|
        invariant sealed == SealedBytes(envelopes[..i])
      {
        assert envelopes[..i + 1][..i] == envelopes[..i];
        sealed := sealed + |envelopes[i].blob|;
      }
      assert envelopes[..|envelopes|] == envelopes;
      if |envelopes| > 1 && sealed > limits.maxBatchBytes {
        return Some(BatchTooHeavy);
      }
      for i := 0 to |envelopes|
        invariant FirstRefused(limits, accounts[account].vault, envelopes[..i]).None?
      {
        assert envelopes[..i + 1][..i] == envelopes[..i];
        refused := Check(limits, accounts[account].vault, envelopes[i]);
        if refused.Some? {
          RefusalStands(limits, accounts[account].vault, envelopes, i + 1);
          return;
        }
      }
      refused := None;
    }

    /**
      The loop of a push over a transaction's view of the account: `rows`,
      `seqNo`, `count` and `bytes` only reach the tables when it commits.
     */
    static method OfferEach(a: AccountRow, device: DeviceId, envelopes: seq<Envelope>, clock: Clock)
      returns (after: AccountRow, accepted: seq<Accepted>, conflicts: seq<Envelope>)
      ensures
        var folded := OfferAll(a, envelopes, device, clock);
        && after == folded.account
        && accepted == AcceptedOf(envelopes, folded.outcomes)
        && conflicts == ConflictsOf(folded.outcomes)
    {
      var rows: Records, seqNo: nat, count, bytes := a.records, a.seqNo, a.recordCount, a.recordBytes;
      accepted, conflicts := [], [];
      for i := 0 to |envelopes|
        invariant Reached(a, envelopes, i, device, clock,
                    AccountRow(a.vault, seqNo, count, bytes, rows), accepted, conflicts)
      {
        var envelope := envelopes[i];
        ghost var at := AccountRow(a.vault, seqNo, count, bytes, rows);
        if envelope.id in rows && rows[envelope.id].seqNo != envelope.baseSeq {
          OneMoreConflict(a, envelopes, i, device, clock, at, accepted, conflicts,
            ToEnvelope(a.vault, envelope.id, rows[envelope.id]));
          conflicts := conflicts + [ToEnvelope(a.vault, envelope.id, rows[envelope.id])];
          continue;
        }
        if envelope.id in rows {
          bytes := bytes + |envelope.blob| - |rows[envelope.id].blob|;
        } else {
          count := count + 1;
          bytes := bytes + |envelope.blob|;
        }
        seqNo := seqNo + 1;
        rows := rows[envelope.id := NewRow(envelope, seqNo, device, Reading(clock, i))];
        OneMoreTaken(a, envelopes, i, device, clock, at, accepted, conflicts,
          AccountRow(a.vault, seqNo, count, bytes, rows));
        accepted := accepted + [Accepted(envelope.id, seqNo)];
      }
      assert envelopes[..|envelopes|] == envelopes;
      after := AccountRow(a.vault, seqNo, count, bytes, rows);
    }

    /** A batch in one transaction: all of it and the counters, or an error and no change at all. */
    method PushWithin(account: AccountId, device: DeviceId, envelopes: seq<Envelope>, quota: Quota, clock: Clock)
      returns (r: Result<PushResponse, Error>)
      requires Valid() && account in accounts
      modifies this
      ensures Valid()
      ensures (State(), r) == Pushing.PushWithin(limits, quota, old(State()), account, device, envelopes, clock)
      ensures r.Failure? ==> State() == old(State())
    {
      var refused := CheckBatch(account, envelopes);
      if refused.Some? {
        return Failure(refused.value);
      }
      var held := accounts[account];
      var after, accepted, conflicts := OfferEach(held, device, envelopes, clock);
      if (after.recordCount > held.recordCount && after.recordCount > quota.records)
         || (after.recordBytes > held.recordBytes && after.recordBytes > quota.bytes)
      {
        return Failure(AccountFull);
      }
      if after.recordBytes > held.recordBytes {
        var everyone := SumRecordBytes();
        if Max(everyone - held.recordBytes + after.recordBytes, 0) > quota.serverBytes {
          return Failure(ServerFull);
        }
      }
      Runs.PushKeepsOk(Runs.Config(limits, quota), State(), account, device, envelopes, clock);
      accounts := accounts[account := after];
      r := Success(PushResponse(accepted, conflicts, after.seqNo));
    }

    // ---- Pull ----

    /** Rows are read one at a time, and reading stops once the page is full. */
    method Pull(account: AccountId, since: nat, limit: nat, manifests: bool) returns (page: PullResponse)
      requires Valid() && account in accounts
      ensures
        var a := accounts[account];
        AccountOk(limits, a) && page == Page(limits, a.vault, a.records, since, limit, manifests)
    {
      var a := accounts[account];
      var atMost := Clamp(limits, limit);
      assert AccountOk(limits, a);
      var rows := SelectAfter(a.vault, a.records, since);
      RowsRise(a.vault, a.records, since);
      page := FillPage(limits, rows, since, atMost, manifests);
    }

    static method FillPage(limits: Limits, rows: seq<Envelope>, since: nat, atMost: nat, manifests: bool)
      returns (page: PullResponse)
      requires RowsGoUp(rows, since)
      ensures
        var n := Read(limits, manifests, atMost, rows, 0, 0, 0);
        page == PullResponse(Visible(manifests, rows[..n]), ReadTo(rows, since, n), n < |rows|)
    {
      var envelopes, hasMore := [], false;
      var bytes: nat, cursor: nat := 0, since;
      var i := 0;
      while i < |rows|
        invariant 0 <= i <= |rows|
        invariant Filled(limits, manifests, atMost, rows, since, i, envelopes, bytes, cursor)
        invariant !hasMore
      {
        var envelope := rows[i];
        FillOneMore(limits, manifests, atMost, rows, since, i, envelopes, bytes, cursor);
        if !manifests && envelope.kind == Manifest {
          cursor := Max(if envelope.seqNo.Some? then envelope.seqNo.value else cursor, cursor);
          i := i + 1;
          continue;
        }
        if |envelopes| == atMost || (envelopes != [] && bytes + |envelope.blob| > limits.maxBatchBytes) {
          hasMore := true;
          break;
        }
        bytes := bytes + |envelope.blob|;
        cursor := Max(if envelope.seqNo.Some? then envelope.seqNo.value else cursor, cursor);
        envelopes := envelopes + [envelope];
        i := i + 1;
      }
      page := PullResponse(envelopes, cursor, hasMore);
    }

    // ---- Devices and housekeeping ----

    method MarkSeen(device: DeviceId, cursor: nat, now: nat)
      requires Valid()
      modifies this
      ensures Valid() && State() == Seen(old(State()), device, cursor, now)
    {
      if device in devices {
        var d := devices[device];
        devices := devices[device := d.(lastSeenMs := Some(now), cursor := Max(d.cursor, cursor))];
      }
      Runs.SameAccountsAreOk(limits, old(State()), State());
    }

    /** The request: a page, and how far the device has read by it - never further than there is. */
    method HandlePull(device: DeviceId, since: nat, limit: Option<nat>, manifests: bool, now: nat)
      returns (page: PullResponse)
      requires Valid() && Runs.SignedIn(State(), device)
      modifies this
      ensures Valid()
      ensures (State(), page) == Runs.PullHandler(limits, old(State()), device, since, limit, manifests, now)
    {
      var account := devices[device].account;
      page := Pull(account, since, Runs.Asked(limits, limit), manifests);
      MarkSeen(device, Min(page.cursor, accounts[account].seqNo), now);
    }

    /** Count what goes, delete it, and take it off the counters, in one transaction. */
    method DeleteRows(account: AccountId, gone: set<RecordId>) returns (removed: nat)
      requires Valid() && account in accounts && gone <= accounts[account].records.Keys
      modifies this
      ensures Valid()
      ensures State() == Forget(old(State()), account, gone) && removed == |gone|
    {
      var a := accounts[account];
      var count, bytes := Tally(a.records, gone);
      removed := count;
      ghost var before := State();
      var after := AccountRow(
        a.vault, a.seqNo, Max(a.recordCount - count, 0), Max(a.recordBytes - bytes, 0), a.records - gone);
      assert after == Without(a, gone);
      accounts := accounts[account := after];
      assert State() == Forget(before, account, gone);
      ForgettingKeepsOk(limits, before, account, gone);
    }

    method PurgeTombstones(account: AccountId, beforeMs: nat, belowSeq: nat) returns (removed: nat)
      requires Valid() && account in accounts
      modifies this
      ensures Valid()
      ensures State() == Housekeeping.PurgeTombstones(old(State()), account, beforeMs, belowSeq)
      ensures removed == |Tombstones(old(accounts[account].records), beforeMs, belowSeq)|
    {
      removed := DeleteRows(account, Tombstones(accounts[account].records, beforeMs, belowSeq));
    }

    method DropManifestsOf(account: AccountId, device: DeviceId) returns (removed: nat)
      requires Valid() && account in accounts
      modifies this
      ensures Valid()
      ensures State() == Housekeeping.DropManifestsOf(old(State()), account, device)
    {
      removed := DeleteRows(account, ManifestsOf(accounts[account].records, device));
    }

    method Revoke(account: AccountId, device: DeviceId, now: nat) returns (changed: bool)
      requires Valid() && account in accounts
      modifies this
      ensures Valid()
      ensures (State(), changed) == Housekeeping.Revoke(old(State()), account, device, now)
    {
      changed := device in devices && devices[device].account == account && devices[device].revokedMs.None?;
      if changed {
        devices := devices[device := devices[device].(revokedMs := Some(now))];
        Runs.SameAccountsAreOk(limits, old(State()), State());
        var _ := DropManifestsOf(account, device);
      }
    }

    method HandleRevoke(account: AccountId, device: DeviceId, now: nat) returns (r: Result<(), Error>)
      requires Valid() && account in accounts
      modifies this
      ensures Valid()
      ensures (State(), r) == RevokeHandler(old(State()), account, device, now)
    {
      var live := set d | d in devices && devices[d].account == account && devices[d].revokedMs.None?;
      assert live == Live(State(), account);
      if |live| <= 1 {
        return Failure(LastDevice);
      }
      var changed := Revoke(account, device, now);
      r := if changed then Success(()) else Failure(NotFound);
    }

    /** The nightly purge, one account after the other, the clock read for each. */
    method PurgeAll(clock: AccountClock)
      requires Valid()
      modifies this
      ensures Valid()
      ensures State() == PurgedAll(old(State()), clock)
    {
      var left := accounts.Keys;
      ghost var start := State();
      PurgedNone(start, clock);
      while left != {}
        invariant Valid()
        invariant left <= start.accounts.Keys
        invariant State() == PurgedBut(start, left, clock)
        decreases |left|
      {
        var account :| account in left;
        PurgeOne(account, clock, start, left);
        left := left - {account};
      }
    }

    method PurgeOne(account: AccountId, clock: AccountClock, ghost start: Db, ghost left: set<AccountId>)
      requires Valid() && account in left && left <= start.accounts.Keys && State() == PurgedBut(start, left, clock)
      modifies this
      ensures Valid() && State() == PurgedBut(start, left - {account}, clock)
    {
      PurgedOneMore(start, left, account, clock);
      ShareIsItsOwn(start, State(), account, ReadFor(clock, account));
      var below := ReadLowestCursor(account);
      var _ := PurgeTombstones(account, Max(ReadFor(clock, account) - NINETY_DAYS_MS, 0), below);
    }
  }

  // ---- A page while it is filled ----

  ghost predicate RowsGoUp(rows: seq<Envelope>, since: nat) {
    && (forall i :: 0 <= i < |rows| ==> rows[i].seqNo == Some(rows[i].baseSeq) && rows[i].baseSeq > since)
    && forall i, j :: 0 <= i < j < |rows| ==> rows[i].baseSeq < rows[j].baseSeq
  }

  function ReadTo(rows: seq<Envelope>, since: nat, n: nat): nat
    requires n <= |rows|
  {
    if n == 0 then since else rows[n - 1].baseSeq
  }

  /** Where the loop of a pull stands after `i` rows. */
  ghost predicate Filled(
    limits: Limits, manifests: bool, atMost: nat, rows: seq<Envelope>, since: nat,
    i: nat, envelopes: seq<Envelope>, bytes: nat, cursor: nat)
    requires i <= |rows|
  {
    && envelopes == Visible(manifests, rows[..i]) && bytes == SealedBytes(envelopes)
    && Read(limits, manifests, atMost, rows, 0, 0, 0) == Read(limits, manifests, atMost, rows, i, |envelopes|, bytes)
    && cursor == ReadTo(rows, since, i)
  }

  lemma FillOneMore(
    limits: Limits, manifests: bool, atMost: nat, rows: seq<Envelope>, since: nat,
    i: nat, envelopes: seq<Envelope>, bytes: nat, cursor: nat)
    requires RowsGoUp(rows, since) && i < |rows|
    requires Filled(limits, manifests, atMost, rows, since, i, envelopes, bytes, cursor)
    ensures rows[i].seqNo.Some? && Max(rows[i].seqNo.value, cursor) == ReadTo(rows, since, i + 1)
    ensures !Shown(manifests, rows[i]) ==>
      Filled(limits, manifests, atMost, rows, since, i + 1, envelopes, bytes, ReadTo(rows, since, i + 1))
    ensures Shown(manifests, rows[i]) ==>
      if |envelopes| == atMost || (envelopes != [] && bytes + |rows[i].blob| > limits.maxBatchBytes)
      then Read(limits, manifests, atMost, rows, 0, 0, 0) == i
      else Filled(limits, manifests, atMost, rows, since, i + 1,
        envelopes + [rows[i]], bytes + |rows[i].blob|, ReadTo(rows, since, i + 1))
  {
    SeenOneMore(manifests, rows, i);
    SealedOneMore(envelopes, rows[i]);
  }

  // ---- The purge of all accounts ----

  function SetRow(db: Db, account: AccountId, row: AccountRow): Db {
    db.(accounts := db.accounts[account := row])
  }

  /** An account as its own purge leaves it. */
  ghost function Share(db: Db, account: AccountId, now: nat): AccountRow
    requires account in db.accounts
  {
    PurgeAccount(db, account, now).accounts[account]
  }

  /** The clock as it is read for each account in turn. */
  type AccountClock = map<AccountId, nat>

  function ReadFor(clock: AccountClock, account: AccountId): nat {
    if account in clock then clock[account] else 0
  }

  ghost function PurgedBut(db: Db, left: set<AccountId>, clock: AccountClock): Db {
    db.(accounts := map a | a in db.accounts :: if a in left then db.accounts[a] else Share(db, a, ReadFor(clock, a)))
  }

  /** Every account as its own purge leaves it, whatever order they are taken in. */
  ghost function PurgedAll(db: Db, clock: AccountClock): Db {
    PurgedBut(db, {}, clock)
  }

  lemma PurgedNone(db: Db, clock: AccountClock)
    ensures PurgedBut(db, db.accounts.Keys, clock) == db
  {
    assert PurgedBut(db, db.accounts.Keys, clock).accounts == db.accounts;
  }

  /** What an account's purge leaves of it hangs on the account and its devices alone. */
  lemma ShareIsItsOwn(db: Db, before: Db, account: AccountId, now: nat)
    requires account in db.accounts && account in before.accounts
    requires before.devices == db.devices && before.accounts[account] == db.accounts[account]
    ensures Share(before, account, now) == Share(db, account, now)
    ensures Share(before, account, now) == Without(before.accounts[account],
      Tombstones(before.accounts[account].records, Max(now - NINETY_DAYS_MS, 0), LowestCursor(before, account)))
  {
    assert Live(before, account) == Live(db, account);
  }

  /**
    What the nightly purge leaves: the devices, each account's vault and number,
    and of its records all but the tombstones that are ninety days old by the
    clock as read for that account and that every device let in has read past.
   */
  lemma NightlyPurgeTakes(limits: Limits, db: Db, clock: AccountClock, account: AccountId, id: RecordId)
    requires DbOk(limits, db) && account in db.accounts && id in db.accounts[account].records
    ensures
      var after := PurgedAll(db, clock);
      var before, row := db.accounts[account], db.accounts[account].records[id];
      && after.devices == db.devices && after.accounts.Keys == db.accounts.Keys
      && after.accounts[account].vault == before.vault && after.accounts[account].seqNo == before.seqNo
      && after.accounts[account].records.Keys <= before.records.Keys
      && (id in after.accounts[account].records ==> after.accounts[account].records[id] == row)
      && (id !in after.accounts[account].records <==>
            && row.deleted && row.updatedMs + 7_776_000_000 < (if account in clock then clock[account] else 0)
            && (exists d :: Unrevoked(db, account, d))
            && forall d :: Unrevoked(db, account, d) ==> row.seqNo <= db.devices[d].cursor)
  {
    PurgeWaitsForEveryDevice(limits, db, account, ReadFor(clock, account), id);
    PurgeLeavesTheRest(db, account, ReadFor(clock, account));
  }

  lemma PurgedOneMore(db: Db, left: set<AccountId>, account: AccountId, clock: AccountClock)
    requires account in left && left <= db.accounts.Keys
    ensures
      var before := PurgedBut(db, left, clock);
      && account in before.accounts && before.accounts[account] == db.accounts[account]
      && SetRow(before, account, Share(db, account, ReadFor(clock, account)))
         == PurgedBut(db, left - {account}, clock)
  {
    var before, after := PurgedBut(db, left, clock), PurgedBut(db, left - {account}, clock);
    assert before.accounts[account := Share(db, account, ReadFor(clock, account))] == after.accounts;
  }
}
