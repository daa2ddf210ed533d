/**
  Restoring a backup: the tables go back, the numbers do not.
 */
module Restoring {
  import opened Basics
  import opened Wrappers
  import opened Mailbox
  import opened Pushing
  import opened Paging
  import opened Runs
  import opened Replicas
  import opened Tombstones
  import opened Store

  /** How far past the backup's number an account goes on when nothing says how far it had got. */
  const RESTORE_GAP: nat := 1_000_000

  function CarriedNumber(seqNo: nat, reached: Option<nat>): nat {
    match reached
    case Some(before) => if seqNo < before then before else seqNo
    case None => seqNo + RESTORE_GAP
  }

  function Reached(replaced: Option<Db>, account: AccountId): Option<nat> {
    if replaced.Some? && account in replaced.value.accounts then Some(replaced.value.accounts[account].seqNo) else None
  }

  /** The backup, numbered on. `replaced` is nothing where there was no database, or none that could be read. */
  function Carried(backup: Db, replaced: Option<Db>): Db {
    backup.(accounts := map a | a in backup.accounts ::
      backup.accounts[a].(seqNo := CarriedNumber(backup.accounts[a].seqNo, Reached(replaced, a))))
  }

  /** Number the accounts of an incoming database on, one after the other. */
  method CarryNumbersForward(database: Database, replaced: Option<Db>)
    requires database.Valid()
    modifies database
    ensures database.Valid()
    ensures database.State() == Carried(old(database.State()), replaced)
  {
    var reached: map<AccountId, nat> := map[];
    if replaced.Some? {
      reached := map a | a in replaced.value.accounts :: replaced.value.accounts[a].seqNo;
    }
    var left := database.accounts.Keys;
    ghost var start := database.State();
    NoneCarried(start, replaced);
    while left != {}
      invariant left <= start.accounts.Keys
      invariant database.State() == CarriedBut(start, replaced, left)
      decreases |left|
    {
      var id :| id in left;
      var a := database.accounts[id];
      var next := if id in reached then Max(a.seqNo, reached[id]) else a.seqNo + RESTORE_GAP;
      OneMoreCarried(start, replaced, left, id);
      database.accounts := database.accounts[id := a.(seqNo := next)];
      left := left - {id};
    }
    CarriedKeepsOk(database.limits, start, replaced);
  }

  function CarriedBut(backup: Db, replaced: Option<Db>, left: set<AccountId>): Db {
    backup.(accounts := map a | a in backup.accounts ::
      if a in left then backup.accounts[a] else Carried(backup, replaced).accounts[a])
  }

  lemma NoneCarried(backup: Db, replaced: Option<Db>)
    ensures CarriedBut(backup, replaced, backup.accounts.Keys) == backup
    ensures CarriedBut(backup, replaced, {}) == Carried(backup, replaced)
  {
    assert CarriedBut(backup, replaced, backup.accounts.Keys).accounts == backup.accounts;
    assert CarriedBut(backup, replaced, {}).accounts == Carried(backup, replaced).accounts;
  }

  lemma OneMoreCarried(backup: Db, replaced: Option<Db>, left: set<AccountId>, id: AccountId)
    requires id in left && left <= backup.accounts.Keys
    ensures
      var before := CarriedBut(backup, replaced, left);
      && id in before.accounts && before.accounts[id] == backup.accounts[id]
      && SetRow(before, id, Carried(backup, replaced).accounts[id]) == CarriedBut(backup, replaced, left - {id})
  {
    var before := CarriedBut(backup, replaced, left);
    assert SetRow(before, id, Carried(backup, replaced).accounts[id]).accounts
        == CarriedBut(backup, replaced, left - {id}).accounts;
  }

  /**
    What numbering on changes: the account numbers and nothing else. An account
    the replaced database knew goes on from whichever number is higher, any
    other a million past the backup's.
   */
  lemma OnlyNumbersAreCarried(backup: Db, replaced: Option<Db>, account: AccountId)
    requires account in backup.accounts
    ensures
      var after, was := Carried(backup, replaced), backup.accounts[account];
      && after.devices == backup.devices && after.accounts.Keys == backup.accounts.Keys
      && var number :=
           if replaced == None || account !in replaced.value.accounts then was.seqNo + 1_000_000
           else if replaced.value.accounts[account].seqNo > was.seqNo then replaced.value.accounts[account].seqNo
           else was.seqNo;
         after.accounts[account] == AccountRow(was.vault, number, was.recordCount, was.recordBytes, was.records)
  {
  }

  lemma CarriedKeepsOk(limits: Limits, backup: Db, replaced: Option<Db>)
    requires DbOk(limits, backup)
    ensures DbOk(limits, Carried(backup, replaced))
  {
    var after := Carried(backup, replaced);
    forall a | a in after.accounts
      ensures AccountOk(limits, after.accounts[a])
    {
      assert AccountOk(limits, backup.accounts[a]);
    }
  }

  // ---- Runs with restores in them ----

  /** `readable` is whether the replaced database could say how far it had got. */
  datatype Event = Served(op: Op) | Restored(backup: Db, readable: bool)

  /** A restore changes what is stored, and nothing of what devices have. */
  ghost function Next(cfg: Config, w: World, e: Event): (w': World)
    requires DbOk(cfg.limits, w.db)
    ensures DbOk(cfg.limits, w'.db)
  {
    match e
    case Served(op) => Apply(cfg, w, op)
    case Restored(backup, readable) =>
      if !DbOk(cfg.limits, backup) then w else
      var replaced := if readable then Some(w.db) else None;
      CarriedKeepsOk(cfg.limits, backup, replaced);
      w.(db := Carried(backup, replaced))
  }

  ghost function RunEvents(cfg: Config, w: World, events: seq<Event>): (w': World)
    requires DbOk(cfg.limits, w.db)
    ensures DbOk(cfg.limits, w'.db)
    decreases |events|
  {
    if events == [] then w else RunEvents(cfg, Next(cfg, w, events[0]), events[1..])
  }

  /** This restore replaces a readable database that has the account; ids are never given out twice. */
  ghost predicate Keeps(w: World, e: Event, account: AccountId) {
    match e
    case Served(op) => op.Create? ==> op.account != account
    case Restored(backup, readable) => readable && account in w.db.accounts
  }

  ghost predicate KeepsThroughout(cfg: Config, w: World, events: seq<Event>, account: AccountId)
    requires DbOk(cfg.limits, w.db)
    decreases |events|
  {
    events != [] ==>
      Keeps(w, events[0], account) && KeepsThroughout(cfg, Next(cfg, w, events[0]), events[1..], account)
  }

  /** Nothing past `n` has been handed out of this account that it will hand out again. */
  ghost predicate NotBelow(w: World, account: AccountId, n: nat) {
    account in w.db.accounts ==> n <= w.db.accounts[account].seqNo
  }

  lemma NextIsNotBelow(cfg: Config, w: World, e: Event, account: AccountId, n: nat)
    requires DbOk(cfg.limits, w.db) && NotBelow(w, account, n) && Keeps(w, e, account)
    ensures NotBelow(Next(cfg, w, e), account, n)
  {
    if e.Served? {
      StepIsLater(cfg, w, e.op);
      if account !in w.db.accounts {
        StaysAway(cfg, w, e.op, account);
      }
    }
  }

  /** An account that is not there does not come back by itself. */
  lemma StaysAway(cfg: Config, w: World, op: Op, account: AccountId)
    requires DbOk(cfg.limits, w.db) && account !in w.db.accounts
    requires op.Create? ==> op.account != account
    ensures account !in Apply(cfg, w, op).db.accounts
  {
    match op
    case Create(other, vault) =>
    case Join(other, device, reader) =>
    case Push(device, envelopes, clock) => PushStep(cfg, w, device, envelopes, clock);
    case Pull(device, limit, now) => PullsChangeNoAccount(cfg, w, device, 0, limit, true, now);
    case PullFrom(device, since, limit, manifests, now) =>
      PullsChangeNoAccount(cfg, w, device, since, limit, manifests, now);
    case ShutOut(asker, device, now) => ShutOutStep(cfg, w, asker, device, now);
    case Purge(other, now) =>
  }

  lemma {:induction false} RunIsNotBelow(cfg: Config, w: World, events: seq<Event>, account: AccountId, n: nat)
    requires DbOk(cfg.limits, w.db) && NotBelow(w, account, n) && KeepsThroughout(cfg, w, events, account)
    ensures NotBelow(RunEvents(cfg, w, events), account, n)
    decreases |events|
  {
    if events != [] {
      NextIsNotBelow(cfg, w, events[0], account, n);
      RunIsNotBelow(cfg, Next(cfg, w, events[0]), events[1..], account, n);
    }
  }

  /**
    Numbers are handed out once. Whatever is restored in between, as long as
    the account is in each database that is replaced, every number a later push
    hands out lies past every number the account ever handed out before.
   */
  lemma NumbersAreHandedOutOnce(
    cfg: Config, w: World, events: seq<Event>, account: AccountId,
    envelopes: seq<Envelope>, device: DeviceId, clock: Clock, k: nat)
    requires DbOk(cfg.limits, w.db) && account in w.db.accounts
    requires KeepsThroughout(cfg, w, events, account)
    requires account in RunEvents(cfg, w, events).db.accounts
    requires
      var a := RunEvents(cfg, w, events).db.accounts[account];
      k < |AcceptedOf(envelopes, OfferAll(a, envelopes, device, clock).outcomes)|
    ensures
      var before, a := w.db.accounts[account], RunEvents(cfg, w, events).db.accounts[account];
      var accepted := AcceptedOf(envelopes, OfferAll(a, envelopes, device, clock).outcomes);
      && accepted[k].seqNo > before.seqNo
      && forall id :: id in before.records ==> accepted[k].seqNo > before.records[id].seqNo
  {
    RunIsNotBelow(cfg, w, events, account, w.db.accounts[account].seqNo);
    NumbersAreConsecutive(RunEvents(cfg, w, events).db.accounts[account], envelopes, device, clock);
    assert AccountOk(cfg.limits, w.db.accounts[account]);
  }

  /** A reader of the account has read no further than its numbers go. */
  ghost predicate Behind(w: World, account: AccountId, reader: DeviceId) {
    && reader in w.clients
    && (reader in w.db.devices ==> w.db.devices[reader].account == account)
    && (account in w.db.accounts ==> w.clients[reader].cursor <= w.db.accounts[account].seqNo)
  }

  ghost predicate KnowsReader(e: Event, account: AccountId, reader: DeviceId) {
    e.Restored? && reader in e.backup.devices ==> e.backup.devices[reader].account == account
  }

  /** Only a reader's own pulls move its cursor. */
  lemma OtherStepsLeaveReader(cfg: Config, w: World, op: Op, reader: DeviceId)
    requires DbOk(cfg.limits, w.db) && reader in w.clients
    requires op.Pull? ==> op.device != reader
    ensures
      var w' := Apply(cfg, w, op);
      && reader in w'.clients && w'.clients[reader] == w.clients[reader]
      && (reader in w'.db.devices ==>
            reader in w.db.devices && w'.db.devices[reader].account == w.db.devices[reader].account)
  {
    match op
    case Create(account, vault) =>
    case Join(account, device, as_) =>
    case Push(device, envelopes, clock) => PushStep(cfg, w, device, envelopes, clock);
    case Pull(device, limit, now) =>
      if SignedIn(w.db, device) && device in w.clients {
        PullStep(cfg, w, device, limit, now);
      }
    case PullFrom(device, since, limit, manifests, now) =>
      if SignedIn(w.db, device) && device !in w.clients {
        var _ := PullFromStep(cfg, w, device, since, limit, manifests, now);
      }
    case ShutOut(asker, device, now) => ShutOutStep(cfg, w, asker, device, now);
    case Purge(account, now) =>
  }

  lemma OwnPullKeepsBehind(cfg: Config, w: World, account: AccountId, reader: DeviceId, limit: Option<nat>, now: nat)
    requires DbOk(cfg.limits, w.db) && Behind(w, account, reader)
    ensures Behind(OnPull(cfg, w, reader, limit, now), account, reader)
  {
    if SignedIn(w.db, reader) {
      var a, c := w.db.accounts[account], w.clients[reader];
      PullStep(cfg, w, reader, limit, now);
      PageCursor(cfg.limits, a.vault, a.records, c.cursor, Asked(cfg.limits, limit), c.manifests);
    }
  }

  lemma NextKeepsBehind(cfg: Config, w: World, e: Event, account: AccountId, reader: DeviceId)
    requires DbOk(cfg.limits, w.db) && Behind(w, account, reader)
    requires Keeps(w, e, account) && KnowsReader(e, account, reader)
    ensures Behind(Next(cfg, w, e), account, reader)
  {
    if account in w.db.accounts {
      NextIsNotBelow(cfg, w, e, account, w.clients[reader].cursor);
    } else if e.Served? {
      StaysAway(cfg, w, e.op, account);
    }
    if e.Served? {
      if e.op.Pull? && e.op.device == reader {
        OwnPullKeepsBehind(cfg, w, account, reader, e.op.limit, e.op.now);
      } else {
        OtherStepsLeaveReader(cfg, w, e.op, reader);
      }
    }
  }

  /**
    After any restores, whatever is written lies past where every reader of the
    account has read - so it will be pulled.
   */
  lemma {:induction false} WritesLiePastReaders(
    cfg: Config, w: World, events: seq<Event>, account: AccountId, reader: DeviceId)
    requires DbOk(cfg.limits, w.db) && Behind(w, account, reader)
    requires KeepsThroughout(cfg, w, events, account)
    requires forall i :: 0 <= i < |events| ==> KnowsReader(events[i], account, reader)
    ensures Behind(RunEvents(cfg, w, events), account, reader)
    decreases |events|
  {
    if events != [] {
      NextKeepsBehind(cfg, w, events[0], account, reader);
      WritesLiePastReaders(cfg, Next(cfg, w, events[0]), events[1..], account, reader);
    }
  }

  /**
    Where the replaced database does not know an account, the gap stands in: if
    what was lost had got no further than the gap past the backup, every number
    handed out from then on lies past all that was lost.
   */
  lemma TheGapCoversWhatWasLost(
    cfg: Config, w: World, backup: Db, readable: bool, lost: nat, events: seq<Event>, account: AccountId,
    envelopes: seq<Envelope>, device: DeviceId, clock: Clock, k: nat)
    requires DbOk(cfg.limits, w.db) && DbOk(cfg.limits, backup) && account in backup.accounts
    requires !readable || account !in w.db.accounts
    requires lost <= backup.accounts[account].seqNo + 1_000_000
    requires KeepsThroughout(cfg, Next(cfg, w, Restored(backup, readable)), events, account)
    requires account in RunEvents(cfg, Next(cfg, w, Restored(backup, readable)), events).db.accounts
    requires
      var a := RunEvents(cfg, Next(cfg, w, Restored(backup, readable)), events).db.accounts[account];
      k < |AcceptedOf(envelopes, OfferAll(a, envelopes, device, clock).outcomes)|
    ensures
      var a := RunEvents(cfg, Next(cfg, w, Restored(backup, readable)), events).db.accounts[account];
      AcceptedOf(envelopes, OfferAll(a, envelopes, device, clock).outcomes)[k].seqNo > lost
  {
    var restored := Next(cfg, w, Restored(backup, readable));
    assert Reached(if readable then Some(w.db) else None, account) == None;
    assert restored.db.accounts[account].seqNo == backup.accounts[account].seqNo + RESTORE_GAP;
    RunIsNotBelow(cfg, restored, events, account, lost);
    NumbersAreConsecutive(RunEvents(cfg, restored, events).db.accounts[account], envelopes, device, clock);
  }

  // ---- Tombstones and restores ----

  /** Each reader the backup lets in has each of the backup's tombstones it can see and has read past. */
  ghost predicate HeardOf(backup: Db, clients: map<DeviceId, Client>) {
    forall d :: d in clients && d in backup.devices && backup.devices[d].revokedMs.None?
      && backup.devices[d].account in backup.accounts
      ==> KnowsUpToCursor(TombstonesOnly, backup.accounts[backup.devices[d].account], clients[d])
  }

  lemma HeardOfIsReceived(cfg: Config, w: World, backup: Db, readable: bool)
    requires DbOk(cfg.limits, w.db) && DbOk(cfg.limits, backup)
    ensures AllReceived(Next(cfg, w, Restored(backup, readable))) <==> HeardOf(backup, w.clients)
  {
    var restored := Next(cfg, w, Restored(backup, readable));
    assert forall d :: d in backup.devices ==> backup.devices[d].account in backup.accounts;
    if HeardOf(backup, w.clients) {
      forall d {:trigger Reads(TombstonesOnly, restored, d)} | Reads(TombstonesOnly, restored, d)
        ensures KnowsUpToCursor(TombstonesOnly, AccountOf(restored, d), restored.clients[d])
      {
        assert KnowsUpToCursor(TombstonesOnly, backup.accounts[backup.devices[d].account], w.clients[d]);
      }
    }
    if AllReceived(restored) {
      forall d | d in w.clients && d in backup.devices && backup.devices[d].revokedMs.None?
        ensures KnowsUpToCursor(TombstonesOnly, backup.accounts[backup.devices[d].account], w.clients[d])
      {
        assert Reads(TombstonesOnly, restored, d);
        assert KnowsUpToCursor(TombstonesOnly, AccountOf(restored, d), restored.clients[d]);
      }
    }
  }

  /**
    Exactly when a restore leaves tombstones safe: when each reader the backup
    lets in has received each tombstone in the backup that it can see and has
    read past.
   */
  lemma RestoreIsSafeExactlyWhen(cfg: Config, w: World, backup: Db, readable: bool)
    requires DbOk(cfg.limits, w.db) && DbOk(cfg.limits, backup)
    requires NobodyAhead(Next(cfg, w, Restored(backup, readable)))
    ensures TombstonesAreSafe(cfg, Next(cfg, w, Restored(backup, readable))) <==> HeardOf(backup, w.clients)
  {
    TombstonesAreSafeExactlyWhen(cfg, Next(cfg, w, Restored(backup, readable)));
    HeardOfIsReceived(cfg, w, backup, readable);
  }

  /** No reader the backup lets in holds undeleted a record whose tombstone, in the backup, it has read past. */
  ghost predicate NoneUnawareOf(backup: Db, clients: map<DeviceId, Client>) {
    forall d, id :: d in clients && d in backup.devices && backup.devices[d].revokedMs.None?
      && backup.devices[d].account in backup.accounts && id in backup.accounts[backup.devices[d].account].records
      && Owed(TombstonesOnly, clients[d], backup.accounts[backup.devices[d].account].records[id])
      ==> (id in clients[d].inbox ==> clients[d].inbox[id].deleted)
  }

  lemma UnawareOfIsUnaware(cfg: Config, w: World, backup: Db, readable: bool)
    requires DbOk(cfg.limits, w.db) && DbOk(cfg.limits, backup)
    ensures NoneUnaware(Next(cfg, w, Restored(backup, readable))) <==> NoneUnawareOf(backup, w.clients)
  {
    var restored := Next(cfg, w, Restored(backup, readable));
    if NoneUnaware(restored) {
      forall d, id | d in w.clients && d in backup.devices && backup.devices[d].revokedMs.None?
        && id in backup.accounts[backup.devices[d].account].records
        && Owed(TombstonesOnly, w.clients[d], backup.accounts[backup.devices[d].account].records[id])
        ensures id in w.clients[d].inbox ==> w.clients[d].inbox[id].deleted
      {
        assert !HoldsUndeleted(restored, backup.devices[d].account, d, id);
      }
    }
  }

  /**
    Exactly when a restore loses no deletion: when no reader the backup lets in
    holds undeleted a record that is deleted in the backup, by a tombstone the
    reader has read past.
   */
  lemma RestoreLosesNoDeletionExactlyWhen(cfg: Config, w: World, backup: Db, readable: bool)
    requires DbOk(cfg.limits, w.db) && DbOk(cfg.limits, backup)
    requires NobodyAhead(Next(cfg, w, Restored(backup, readable)))
    ensures NoDeletionIsLost(cfg, Next(cfg, w, Restored(backup, readable))) <==> NoneUnawareOf(backup, w.clients)
  {
    NoDeletionIsLostExactlyWhen(cfg, Next(cfg, w, Restored(backup, readable)));
    UnawareOfIsUnaware(cfg, w, backup, readable);
  }

  /** Devices stay, with their accounts; readers stay, are those there were, and read on. */
  ghost predicate Onward(w: World, after: World) {
    && (forall d :: d in w.clients ==> d in after.clients && after.clients[d].manifests == w.clients[d].manifests)
    && forall d :: d in w.db.devices ==>
         && d in after.db.devices && after.db.devices[d].account == w.db.devices[d].account
         && (d in after.clients ==> d in w.clients && w.clients[d].cursor <= after.clients[d].cursor)
  }

  lemma PullIsOnward(cfg: Config, w: World, device: DeviceId, limit: Option<nat>, now: nat)
    requires DbOk(cfg.limits, w.db)
    ensures Onward(w, OnPull(cfg, w, device, limit, now))
  {
    if SignedIn(w.db, device) && device in w.clients {
      var a, c := AccountOf(w, device), w.clients[device];
      PullStep(cfg, w, device, limit, now);
      PageCursor(cfg.limits, a.vault, a.records, c.cursor, Asked(cfg.limits, limit), c.manifests);
    }
  }

  lemma StepIsOnward(cfg: Config, w: World, op: Op)
    requires DbOk(cfg.limits, w.db)
    ensures Onward(w, Apply(cfg, w, op))
  {
    match op
    case Create(account, vault) =>
    case Join(account, device, as_) =>
    case Push(device, envelopes, clock) => PushStep(cfg, w, device, envelopes, clock);
    case Pull(device, limit, now) => PullIsOnward(cfg, w, device, limit, now);
    case PullFrom(device, since, limit, manifests, now) =>
      if SignedIn(w.db, device) && device !in w.clients {
        var _ := PullFromStep(cfg, w, device, since, limit, manifests, now);
      }
    case ShutOut(asker, device, now) => ShutOutStep(cfg, w, asker, device, now);
    case Purge(account, now) =>
  }

  lemma OnwardGoesOn(w: World, next: World, after: World)
    requires Onward(w, next) && Onward(next, after)
    ensures Onward(w, after)
  {
  }

  lemma {:induction false} RunIsOnward(cfg: Config, w: World, ops: seq<Op>)
    requires DbOk(cfg.limits, w.db)
    ensures Onward(w, Run(cfg, w, ops))
    decreases |ops|
  {
    if ops != [] {
      var next := Apply(cfg, w, ops[0]);
      StepIsOnward(cfg, w, ops[0]);
      RunIsOnward(cfg, next, ops[1..]);
      OnwardGoesOn(w, next, Run(cfg, next, ops[1..]));
    }
  }

  /** Numbers are carried past every reader of a server that is put back to what it was. */
  lemma NobodyIsAheadOfAnEarlierState(cfg: Config, before: seq<Op>, since: seq<Op>)
    ensures
      var early := Run(cfg, EMPTY, before);
      NobodyAhead(Next(cfg, Run(cfg, early, since), Restored(early.db, true)))
  {
    var early := Run(cfg, EMPTY, before);
    var w := Run(cfg, early, since);
    var restored := Next(cfg, w, Restored(early.db, true));
    EmptyIsInStep(Everything);
    RunKeepsInStep(Everything, cfg, EMPTY, before);
    RunKeepsInStep(Everything, cfg, early, since);
    RunIsOnward(cfg, early, since);
    RunIsLater(cfg, early, since);
    forall d {:trigger Reads(TombstonesOnly, restored, d)} | Reads(TombstonesOnly, restored, d)
      ensures NotAhead(TombstonesOnly, AccountOf(restored, d), restored.db.devices[d], restored.clients[d])
    {
      assert d in early.db.devices && early.db.devices[d].account in w.db.accounts;
      assert Reads(Everything, early, d) && Reads(Everything, w, d);
    }
  }

  /**
    Whatever was asked of a server before a backup was taken and since: putting
    it back is safe for tombstones just when each reader the backup lets in has
    received each tombstone in it that it can see and has by now read past.
   */
  lemma PuttingBackIsSafeExactlyWhen(cfg: Config, before: seq<Op>, since: seq<Op>)
    ensures
      var early := Run(cfg, EMPTY, before);
      var w := Run(cfg, early, since);
      TombstonesAreSafe(cfg, Next(cfg, w, Restored(early.db, true))) <==> HeardOf(early.db, w.clients)
  {
    var early := Run(cfg, EMPTY, before);
    NobodyIsAheadOfAnEarlierState(cfg, before, since);
    RestoreIsSafeExactlyWhen(cfg, Run(cfg, early, since), early.db, true);
  }

  /**
    And it loses no deletion just when none of them holds undeleted a record
    that is deleted in the backup, by a tombstone it has by now read past.
   */
  lemma PuttingBackLosesNoDeletionExactlyWhen(cfg: Config, before: seq<Op>, since: seq<Op>)
    ensures
      var early := Run(cfg, EMPTY, before);
      var w := Run(cfg, early, since);
      NoDeletionIsLost(cfg, Next(cfg, w, Restored(early.db, true))) <==> NoneUnawareOf(early.db, w.clients)
  {
    var early := Run(cfg, EMPTY, before);
    NobodyIsAheadOfAnEarlierState(cfg, before, since);
    RestoreLosesNoDeletionExactlyWhen(cfg, Run(cfg, early, since), early.db, true);
  }

  // ---- What readers hold after a restore ----

  /**
    In every run with restores that keep the account, and from the last of them
    on: an honest reader has every record it can see that is numbered past what
    that restore carried the account to, and up to its cursor, as it is held.
   */
  lemma WhatIsWrittenAfterARestoreIsRead(
    cfg: Config, w: World, events: seq<Event>, backup: Db, ops: seq<Op>,
    account: AccountId, reader: DeviceId, id: RecordId)
    requires DbOk(cfg.limits, w.db) && DbOk(cfg.limits, backup) && Behind(w, account, reader)
    requires KeepsThroughout(cfg, w, events, account)
    requires Keeps(RunEvents(cfg, w, events), Restored(backup, true), account)
    requires forall i :: 0 <= i < |events| ==> KnowsReader(events[i], account, reader)
    requires account in backup.accounts && reader in backup.devices && backup.devices[reader].account == account
    requires
      var restored := Next(cfg, RunEvents(cfg, w, events), Restored(backup, true));
      account in Run(cfg, restored, ops).db.accounts && id in Run(cfg, restored, ops).db.accounts[account].records
    ensures
      var restored := Next(cfg, RunEvents(cfg, w, events), Restored(backup, true));
      var after := Run(cfg, restored, ops);
      var a := after.db.accounts[account];
      && reader in after.clients
      && (restored.db.accounts[account].seqNo < a.records[id].seqNo <= after.clients[reader].cursor
          && CanSee(after.clients[reader], a.records[id])
          ==> Has(a.vault, after.clients[reader], id, a.records[id]))
  {
    var replaced := RunEvents(cfg, w, events);
    WritesLiePastReaders(cfg, w, events, account, reader);
    NextKeepsBehind(cfg, replaced, Restored(backup, true), account, reader);
    var restored := Next(cfg, replaced, Restored(backup, true));
    HasWhatIsPast(cfg, restored, ops, account, reader, id);
  }

  lemma HasWhatIsPast(cfg: Config, w: World, ops: seq<Op>, account: AccountId, reader: DeviceId, id: RecordId)
    requires DbOk(cfg.limits, w.db) && Behind(w, account, reader)
    requires account in w.db.accounts && reader in w.db.devices
    requires account in Run(cfg, w, ops).db.accounts && id in Run(cfg, w, ops).db.accounts[account].records
    ensures
      var after := Run(cfg, w, ops);
      var a := after.db.accounts[account];
      && reader in after.clients
      && (w.db.accounts[account].seqNo < a.records[id].seqNo <= after.clients[reader].cursor
          && CanSee(after.clients[reader], a.records[id])
          ==> Has(a.vault, after.clients[reader], id, a.records[id]))
  {
    var x, after := NumberedPast(reader, w.db.accounts[account].seqNo), Run(cfg, w, ops);
    assert AllInStep(x, w);
    RunKeepsInStep(x, cfg, w, ops);
    RunIsOnward(cfg, w, ops);
    assert Reads(x, after, reader);
    var a, c := after.db.accounts[account], after.clients[reader];
    assert Owed(x, c, a.records[id]) ==> Knows(x, a.vault, c, id, a.records[id]);
  }

  // ---- It happens ----

  const NO_TIME := Hlc(0, 0, 0)

  /** What the second device seals of record 7: `deleted` or not, on this base. */
  function Sealed(deleted: bool, baseSeq: nat): Envelope {
    Envelope(7, 0, Host, NO_TIME, baseSeq, deleted, seq(NONCE_BYTES, _ => 0), [1], None)
  }

  /** Two devices join an account; the second writes a record and deletes it. */
  const BEFORE: seq<Op> := [
    Create(1, 0), Join(1, 1, Some(true)), Join(1, 2, Some(true)),
    Push(2, [Sealed(false, 0)], [0]), Push(2, [Sealed(true, 1)], [0])]

  /** Then it writes the record anew, and the first device reads that. */
  const SINCE: seq<Op> := [Push(2, [Sealed(false, 2)], [0]), Pull(1, None, 0)]

  /** The account as it is when record 7 was written for the `n`th time, nothing being read yet. */
  function Scene(n: nat, deleted: bool): World {
    World(
      Db(map[1 := AccountRow(0, n, 1, 1, map[7 := NewRow(Sealed(deleted, 0), n, 2, 0)])],
         map[1 := DeviceRow(1, 0, None, None), 2 := DeviceRow(1, 0, None, None)]),
      map[1 := Client(0, true, map[]), 2 := Client(0, true, map[])])
  }

  function Start(): World {
    World(
      Db(map[1 := AccountRow(0, 0, 0, 0, map[])],
         map[1 := DeviceRow(1, 0, None, None), 2 := DeviceRow(1, 0, None, None)]),
      map[1 := Client(0, true, map[]), 2 := Client(0, true, map[])])
  }

  /** Room for one record of one byte. */
  predicate Roomy(quota: Quota) {
    quota.records >= 1 && quota.bytes >= 1 && quota.serverBytes >= 1
  }

  lemma SceneIsOk(limits: Limits, n: nat, deleted: bool)
    requires n >= 1
    ensures DbOk(limits, Scene(n, deleted).db) && ServerBytes(Scene(n, deleted).db.accounts) == 1
  {
    var a := Scene(n, deleted).db.accounts[1];
    BlobBytesUpdated(map[], 7, a.records[7]);
    assert Sizes(map[]) == map[];
    assert map[][7 := a.records[7]] == a.records;
    ServerBytesUpdated(map[], 1, a);
    assert Shares(map[]) == map[];
    assert map[][1 := a] == Scene(n, deleted).db.accounts;
  }

  lemma StartIsOk(limits: Limits)
    ensures DbOk(limits, Start().db) && ServerBytes(Start().db.accounts) == 0
  {
    var a := Start().db.accounts[1];
    assert Sizes(map[]) == map[];
    ServerBytesUpdated(map[], 1, a);
    assert Shares(map[]) == map[];
    assert map[][1 := a] == Start().db.accounts;
  }

  /** A push of one envelope that passes the check and fits. */
  lemma OnePush(cfg: Config, w: World, e: Envelope)
    requires DbOk(cfg.limits, w.db) && SignedIn(w.db, 2) && w.db.devices[2].account == 1
    requires Check(cfg.limits, w.db.accounts[1].vault, e).None?
    requires
      var before, after := w.db.accounts[1], Offer(w.db.accounts[1], e, 2, 0).0;
      QuotaRefusal(cfg.quota, before, after, ServerBytes(w.db.accounts)).None?
    ensures OnPush(cfg, w, 2, [e], [0]) == SetAccount(w, 1, Offer(w.db.accounts[1], e, 2, 0).0)
  {
    assert [e][..0] == [];
    assert OfferAll(w.db.accounts[1], [e][..0], 2, [0]).account == w.db.accounts[1];
    assert OfferAll(w.db.accounts[1], [e], 2, [0]).account == Offer(w.db.accounts[1], e, 2, 0).0;
    CheckedOneByOne(cfg.limits, w.db.accounts[1].vault, [e]);
  }

  lemma PassesTheCheck(limits: Limits, deleted: bool, baseSeq: nat)
    ensures Check(limits, 0, Sealed(deleted, baseSeq)).None?
  {
  }

  lemma FirstWrite(cfg: Config)
    requires Roomy(cfg.quota)
    ensures DbOk(cfg.limits, Start().db)
    ensures OnPush(cfg, Start(), 2, [Sealed(false, 0)], [0]) == Scene(1, false)
  {
    StartIsOk(cfg.limits);
    PassesTheCheck(cfg.limits, false, 0);
    OnePush(cfg, Start(), Sealed(false, 0));
    assert Start().db.accounts[1].records[7 := NewRow(Sealed(false, 0), 1, 2, 0)]
        == Scene(1, false).db.accounts[1].records;
  }

  lemma NextWrite(cfg: Config, n: nat, was: bool, deleted: bool)
    requires Roomy(cfg.quota) && n >= 1
    ensures DbOk(cfg.limits, Scene(n, was).db)
    ensures OnPush(cfg, Scene(n, was), 2, [Sealed(deleted, n)], [0]) == Scene(n + 1, deleted)
  {
    SceneIsOk(cfg.limits, n, was);
    PassesTheCheck(cfg.limits, deleted, n);
    OnePush(cfg, Scene(n, was), Sealed(deleted, n));
    var before, after := Scene(n, was), Scene(n + 1, deleted);
    var row := NewRow(Sealed(deleted, n), n + 1, 2, 0);
    assert before.db.accounts[1].records[7 := row] == after.db.accounts[1].records;
    assert Offer(before.db.accounts[1], Sealed(deleted, n), 2, 0).0 == after.db.accounts[1];
    assert before.db.accounts[1 := after.db.accounts[1]] == after.db.accounts;
  }

  lemma Beginning(cfg: Config)
    ensures Run(cfg, EMPTY, BEFORE[..3]) == Start()
  {
    var one := OnCreate(cfg, EMPTY, 1, 0);
    var two := OnJoin(cfg, one, 1, 1, Some(true));
    var three := OnJoin(cfg, two, 1, 2, Some(true));
    assert three == Start();
    assert BEFORE[..3] == [BEFORE[0]] + ([BEFORE[1]] + [BEFORE[2]]);
    RunOfOne(cfg, EMPTY, BEFORE[0]);
    RunOfOne(cfg, one, BEFORE[1]);
    RunOfOne(cfg, two, BEFORE[2]);
    RunOfBoth(cfg, one, [BEFORE[1]], [BEFORE[2]]);
    RunOfBoth(cfg, EMPTY, [BEFORE[0]], [BEFORE[1]] + [BEFORE[2]]);
  }

  lemma AtTheBackup(cfg: Config)
    requires Roomy(cfg.quota)
    ensures Run(cfg, EMPTY, BEFORE) == Scene(2, true)
  {
    Beginning(cfg);
    FirstWrite(cfg);
    NextWrite(cfg, 1, false, true);
    RunOfOne(cfg, Start(), BEFORE[3]);
    RunOfOne(cfg, Scene(1, false), BEFORE[4]);
    RunOfBoth(cfg, Start(), [BEFORE[3]], [BEFORE[4]]);
    RunOfBoth(cfg, EMPTY, BEFORE[..3], [BEFORE[3]] + [BEFORE[4]]);
    assert BEFORE == BEFORE[..3] + ([BEFORE[3]] + [BEFORE[4]]);
  }

  /** The one record there is comes on the first page. */
  lemma OnlyRecordPage(limits: Limits, a: AccountRow, asked: nat, id: RecordId)
    requires AccountOk(limits, a) && a.records.Keys == {id}
    ensures
      var page := Page(limits, a.vault, a.records, 0, asked, true);
      && page.cursor == a.records[id].seqNo
      && Entry(Receive(map[], page.envelopes), id) == Some(ToEnvelope(a.vault, id, a.records[id]))
  {
    var page := Page(limits, a.vault, a.records, 0, asked, true);
    PageCursor(limits, a.vault, a.records, 0, asked, true);
    PageShape(limits, a, 0, asked, true);
    assert Waiting(a.records, true, 0, id);
    PageDelivers(limits, a.vault, a.records, 0, asked, true, page.envelopes[0]);
    PageDelivers(limits, a.vault, a.records, 0, asked, true, ToEnvelope(a.vault, id, a.records[id]));
    ReceiveKeepsLast(map[], page.envelopes, id);
    var after := Receive(map[], page.envelopes);
    PageDelivers(limits, a.vault, a.records, 0, asked, true, after[id]);
  }

  /** The first device has read the record written for the `n`th time. */
  ghost predicate HasRead(w: World, n: nat, deleted: bool) {
    && w.db.accounts == Scene(n, deleted).db.accounts
    && 1 in w.clients && w.clients[1].cursor == n && w.clients[1].manifests
    && Entry(w.clients[1].inbox, 7) == Some(ToEnvelope(0, 7, Scene(n, deleted).db.accounts[1].records[7]))
  }

  lemma FirstPage(cfg: Config, n: nat, deleted: bool)
    requires n >= 1
    ensures DbOk(cfg.limits, Scene(n, deleted).db)
    ensures HasRead(OnPull(cfg, Scene(n, deleted), 1, None, 0), n, deleted)
  {
    var w := Scene(n, deleted);
    SceneIsOk(cfg.limits, n, deleted);
    assert AccountOk(cfg.limits, w.db.accounts[1]);
    PullStep(cfg, w, 1, None, 0);
    OnlyRecordPage(cfg.limits, w.db.accounts[1], Asked(cfg.limits, None), 7);
  }

  lemma RunOfTwo(cfg: Config, w: World, first: Op, second: Op)
    requires DbOk(cfg.limits, w.db)
    ensures Run(cfg, w, [first, second]) == Apply(cfg, Apply(cfg, w, first), second)
  {
    RunOfOne(cfg, w, first);
    RunOfOne(cfg, Apply(cfg, w, first), second);
    RunOfBoth(cfg, w, [first], [second]);
    assert [first, second] == [first] + [second];
  }

  lemma AtTheRestore(cfg: Config)
    requires Roomy(cfg.quota)
    ensures DbOk(cfg.limits, Scene(2, true).db)
    ensures HasRead(Run(cfg, Scene(2, true), SINCE), 3, false)
  {
    NextWrite(cfg, 2, true, false);
    FirstPage(cfg, 3, false);
    RunOfTwo(cfg, Scene(2, true), Push(2, [Sealed(false, 2)], [0]), Pull(1, None, 0));
  }

  lemma ThenItLacks(cfg: Config, w: World)
    requires DbOk(cfg.limits, w.db) && HasRead(w, 3, false)
    ensures DbOk(cfg.limits, Scene(2, true).db)
    ensures Lacks(Next(cfg, w, Restored(Scene(2, true).db, true)), 1, 1, 7,
      Some(ToEnvelope(0, 7, Scene(3, false).db.accounts[1].records[7])))
  {
    SceneIsOk(cfg.limits, 2, true);
  }

  /**
    A backup is taken after a record was deleted; the record is written anew and
    read; the backup is put back. From there the server can come to forget that
    the record was deleted in it, while a device still has it, undeleted.
   */
  lemma RestoreCanCostATombstone(cfg: Config) returns (ops: seq<Op>, now: nat)
    requires Roomy(cfg.quota)
    ensures
      var early := Run(cfg, EMPTY, BEFORE);
      var restored := Next(cfg, Run(cfg, early, SINCE), Restored(early.db, true));
      var after := Run(cfg, restored, ops);
      && PurgeTakes(cfg, restored, ops, 1, now, 7)
      && HoldsUndeleted(after, 1, 1, 7)
      && !NoDeletionIsLost(cfg, restored)
  {
    AtTheBackup(cfg);
    AtTheRestore(cfg);
    ops, now := LostAfter(cfg, Run(cfg, Scene(2, true), SINCE));
  }

  lemma LostAfter(cfg: Config, w: World) returns (ops: seq<Op>, now: nat)
    requires DbOk(cfg.limits, w.db) && HasRead(w, 3, false)
    ensures
      var restored := Next(cfg, w, Restored(Scene(2, true).db, true));
      var after := Run(cfg, restored, ops);
      && PurgeTakes(cfg, restored, ops, 1, now, 7)
      && HoldsUndeleted(after, 1, 1, 7)
      && !NoDeletionIsLost(cfg, restored)
  {
    ThenItLacks(cfg, w);
    var had := ToEnvelope(0, 7, Scene(3, false).db.accounts[1].records[7]);
    var restored := Next(cfg, w, Restored(Scene(2, true).db, true));
    ops, now := LackingIsLost(cfg, restored, 1, 1, 7, Some(had));
    assert PurgeTakes(cfg, restored, ops, 1, now, 7) && HoldsUndeleted(Run(cfg, restored, ops), 1, 1, 7);
  }
}
