/**
  When a tombstone may go: never before every device that still reads has heard
  of it - in every run, and from which states on.
 */
module Tombstones {
  import opened Basics
  import opened Wrappers
  import opened Mailbox
  import opened Paging
  import opened Housekeeping
  import opened Runs
  import opened Replicas

  // ---- What safety is ----

  /** At the end of this run, the purge takes this record. */
  ghost predicate PurgeTakes(cfg: Config, w: World, ops: seq<Op>, account: AccountId, now: nat, id: RecordId)
    requires DbOk(cfg.limits, w.db)
  {
    var after := Run(cfg, w, ops);
    && account in after.db.accounts && id in after.db.accounts[account].records
    && id !in OnPurge(cfg, after, account, now).db.accounts[account].records
  }

  /**
    What goes is a tombstone; somebody still reads, and nobody who does has read
    nothing; and each honest device that does, and can see it, knows of it: has
    it as the last word on its record, or at least has nothing undeleted.
   */
  ghost predicate GoesOnlyOnceKnown(x: Extent, w: World, account: AccountId, id: RecordId)
    requires account in w.db.accounts && id in w.db.accounts[account].records
  {
    var row := w.db.accounts[account].records[id];
    && row.deleted
    && Live(w.db, account) != {}
    && (forall d :: d in Live(w.db, account) ==> w.db.devices[d].cursor > 0)
    && (forall d :: d in w.clients && d in Live(w.db, account) && CanSee(w.clients[d], row) ==>
          Knows(x, w.db.accounts[account].vault, w.clients[d], id, row))
  }

  ghost predicate GoesOnlyOnceReceived(w: World, account: AccountId, id: RecordId)
    requires account in w.db.accounts && id in w.db.accounts[account].records
  {
    GoesOnlyOnceKnown(TombstonesOnly, w, account, id)
  }

  /** Whatever is asked of the server from here on, tombstones go only once received. */
  ghost predicate TombstonesAreSafe(cfg: Config, w: World)
    requires DbOk(cfg.limits, w.db)
  {
    forall ops, account, now, id {:trigger PurgeTakes(cfg, w, ops, account, now, id)} ::
      PurgeTakes(cfg, w, ops, account, now, id) ==> GoesOnlyOnceReceived(Run(cfg, w, ops), account, id)
  }

  /** The server thinks of no reader that is let in that it has read further than it has. */
  ghost predicate NobodyAhead(w: World) {
    forall d {:trigger Reads(TombstonesOnly, w, d)} :: Reads(TombstonesOnly, w, d) ==>
      NotAhead(TombstonesOnly, AccountOf(w, d), w.db.devices[d], w.clients[d])
  }

  /** Each reader that is let in has each tombstone it can see, numbered up to where it has read. */
  ghost predicate AllReceived(w: World) {
    forall d {:trigger Reads(TombstonesOnly, w, d)} :: Reads(TombstonesOnly, w, d) ==>
      KnowsUpToCursor(TombstonesOnly, AccountOf(w, d), w.clients[d])
  }

  // ---- Where all was received, tombstones are safe ----

  lemma GoesFromAnyWorldInStep(
    x: Extent, cfg: Config, w: World, ops: seq<Op>, account: AccountId, now: nat, id: RecordId)
    requires x.TombstonesOnly? || x.DeletionsOnly?
    requires DbOk(cfg.limits, w.db) && AllInStep(x, w)
    requires PurgeTakes(cfg, w, ops, account, now, id)
    ensures GoesOnlyOnceKnown(x, Run(cfg, w, ops), account, id)
  {
    var after := Run(cfg, w, ops);
    PurgeWaitsForEveryDevice(cfg.limits, after.db, account, now, id);
    assert AccountOk(cfg.limits, after.db.accounts[account]);
    RunKeepsInStep(x, cfg, w, ops);
    forall d | d in after.clients && d in Live(after.db, account)
      ensures InStep(x, after.db.accounts[account], after.db.devices[d], after.clients[d])
    {
      assert Reads(x, after, d);
    }
  }

  /** Tombstone safety: in every run from the beginning on. */
  lemma TombstonesGoOnlyOnceReceived(cfg: Config, ops: seq<Op>)
    ensures TombstonesAreSafe(cfg, Run(cfg, EMPTY, ops)) && NoDeletionIsLost(cfg, Run(cfg, EMPTY, ops))
    ensures NobodyAhead(Run(cfg, EMPTY, ops)) && AllReceived(Run(cfg, EMPTY, ops))
  {
    var w := Run(cfg, EMPTY, ops);
    EmptyIsInStep(TombstonesOnly);
    RunKeepsInStep(TombstonesOnly, cfg, EMPTY, ops);
    SafeInStep(cfg, w);
    ReceivedIsNotLost(cfg, w);
  }

  lemma SafeInStep(cfg: Config, w: World)
    requires DbOk(cfg.limits, w.db) && AllInStep(TombstonesOnly, w)
    ensures TombstonesAreSafe(cfg, w)
  {
    forall ops, account, now, id {:trigger PurgeTakes(cfg, w, ops, account, now, id)}
      | PurgeTakes(cfg, w, ops, account, now, id)
      ensures GoesOnlyOnceReceived(Run(cfg, w, ops), account, id)
    {
      GoesFromAnyWorldInStep(TombstonesOnly, cfg, w, ops, account, now, id);
    }
  }

  // ---- Where one was not received, it is lost ----

  /** A reader that is let in has not received a tombstone it has read past; `had` is what it has instead. */
  ghost predicate Lacks(w: World, account: AccountId, d: DeviceId, id: RecordId, had: Option<Envelope>) {
    && account in w.db.accounts && id in w.db.accounts[account].records
    && d in w.clients && d in Live(w.db, account)
    && Owed(TombstonesOnly, w.clients[d], w.db.accounts[account].records[id])
    && Entry(w.clients[d].inbox, id) == had
    && had != Some(ToEnvelope(w.db.accounts[account].vault, id, w.db.accounts[account].records[id]))
  }

  /** Only cursors have moved, and none back. */
  ghost predicate OnlyRead(w: World, after: World) {
    && after.db.accounts == w.db.accounts
    && after.db.devices.Keys == w.db.devices.Keys
    && (forall d :: d in w.db.devices ==>
          && after.db.devices[d].account == w.db.devices[d].account
          && after.db.devices[d].revokedMs == w.db.devices[d].revokedMs
          && after.db.devices[d].cursor >= w.db.devices[d].cursor)
    && after.clients.Keys == w.clients.Keys
  }

  lemma OnlyReadOn(w: World, next: World, after: World)
    requires OnlyRead(w, next) && OnlyRead(next, after)
    ensures OnlyRead(w, after)
  {
  }

  lemma OnlyReadKeepsLive(w: World, after: World, account: AccountId)
    requires OnlyRead(w, after)
    ensures Live(after.db, account) == Live(w.db, account)
  {
  }

  /** Whoever pulls: cursors move, and what is lacking stays lacking. */
  lemma PullLeavesLacking(
    cfg: Config, w: World, device: DeviceId, account: AccountId, d: DeviceId, id: RecordId, had: Option<Envelope>)
    requires DbOk(cfg.limits, w.db) && SignedIn(w.db, device) && device in w.clients
    requires Lacks(w, account, d, id, had)
    ensures
      var after := OnPull(cfg, w, device, None, 0);
      && OnlyRead(w, after) && Lacks(after, account, d, id, had)
  {
    PullStep(cfg, w, device, None, 0);
    var a, c, asked := AccountOf(w, device), w.clients[device], Asked(cfg.limits, None);
    PageCursor(cfg.limits, a.vault, a.records, c.cursor, asked, c.manifests);
    var after := PageTaken(cfg.limits, w, device, asked, 0);
    assert OnlyRead(w, after);
    OnlyReadKeepsLive(w, after, account);
    if device == d {
      PageSkipsRead(cfg.limits, a, c, asked, id);
    }
  }

  lemma OtherPullLeavesLacking(
    cfg: Config, w: World, device: DeviceId, since: nat,
    account: AccountId, d: DeviceId, id: RecordId, had: Option<Envelope>)
    requires DbOk(cfg.limits, w.db) && SignedIn(w.db, device) && device !in w.clients
    requires Lacks(w, account, d, id, had)
    ensures
      var after := OnPullFrom(cfg, w, device, since, None, true, 0);
      && OnlyRead(w, after) && Lacks(after, account, d, id, had)
      && after.db.devices[device].cursor >= Min(since, AccountOf(w, device).seqNo)
  {
    var cursor := PullFromStep(cfg, w, device, since, None, true, 0);
    OnlyReadKeepsLive(w, w.(db := Seen(w.db, device, cursor, 0)), account);
  }

  /** A reader that asks on gets past any record. */
  lemma {:induction false} ReaderCatchesUp(
    cfg: Config, w: World, device: DeviceId, account: AccountId, d: DeviceId, id: RecordId, had: Option<Envelope>)
    returns (ops: seq<Op>)
    requires DbOk(cfg.limits, w.db) && device in w.clients && device in Live(w.db, account)
    requires Lacks(w, account, d, id, had) && AccountOk(cfg.limits, w.db.accounts[account])
    ensures
      var after := Run(cfg, w, ops);
      && OnlyRead(w, after) && Lacks(after, account, d, id, had)
      && after.db.devices[device].cursor >= w.db.accounts[account].records[id].seqNo
    decreases
      |Visible(w.clients[device].manifests,
        Rows(w.db.accounts[account].vault, w.db.accounts[account].records, w.clients[device].cursor))|
  {
    var a, c, asked := w.db.accounts[account], w.clients[device], Asked(cfg.limits, None);
    var page := Page(cfg.limits, a.vault, a.records, c.cursor, asked, c.manifests);
    var next := OnPull(cfg, w, device, None, 0);
    PullStep(cfg, w, device, None, 0);
    PullLeavesLacking(cfg, w, device, account, d, id, had);
    RunOfOne(cfg, w, Pull(device, None, 0));
    ops := [Pull(device, None, 0)];
    if page.cursor < a.records[id].seqNo {
      if !page.hasMore {
        NoMoreReadsAll(cfg.limits, a.vault, a.records, c.cursor, asked, c.manifests, id);
      }
      FewerWait(cfg.limits, a.vault, a.records, c.cursor, asked, c.manifests);
      OnlyReadKeepsLive(w, next, account);
      var rest := ReaderCatchesUp(cfg, next, device, account, d, id, had);
      RunOfBoth(cfg, w, ops, rest);
      OnlyReadOn(w, next, Run(cfg, next, rest));
      ops := ops + rest;
    }
  }

  lemma DeviceCatchesUp(
    cfg: Config, w: World, device: DeviceId, account: AccountId, d: DeviceId, id: RecordId, had: Option<Envelope>)
    returns (ops: seq<Op>)
    requires DbOk(cfg.limits, w.db) && device in Live(w.db, account)
    requires Lacks(w, account, d, id, had)
    ensures
      var after := Run(cfg, w, ops);
      && OnlyRead(w, after) && Lacks(after, account, d, id, had)
      && after.db.devices[device].cursor >= w.db.accounts[account].records[id].seqNo
  {
    assert AccountOk(cfg.limits, w.db.accounts[account]);
    if device in w.clients {
      ops := ReaderCatchesUp(cfg, w, device, account, d, id, had);
    } else {
      var since := w.db.accounts[account].records[id].seqNo;
      OtherPullLeavesLacking(cfg, w, device, since, account, d, id, had);
      RunOfOne(cfg, w, PullFrom(device, since, None, true, 0));
      ops := [PullFrom(device, since, None, true, 0)];
    }
  }

  lemma {:induction false} EveryoneCatchesUp(
    cfg: Config, w: World, left: set<DeviceId>, account: AccountId, d: DeviceId, id: RecordId, had: Option<Envelope>)
    returns (ops: seq<Op>)
    requires DbOk(cfg.limits, w.db) && left <= Live(w.db, account)
    requires Lacks(w, account, d, id, had)
    ensures
      var after := Run(cfg, w, ops);
      && OnlyRead(w, after) && Lacks(after, account, d, id, had)
      && forall e :: e in left ==> after.db.devices[e].cursor >= w.db.accounts[account].records[id].seqNo
    decreases |left|
  {
    if left == {} {
      ops := [];
    } else {
      var device :| device in left;
      var first := DeviceCatchesUp(cfg, w, device, account, d, id, had);
      var next := Run(cfg, w, first);
      OnlyReadKeepsLive(w, next, account);
      var rest := EveryoneCatchesUp(cfg, next, left - {device}, account, d, id, had);
      RunOfBoth(cfg, w, first, rest);
      OnlyReadOn(w, next, Run(cfg, next, rest));
      ops := first + rest;
    }
  }

  /**
    A tombstone one reader has read past but not received is lost: once every
    device has caught up it goes, and that reader still has what it had.
   */
  lemma LackingIsLost(cfg: Config, w: World, account: AccountId, d: DeviceId, id: RecordId, had: Option<Envelope>)
    returns (ops: seq<Op>, now: nat)
    requires DbOk(cfg.limits, w.db) && Lacks(w, account, d, id, had)
    ensures PurgeTakes(cfg, w, ops, account, now, id)
    ensures Lacks(Run(cfg, w, ops), account, d, id, had)
    ensures !GoesOnlyOnceReceived(Run(cfg, w, ops), account, id)
  {
    ops := EveryoneCatchesUp(cfg, w, Live(w.db, account), account, d, id, had);
    var after := Run(cfg, w, ops);
    OnlyReadKeepsLive(w, after, account);
    now := w.db.accounts[account].records[id].updatedMs + NINETY_DAYS_MS + 1;
    PurgeWaitsForEveryDevice(cfg.limits, after.db, account, now, id);
  }

  lemma NotHavingIsLacking(w: World, d: DeviceId, id: RecordId)
    requires Reads(TombstonesOnly, w, d) && id in AccountOf(w, d).records
    requires Owed(TombstonesOnly, w.clients[d], AccountOf(w, d).records[id])
    requires !Has(AccountOf(w, d).vault, w.clients[d], id, AccountOf(w, d).records[id])
    ensures Lacks(w, w.db.devices[d].account, d, id, Entry(w.clients[d].inbox, id))
  {
  }

  /**
    Exactly when tombstones are safe from a state on: when each honest device
    that is let in has received each tombstone it can see and has read past.
   */
  lemma TombstonesAreSafeExactlyWhen(cfg: Config, w: World)
    requires DbOk(cfg.limits, w.db) && NobodyAhead(w)
    ensures TombstonesAreSafe(cfg, w) <==> AllReceived(w)
  {
    if AllReceived(w) {
      SafeInStep(cfg, w);
    } else {
      var d :| Reads(TombstonesOnly, w, d) && !KnowsUpToCursor(TombstonesOnly, AccountOf(w, d), w.clients[d]);
      var a, c := AccountOf(w, d), w.clients[d];
      var id :| id in a.records && Owed(TombstonesOnly, c, a.records[id]) && !Has(a.vault, c, id, a.records[id]);
      NotHavingIsLacking(w, d, id);
      var ops, now := LackingIsLost(cfg, w, w.db.devices[d].account, d, id, Entry(c.inbox, id));
      assert PurgeTakes(cfg, w, ops, w.db.devices[d].account, now, id);
    }
  }

  // ---- Deletions that are lost ----

  /** A device that is let in and can see a record of the server's has it, and not as deleted. */
  ghost predicate HoldsUndeleted(w: World, account: AccountId, d: DeviceId, id: RecordId) {
    && account in w.db.accounts && id in w.db.accounts[account].records
    && d in w.clients && d in Live(w.db, account) && CanSee(w.clients[d], w.db.accounts[account].records[id])
    && id in w.clients[d].inbox && !w.clients[d].inbox[id].deleted
  }

  /** Whatever is asked of the server from here on, no purge takes a tombstone whose record a device has undeleted. */
  ghost predicate NoDeletionIsLost(cfg: Config, w: World)
    requires DbOk(cfg.limits, w.db)
  {
    forall ops, account, now, id {:trigger PurgeTakes(cfg, w, ops, account, now, id)} ::
      PurgeTakes(cfg, w, ops, account, now, id) ==> forall d :: !HoldsUndeleted(Run(cfg, w, ops), account, d, id)
  }

  /** No device holds undeleted what has a tombstone it has read past. */
  ghost predicate NoneUnaware(w: World) {
    forall account, d, id :: HoldsUndeleted(w, account, d, id) ==>
      !Owed(TombstonesOnly, w.clients[d], w.db.accounts[account].records[id])
  }

  lemma AwareIsInStep(limits: Limits, w: World)
    requires DbOk(limits, w.db) && NobodyAhead(w) && NoneUnaware(w)
    ensures AllInStep(DeletionsOnly, w)
  {
    forall d {:trigger Reads(DeletionsOnly, w, d)} | Reads(DeletionsOnly, w, d)
      ensures InStep(DeletionsOnly, AccountOf(w, d), w.db.devices[d], w.clients[d])
    {
      assert Reads(TombstonesOnly, w, d);
      var a, c := AccountOf(w, d), w.clients[d];
      forall id | id in a.records && Owed(DeletionsOnly, c, a.records[id])
        ensures Knows(DeletionsOnly, a.vault, c, id, a.records[id])
      {
        assert Owed(TombstonesOnly, c, a.records[id]);
        assert !HoldsUndeleted(w, w.db.devices[d].account, d, id);
      }
    }
  }

  lemma NothingIsLostInStep(cfg: Config, w: World)
    requires DbOk(cfg.limits, w.db) && AllInStep(DeletionsOnly, w)
    ensures NoDeletionIsLost(cfg, w)
  {
    forall ops, account, now, id {:trigger PurgeTakes(cfg, w, ops, account, now, id)}
      | PurgeTakes(cfg, w, ops, account, now, id)
      ensures forall d :: !HoldsUndeleted(Run(cfg, w, ops), account, d, id)
    {
      GoesFromAnyWorldInStep(DeletionsOnly, cfg, w, ops, account, now, id);
    }
  }

  lemma UndeletedIsLacking(w: World, account: AccountId, d: DeviceId, id: RecordId)
    requires HoldsUndeleted(w, account, d, id) && Owed(TombstonesOnly, w.clients[d], w.db.accounts[account].records[id])
    ensures Lacks(w, account, d, id, Some(w.clients[d].inbox[id]))
  {
  }

  /**
    Exactly when no deletion is lost from a state on: when no honest device that
    is let in holds undeleted a record whose tombstone it has read past.
   */
  lemma NoDeletionIsLostExactlyWhen(cfg: Config, w: World)
    requires DbOk(cfg.limits, w.db) && NobodyAhead(w)
    ensures NoDeletionIsLost(cfg, w) <==> NoneUnaware(w)
  {
    if NoneUnaware(w) {
      AwareIsInStep(cfg.limits, w);
      NothingIsLostInStep(cfg, w);
    } else {
      var account, d, id :| HoldsUndeleted(w, account, d, id)
        && Owed(TombstonesOnly, w.clients[d], w.db.accounts[account].records[id]);
      UndeletedIsLacking(w, account, d, id);
      var ops, now := LackingIsLost(cfg, w, account, d, id, Some(w.clients[d].inbox[id]));
      assert HoldsUndeleted(Run(cfg, w, ops), account, d, id);
    }
  }

  /** What is safe in the stricter sense loses no deletion. */
  lemma ReceivedIsNotLost(cfg: Config, w: World)
    requires DbOk(cfg.limits, w.db) && TombstonesAreSafe(cfg, w)
    ensures NoDeletionIsLost(cfg, w)
  {
    forall ops, account, now, id {:trigger PurgeTakes(cfg, w, ops, account, now, id)}
      | PurgeTakes(cfg, w, ops, account, now, id)
      ensures forall d :: !HoldsUndeleted(Run(cfg, w, ops), account, d, id)
    {
      assert GoesOnlyOnceReceived(Run(cfg, w, ops), account, id);
    }
  }
}
