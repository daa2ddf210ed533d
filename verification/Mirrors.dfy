/**
  What a device ends up with: the server's records, and nothing the server has
  forgotten that the device does not know to be deleted.
 */
module Mirrors {
  import opened Wrappers
  import opened Mailbox
  import opened Pushing
  import opened Paging
  import opened Housekeeping
  import opened Runs
  import opened Replicas
  import opened Tombstones

  ghost function Held(w: World, account: AccountId): set<RecordId> {
    if account in w.db.accounts then w.db.accounts[account].records.Keys else {}
  }

  /** What shutting a device out takes from an account. */
  ghost function Dropped(cfg: Config, w: World, op: Op, account: AccountId): set<RecordId>
    requires DbOk(cfg.limits, w.db)
  {
    if op.ShutOut? then Held(w, account) - Held(Apply(cfg, w, op), account) else {}
  }

  /** What is withdrawn after a step: what a push writes again is not any more. */
  ghost function WithdrawnNext(cfg: Config, w: World, op: Op, account: AccountId, gone: set<RecordId>): set<RecordId>
    requires DbOk(cfg.limits, w.db)
  {
    gone + Dropped(cfg, w, op, account) - Held(Apply(cfg, w, op), account)
  }

  /** What a run took from an account by shutting devices out, and nobody has written again since. */
  ghost function Withdrawn(cfg: Config, w: World, ops: seq<Op>, account: AccountId, gone: set<RecordId>): set<RecordId>
    requires DbOk(cfg.limits, w.db)
    decreases |ops|
  {
    if ops == [] then gone
    else Withdrawn(cfg, Apply(cfg, w, ops[0]), ops[1..], account, WithdrawnNext(cfg, w, ops[0], account, gone))
  }

  /** Only the manifests of the device shut out. */
  lemma DroppedAreManifests(cfg: Config, w: World, op: Op, account: AccountId, id: RecordId)
    requires DbOk(cfg.limits, w.db) && id in Dropped(cfg, w, op, account)
    ensures op.ShutOut? && account in w.db.accounts && id in w.db.accounts[account].records
    ensures w.db.accounts[account].records[id].kind.Manifest? && w.db.accounts[account].records[id].device == op.device
  {
    ShutOutStep(cfg, w, op.asker, op.device, op.now);
  }

  /** A reader of all of an account that is let in. */
  predicate ReadsAll(w: World, account: AccountId, d: DeviceId) {
    Reads(TombstonesOnly, w, d) && w.db.devices[d].account == account && w.clients[d].manifests
  }

  /** What it has is held, or known to be deleted, or was withdrawn. */
  ghost predicate Explained(a: AccountRow, c: Client, gone: set<RecordId>) {
    forall id :: id in c.inbox ==> id in a.records || c.inbox[id].deleted || id in gone
  }

  ghost predicate AllExplained(w: World, account: AccountId, gone: set<RecordId>) {
    forall d {:trigger ReadsAll(w, account, d)} :: ReadsAll(w, account, d) ==>
      Explained(w.db.accounts[account], w.clients[d], gone)
  }

  /** Nobody's inbox has changed, and the account holds all it held but for what is in `gone`. */
  lemma SameReadersAreExplained(w: World, after: World, account: AccountId, gone: set<RecordId>)
    requires AllExplained(w, account, gone)
    requires forall d {:trigger ReadsAll(after, account, d)} ::
      ReadsAll(after, account, d) ==> ReadsAll(w, account, d) && after.clients[d].inbox == w.clients[d].inbox
    requires Held(w, account) <= Held(after, account) + gone
    ensures AllExplained(after, account, gone)
  {
    forall d {:trigger ReadsAll(after, account, d)} | ReadsAll(after, account, d)
      ensures Explained(after.db.accounts[account], after.clients[d], gone)
    {
      assert Explained(w.db.accounts[account], w.clients[d], gone);
    }
  }

  lemma JoinKeepsExplained(
    cfg: Config, w: World, joined: AccountId, device: DeviceId, reader: Option<bool>,
    account: AccountId, gone: set<RecordId>)
    requires DbOk(cfg.limits, w.db) && AllExplained(w, account, gone)
    ensures AllExplained(OnJoin(cfg, w, joined, device, reader), account, gone)
  {
    var after := OnJoin(cfg, w, joined, device, reader);
    forall d {:trigger ReadsAll(after, account, d)} | ReadsAll(after, account, d)
      ensures Explained(after.db.accounts[account], after.clients[d], gone)
    {
      assert d != device ==> ReadsAll(w, account, d);
      assert d == device && !ReadsAll(w, account, d) ==> after.clients[d].inbox == map[];
    }
  }

  lemma PushKeepsExplained(
    cfg: Config, w: World, device: DeviceId, envelopes: seq<Envelope>, clock: Clock,
    account: AccountId, gone: set<RecordId>)
    requires DbOk(cfg.limits, w.db) && AllExplained(w, account, gone)
    ensures AllExplained(OnPush(cfg, w, device, envelopes, clock), account, gone)
  {
    var after := OnPush(cfg, w, device, envelopes, clock);
    PushStep(cfg, w, device, envelopes, clock);
    if SignedIn(w.db, device) {
      HeldIsOldOrNew(w.db.accounts[w.db.devices[device].account], envelopes, device, clock);
    }
    assert forall d {:trigger ReadsAll(after, account, d)} :: ReadsAll(after, account, d) ==> ReadsAll(w, account, d);
    SameReadersAreExplained(w, after, account, gone);
  }

  /** What a page brings is held. */
  lemma PageIsExplained(limits: Limits, a: AccountRow, c: Client, asked: nat, gone: set<RecordId>)
    requires AccountOk(limits, a) && Explained(a, c, gone)
    ensures
      var page := Page(limits, a.vault, a.records, c.cursor, asked, c.manifests);
      Explained(a, Client(page.cursor, c.manifests, Receive(c.inbox, page.envelopes)), gone)
  {
    var page := Page(limits, a.vault, a.records, c.cursor, asked, c.manifests);
    var inbox := Receive(c.inbox, page.envelopes);
    forall id | id in inbox
      ensures id in a.records || inbox[id].deleted || id in gone
    {
      ReceiveKeepsLast(c.inbox, page.envelopes, id);
      PageDelivers(limits, a.vault, a.records, c.cursor, asked, c.manifests, inbox[id]);
    }
  }

  lemma PullKeepsExplained(
    cfg: Config, w: World, device: DeviceId, limit: Option<nat>, now: nat, account: AccountId, gone: set<RecordId>)
    requires DbOk(cfg.limits, w.db) && AllExplained(w, account, gone)
    ensures AllExplained(OnPull(cfg, w, device, limit, now), account, gone)
  {
    if SignedIn(w.db, device) && device in w.clients {
      var after := OnPull(cfg, w, device, limit, now);
      PullStep(cfg, w, device, limit, now);
      forall d {:trigger ReadsAll(after, account, d)} | ReadsAll(after, account, d)
        ensures Explained(after.db.accounts[account], after.clients[d], gone)
      {
        assert ReadsAll(w, account, d);
        if d == device {
          PageIsExplained(cfg.limits, AccountOf(w, d), w.clients[d], Asked(cfg.limits, limit), gone);
        }
      }
    }
  }

  lemma OtherPullKeepsExplained(
    cfg: Config, w: World, device: DeviceId, since: nat, limit: Option<nat>, manifests: bool, now: nat,
    account: AccountId, gone: set<RecordId>)
    requires DbOk(cfg.limits, w.db) && AllExplained(w, account, gone)
    ensures AllExplained(OnPullFrom(cfg, w, device, since, limit, manifests, now), account, gone)
  {
    if SignedIn(w.db, device) && device !in w.clients {
      var after := OnPullFrom(cfg, w, device, since, limit, manifests, now);
      var _ := PullFromStep(cfg, w, device, since, limit, manifests, now);
      assert forall d {:trigger ReadsAll(after, account, d)} :: ReadsAll(after, account, d) ==> ReadsAll(w, account, d);
      SameReadersAreExplained(w, after, account, gone);
    }
  }

  lemma ShutOutKeepsExplained(
    cfg: Config, w: World, asker: DeviceId, device: DeviceId, now: nat, account: AccountId, gone: set<RecordId>)
    requires DbOk(cfg.limits, w.db) && AllExplained(w, account, gone)
    ensures
      var op := ShutOut(asker, device, now);
      AllExplained(Apply(cfg, w, op), account, gone + Dropped(cfg, w, op, account))
  {
    var op := ShutOut(asker, device, now);
    var after := Apply(cfg, w, op);
    ShutOutStep(cfg, w, asker, device, now);
    assert AllExplained(w, account, gone + Dropped(cfg, w, op, account));
    assert forall d {:trigger ReadsAll(after, account, d)} :: ReadsAll(after, account, d) ==> ReadsAll(w, account, d);
    SameReadersAreExplained(w, after, account, gone + Dropped(cfg, w, op, account));
  }

  /** What the purge takes, each reader knows to be deleted. */
  lemma PurgeKeepsExplained(cfg: Config, w: World, purged: AccountId, now: nat, account: AccountId, gone: set<RecordId>)
    requires DbOk(cfg.limits, w.db) && AllInStep(TombstonesOnly, w) && AllExplained(w, account, gone)
    ensures AllExplained(OnPurge(cfg, w, purged, now), account, gone)
  {
    var after := OnPurge(cfg, w, purged, now);
    forall d {:trigger ReadsAll(after, account, d)} | ReadsAll(after, account, d)
      ensures Explained(after.db.accounts[account], after.clients[d], gone)
    {
      assert ReadsAll(w, account, d);
      forall id | id in w.clients[d].inbox
        ensures id in after.db.accounts[account].records || w.clients[d].inbox[id].deleted || id in gone
      {
        if id in w.db.accounts[account].records && id !in after.db.accounts[account].records {
          PurgedIsKnown(cfg, w, account, now, d, id);
        }
      }
    }
  }

  lemma PurgedIsKnown(cfg: Config, w: World, account: AccountId, now: nat, d: DeviceId, id: RecordId)
    requires DbOk(cfg.limits, w.db) && AllInStep(TombstonesOnly, w) && ReadsAll(w, account, d)
    requires id in w.db.accounts[account].records && id !in OnPurge(cfg, w, account, now).db.accounts[account].records
    ensures id in w.clients[d].inbox && w.clients[d].inbox[id].deleted
  {
    assert PurgeTakes(cfg, w, [], account, now, id);
    GoesFromAnyWorldInStep(TombstonesOnly, cfg, w, [], account, now, id);
    assert d in Live(w.db, account);
  }

  lemma StepKeepsExplained(cfg: Config, w: World, op: Op, account: AccountId, gone: set<RecordId>)
    requires DbOk(cfg.limits, w.db) && AllInStep(TombstonesOnly, w) && AllExplained(w, account, gone)
    ensures AllExplained(Apply(cfg, w, op), account, gone + Dropped(cfg, w, op, account))
  {
    assert !op.ShutOut? ==> gone + Dropped(cfg, w, op, account) == gone;
    match op
    case Create(made, vault) =>
      var after := OnCreate(cfg, w, made, vault);
      assert forall d {:trigger ReadsAll(after, account, d)} :: ReadsAll(after, account, d) ==> ReadsAll(w, account, d);
      SameReadersAreExplained(w, after, account, gone);
    case Join(joined, device, reader) => JoinKeepsExplained(cfg, w, joined, device, reader, account, gone);
    case Push(device, envelopes, clock) => PushKeepsExplained(cfg, w, device, envelopes, clock, account, gone);
    case Pull(device, limit, now) => PullKeepsExplained(cfg, w, device, limit, now, account, gone);
    case PullFrom(device, since, limit, manifests, now) =>
      OtherPullKeepsExplained(cfg, w, device, since, limit, manifests, now, account, gone);
    case ShutOut(asker, device, now) => ShutOutKeepsExplained(cfg, w, asker, device, now, account, gone);
    case Purge(purged, now) => PurgeKeepsExplained(cfg, w, purged, now, account, gone);
  }

  /** What is held needs no other explanation. */
  lemma HeldIsExplained(w: World, account: AccountId, gone: set<RecordId>)
    requires AllExplained(w, account, gone)
    ensures AllExplained(w, account, gone - Held(w, account))
  {
    forall d {:trigger ReadsAll(w, account, d)} | ReadsAll(w, account, d)
      ensures Explained(w.db.accounts[account], w.clients[d], gone - Held(w, account))
    {
      assert Explained(w.db.accounts[account], w.clients[d], gone);
    }
  }

  lemma {:induction false} RunKeepsExplained(
    cfg: Config, w: World, ops: seq<Op>, account: AccountId, gone: set<RecordId>)
    requires DbOk(cfg.limits, w.db) && AllInStep(TombstonesOnly, w) && AllExplained(w, account, gone)
    ensures AllExplained(Run(cfg, w, ops), account, Withdrawn(cfg, w, ops, account, gone))
    decreases |ops|
  {
    if ops != [] {
      var next := Apply(cfg, w, ops[0]);
      StepKeepsExplained(cfg, w, ops[0], account, gone);
      HeldIsExplained(next, account, gone + Dropped(cfg, w, ops[0], account));
      StepKeepsInStep(TombstonesOnly, cfg, w, ops[0]);
      RunKeepsExplained(cfg, next, ops[1..], account, WithdrawnNext(cfg, w, ops[0], account, gone));
    }
  }

  /**
    No record comes back from the dead. In every run: what an honest device has
    of its account that the server does not hold any more, the device has as
    deleted - but for manifests withdrawn with a device that was shut out.
   */
  lemma WhatIsGoneIsKnownDeleted(cfg: Config, ops: seq<Op>, device: DeviceId, id: RecordId)
    requires SignedIn(Run(cfg, EMPTY, ops).db, device) && device in Run(cfg, EMPTY, ops).clients
    requires Run(cfg, EMPTY, ops).clients[device].manifests
    requires id in Run(cfg, EMPTY, ops).clients[device].inbox
    requires id !in AccountOf(Run(cfg, EMPTY, ops), device).records
    ensures
      var w := Run(cfg, EMPTY, ops);
      w.clients[device].inbox[id].deleted || id in Withdrawn(cfg, EMPTY, ops, w.db.devices[device].account, {})
  {
    var w := Run(cfg, EMPTY, ops);
    var account := w.db.devices[device].account;
    EmptyIsInStep(TombstonesOnly);
    RunKeepsExplained(cfg, EMPTY, ops, account, {});
    assert ReadsAll(w, account, device);
  }

  /**
    A device that is told there is no more has every record the server holds
    and it can see, in the version held.
   */
  lemma CaughtUpHasAll(cfg: Config, ops: seq<Op>, device: DeviceId, limit: Option<nat>, now: nat, id: RecordId)
    requires SignedIn(Run(cfg, EMPTY, ops).db, device) && device in Run(cfg, EMPTY, ops).clients
    requires !PullHandler(cfg.limits, Run(cfg, EMPTY, ops).db, device, Run(cfg, EMPTY, ops).clients[device].cursor,
               limit, Run(cfg, EMPTY, ops).clients[device].manifests, now).1.hasMore
    requires id in AccountOf(Run(cfg, EMPTY, ops), device).records
    ensures
      var w := Run(cfg, EMPTY, ops);
      var after, row := Run(cfg, EMPTY, ops + [Pull(device, limit, now)]), AccountOf(w, device).records[id];
      && device in after.clients && after.db.accounts == w.db.accounts
      && (CanSee(w.clients[device], row) ==> Has(AccountOf(w, device).vault, after.clients[device], id, row))
  {
    var w, op := Run(cfg, EMPTY, ops), Pull(device, limit, now);
    var a, c := AccountOf(w, device), w.clients[device];
    RunOfBoth(cfg, EMPTY, ops, [op]);
    RunOfOne(cfg, w, op);
    PullStep(cfg, w, device, limit, now);
    EmptyIsInStep(Everything);
    RunKeepsInStep(Everything, cfg, EMPTY, ops);
    assert Reads(Everything, w, device);
    PageKeepsInStep(Everything, cfg.limits, a, w.db.devices[device], c, Asked(cfg.limits, limit));
    NoMoreReadsAll(cfg.limits, a.vault, a.records, c.cursor, Asked(cfg.limits, limit), c.manifests, id);
  }
}
