/**
  The mailbox as a state machine: requests of any devices in any order, and
  next to it what the devices that follow the rules have received.

  Each request is one step, since each runs under one lock. A device in
  `clients` is honest: it starts at cursor 0, asks from the cursor of its last
  page, and receives what it is answered. Any other device may ask from
  anywhere.
 */
module Runs {
  import opened Basics
  import opened Wrappers
  import opened Mailbox
  import opened Pushing
  import opened Paging
  import opened Housekeeping

  /** `inbox` is the last version received of each record. */
  datatype Client = Client(cursor: nat, manifests: bool, inbox: map<RecordId, Envelope>)

  datatype World = World(db: Db, clients: map<DeviceId, Client>)

  datatype Config = Config(limits: Limits, quota: Quota)

  datatype Op =
    | Create(account: AccountId, vault: VaultId)
    | Join(account: AccountId, device: DeviceId, reader: Option<bool>)
    | Push(device: DeviceId, envelopes: seq<Envelope>, clock: Clock)
    | Pull(device: DeviceId, limit: Option<nat>, now: nat)
    | PullFrom(device: DeviceId, since: nat, limit: Option<nat>, manifests: bool, now: nat)
    | ShutOut(asker: DeviceId, device: DeviceId, now: nat)
    | Purge(account: AccountId, now: nat)

  const EMPTY := World(Db(map[], map[]), map[])

  /** Whether a device is let in at all. */
  predicate SignedIn(db: Db, device: DeviceId) {
    && device in db.devices
    && db.devices[device].revokedMs.None?
    && db.devices[device].account in db.accounts
  }

  /** How many records a page may have, as asked for. */
  function Asked(limits: Limits, limit: Option<nat>): nat {
    if limit.Some? then Min(limit.value, limits.maxBatch) else limits.maxBatch
  }

  ghost function PullHandler(
    limits: Limits, db: Db, device: DeviceId, since: nat, limit: Option<nat>, manifests: bool, now: nat)
    : (Db, PullResponse)
    requires SignedIn(db, device) && DbOk(limits, db)
  {
    var a := db.accounts[db.devices[device].account];
    assert AccountOk(limits, a);
    var page := Page(limits, a.vault, a.records, since, Asked(limits, limit), manifests);
    (Seen(db, device, Min(page.cursor, a.seqNo), now), page)
  }

  /**
    What a pull is answered and what it leaves: a page of as many records as
    asked for, 1 for a limit of 0 and the largest batch for more than that or
    for no limit at all; the device noted as seen, its cursor raised to where
    the page ends but never past what there is; and nothing else.
   */
  lemma PullIsAnswered(
    limits: Limits, db: Db, device: DeviceId, since: nat, limit: Option<nat>, manifests: bool, now: nat)
    requires SignedIn(db, device) && DbOk(limits, db)
    ensures AccountOk(limits, db.accounts[db.devices[device].account])
    ensures
      var (after, page) := PullHandler(limits, db, device, since, limit, manifests, now);
      var d := db.devices[device];
      var a := db.accounts[d.account];
      var visible := Visible(manifests, Rows(a.vault, a.records, since));
      var bound := match limit
        case None => limits.maxBatch
        case Some(n) => if n == 0 then 1 else if n > limits.maxBatch then limits.maxBatch else n;
      var most := if |visible| < bound then |visible| else bound;
      var read := if page.cursor < a.seqNo then page.cursor else a.seqNo;
      && page.envelopes <= visible && |page.envelopes| <= bound
      && (SealedBytes(visible[..most]) <= limits.maxBatchBytes ==> |page.envelopes| == most)
      && (forall k :: 0 <= k <= |visible| ==>
            (k <= |page.envelopes| <==>
               k <= bound && (k <= 1 || SealedBytes(visible[..k]) <= limits.maxBatchBytes)))
      && (page.hasMore <==> |page.envelopes| < |visible|)
      && after.accounts == db.accounts
      && after.devices == db.devices[device :=
           DeviceRow(d.account, if read > d.cursor then read else d.cursor, Some(now), d.revokedMs)]
  {
    var a := db.accounts[db.devices[device].account];
    assert AccountOk(limits, a);
    PageHoldsWhatIsAsked(limits, a, since, Asked(limits, limit), manifests);
  }

  /** Taking a page in, record by record. */
  function Receive(inbox: map<RecordId, Envelope>, envelopes: seq<Envelope>): map<RecordId, Envelope> {
    if envelopes == [] then inbox else
    var n := |envelopes| - 1;
    Receive(inbox, envelopes[..n])[envelopes[n].id := envelopes[n]]
  }

  ghost function OnCreate(cfg: Config, w: World, account: AccountId, vault: VaultId): (w': World)
    requires DbOk(cfg.limits, w.db)
    ensures DbOk(cfg.limits, w'.db)
  {
    if account in w.db.accounts then w else
    EmptyAccountIsOk(cfg.limits, w.db, account, vault);
    w.(db := CreateAccount(w.db, account, vault))
  }

  ghost function OnJoin(cfg: Config, w: World, account: AccountId, device: DeviceId, reader: Option<bool>): (w': World)
    requires DbOk(cfg.limits, w.db)
    ensures DbOk(cfg.limits, w'.db)
  {
    if device in w.db.devices || device in w.clients || account !in w.db.accounts then w else
    NewDeviceIsOk(cfg.limits, w.db, account, device);
    World(AddDevice(w.db, account, device),
          if reader.Some? then w.clients[device := Client(0, reader.value, map[])] else w.clients)
  }

  ghost function OnPush(cfg: Config, w: World, device: DeviceId, envelopes: seq<Envelope>, clock: Clock): (w': World)
    requires DbOk(cfg.limits, w.db)
    ensures DbOk(cfg.limits, w'.db)
  {
    if !SignedIn(w.db, device) then w else
    PushKeepsOk(cfg, w.db, w.db.devices[device].account, device, envelopes, clock);
    w.(db := PushWithin(cfg.limits, cfg.quota, w.db, w.db.devices[device].account, device, envelopes, clock).0)
  }

  ghost function OnPull(cfg: Config, w: World, device: DeviceId, limit: Option<nat>, now: nat): (w': World)
    requires DbOk(cfg.limits, w.db)
    ensures DbOk(cfg.limits, w'.db)
  {
    if !SignedIn(w.db, device) || device !in w.clients then w else
    var c := w.clients[device];
    var (db, page) := PullHandler(cfg.limits, w.db, device, c.cursor, limit, c.manifests, now);
    World(db, w.clients[device := Client(page.cursor, c.manifests, Receive(c.inbox, page.envelopes))])
  }

  ghost function OnPullFrom(
    cfg: Config, w: World, device: DeviceId, since: nat, limit: Option<nat>, manifests: bool, now: nat): (w': World)
    requires DbOk(cfg.limits, w.db)
    ensures DbOk(cfg.limits, w'.db)
  {
    if !SignedIn(w.db, device) || device in w.clients then w else
    w.(db := PullHandler(cfg.limits, w.db, device, since, limit, manifests, now).0)
  }

  ghost function OnShutOut(cfg: Config, w: World, asker: DeviceId, device: DeviceId, now: nat): (w': World)
    requires DbOk(cfg.limits, w.db)
    ensures DbOk(cfg.limits, w'.db)
  {
    if !SignedIn(w.db, asker) then w else
    RevokeKeepsOk(cfg.limits, w.db, w.db.devices[asker].account, device, now);
    w.(db := RevokeHandler(w.db, w.db.devices[asker].account, device, now).0)
  }

  ghost function OnPurge(cfg: Config, w: World, account: AccountId, now: nat): (w': World)
    requires DbOk(cfg.limits, w.db)
    ensures DbOk(cfg.limits, w'.db)
  {
    if account !in w.db.accounts then w else
    PurgeKeepsOk(cfg.limits, w.db, account, now);
    w.(db := PurgeAccount(w.db, account, now))
  }

  ghost function Apply(cfg: Config, w: World, op: Op): (w': World)
    requires DbOk(cfg.limits, w.db)
    ensures DbOk(cfg.limits, w'.db)
  {
    match op
    case Create(account, vault) => OnCreate(cfg, w, account, vault)
    case Join(account, device, reader) => OnJoin(cfg, w, account, device, reader)
    case Push(device, envelopes, clock) => OnPush(cfg, w, device, envelopes, clock)
    case Pull(device, limit, now) => OnPull(cfg, w, device, limit, now)
    case PullFrom(device, since, limit, manifests, now) => OnPullFrom(cfg, w, device, since, limit, manifests, now)
    case ShutOut(asker, device, now) => OnShutOut(cfg, w, asker, device, now)
    case Purge(account, now) => OnPurge(cfg, w, account, now)
  }

  ghost function Run(cfg: Config, w: World, ops: seq<Op>): (w': World)
    requires DbOk(cfg.limits, w.db)
    ensures DbOk(cfg.limits, w'.db)
    decreases |ops|
  {
    if ops == [] then w else Run(cfg, Apply(cfg, w, ops[0]), ops[1..])
  }

  lemma {:induction false} RunOfBoth(cfg: Config, w: World, first: seq<Op>, second: seq<Op>)
    requires DbOk(cfg.limits, w.db)
    ensures Run(cfg, w, first + second) == Run(cfg, Run(cfg, w, first), second)
    decreases |first|
  {
    if first == [] {
      assert first + second == second;
    } else {
      assert (first + second)[1..] == first[1..] + second;
      RunOfBoth(cfg, Apply(cfg, w, first[0]), first[1..], second);
    }
  }

  lemma RunOfOne(cfg: Config, w: World, op: Op)
    requires DbOk(cfg.limits, w.db)
    ensures Run(cfg, w, [op]) == Apply(cfg, w, op)
  {
    assert [op][1..] == [];
  }

  // ---- What a step changes ----

  ghost function SetAccount(w: World, account: AccountId, a: AccountRow): World {
    w.(db := w.db.(accounts := w.db.accounts[account := a]))
  }

  lemma PushStep(cfg: Config, w: World, device: DeviceId, envelopes: seq<Envelope>, clock: Clock)
    requires DbOk(cfg.limits, w.db)
    ensures
      || OnPush(cfg, w, device, envelopes, clock) == w
      || (SignedIn(w.db, device)
          && var account := w.db.devices[device].account;
             OnPush(cfg, w, device, envelopes, clock)
             == SetAccount(w, account, OfferAll(w.db.accounts[account], envelopes, device, clock).account))
  {
  }

  ghost function PageTaken(limits: Limits, w: World, device: DeviceId, asked: nat, now: nat): World
    requires device in w.clients && device in w.db.devices && w.db.devices[device].account in w.db.accounts
    requires AccountOk(limits, w.db.accounts[w.db.devices[device].account])
  {
    var a, c := w.db.accounts[w.db.devices[device].account], w.clients[device];
    var page := Page(limits, a.vault, a.records, c.cursor, asked, c.manifests);
    World(Seen(w.db, device, Min(page.cursor, a.seqNo), now),
          w.clients[device := Client(page.cursor, c.manifests, Receive(c.inbox, page.envelopes))])
  }

  lemma PullStep(cfg: Config, w: World, device: DeviceId, limit: Option<nat>, now: nat)
    requires DbOk(cfg.limits, w.db)
    requires SignedIn(w.db, device) && device in w.clients
    ensures AccountOk(cfg.limits, w.db.accounts[w.db.devices[device].account])
    ensures OnPull(cfg, w, device, limit, now)
         == PageTaken(cfg.limits, w, device, Asked(cfg.limits, limit), now)
  {
  }

  lemma PullFromStep(
    cfg: Config, w: World, device: DeviceId, since: nat, limit: Option<nat>, manifests: bool, now: nat)
    returns (cursor: nat)
    requires DbOk(cfg.limits, w.db)
    requires SignedIn(w.db, device) && device !in w.clients
    ensures Min(since, w.db.accounts[w.db.devices[device].account].seqNo) <= cursor
    ensures cursor <= w.db.accounts[w.db.devices[device].account].seqNo
    ensures OnPullFrom(cfg, w, device, since, limit, manifests, now) == w.(db := Seen(w.db, device, cursor, now))
  {
    var a := w.db.accounts[w.db.devices[device].account];
    assert AccountOk(cfg.limits, a);
    PageCursor(cfg.limits, a.vault, a.records, since, Asked(cfg.limits, limit), manifests);
    cursor := Min(Page(cfg.limits, a.vault, a.records, since, Asked(cfg.limits, limit), manifests).cursor, a.seqNo);
  }

  ghost function Mark(db: Db, device: DeviceId, now: nat): Db
    requires device in db.devices
  {
    db.(devices := db.devices[device := db.devices[device].(revokedMs := Some(now))])
  }

  lemma ShutOutStep(cfg: Config, w: World, asker: DeviceId, device: DeviceId, now: nat)
    requires DbOk(cfg.limits, w.db)
    ensures
      || OnShutOut(cfg, w, asker, device, now) == w
      || (SignedIn(w.db, asker) && device in w.db.devices
          && var account := w.db.devices[asker].account;
             OnShutOut(cfg, w, asker, device, now)
             == w.(db := Forget(Mark(w.db, device, now), account, ManifestsOf(w.db.accounts[account].records, device))))
  {
  }

  /**
    A new account starts empty at number 0, and the device that joins it is let
    in, has read nothing and received nothing; nothing else changes.
   */
  lemma StartsAtTheBeginning(
    cfg: Config, w: World, account: AccountId, vault: VaultId, device: DeviceId, reader: Option<bool>)
    requires DbOk(cfg.limits, w.db) && account !in w.db.accounts && device !in w.db.devices && device !in w.clients
    ensures
      var after := Run(cfg, w, [Create(account, vault), Join(account, device, reader)]);
      && after.db.accounts == w.db.accounts[account := AccountRow(vault, 0, 0, 0, map[])]
      && after.db.devices == w.db.devices[device := DeviceRow(account, 0, None, None)]
      && after.clients == (match reader
           case None => w.clients
           case Some(manifests) => w.clients[device := Client(0, manifests, map[])])
      && SignedIn(after.db, device)
  {
    var created := Apply(cfg, w, Create(account, vault));
    assert [Create(account, vault), Join(account, device, reader)][1..] == [Join(account, device, reader)];
    RunOfOne(cfg, created, Join(account, device, reader));
  }

  // ---- The tables stay in order ----

  lemma EmptyAccountIsOk(limits: Limits, db: Db, account: AccountId, vault: VaultId)
    requires DbOk(limits, db) && account !in db.accounts
    ensures DbOk(limits, CreateAccount(db, account, vault))
    ensures ServerBytes(CreateAccount(db, account, vault).accounts) == ServerBytes(db.accounts)
  {
    assert Sizes(map[]) == map[];
    ServerBytesUpdated(db.accounts, account, AccountRow(vault, 0, 0, 0, map[]));
  }

  lemma NewDeviceIsOk(limits: Limits, db: Db, account: AccountId, device: DeviceId)
    requires DbOk(limits, db) && account in db.accounts && device !in db.devices
    ensures DbOk(limits, AddDevice(db, account, device))
  {
    SameAccountsAreOk(limits, db, AddDevice(db, account, device));
  }

  lemma SameAccountsAreOk(limits: Limits, db: Db, after: Db)
    requires DbOk(limits, db) && after.accounts == db.accounts
    requires forall d :: d in after.devices ==> after.devices[d].account in db.accounts
    ensures DbOk(limits, after)
  {
  }

  lemma PushKeepsOk(cfg: Config, db: Db, account: AccountId, device: DeviceId, envelopes: seq<Envelope>, clock: Clock)
    requires DbOk(cfg.limits, db) && account in db.accounts
    ensures DbOk(cfg.limits, PushWithin(cfg.limits, cfg.quota, db, account, device, envelopes, clock).0)
  {
    var a := db.accounts[account];
    if BatchRefusal(cfg.limits, a.vault, envelopes).None? {
      CheckedOneByOne(cfg.limits, a.vault, envelopes);
      OfferAllKeepsOk(cfg.limits, a, envelopes, device, clock);
    }
  }

  /**
    In every state any requests lead to, the counters are the real ones: as
    many records as the account holds, and the bytes of their blobs.
   */
  lemma CountersAreExact(cfg: Config, ops: seq<Op>, account: AccountId)
    requires account in Run(cfg, EMPTY, ops).db.accounts
    ensures
      var a := Run(cfg, EMPTY, ops).db.accounts[account];
      && a.recordCount == |a.records|
      && a.recordBytes == BlobBytes(a.records)
      && DistinctNumbers(a.records)
      && forall id :: id in a.records ==> a.records[id].seqNo <= a.seqNo
  {
    assert AccountOk(cfg.limits, Run(cfg, EMPTY, ops).db.accounts[account]);
  }

  // ---- Quotas ----

  lemma ForgettingKeepsQuota(cfg: Config, db: Db, account: AccountId, gone: set<RecordId>)
    requires DbOk(cfg.limits, db) && WithinQuota(cfg.quota, db)
    requires account in db.accounts && gone <= db.accounts[account].records.Keys
    ensures WithinQuota(cfg.quota, Forget(db, account, gone))
  {
    ForgettingKeepsOk(cfg.limits, db, account, gone);
    WithoutKeepsOk(cfg.limits, db.accounts[account], gone);
  }

  /** Reading changes no account. */
  lemma PullsChangeNoAccount(
    cfg: Config, w: World, device: DeviceId, since: nat, limit: Option<nat>, manifests: bool, now: nat)
    requires DbOk(cfg.limits, w.db)
    ensures OnPull(cfg, w, device, limit, now).db.accounts == w.db.accounts
    ensures OnPullFrom(cfg, w, device, since, limit, manifests, now).db.accounts == w.db.accounts
  {
  }

  lemma ShutOutKeepsQuota(cfg: Config, w: World, asker: DeviceId, device: DeviceId, now: nat)
    requires DbOk(cfg.limits, w.db) && WithinQuota(cfg.quota, w.db)
    ensures WithinQuota(cfg.quota, OnShutOut(cfg, w, asker, device, now).db)
  {
    if SignedIn(w.db, asker) {
      var account := w.db.devices[asker].account;
      ForgettingKeepsQuota(cfg, w.db, account, ManifestsOf(w.db.accounts[account].records, device));
    }
  }

  lemma PurgeKeepsQuota(cfg: Config, w: World, account: AccountId, now: nat)
    requires DbOk(cfg.limits, w.db) && WithinQuota(cfg.quota, w.db)
    ensures WithinQuota(cfg.quota, OnPurge(cfg, w, account, now).db)
  {
    if account in w.db.accounts {
      ForgettingKeepsQuota(cfg, w.db, account, Tombstones(w.db.accounts[account].records,
        Max(now - NINETY_DAYS_MS, 0), LowestCursor(w.db, account)));
    }
  }

  lemma CreateKeepsQuota(cfg: Config, w: World, account: AccountId, vault: VaultId)
    requires DbOk(cfg.limits, w.db) && WithinQuota(cfg.quota, w.db)
    ensures WithinQuota(cfg.quota, OnCreate(cfg, w, account, vault).db)
  {
    if account !in w.db.accounts {
      EmptyAccountIsOk(cfg.limits, w.db, account, vault);
    }
  }

  lemma PushStepKeepsQuota(cfg: Config, w: World, device: DeviceId, envelopes: seq<Envelope>, clock: Clock)
    requires DbOk(cfg.limits, w.db) && WithinQuota(cfg.quota, w.db)
    ensures WithinQuota(cfg.quota, OnPush(cfg, w, device, envelopes, clock).db)
  {
    if SignedIn(w.db, device) {
      PushKeepsQuota(cfg.limits, cfg.quota, w.db, w.db.devices[device].account, device, envelopes, clock);
    }
  }

  lemma StepKeepsQuota(cfg: Config, w: World, op: Op)
    requires DbOk(cfg.limits, w.db) && WithinQuota(cfg.quota, w.db)
    ensures WithinQuota(cfg.quota, Apply(cfg, w, op).db)
  {
    match op
    case Create(account, vault) => CreateKeepsQuota(cfg, w, account, vault);
    case Join(account, device, reader) =>
    case Push(device, envelopes, clock) => PushStepKeepsQuota(cfg, w, device, envelopes, clock);
    case Pull(device, limit, now) => PullsChangeNoAccount(cfg, w, device, 0, limit, true, now);
    case PullFrom(device, since, limit, manifests, now) =>
      PullsChangeNoAccount(cfg, w, device, since, limit, manifests, now);
    case ShutOut(asker, device, now) => ShutOutKeepsQuota(cfg, w, asker, device, now);
    case Purge(account, now) => PurgeKeepsQuota(cfg, w, account, now);
  }

  /** However devices push, no account and not all of them together outgrow what they may hold. */
  lemma {:induction false} QuotasHoldOverRuns(cfg: Config, w: World, ops: seq<Op>)
    requires DbOk(cfg.limits, w.db) && WithinQuota(cfg.quota, w.db)
    ensures WithinQuota(cfg.quota, Run(cfg, w, ops).db)
    decreases |ops|
  {
    if ops != [] {
      StepKeepsQuota(cfg, w, ops[0]);
      QuotasHoldOverRuns(cfg, Apply(cfg, w, ops[0]), ops[1..]);
    }
  }

  // ---- Whoever is shut out ----

  lemma StepKeepsShutOut(cfg: Config, w: World, op: Op, device: DeviceId)
    requires DbOk(cfg.limits, w.db) && device in w.db.devices && w.db.devices[device].revokedMs.Some?
    ensures
      var after := Apply(cfg, w, op).db.devices;
      device in after && after[device] == w.db.devices[device]
  {
    match op
    case Push(other, envelopes, clock) => PushStep(cfg, w, other, envelopes, clock);
    case PullFrom(other, since, limit, manifests, now) =>
      if SignedIn(w.db, other) && other !in w.clients {
        var _ := PullFromStep(cfg, w, other, since, limit, manifests, now);
      }
    case ShutOut(asker, other, now) =>
      if SignedIn(w.db, asker) {
        RevokesExactlyWhen(w.db, w.db.devices[asker].account, other, now);
      }
    case _ =>
  }

  /** Who asks. */
  predicate AskedBy(op: Op, device: DeviceId) {
    match op
    case Push(asker, _, _) => asker == device
    case Pull(asker, _, _) => asker == device
    case PullFrom(asker, _, _, _, _) => asker == device
    case ShutOut(asker, _, _) => asker == device
    case _ => false
  }

  /** A device that is shut out stays out: whatever it asks for from then on changes nothing. */
  lemma {:induction false} ShutOutStaysOut(cfg: Config, w: World, ops: seq<Op>, device: DeviceId, op: Op)
    requires DbOk(cfg.limits, w.db) && device in w.db.devices && w.db.devices[device].revokedMs.Some?
    requires AskedBy(op, device)
    ensures
      var later := Run(cfg, w, ops);
      && device in later.db.devices && later.db.devices[device] == w.db.devices[device]
      && Apply(cfg, later, op) == later
    decreases |ops|
  {
    if ops != [] {
      StepKeepsShutOut(cfg, w, ops[0], device);
      ShutOutStaysOut(cfg, Apply(cfg, w, ops[0]), ops[1..], device, op);
    }
  }

  // ---- Somebody is always let in ----

  lemma StepLeavesSomebody(cfg: Config, w: World, op: Op, account: AccountId)
    requires DbOk(cfg.limits, w.db)
    requires exists d :: Unrevoked(w.db, account, d)
    ensures exists d :: Unrevoked(Apply(cfg, w, op).db, account, d)
  {
    var d :| Unrevoked(w.db, account, d);
    var after := Apply(cfg, w, op);
    match op
    case ShutOut(asker, device, now) =>
      if SignedIn(w.db, asker) {
        RevokesExactlyWhen(w.db, w.db.devices[asker].account, device, now);
        if device == d && !Unrevoked(after.db, account, d) {
          var other :| other != device && Unrevoked(w.db, account, other);
          assert Unrevoked(after.db, account, other);
        } else {
          assert Unrevoked(after.db, account, d);
        }
      }
    case _ => assert Unrevoked(after.db, account, d);
  }

  /** An account with a device that is not revoked keeps one, whoever asks for what. */
  lemma {:induction false} SomebodyIsAlwaysLetIn(cfg: Config, w: World, ops: seq<Op>, account: AccountId)
    requires DbOk(cfg.limits, w.db)
    requires exists d :: Unrevoked(w.db, account, d)
    ensures exists d :: Unrevoked(Run(cfg, w, ops).db, account, d)
    decreases |ops|
  {
    if ops == [] {
      assert Run(cfg, w, ops) == w;
    } else {
      var next := Apply(cfg, w, ops[0]);
      StepLeavesSomebody(cfg, w, ops[0], account);
      SomebodyIsAlwaysLetIn(cfg, next, ops[1..], account);
      var d :| Unrevoked(Run(cfg, next, ops[1..]).db, account, d);
      assert Unrevoked(Run(cfg, w, ops).db, account, d);
    }
  }
}
