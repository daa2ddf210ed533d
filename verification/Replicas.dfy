/**
  What devices can rely on: that they have what the server holds up to where
  they have read, that no tombstone goes before they have seen it, and that no
  update of theirs is lost.
 */
module Replicas {
  import opened Basics
  import opened Wrappers
  import opened Mailbox
  import opened Pushing
  import opened Paging
  import opened Housekeeping
  import opened Runs

  // ---- Replica agreement ----

  /**
    What readers are held to have. Everything the server holds; or, of those
    that are let in, the tombstones; or, of those, only to have nothing
    undeleted that has a tombstone; or, of one, what is numbered past a number.
   */
  datatype Extent = Everything | TombstonesOnly | DeletionsOnly | NumberedPast(reader: DeviceId, floor: nat)

  predicate CanSee(c: Client, row: Row) {
    c.manifests || !row.kind.Manifest?
  }

  predicate Has(vault: VaultId, c: Client, id: RecordId, row: Row) {
    id in c.inbox && c.inbox[id] == ToEnvelope(vault, id, row)
  }

  /** What a reader is held to know of an account. */
  predicate Owed(x: Extent, c: Client, row: Row) {
    row.seqNo <= c.cursor && CanSee(c, row) &&
    match x
    case Everything => true
    case NumberedPast(_, floor) => row.seqNo > floor
    case _ => row.deleted
  }

  predicate Knows(x: Extent, vault: VaultId, c: Client, id: RecordId, row: Row) {
    if x.DeletionsOnly? then id in c.inbox ==> c.inbox[id].deleted else Has(vault, c, id, row)
  }

  /** What is held up to the reader's cursor that it can see, it knows. */
  ghost predicate KnowsUpToCursor(x: Extent, a: AccountRow, c: Client) {
    forall id :: id in a.records && Owed(x, c, a.records[id]) ==> Knows(x, a.vault, c, id, a.records[id])
  }

  /** The server never thinks a reader has read further than it has. */
  predicate NotAhead(x: Extent, a: AccountRow, d: DeviceRow, c: Client) {
    (x.NumberedPast? || d.cursor <= c.cursor) && c.cursor <= a.seqNo
  }

  ghost predicate InStep(x: Extent, a: AccountRow, d: DeviceRow, c: Client) {
    NotAhead(x, a, d, c) && KnowsUpToCursor(x, a, c)
  }

  /** The readers it is about. */
  predicate Reads(x: Extent, w: World, d: DeviceId) {
    && d in w.clients && d in w.db.devices && w.db.devices[d].account in w.db.accounts
    && match x
       case Everything => true
       case NumberedPast(reader, _) => d == reader
       case _ => w.db.devices[d].revokedMs.None?
  }

  function AccountOf(w: World, d: DeviceId): AccountRow
    requires d in w.db.devices && w.db.devices[d].account in w.db.accounts
  {
    w.db.accounts[w.db.devices[d].account]
  }

  ghost predicate AllInStep(x: Extent, w: World) {
    forall d {:trigger Reads(x, w, d)} :: Reads(x, w, d) ==> InStep(x, AccountOf(w, d), w.db.devices[d], w.clients[d])
  }

  lemma {:induction false} ReceiveKeepsLast(inbox: map<RecordId, Envelope>, envelopes: seq<Envelope>, id: RecordId)
    ensures
      var after := Receive(inbox, envelopes);
      if exists e :: e in envelopes && e.id == id
      then id in after && after[id] in envelopes && after[id].id == id
      else (id in after <==> id in inbox) && (id in inbox ==> after[id] == inbox[id])
  {
    if envelopes != [] {
      var n := |envelopes| - 1;
      ReceiveKeepsLast(inbox, envelopes[..n], id);
      assert envelopes == envelopes[..n] + [envelopes[n]];
    }
  }

  /** Growth past every cursor handed out leaves readers where they are. */
  lemma PushKeepsInStep(
    x: Extent, a: AccountRow, d: DeviceRow, c: Client, envelopes: seq<Envelope>, device: DeviceId, clock: Clock)
    requires InStep(x, a, d, c)
    ensures InStep(x, OfferAll(a, envelopes, device, clock).account, d, c)
  {
    HeldIsOldOrNew(a, envelopes, device, clock);
  }

  function Entry(inbox: map<RecordId, Envelope>, id: RecordId): Option<Envelope> {
    if id in inbox then Some(inbox[id]) else None
  }

  /** A page brings nothing about a record numbered up to where the reader has read. */
  lemma PageSkipsRead(limits: Limits, a: AccountRow, c: Client, limit: nat, id: RecordId)
    requires AccountOk(limits, a)
    requires id in a.records && a.records[id].seqNo <= c.cursor
    ensures
      var page := Page(limits, a.vault, a.records, c.cursor, limit, c.manifests);
      Entry(Receive(c.inbox, page.envelopes), id) == Entry(c.inbox, id)
  {
    var page := Page(limits, a.vault, a.records, c.cursor, limit, c.manifests);
    ReceiveKeepsLast(c.inbox, page.envelopes, id);
    if e :| e in page.envelopes && e.id == id {
      PageDelivers(limits, a.vault, a.records, c.cursor, limit, c.manifests, e);
    }
  }

  /** A page brings what its reader had not read past, as it is held. */
  lemma PageBrings(limits: Limits, a: AccountRow, c: Client, limit: nat, id: RecordId)
    requires AccountOk(limits, a)
    requires id in a.records && c.cursor < a.records[id].seqNo && CanSee(c, a.records[id])
    requires a.records[id].seqNo <= Page(limits, a.vault, a.records, c.cursor, limit, c.manifests).cursor
    ensures
      var page := Page(limits, a.vault, a.records, c.cursor, limit, c.manifests);
      Entry(Receive(c.inbox, page.envelopes), id) == Some(ToEnvelope(a.vault, id, a.records[id]))
  {
    var page := Page(limits, a.vault, a.records, c.cursor, limit, c.manifests);
    var inbox := Receive(c.inbox, page.envelopes);
    PageDelivers(limits, a.vault, a.records, c.cursor, limit, c.manifests, ToEnvelope(a.vault, id, a.records[id]));
    ReceiveKeepsLast(c.inbox, page.envelopes, id);
    PageDelivers(limits, a.vault, a.records, c.cursor, limit, c.manifests, inbox[id]);
  }

  /** A page brings its reader in step up to the page's cursor. */
  lemma PageKeepsInStep(x: Extent, limits: Limits, a: AccountRow, d: DeviceRow, c: Client, limit: nat)
    requires AccountOk(limits, a)
    requires InStep(x, a, d, c)
    ensures
      var page := Page(limits, a.vault, a.records, c.cursor, limit, c.manifests);
      && c.cursor <= page.cursor <= a.seqNo
      && KnowsUpToCursor(x, a, Client(page.cursor, c.manifests, Receive(c.inbox, page.envelopes)))
  {
    var page := Page(limits, a.vault, a.records, c.cursor, limit, c.manifests);
    var after := Client(page.cursor, c.manifests, Receive(c.inbox, page.envelopes));
    PageCursor(limits, a.vault, a.records, c.cursor, limit, c.manifests);
    forall id | id in a.records && Owed(x, after, a.records[id])
      ensures Knows(x, a.vault, after, id, a.records[id])
    {
      if a.records[id].seqNo <= c.cursor {
        PageSkipsRead(limits, a, c, limit, id);
        assert Knows(x, a.vault, c, id, a.records[id]);
      } else {
        PageBrings(limits, a, c, limit, id);
      }
    }
  }

  /** What is forgotten takes nothing from a reader. */
  lemma ForgettingKeepsInStep(x: Extent, a: AccountRow, gone: set<RecordId>, d: DeviceRow, c: Client)
    requires gone <= a.records.Keys && InStep(x, a, d, c)
    ensures InStep(x, Without(a, gone), d, c)
  {
  }

  /** It is enough to look at the readers of the account that changed. */
  lemma AccountChangeKeepsInStep(x: Extent, w: World, account: AccountId, a: AccountRow)
    requires AllInStep(x, w)
    requires account in w.db.accounts
    requires forall d {:trigger Reads(x, w, d)} ::
      Reads(x, w, d) && w.db.devices[d].account == account ==> InStep(x, a, w.db.devices[d], w.clients[d])
    ensures AllInStep(x, SetAccount(w, account, a))
  {
    var after := SetAccount(w, account, a);
    forall d {:trigger Reads(x, after, d)} | Reads(x, after, d)
      ensures InStep(x, AccountOf(after, d), after.db.devices[d], after.clients[d])
    {
      assert Reads(x, w, d);
    }
  }

  lemma ReaderChangeKeepsInStep(x: Extent, w: World, device: DeviceId, cursor: nat, now: nat, c: Client)
    requires AllInStep(x, w) && device in w.db.devices && w.db.devices[device].account in w.db.accounts
    requires Reads(x, w, device) ==>
      var a := AccountOf(w, device);
      cursor <= c.cursor && NotAhead(x, a, w.db.devices[device], c) && KnowsUpToCursor(x, a, c)
    requires device in w.clients
    ensures AllInStep(x, World(Seen(w.db, device, cursor, now), w.clients[device := c]))
  {
    var after := World(Seen(w.db, device, cursor, now), w.clients[device := c]);
    forall d {:trigger Reads(x, after, d)} | Reads(x, after, d)
      ensures InStep(x, AccountOf(after, d), after.db.devices[d], after.clients[d])
    {
      assert d != device ==> Reads(x, w, d);
      assert d == device && device in w.clients ==> Reads(x, w, d);
    }
  }

  lemma PageTakenKeepsInStep(x: Extent, limits: Limits, w: World, device: DeviceId, asked: nat, now: nat)
    requires AllInStep(x, w) && device in w.clients
    requires device in w.db.devices && w.db.devices[device].account in w.db.accounts
    requires AccountOk(limits, AccountOf(w, device))
    ensures AllInStep(x, PageTaken(limits, w, device, asked, now))
  {
    var a, c := w.db.accounts[w.db.devices[device].account], w.clients[device];
    var page := Page(limits, a.vault, a.records, c.cursor, asked, c.manifests);
    if Reads(x, w, device) {
      PageKeepsInStep(x, limits, a, w.db.devices[device], c, asked);
    }
    ReaderChangeKeepsInStep(x, w, device, Min(page.cursor, a.seqNo), now,
      Client(page.cursor, c.manifests, Receive(c.inbox, page.envelopes)));
  }

  lemma PullStepKeepsInStep(x: Extent, cfg: Config, w: World, device: DeviceId, limit: Option<nat>, now: nat)
    requires DbOk(cfg.limits, w.db) && AllInStep(x, w)
    ensures AllInStep(x, OnPull(cfg, w, device, limit, now))
  {
    if SignedIn(w.db, device) && device in w.clients {
      PullStep(cfg, w, device, limit, now);
      PageTakenKeepsInStep(x, cfg.limits, w, device, Asked(cfg.limits, limit), now);
    }
  }

  lemma OffersKeepInStep(
    x: Extent, w: World, account: AccountId, envelopes: seq<Envelope>, device: DeviceId, clock: Clock)
    requires AllInStep(x, w) && account in w.db.accounts
    ensures AllInStep(x, SetAccount(w, account, OfferAll(w.db.accounts[account], envelopes, device, clock).account))
  {
    var after := OfferAll(w.db.accounts[account], envelopes, device, clock).account;
    forall d {:trigger Reads(x, w, d)} | Reads(x, w, d) && w.db.devices[d].account == account
      ensures InStep(x, after, w.db.devices[d], w.clients[d])
    {
      PushKeepsInStep(x, w.db.accounts[account], w.db.devices[d], w.clients[d], envelopes, device, clock);
    }
    AccountChangeKeepsInStep(x, w, account, after);
  }

  lemma PushStepKeepsInStep(x: Extent, cfg: Config, w: World, device: DeviceId, envelopes: seq<Envelope>, clock: Clock)
    requires DbOk(cfg.limits, w.db) && AllInStep(x, w)
    ensures AllInStep(x, OnPush(cfg, w, device, envelopes, clock))
  {
    PushStep(cfg, w, device, envelopes, clock);
    if SignedIn(w.db, device) {
      OffersKeepInStep(x, w, w.db.devices[device].account, envelopes, device, clock);
    }
  }

  lemma ForgetStepKeepsInStep(x: Extent, w: World, account: AccountId, gone: set<RecordId>)
    requires AllInStep(x, w) && account in w.db.accounts && gone <= w.db.accounts[account].records.Keys
    ensures AllInStep(x, w.(db := Forget(w.db, account, gone)))
  {
    var after := Without(w.db.accounts[account], gone);
    forall d {:trigger Reads(x, w, d)} | Reads(x, w, d) && w.db.devices[d].account == account
      ensures InStep(x, after, w.db.devices[d], w.clients[d])
    {
      ForgettingKeepsInStep(x, w.db.accounts[account], gone, w.db.devices[d], w.clients[d]);
    }
    AccountChangeKeepsInStep(x, w, account, after);
  }

  lemma MarkKeepsInStep(x: Extent, w: World, device: DeviceId, now: nat)
    requires AllInStep(x, w) && device in w.db.devices
    ensures AllInStep(x, w.(db := Mark(w.db, device, now)))
  {
    var after := w.(db := Mark(w.db, device, now));
    forall d {:trigger Reads(x, after, d)} | Reads(x, after, d)
      ensures InStep(x, AccountOf(after, d), after.db.devices[d], after.clients[d])
    {
      assert Reads(x, w, d);
    }
  }

  lemma ShutOutStepKeepsInStep(x: Extent, cfg: Config, w: World, asker: DeviceId, device: DeviceId, now: nat)
    requires DbOk(cfg.limits, w.db) && AllInStep(x, w)
    ensures AllInStep(x, OnShutOut(cfg, w, asker, device, now))
  {
    ShutOutStep(cfg, w, asker, device, now);
    if SignedIn(w.db, asker) && device in w.db.devices {
      var account := w.db.devices[asker].account;
      MarkKeepsInStep(x, w, device, now);
      ForgetStepKeepsInStep(x, w.(db := Mark(w.db, device, now)), account,
        ManifestsOf(w.db.accounts[account].records, device));
    }
  }

  lemma PurgeStepKeepsInStep(x: Extent, cfg: Config, w: World, account: AccountId, now: nat)
    requires DbOk(cfg.limits, w.db) && AllInStep(x, w)
    ensures AllInStep(x, OnPurge(cfg, w, account, now))
  {
    if account in w.db.accounts {
      ForgetStepKeepsInStep(x, w, account, Tombstones(w.db.accounts[account].records,
        Max(now - NINETY_DAYS_MS, 0), LowestCursor(w.db, account)));
    }
  }

  lemma SeenKeepsInStep(x: Extent, w: World, device: DeviceId, cursor: nat, now: nat)
    requires AllInStep(x, w) && device !in w.clients
    ensures AllInStep(x, w.(db := Seen(w.db, device, cursor, now)))
  {
    var after := w.(db := Seen(w.db, device, cursor, now));
    forall d {:trigger Reads(x, after, d)} | Reads(x, after, d)
      ensures InStep(x, AccountOf(after, d), after.db.devices[d], after.clients[d])
    {
      assert Reads(x, w, d);
    }
  }

  /** However far anybody else claims to have read, readers stay in step. */
  lemma OtherPullKeepsInStep(
    x: Extent, cfg: Config, w: World, device: DeviceId, since: nat, limit: Option<nat>, manifests: bool, now: nat)
    requires DbOk(cfg.limits, w.db) && AllInStep(x, w)
    ensures AllInStep(x, OnPullFrom(cfg, w, device, since, limit, manifests, now))
  {
    if SignedIn(w.db, device) && device !in w.clients {
      var cursor := PullFromStep(cfg, w, device, since, limit, manifests, now);
      SeenKeepsInStep(x, w, device, cursor, now);
    }
  }

  lemma CreateStepKeepsInStep(x: Extent, cfg: Config, w: World, account: AccountId, vault: VaultId)
    requires DbOk(cfg.limits, w.db) && AllInStep(x, w)
    ensures AllInStep(x, OnCreate(cfg, w, account, vault))
  {
    var after := OnCreate(cfg, w, account, vault);
    forall d {:trigger Reads(x, after, d)} | Reads(x, after, d)
      ensures InStep(x, AccountOf(after, d), after.db.devices[d], after.clients[d])
    {
      assert Reads(x, w, d);
    }
  }

  lemma StepKeepsInStep(x: Extent, cfg: Config, w: World, op: Op)
    requires DbOk(cfg.limits, w.db) && AllInStep(x, w)
    ensures AllInStep(x, Apply(cfg, w, op))
  {
    match op
    case Create(account, vault) => CreateStepKeepsInStep(x, cfg, w, account, vault);
    case Join(account, device, reader) => JoinStepKeepsInStep(x, cfg, w, account, device, reader);
    case Push(device, envelopes, clock) => PushStepKeepsInStep(x, cfg, w, device, envelopes, clock);
    case Pull(device, limit, now) => PullStepKeepsInStep(x, cfg, w, device, limit, now);
    case PullFrom(device, since, limit, manifests, now) =>
      OtherPullKeepsInStep(x, cfg, w, device, since, limit, manifests, now);
    case ShutOut(asker, device, now) => ShutOutStepKeepsInStep(x, cfg, w, asker, device, now);
    case Purge(account, now) => PurgeStepKeepsInStep(x, cfg, w, account, now);
  }

  /** A newcomer has read nothing, and nothing is numbered 0. */
  lemma NewcomerIsInStep(x: Extent, limits: Limits, a: AccountRow, d: DeviceRow, manifests: bool)
    requires AccountOk(limits, a) && d.cursor == 0
    ensures InStep(x, a, d, Client(0, manifests, map[]))
  {
  }

  function Joined(w: World, account: AccountId, device: DeviceId, reader: Option<bool>): World
    requires device !in w.db.devices
  {
    World(AddDevice(w.db, account, device),
          if reader.Some? then w.clients[device := Client(0, reader.value, map[])] else w.clients)
  }

  lemma NewDeviceKeepsInStep(x: Extent, w: World, account: AccountId, device: DeviceId, reader: Option<bool>)
    requires AllInStep(x, w) && device !in w.db.devices && account in w.db.accounts
    requires reader.Some? ==>
      InStep(x, w.db.accounts[account], DeviceRow(account, 0, None, None), Client(0, reader.value, map[]))
    requires reader.None? ==> device !in w.clients
    ensures AllInStep(x, Joined(w, account, device, reader))
  {
    var after := Joined(w, account, device, reader);
    forall d {:trigger Reads(x, after, d)} | Reads(x, after, d)
      ensures InStep(x, AccountOf(after, d), after.db.devices[d], after.clients[d])
    {
      assert d != device ==> Reads(x, w, d);
    }
  }

  lemma JoinStepKeepsInStep(
    x: Extent, cfg: Config, w: World, account: AccountId, device: DeviceId, reader: Option<bool>)
    requires DbOk(cfg.limits, w.db) && AllInStep(x, w)
    ensures AllInStep(x, OnJoin(cfg, w, account, device, reader))
  {
    if device !in w.db.devices && device !in w.clients && account in w.db.accounts {
      if reader.Some? {
        NewcomerIsInStep(x, cfg.limits, w.db.accounts[account], DeviceRow(account, 0, None, None), reader.value);
      }
      NewDeviceKeepsInStep(x, w, account, device, reader);
    }
  }

  lemma {:induction false} RunKeepsInStep(x: Extent, cfg: Config, w: World, ops: seq<Op>)
    requires DbOk(cfg.limits, w.db) && AllInStep(x, w)
    ensures AllInStep(x, Run(cfg, w, ops))
    decreases |ops|
  {
    if ops != [] {
      StepKeepsInStep(x, cfg, w, ops[0]);
      RunKeepsInStep(x, cfg, Apply(cfg, w, ops[0]), ops[1..]);
    }
  }

  lemma EmptyIsInStep(x: Extent)
    ensures AllInStep(x, EMPTY)
  {
  }

  // ---- Readers are known ----

  /** No device is ever deleted, and no account. */
  ghost predicate AllKnown(w: World) {
    forall d :: d in w.clients ==> d in w.db.devices && w.db.devices[d].account in w.db.accounts
  }

  lemma StepKeepsKnown(cfg: Config, w: World, op: Op)
    requires DbOk(cfg.limits, w.db) && AllKnown(w)
    ensures AllKnown(Apply(cfg, w, op))
  {
    match op
    case Create(account, vault) =>
    case Join(account, device, reader) =>
    case Push(device, envelopes, clock) => PushStep(cfg, w, device, envelopes, clock);
    case Pull(device, limit, now) =>
      if SignedIn(w.db, device) && device in w.clients {
        PullStep(cfg, w, device, limit, now);
      }
    case PullFrom(device, since, limit, manifests, now) =>
      if SignedIn(w.db, device) && device !in w.clients {
        var _ := PullFromStep(cfg, w, device, since, limit, manifests, now);
      }
    case ShutOut(asker, device, now) => ShutOutStep(cfg, w, asker, device, now);
    case Purge(account, now) =>
  }

  lemma {:induction false} RunKeepsKnown(cfg: Config, w: World, ops: seq<Op>)
    requires DbOk(cfg.limits, w.db) && AllKnown(w)
    ensures AllKnown(Run(cfg, w, ops))
    decreases |ops|
  {
    if ops != [] {
      StepKeepsKnown(cfg, w, ops[0]);
      RunKeepsKnown(cfg, Apply(cfg, w, ops[0]), ops[1..]);
    }
  }

  /**
    Replica agreement. Whatever devices push, pull, shut out and purge in
    whatever order, each honest device has received every record the server
    holds, up to the device's cursor and as far as the device can see, in
    exactly the version held.
   */
  lemma ReplicaAgreement(cfg: Config, ops: seq<Op>, device: DeviceId, id: RecordId)
    ensures
      var w := Run(cfg, EMPTY, ops);
      device in w.clients ==>
        && device in w.db.devices && w.db.devices[device].account in w.db.accounts
        && var a, c := AccountOf(w, device), w.clients[device];
           && c.cursor <= a.seqNo
           && (id in a.records && a.records[id].seqNo <= c.cursor && (c.manifests || !a.records[id].kind.Manifest?)
               ==> id in c.inbox && c.inbox[id] == ToEnvelope(a.vault, id, a.records[id]))
  {
    EmptyIsInStep(Everything);
    RunKeepsInStep(Everything, cfg, EMPTY, ops);
    RunKeepsKnown(cfg, EMPTY, ops);
    assert device in Run(cfg, EMPTY, ops).clients ==> Reads(Everything, Run(cfg, EMPTY, ops), device);
  }

  // ---- No lost update ----

  /** To a later state of an account: the number only rises, and a version held is old or newly numbered. */
  ghost predicate Later(before: AccountRow, after: AccountRow) {
    && after.vault == before.vault
    && before.seqNo <= after.seqNo
    && forall id :: id in after.records ==>
         || after.records[id].seqNo > before.seqNo
         || (id in before.records && after.records[id] == before.records[id])
  }

  ghost predicate AllLater(before: Db, after: Db) {
    forall a :: a in before.accounts ==> a in after.accounts && Later(before.accounts[a], after.accounts[a])
  }

  lemma SetAccountIsLater(w: World, account: AccountId, a: AccountRow)
    requires account in w.db.accounts && Later(w.db.accounts[account], a)
    ensures AllLater(w.db, SetAccount(w, account, a).db)
  {
  }

  lemma PushIsLater(cfg: Config, w: World, device: DeviceId, envelopes: seq<Envelope>, clock: Clock)
    requires DbOk(cfg.limits, w.db)
    ensures AllLater(w.db, OnPush(cfg, w, device, envelopes, clock).db)
  {
    PushStep(cfg, w, device, envelopes, clock);
    if SignedIn(w.db, device) {
      var account := w.db.devices[device].account;
      HeldIsOldOrNew(w.db.accounts[account], envelopes, device, clock);
      SetAccountIsLater(w, account, OfferAll(w.db.accounts[account], envelopes, device, clock).account);
    }
  }

  lemma ForgettingIsLater(db: Db, account: AccountId, gone: set<RecordId>)
    requires account in db.accounts && gone <= db.accounts[account].records.Keys
    ensures AllLater(db, Forget(db, account, gone))
  {
  }

  lemma ShutOutIsLater(cfg: Config, w: World, asker: DeviceId, device: DeviceId, now: nat)
    requires DbOk(cfg.limits, w.db)
    ensures AllLater(w.db, OnShutOut(cfg, w, asker, device, now).db)
  {
    ShutOutStep(cfg, w, asker, device, now);
    if SignedIn(w.db, asker) && device in w.db.devices {
      var account := w.db.devices[asker].account;
      ForgettingIsLater(Mark(w.db, device, now), account, ManifestsOf(w.db.accounts[account].records, device));
    }
  }

  lemma PurgeIsLater(cfg: Config, w: World, account: AccountId, now: nat)
    requires DbOk(cfg.limits, w.db)
    ensures AllLater(w.db, OnPurge(cfg, w, account, now).db)
  {
    if account in w.db.accounts {
      ForgettingIsLater(w.db, account, Tombstones(w.db.accounts[account].records,
        Max(now - NINETY_DAYS_MS, 0), LowestCursor(w.db, account)));
    }
  }

  lemma StepIsLater(cfg: Config, w: World, op: Op)
    requires DbOk(cfg.limits, w.db)
    ensures AllLater(w.db, Apply(cfg, w, op).db)
  {
    match op
    case Create(account, vault) =>
    case Join(account, device, reader) =>
    case Push(device, envelopes, clock) => PushIsLater(cfg, w, device, envelopes, clock);
    case Pull(device, limit, now) => PullsChangeNoAccount(cfg, w, device, 0, limit, true, now);
    case PullFrom(device, since, limit, manifests, now) =>
      PullsChangeNoAccount(cfg, w, device, since, limit, manifests, now);
    case ShutOut(asker, device, now) => ShutOutIsLater(cfg, w, asker, device, now);
    case Purge(account, now) => PurgeIsLater(cfg, w, account, now);
  }

  lemma {:induction false} RunIsLater(cfg: Config, w: World, ops: seq<Op>)
    requires DbOk(cfg.limits, w.db)
    ensures AllLater(w.db, Run(cfg, w, ops).db)
    decreases |ops|
  {
    if ops != [] {
      var next := Apply(cfg, w, ops[0]);
      StepIsLater(cfg, w, ops[0]);
      RunIsLater(cfg, next, ops[1..]);
      LaterIsTransitive(w.db, next.db, Run(cfg, next, ops[1..]).db);
    }
  }

  lemma LaterIsTransitive(one: Db, two: Db, three: Db)
    requires AllLater(one, two) && AllLater(two, three)
    ensures AllLater(one, three)
  {
  }

  /**
    A number names one version for good: whatever is held under it, now and
    after anything that happens later, is the same record in the same version.
    So a push that is taken on a base replaces exactly the version that was
    numbered so - there is no ABA.
   */
  lemma NumberNamesOneVersion(
    cfg: Config, w: World, ops: seq<Op>, account: AccountId, i: RecordId, j: RecordId)
    requires DbOk(cfg.limits, w.db) && account in w.db.accounts
    requires i in w.db.accounts[account].records
    ensures
      var now, later := w.db.accounts[account], Run(cfg, w, ops).db.accounts;
      && account in later
      && (j in later[account].records && later[account].records[j].seqNo == now.records[i].seqNo
          ==> i == j && later[account].records[j] == now.records[i])
  {
    RunIsLater(cfg, w, ops);
    assert AccountOk(cfg.limits, w.db.accounts[account]);
    assert !Clash(w.db.accounts[account].records, i, j);
  }

  /** Envelope `i` of this push updates a held record, based on `base`, and is taken. */
  ghost predicate Updates(cfg: Config, w: World, op: Op, i: nat, account: AccountId, id: RecordId, base: nat)
    requires DbOk(cfg.limits, w.db)
  {
    && op.Push? && i < |op.envelopes|
    && SignedIn(w.db, op.device) && w.db.devices[op.device].account == account
    && PushWithin(cfg.limits, cfg.quota, w.db, account, op.device, op.envelopes, op.clock).1.Success?
    && op.envelopes[i].id == id && op.envelopes[i].baseSeq == base
    && id in OfferAll(w.db.accounts[account], op.envelopes[..i], op.device, op.clock).account.records
    && OfferAll(w.db.accounts[account], op.envelopes, op.device, op.clock).outcomes[i].Taken?
  }

  lemma UpdatedIsNewer(limits: Limits, a: AccountRow, envelopes: seq<Envelope>, i: nat, device: DeviceId, clock: Clock)
    requires AccountOk(limits, a) && i < |envelopes|
    requires envelopes[i].id in OfferAll(a, envelopes[..i], device, clock).account.records
    requires OfferAll(a, envelopes, device, clock).outcomes[i].Taken?
    requires forall k :: 0 <= k < |envelopes| ==> 1 <= |envelopes[k].blob| <= limits.maxBlobBytes
    ensures
      var after := OfferAll(a, envelopes, device, clock).account;
      var id := envelopes[i].id;
      id in after.records && envelopes[i].baseSeq < after.records[id].seqNo <= after.seqNo
  {
    OutcomeAt(a, envelopes, i, device, clock);
    OfferAllKeepsOk(limits, a, envelopes[..i], device, clock);
    OfferAllKeepsOk(limits, a, envelopes, device, clock);
    TakenIsNewer(a, envelopes, i, |envelopes|, device, clock);
    assert envelopes[..|envelopes|] == envelopes;
  }

  lemma NewerIsNotReplaced(
    first: AccountRow, a: AccountRow, envelopes: seq<Envelope>, j: nat, device: DeviceId, clock: Clock,
    id: RecordId, base: nat)
    requires Later(first, a)
    requires id in first.records && base < first.records[id].seqNo <= first.seqNo
    requires j < |envelopes| && envelopes[j].id == id && envelopes[j].baseSeq == base
    requires id in OfferAll(a, envelopes[..j], device, clock).account.records
    ensures OfferAll(a, envelopes, device, clock).outcomes[j].Conflict?
  {
    OutcomeAt(a, envelopes, j, device, clock);
    HeldIsOldOrNew(a, envelopes[..j], device, clock);
  }

  /**
    No lost update. Once an update based on some version is taken, no other
    update of that record based on the same version ever is - not in a later
    push, from whatever device, and not after deletes and purges.
   */
  lemma AtMostOneUpdatePerBase(
    cfg: Config, w: World, first: Op, i: nat, between: seq<Op>, second: Op, j: nat,
    account: AccountId, id: RecordId, base: nat)
    requires DbOk(cfg.limits, w.db)
    requires Updates(cfg, w, first, i, account, id, base)
    ensures !Updates(cfg, Run(cfg, Apply(cfg, w, first), between), second, j, account, id, base)
  {
    var a := w.db.accounts[account];
    var next := Apply(cfg, w, first);
    var later := Run(cfg, next, between);
    var after := OfferAll(a, first.envelopes, first.device, first.clock).account;
    PushTaken(cfg, w, first.device, first.envelopes, first.clock);
    UpdatedIsNewer(cfg.limits, a, first.envelopes, i, first.device, first.clock);
    RunIsLater(cfg, next, between);
    if Updates(cfg, later, second, j, account, id, base) {
      NewerIsNotReplaced(after, later.db.accounts[account], second.envelopes, j, second.device, second.clock, id, base);
    }
  }

  lemma PushTaken(cfg: Config, w: World, device: DeviceId, envelopes: seq<Envelope>, clock: Clock)
    requires DbOk(cfg.limits, w.db) && SignedIn(w.db, device)
    requires PushWithin(cfg.limits, cfg.quota, w.db, w.db.devices[device].account, device, envelopes, clock).1.Success?
    ensures
      var account := w.db.devices[device].account;
      && AccountOk(cfg.limits, w.db.accounts[account])
      && (forall k :: 0 <= k < |envelopes| ==> 1 <= |envelopes[k].blob| <= cfg.limits.maxBlobBytes)
      && OnPush(cfg, w, device, envelopes, clock)
         == SetAccount(w, account, OfferAll(w.db.accounts[account], envelopes, device, clock).account)
  {
    CheckedOneByOne(cfg.limits, w.db.accounts[w.db.devices[device].account].vault, envelopes);
  }
}
