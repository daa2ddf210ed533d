/**
  Where what is held and what is received comes from: over every run from an
  empty server, each version is the one some device of that account pushed,
  field by field, and that was accepted under the number it carries.
 */
module Origins {
  import opened Wrappers
  import opened Mailbox
  import opened Pushing
  import opened Paging
  import opened Runs
  import Replicas

  /** Request `i` pushed `x` as its envelope `k` for this account, and it was accepted under the number of `x`. */
  ghost predicate PushedAs(cfg: Config, ops: seq<Op>, i: nat, k: nat, account: AccountId, x: Envelope) {
    && i < |ops| && ops[i].Push? && k < |ops[i].envelopes|
    && var w, op := Run(cfg, EMPTY, ops[..i]), ops[i];
       && SignedIn(w.db, op.device) && w.db.devices[op.device].account == account
       && PushWithin(cfg.limits, cfg.quota, w.db, account, op.device, op.envelopes, op.clock).1.Success?
       && x.seqNo.Some?
       && OfferAll(w.db.accounts[account], op.envelopes, op.device, op.clock).outcomes[k] == Taken(x.seqNo.value)
       && Same(op.envelopes[k], x)
  }

  /** The same record in the same version, sealed the same. */
  predicate Same(e: Envelope, x: Envelope) {
    && e.id == x.id && e.vault == x.vault && e.kind == x.kind && e.updatedAt == x.updatedAt
    && e.deleted == x.deleted && e.nonce == x.nonce && e.blob == x.blob
  }

  ghost predicate ComesFrom(cfg: Config, ops: seq<Op>, account: AccountId, x: Envelope) {
    exists i: nat, k: nat :: PushedAs(cfg, ops, i, k, account, x)
  }

  ghost predicate Sourced(cfg: Config, ops: seq<Op>, account: AccountId, vault: VaultId, id: RecordId, x: Envelope) {
    x.id == id && x.vault == vault && x.seqNo == Some(x.baseSeq) && ComesFrom(cfg, ops, account, x)
  }

  ghost predicate HeldSourced(cfg: Config, ops: seq<Op>, account: AccountId, a: AccountRow) {
    forall id :: id in a.records ==>
      Sourced(cfg, ops, account, a.vault, id, ToEnvelope(a.vault, id, a.records[id]))
  }

  ghost predicate InboxSourced(
    cfg: Config, ops: seq<Op>, account: AccountId, vault: VaultId, inbox: map<RecordId, Envelope>) {
    forall id :: id in inbox ==> Sourced(cfg, ops, account, vault, id, inbox[id])
  }

  predicate Known(w: World, d: DeviceId) {
    d in w.db.devices && w.db.devices[d].account in w.db.accounts
  }

  ghost predicate ReaderSourced(cfg: Config, ops: seq<Op>, w: World, d: DeviceId)
    requires d in w.clients
  {
    Known(w, d) && InboxSourced(cfg, ops, w.db.devices[d].account, Replicas.AccountOf(w, d).vault, w.clients[d].inbox)
  }

  ghost predicate AllSourced(cfg: Config, ops: seq<Op>, w: World) {
    && (forall a {:trigger HeldSourced(cfg, ops, a, w.db.accounts[a])} ::
          a in w.db.accounts ==> HeldSourced(cfg, ops, a, w.db.accounts[a]))
    && (forall d {:trigger ReaderSourced(cfg, ops, w, d)} :: d in w.clients ==> ReaderSourced(cfg, ops, w, d))
  }

  // ---- One more request ----

  lemma LaterRequestsKeep(cfg: Config, ops: seq<Op>, op: Op, account: AccountId, x: Envelope)
    requires ComesFrom(cfg, ops, account, x)
    ensures ComesFrom(cfg, ops + [op], account, x)
  {
    var i: nat, k: nat :| PushedAs(cfg, ops, i, k, account, x);
    assert (ops + [op])[..i] == ops[..i];
    assert PushedAs(cfg, ops + [op], i, k, account, x);
  }

  lemma LaterRequestsKeepAll(cfg: Config, ops: seq<Op>, op: Op, w: World)
    requires AllSourced(cfg, ops, w)
    ensures AllSourced(cfg, ops + [op], w)
  {
    forall account, x | ComesFrom(cfg, ops, account, x)
      ensures ComesFrom(cfg, ops + [op], account, x)
    {
      LaterRequestsKeep(cfg, ops, op, account, x);
    }
    forall a {:trigger HeldSourced(cfg, ops + [op], a, w.db.accounts[a])} | a in w.db.accounts
      ensures HeldSourced(cfg, ops + [op], a, w.db.accounts[a])
    {
      assert HeldSourced(cfg, ops, a, w.db.accounts[a]);
    }
    forall d {:trigger ReaderSourced(cfg, ops + [op], w, d)} | d in w.clients
      ensures ReaderSourced(cfg, ops + [op], w, d)
    {
      assert ReaderSourced(cfg, ops, w, d);
    }
  }

  /** What a batch leaves held is what was, or one of its envelopes under the number it was taken with. */
  lemma {:induction false} HeldAfterBatch(
    a: AccountRow, envelopes: seq<Envelope>, device: DeviceId, clock: Clock, id: RecordId)
    requires id in OfferAll(a, envelopes, device, clock).account.records
    ensures
      var all := OfferAll(a, envelopes, device, clock);
      var x := ToEnvelope(a.vault, id, all.account.records[id]);
      || (id in a.records && all.account.records[id] == a.records[id])
      || exists k: nat :: k < |envelopes| && all.outcomes[k] == Taken(all.account.records[id].seqNo)
           && Same(envelopes[k].(vault := a.vault), x)
  {
    if envelopes != [] {
      var n := |envelopes| - 1;
      var all, earlier := OfferAll(a, envelopes, device, clock), OfferAll(a, envelopes[..n], device, clock);
      if all.outcomes[n].Taken? && envelopes[n].id == id {
        assert Same(envelopes[n].(vault := a.vault), ToEnvelope(a.vault, id, all.account.records[id]));
      } else {
        HeldAfterBatch(a, envelopes[..n], device, clock, id);
        assert forall k :: 0 <= k < n ==> all.outcomes[k] == earlier.outcomes[k] && envelopes[..n][k] == envelopes[k];
      }
    }
  }

  lemma PushIsSourced(
    cfg: Config, ops: seq<Op>, w: World, device: DeviceId, envelopes: seq<Envelope>, clock: Clock)
    requires w == Run(cfg, EMPTY, ops)
    requires SignedIn(w.db, device)
    requires
      PushWithin(cfg.limits, cfg.quota, w.db, w.db.devices[device].account, device, envelopes, clock).1.Success?
    requires
      var account := w.db.devices[device].account;
      HeldSourced(cfg, ops + [Push(device, envelopes, clock)], account, w.db.accounts[account])
    ensures
      var account := w.db.devices[device].account;
      var after := OfferAll(w.db.accounts[account], envelopes, device, clock).account;
      && after.vault == w.db.accounts[account].vault
      && HeldSourced(cfg, ops + [Push(device, envelopes, clock)], account, after)
  {
    var all := ops + [Push(device, envelopes, clock)];
    var account := w.db.devices[device].account;
    var a := w.db.accounts[account];
    var folded := OfferAll(a, envelopes, device, clock);
    HeldIsOldOrNew(a, envelopes, device, clock);
    NoneRefusedIsSound(cfg.limits, a.vault, envelopes);
    assert all[..|ops|] == ops && all[|ops|] == Push(device, envelopes, clock);
    forall id | id in folded.account.records
      ensures Sourced(cfg, all, account, a.vault, id, ToEnvelope(a.vault, id, folded.account.records[id]))
    {
      var x := ToEnvelope(a.vault, id, folded.account.records[id]);
      HeldAfterBatch(a, envelopes, device, clock, id);
      if id !in a.records || folded.account.records[id] != a.records[id] {
        var k: nat :| k < |envelopes| && folded.outcomes[k] == Taken(folded.account.records[id].seqNo)
          && Same(envelopes[k].(vault := a.vault), x);
        assert Sound(cfg.limits, a.vault, envelopes[k]);
        assert PushedAs(cfg, all, |ops|, k, account, x);
      }
    }
  }

  // ---- Steps ----

  /** Nothing held that was not held, and nothing received. */
  predicate OnlyLess(w: World, after: World) {
    && after.clients == w.clients
    && (forall d :: d in w.db.devices ==>
          d in after.db.devices && after.db.devices[d].account == w.db.devices[d].account)
    && (forall a :: a in w.db.accounts ==>
          a in after.db.accounts && after.db.accounts[a].vault == w.db.accounts[a].vault)
    && (forall a, id :: a in after.db.accounts && id in after.db.accounts[a].records ==>
          && a in w.db.accounts && id in w.db.accounts[a].records
          && after.db.accounts[a].records[id] == w.db.accounts[a].records[id])
  }

  lemma LessIsSourced(cfg: Config, ops: seq<Op>, w: World, after: World)
    requires AllSourced(cfg, ops, w) && OnlyLess(w, after)
    ensures AllSourced(cfg, ops, after)
  {
    forall a {:trigger HeldSourced(cfg, ops, a, after.db.accounts[a])} | a in after.db.accounts
      ensures HeldSourced(cfg, ops, a, after.db.accounts[a])
    {
      if a in w.db.accounts {
        assert HeldSourced(cfg, ops, a, w.db.accounts[a]);
      }
    }
    forall d {:trigger ReaderSourced(cfg, ops, after, d)} | d in after.clients
      ensures ReaderSourced(cfg, ops, after, d)
    {
      assert ReaderSourced(cfg, ops, w, d);
    }
  }

  lemma AccountIsSourced(cfg: Config, ops: seq<Op>, w: World, account: AccountId, a: AccountRow)
    requires AllSourced(cfg, ops, w) && account in w.db.accounts
    requires a.vault == w.db.accounts[account].vault && HeldSourced(cfg, ops, account, a)
    ensures AllSourced(cfg, ops, SetAccount(w, account, a))
  {
    var after := SetAccount(w, account, a);
    forall other {:trigger HeldSourced(cfg, ops, other, after.db.accounts[other])} | other in after.db.accounts
      ensures HeldSourced(cfg, ops, other, after.db.accounts[other])
    {
      if other != account {
        assert HeldSourced(cfg, ops, other, w.db.accounts[other]);
      }
    }
    forall d {:trigger ReaderSourced(cfg, ops, after, d)} | d in after.clients
      ensures ReaderSourced(cfg, ops, after, d)
    {
      assert ReaderSourced(cfg, ops, w, d);
    }
  }

  lemma PushStepIsSourced(
    cfg: Config, ops: seq<Op>, w: World, device: DeviceId, envelopes: seq<Envelope>, clock: Clock)
    requires w == Run(cfg, EMPTY, ops)
    requires AllSourced(cfg, ops + [Push(device, envelopes, clock)], w)
    ensures AllSourced(cfg, ops + [Push(device, envelopes, clock)], OnPush(cfg, w, device, envelopes, clock))
  {
    var all := ops + [Push(device, envelopes, clock)];
    if SignedIn(w.db, device) {
      var account := w.db.devices[device].account;
      var answer := PushWithin(cfg.limits, cfg.quota, w.db, account, device, envelopes, clock).1;
      if answer.Success? {
        Replicas.PushTaken(cfg, w, device, envelopes, clock);
        assert HeldSourced(cfg, all, account, w.db.accounts[account]);
        PushIsSourced(cfg, ops, w, device, envelopes, clock);
        AccountIsSourced(cfg, all, w, account, OfferAll(w.db.accounts[account], envelopes, device, clock).account);
      }
    }
  }

  /** What a page adds to an inbox is what the account holds. */
  lemma PageIsSourced(
    cfg: Config, ops: seq<Op>, account: AccountId, a: AccountRow, c: Client, asked: nat)
    requires AccountOk(cfg.limits, a) && HeldSourced(cfg, ops, account, a)
    requires InboxSourced(cfg, ops, account, a.vault, c.inbox)
    ensures
      var page := Page(cfg.limits, a.vault, a.records, c.cursor, asked, c.manifests);
      InboxSourced(cfg, ops, account, a.vault, Receive(c.inbox, page.envelopes))
  {
    var page := Page(cfg.limits, a.vault, a.records, c.cursor, asked, c.manifests);
    var inbox := Receive(c.inbox, page.envelopes);
    forall id | id in inbox
      ensures Sourced(cfg, ops, account, a.vault, id, inbox[id])
    {
      Replicas.ReceiveKeepsLast(c.inbox, page.envelopes, id);
      if inbox[id] in page.envelopes {
        PageDelivers(cfg.limits, a.vault, a.records, c.cursor, asked, c.manifests, inbox[id]);
      }
    }
  }

  lemma PageTakenIsSourced(cfg: Config, ops: seq<Op>, w: World, device: DeviceId, asked: nat, now: nat)
    requires AllSourced(cfg, ops, w) && device in w.clients && Known(w, device)
    requires AccountOk(cfg.limits, Replicas.AccountOf(w, device))
    ensures AllSourced(cfg, ops, PageTaken(cfg.limits, w, device, asked, now))
  {
    var account := w.db.devices[device].account;
    var after := PageTaken(cfg.limits, w, device, asked, now);
    assert ReaderSourced(cfg, ops, w, device);
    assert HeldSourced(cfg, ops, account, w.db.accounts[account]);
    PageIsSourced(cfg, ops, account, w.db.accounts[account], w.clients[device], asked);
    forall a {:trigger HeldSourced(cfg, ops, a, after.db.accounts[a])} | a in after.db.accounts
      ensures HeldSourced(cfg, ops, a, after.db.accounts[a])
    {
      assert HeldSourced(cfg, ops, a, w.db.accounts[a]);
    }
    forall d {:trigger ReaderSourced(cfg, ops, after, d)} | d in after.clients
      ensures ReaderSourced(cfg, ops, after, d)
    {
      assert ReaderSourced(cfg, ops, w, d);
    }
  }

  lemma PullStepIsSourced(cfg: Config, ops: seq<Op>, w: World, device: DeviceId, limit: Option<nat>, now: nat)
    requires DbOk(cfg.limits, w.db) && AllSourced(cfg, ops, w)
    ensures AllSourced(cfg, ops, OnPull(cfg, w, device, limit, now))
  {
    if SignedIn(w.db, device) && device in w.clients {
      PullStep(cfg, w, device, limit, now);
      PageTakenIsSourced(cfg, ops, w, device, Asked(cfg.limits, limit), now);
    }
  }

  lemma JoinStepIsSourced(
    cfg: Config, ops: seq<Op>, w: World, account: AccountId, device: DeviceId, reader: Option<bool>)
    requires DbOk(cfg.limits, w.db) && AllSourced(cfg, ops, w)
    ensures AllSourced(cfg, ops, OnJoin(cfg, w, account, device, reader))
  {
    var after := OnJoin(cfg, w, account, device, reader);
    forall a {:trigger HeldSourced(cfg, ops, a, after.db.accounts[a])} | a in after.db.accounts
      ensures HeldSourced(cfg, ops, a, after.db.accounts[a])
    {
      assert HeldSourced(cfg, ops, a, w.db.accounts[a]);
    }
    forall d {:trigger ReaderSourced(cfg, ops, after, d)} | d in after.clients
      ensures ReaderSourced(cfg, ops, after, d)
    {
      assert d in w.clients ==> ReaderSourced(cfg, ops, w, d);
    }
  }

  lemma ShutOutLeavesLess(cfg: Config, w: World, asker: DeviceId, device: DeviceId, now: nat)
    requires DbOk(cfg.limits, w.db)
    ensures OnlyLess(w, OnShutOut(cfg, w, asker, device, now))
  {
    ShutOutStep(cfg, w, asker, device, now);
  }

  lemma TheRestOnlyLeavesLess(cfg: Config, w: World, op: Op)
    requires DbOk(cfg.limits, w.db) && !op.Join? && !op.Push? && !op.Pull?
    ensures OnlyLess(w, Apply(cfg, w, op))
  {
    match op
    case PullFrom(device, since, limit, manifests, now) =>
      if SignedIn(w.db, device) && device !in w.clients {
        var _ := PullFromStep(cfg, w, device, since, limit, manifests, now);
      }
    case ShutOut(asker, device, now) => ShutOutLeavesLess(cfg, w, asker, device, now);
    case _ =>
  }

  lemma StepIsSourced(cfg: Config, ops: seq<Op>, w: World, op: Op)
    requires w == Run(cfg, EMPTY, ops) && AllSourced(cfg, ops + [op], w)
    ensures AllSourced(cfg, ops + [op], Apply(cfg, w, op))
  {
    var after := Apply(cfg, w, op);
    match op
    case Join(account, device, reader) => JoinStepIsSourced(cfg, ops + [op], w, account, device, reader);
    case Push(device, envelopes, clock) => PushStepIsSourced(cfg, ops, w, device, envelopes, clock);
    case Pull(device, limit, now) => PullStepIsSourced(cfg, ops + [op], w, device, limit, now);
    case _ =>
      TheRestOnlyLeavesLess(cfg, w, op);
      LessIsSourced(cfg, ops + [op], w, after);
  }

  lemma {:induction false} RunIsSourced(cfg: Config, ops: seq<Op>)
    ensures AllSourced(cfg, ops, Run(cfg, EMPTY, ops))
    decreases |ops|
  {
    if ops != [] {
      var n := |ops| - 1;
      var w := Run(cfg, EMPTY, ops[..n]);
      assert ops == ops[..n] + [ops[n]];
      RunIsSourced(cfg, ops[..n]);
      LaterRequestsKeepAll(cfg, ops[..n], ops[n], w);
      StepIsSourced(cfg, ops[..n], w, ops[n]);
      RunOfBoth(cfg, EMPTY, ops[..n], [ops[n]]);
      RunOfOne(cfg, w, ops[n]);
    }
  }

  /**
    In any run from an empty server, whatever an honest device has received is
    of its account's vault, and has the identity, kind, stamp, tombstone mark,
    nonce and blob of an envelope that a device of the same account pushed and
    that was accepted under the very number it carries.
   */
  lemma WhatIsReceivedWasPushed(cfg: Config, ops: seq<Op>, device: DeviceId, id: RecordId)
    requires device in Run(cfg, EMPTY, ops).clients && id in Run(cfg, EMPTY, ops).clients[device].inbox
    ensures
      var w := Run(cfg, EMPTY, ops);
      var x := w.clients[device].inbox[id];
      && device in w.db.devices && w.db.devices[device].account in w.db.accounts
      && x.id == id && x.vault == w.db.accounts[w.db.devices[device].account].vault
      && x.seqNo == Some(x.baseSeq)
      && exists i: nat, k: nat :: PushedAs(cfg, ops, i, k, w.db.devices[device].account, x)
  {
    RunIsSourced(cfg, ops);
    assert ReaderSourced(cfg, ops, Run(cfg, EMPTY, ops), device);
  }

  /** And so has whatever the server holds. */
  lemma WhatIsHeldWasPushed(cfg: Config, ops: seq<Op>, account: AccountId, id: RecordId)
    requires account in Run(cfg, EMPTY, ops).db.accounts
    requires id in Run(cfg, EMPTY, ops).db.accounts[account].records
    ensures
      var a := Run(cfg, EMPTY, ops).db.accounts[account];
      var row := a.records[id];
      var x := Envelope(
        id, a.vault, row.kind, row.updatedAt, row.seqNo, row.deleted, row.nonce, row.blob, Some(row.seqNo));
      exists i: nat, k: nat :: PushedAs(cfg, ops, i, k, account, x)
  {
    RunIsSourced(cfg, ops);
    assert HeldSourced(cfg, ops, account, Run(cfg, EMPTY, ops).db.accounts[account]);
  }
}
