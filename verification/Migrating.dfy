/**
  The migration that gives each account its counters, counted once over the
  records it holds.
 */
module Migrating {
  import opened Mailbox
  import opened Runs

  /** All that holds of an account but its counters, which are not there yet. */
  ghost predicate RecordsOk(limits: Limits, a: AccountRow) {
    && DistinctNumbers(a.records)
    && (forall id :: id in a.records ==> 1 <= a.records[id].seqNo <= a.seqNo)
    && (forall id :: id in a.records ==> 1 <= |a.records[id].blob| <= limits.maxBlobBytes)
  }

  ghost function Counted(a: AccountRow): AccountRow {
    a.(recordCount := |a.records|, recordBytes := BlobBytes(a.records))
  }

  ghost function Backfilled(db: Db): Db {
    db.(accounts := map a | a in db.accounts :: Counted(db.accounts[a]))
  }

  lemma BackfilledIsOk(limits: Limits, db: Db)
    requires forall a {:trigger RecordsOk(limits, db.accounts[a])} ::
      a in db.accounts ==> RecordsOk(limits, db.accounts[a])
    requires forall d :: d in db.devices ==> db.devices[d].account in db.accounts
    ensures DbOk(limits, Backfilled(db))
    ensures
      var after := Backfilled(db);
      && after.devices == db.devices && after.accounts.Keys == db.accounts.Keys
      && forall a :: a in db.accounts ==>
           && after.accounts[a].vault == db.accounts[a].vault && after.accounts[a].seqNo == db.accounts[a].seqNo
           && after.accounts[a].records == db.accounts[a].records
  {
    forall a | a in db.accounts
      ensures AccountOk(limits, Backfilled(db).accounts[a])
    {
      assert RecordsOk(limits, db.accounts[a]);
    }
  }

  /** From a migrated database on, whatever is asked of it, the counters are the real sums. */
  lemma CountersAreExactOnceMigrated(cfg: Config, db: Db, ops: seq<Op>, account: AccountId)
    requires forall a {:trigger RecordsOk(cfg.limits, db.accounts[a])} ::
      a in db.accounts ==> RecordsOk(cfg.limits, db.accounts[a])
    requires forall d :: d in db.devices ==> db.devices[d].account in db.accounts
    ensures DbOk(cfg.limits, Backfilled(db))
    ensures account in Run(cfg, World(Backfilled(db), map[]), ops).db.accounts ==>
      var a := Run(cfg, World(Backfilled(db), map[]), ops).db.accounts[account];
      a.recordCount == |a.records| && a.recordBytes == BlobBytes(a.records)
  {
    BackfilledIsOk(cfg.limits, db);
    var after := Run(cfg, World(Backfilled(db), map[]), ops);
    if account in after.db.accounts {
      assert AccountOk(cfg.limits, after.db.accounts[account]);
    }
  }
}
