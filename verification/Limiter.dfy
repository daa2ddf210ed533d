/**
  The rate limiter: a log of recent tries per key, expired as it is looked at,
  swept now and then, and bounded by counting newcomers coarser when a table is
  full. Next to it, the history nobody would keep: every try and every forgiven
  one, for ever.
 */
module Limiter {
  import opened Wrappers

  datatype WhenFull = Admit | Coarsen

  /**
    The source tells buckets apart by name, and their names are distinct; here
    a bucket is its own name. Times and windows are in milliseconds.
   */
  datatype Bucket = Bucket(name: string, max: nat, window: nat, whenFull: WhenFull)

  const MAX_ADDRESSES := 20_000
  const MAX_NETWORKS := 5_000
  const SWEEP_EVERY := 60 * 1000
  const SWEEP_WHEN_FULL := 1000

  /** An address as it is counted: IPv4 as it is, IPv6 by its /64. */
  datatype Address = V4(a: nat, b: nat, c: nat, d: nat) | V6(s0: nat, s1: nat, s2: nat, s3: nat) | Unknown

  datatype Key =
    | Single(address: Address)
    | Net24(a: nat, b: nat, c: nat)
    | Net48(s0: nat, s1: nat, s2: nat)
    | EverybodyElse
    | Account(id: nat)
    | Device(id: nat)

  datatype Slot = Slot(key: Key, bucket: Bucket)

  /** Tries, oldest first. */
  datatype Tries = Tries(at: seq<nat>, window: nat)

  datatype Table = Table(tries: map<Slot, Tries>, sweptFull: Option<nat>)

  const NO_TABLE := Table(map[], None)

  /** The network an address is counted with once there is no room for itself. */
  function Network(who: Address): Key {
    match who
    case V4(a, b, c, _) => Net24(a, b, c)
    case V6(s0, s1, s2, _) => Net48(s0, s1, s2)
    case Unknown => EverybodyElse
  }

  function AtOf(t: Table, s: Slot): seq<nat> {
    if s in t.tries then t.tries[s].at else []
  }

  // ---- One table ----

  predicate Kept(tries: Tries, now: nat) {
    tries.at != [] && now - tries.at[|tries.at| - 1] < tries.window
  }

  /** Forget everyone whose last try has left its window. */
  function Sweep(t: Table, now: nat): Table {
    t.(tries := map s | s in t.tries && Kept(t.tries[s], now) :: t.tries[s])
  }

  function DropExpired(at: seq<nat>, now: nat, window: nat): seq<nat> {
    if at != [] && now - at[0] >= window then DropExpired(at[1..], now, window) else at
  }

  /** Count a try under a slot, or refuse it. */
  function CountIn(t: Table, s: Slot, now: nat): (Table, bool) {
    var at := DropExpired(AtOf(t, s), now, s.bucket.window);
    var window := if s in t.tries then t.tries[s].window else s.bucket.window;
    if |at| >= s.bucket.max
    then (t.(tries := t.tries[s := Tries(at, window)]), false)
    else (t.(tries := t.tries[s := Tries(at + [now], window)]), true)
  }

  function TakeBack(t: Table, s: Slot): Table {
    if s in t.tries && t.tries[s].at != []
    then t.(tries := t.tries[s := t.tries[s].(at := t.tries[s].at[..|t.tries[s].at| - 1])])
    else t
  }

  /** Make room in a full table first, at most once a second. */
  function MakeRoom(t: Table, now: nat): Table {
    if t.sweptFull.None? || now - t.sweptFull.value >= SWEEP_WHEN_FULL
    then Sweep(t, now).(sweptFull := Some(now))
    else t
  }

  /** Under what an address is counted: itself, its network, everybody new together - or nothing. */
  function Place(t: Table, who: Address, bucket: Bucket, now: nat): (Table, Option<Key>) {
    if Slot(Single(who), bucket) in t.tries || |t.tries| < MAX_ADDRESSES then (t, Some(Single(who))) else
    var t := MakeRoom(t, now);
    if |t.tries| < MAX_ADDRESSES then (t, Some(Single(who)))
    else if bucket.whenFull == Admit then (t, None)
    else if Slot(Network(who), bucket) !in t.tries && |t.tries| >= MAX_ADDRESSES + MAX_NETWORKS
    then (t, Some(EverybodyElse))
    else (t, Some(Network(who)))
  }

  // ---- The whole limiter ----

  datatype Hits = Hits(addresses: map<Bucket, Table>, members: Table, swept: nat)

  function TableOf(h: Hits, bucket: Bucket): Table {
    if bucket in h.addresses then h.addresses[bucket] else NO_TABLE
  }

  function SweepAll(h: Hits, now: nat): Hits {
    if now - h.swept >= SWEEP_EVERY
    then Hits(map b | b in h.addresses :: Sweep(h.addresses[b], now), Sweep(h.members, now), now)
    else h
  }

  function CountAddress(h: Hits, who: Address, bucket: Bucket, now: nat): (Hits, bool) {
    var h := SweepAll(h, now);
    var (t, key) := Place(TableOf(h, bucket), who, bucket, now);
    match key
    case None => (h.(addresses := h.addresses[bucket := t]), true)
    case Some(key) =>
      var (t', ok) := CountIn(t, Slot(key, bucket), now);
      (h.(addresses := h.addresses[bucket := t']), ok)
  }

  function CountMember(h: Hits, member: Key, bucket: Bucket, now: nat): (Hits, bool) {
    var h := SweepAll(h, now);
    var (t, ok) := CountIn(h.members, Slot(member, bucket), now);
    (h.(members := t), ok)
  }

  function ForgiveAddress(h: Hits, who: Address, bucket: Bucket): Hits {
    if bucket in h.addresses
    then h.(addresses := h.addresses[bucket := TakeBack(h.addresses[bucket], Slot(Single(who), bucket))])
    else h
  }

  function ForgiveDevice(h: Hits, device: nat, bucket: Bucket): Hits {
    h.(members := TakeBack(h.members, Slot(Device(device), bucket)))
  }

  /** The limiter as the source works on it, behind its lock. */
  class RateLimiter {
    var addresses: map<Bucket, Table>
    var members: Table
    var swept: nat

    ghost function State(): Hits
      reads this
    {
      Hits(addresses, members, swept)
    }

    constructor (now: nat)
      ensures State() == Hits(map[], NO_TABLE, now)
    {
      addresses, members, swept := map[], NO_TABLE, now;
    }

    method SweepEverything(now: nat)
      modifies this
      ensures State() == SweepAll(old(State()), now)
    {
      if now - swept >= SWEEP_EVERY {
        addresses := map b | b in addresses :: Sweep(addresses[b], now);
        members := Sweep(members, now);
        swept := now;
      }
    }

    /** Pop what has expired from the front, then count or refuse. */
    static method CountUnder(t: Table, s: Slot, now: nat) returns (after: Table, ok: bool)
      ensures (after, ok) == CountIn(t, s, now)
    {
      var tries := if s in t.tries then t.tries[s] else Tries([], s.bucket.window);
      var at := tries.at;
      while at != [] && now - at[0] >= s.bucket.window
        invariant DropExpired(at, now, s.bucket.window) == DropExpired(AtOf(t, s), now, s.bucket.window)
        decreases |at|
      {
        at := at[1..];
      }
      ok := |at| < s.bucket.max;
      if ok {
        at := at + [now];
      }
      after := t.(tries := t.tries[s := Tries(at, tries.window)]);
    }

    /** `check`: a try from an address. */
    method Check(who: Address, bucket: Bucket, now: nat) returns (ok: bool)
      modifies this
      ensures (State(), ok) == CountAddress(old(State()), who, bucket, now)
    {
      SweepEverything(now);
      var table := if bucket in addresses then addresses[bucket] else NO_TABLE;
      var key := Single(who);
      if Slot(key, bucket) !in table.tries && |table.tries| >= MAX_ADDRESSES {
        if table.sweptFull.None? || now - table.sweptFull.value >= SWEEP_WHEN_FULL {
          table := Sweep(table, now).(sweptFull := Some(now));
        }
        if |table.tries| >= MAX_ADDRESSES {
          match bucket.whenFull
          case Admit =>
            addresses := addresses[bucket := table];
            return true;
          case Coarsen =>
            key := Network(who);
            if Slot(key, bucket) !in table.tries && |table.tries| >= MAX_ADDRESSES + MAX_NETWORKS {
              key := EverybodyElse;
            }
        }
      }
      table, ok := CountUnder(table, Slot(key, bucket), now);
      addresses := addresses[bucket := table];
    }

    /** `check_account` and `check_device`. */
    method CheckMember(member: Key, bucket: Bucket, now: nat) returns (ok: bool)
      requires member.Account? || member.Device?
      modifies this
      ensures (State(), ok) == CountMember(old(State()), member, bucket, now)
    {
      SweepEverything(now);
      members, ok := CountUnder(members, Slot(member, bucket), now);
    }

    method Forgive(who: Address, bucket: Bucket)
      modifies this
      ensures State() == ForgiveAddress(old(State()), who, bucket)
    {
      if bucket in addresses {
        addresses := addresses[bucket := TakeBack(addresses[bucket], Slot(Single(who), bucket))];
      }
    }

    method ForgiveOneDevice(device: nat, bucket: Bucket)
      modifies this
      ensures State() == ForgiveDevice(old(State()), device, bucket)
    {
      members := TakeBack(members, Slot(Device(device), bucket));
    }
  }
}
