/**
  Addresses against logs of their own. While there is room for an address, it
  is answered by its own tries and by nobody else's; with no room, it is let
  through uncounted or answered by the tries of its network.
 */
module AddressRuns {
  import opened Wrappers
  import opened Limiter
  import opened LimiterRuns

  // ---- An address and its own log ----

  /** What the limiter answers one address in one bucket, in order. */
  function OwnAnswers(h: Hits, who: Address, bucket: Bucket, ops: seq<Op>): seq<bool>
    decreases |ops|
  {
    if ops == [] then [] else
    var (h', ok) := Apply(h, ops[0]);
    (if IsOwnTry(ops[0], who, bucket) then [ok] else []) + OwnAnswers(h', who, bucket, ops[1..])
  }

  predicate IsOwnTry(op: Op, who: Address, bucket: Bucket) {
    op.TryAddress? && op.who == who && op.bucket == bucket
  }

  predicate IsOwnForgiveness(op: Op, who: Address, bucket: Bucket) {
    op.ForgiveOne? && op.who == who && op.bucket == bucket
  }

  /** A log of its own: its tries that were let through, and those forgiven it; of nobody else, and of no sweep. */
  function OwnLog(log: seq<Mark>, who: Address, bucket: Bucket, op: Op, ok: bool): seq<Mark> {
    if IsOwnTry(op, who, bucket) && ok then log + [Tried(op.at)]
    else if IsOwnForgiveness(op, who, bucket) then log + [Forgiven(op.at)]
    else log
  }

  /** What such a log says. */
  function OwnVerdicts(log: seq<Mark>, who: Address, bucket: Bucket, ops: seq<Op>): seq<bool>
    decreases |ops|
  {
    if ops == [] then [] else
    var ok := Allowed(log, ops[0].at, bucket);
    (if IsOwnTry(ops[0], who, bucket) then [ok] else [])
      + OwnVerdicts(OwnLog(log, who, bucket, ops[0], ok), who, bucket, ops[1..])
  }

  /** Whenever it tries, there is room for it. */
  predicate AlwaysRoom(h: Hits, who: Address, bucket: Bucket, ops: seq<Op>)
    decreases |ops|
  {
    ops == []
    || (&& (IsOwnTry(ops[0], who, bucket) ==>
              RoomFor(TableOf(SweepAll(h, ops[0].at), bucket), who, bucket, ops[0].at))
        && AlwaysRoom(Apply(h, ops[0]).0, who, bucket, ops[1..]))
  }

  /** The table has of this slot what this log leaves. */
  ghost predicate Follows(t: Table, s: Slot, log: seq<Mark>, now: nat) {
    && IsRestOf(AtOf(t, s), Unforgiven(log), now, s.bucket.window)
    && (s in t.tries ==> t.tries[s].window == s.bucket.window)
  }

  lemma FollowsTheHistory(t: Table, s: Slot, log: seq<Mark>, now: nat)
    ensures Follows(t, s, log, now) <==> TracksAt(t, map[s := log], now, s)
  {
    assert MarksOf(map[s := log], s) == log;
  }

  lemma SweepFollows(t: Table, s: Slot, log: seq<Mark>, before: nat, now: nat)
    requires Follows(t, s, log, before) && before <= now
    ensures Follows(Sweep(t, now), s, log, now) && Follows(t, s, log, now)
  {
    FollowsTheHistory(t, s, log, before);
    SweepTracksHere(t, map[s := log], before, now, s);
    FollowsTheHistory(t, s, log, now);
    FollowsTheHistory(Sweep(t, now), s, log, now);
  }

  lemma SweepAllFollows(h: Hits, s: Slot, log: seq<Mark>, before: nat, now: nat)
    requires Follows(TableOf(h, s.bucket), s, log, before) && before <= now
    ensures Follows(TableOf(SweepAll(h, now), s.bucket), s, log, now)
  {
    SweepFollows(TableOf(h, s.bucket), s, log, before, now);
  }

  lemma SameTriesFollow(t: Table, room: Table, s: Slot, log: seq<Mark>, now: nat)
    requires Follows(t, s, log, now) && room.tries == t.tries
    ensures Follows(room, s, log, now)
  {
  }

  lemma PlaceSweepsOrNot(t: Table, other: Address, bucket: Bucket, now: nat)
    ensures
      var room := Place(t, other, bucket, now).0;
      room == t || room.tries == Sweep(t, now).tries
  {
  }

  /** Making room takes nothing from a slot but what has expired. */
  lemma PlaceFollows(t: Table, other: Address, bucket: Bucket, s: Slot, log: seq<Mark>, now: nat)
    requires Follows(t, s, log, now)
    ensures Follows(Place(t, other, bucket, now).0, s, log, now)
  {
    PlaceSweepsOrNot(t, other, bucket, now);
    SweepFollows(t, s, log, now, now);
    var room := Place(t, other, bucket, now).0;
    if room != t {
      SameTriesFollow(Sweep(t, now), room, s, log, now);
    }
  }

  /** An address there is room for is counted under itself, and whatever anybody else is under, it is not that. */
  lemma PlacedUnder(t: Table, other: Address, who: Address, bucket: Bucket, now: nat)
    ensures RoomFor(t, who, bucket, now) ==> Place(t, who, bucket, now).1 == Some(Single(who))
    ensures other != who ==> Place(t, other, bucket, now).1 != Some(Single(who))
  {
  }

  lemma TryIsCounted(h: Hits, op: Op)
    requires op.TryAddress?
    ensures
      var (h', ok) := Apply(h, op);
      var (room, key) := Place(TableOf(SweepAll(h, op.at), op.bucket), op.who, op.bucket, op.at);
      && (key.Some? ==> (TableOf(h', op.bucket), ok) == CountIn(room, Slot(key.value, op.bucket), op.at))
      && (key.None? ==> TableOf(h', op.bucket) == room && ok)
      && forall b :: b != op.bucket ==> TableOf(h', b) == TableOf(SweepAll(h, op.at), b)
  {
  }

  lemma CountFollows(t: Table, s: Slot, log: seq<Mark>, at: nat)
    requires Follows(t, s, log, at)
    ensures
      var (t', ok) := CountIn(t, s, at);
      && ok == Allowed(log, at, s.bucket)
      && (ok ==> Follows(t', s, log + [Tried(at)], at))
      && (!ok ==> Follows(t', s, log, at))
  {
    TryAgainstLog(AtOf(t, s), Unforgiven(log), at, s.bucket.window);
    CountInHere(t, s, at);
    UnforgivenTry(log, at);
  }

  lemma ElsewhereFollows(t: Table, t': Table, s: Slot, changed: Slot, log: seq<Mark>, at: nat)
    requires Follows(t, s, log, at) && changed != s && OnlyChanges(t, t', changed)
    ensures Follows(t', s, log, at)
  {
    assert AtOf(t', s) == AtOf(t, s);
  }

  lemma OwnTryFollows(h: Hits, who: Address, bucket: Bucket, log: seq<Mark>, before: nat, op: Op)
    requires IsOwnTry(op, who, bucket) && before <= op.at
    requires Follows(TableOf(h, bucket), Slot(Single(who), bucket), log, before)
    requires RoomFor(TableOf(SweepAll(h, op.at), bucket), who, bucket, op.at)
    ensures
      var (h', ok) := Apply(h, op);
      && ok == Allowed(log, op.at, bucket)
      && (ok ==> Follows(TableOf(h', bucket), Slot(Single(who), bucket), log + [Tried(op.at)], op.at))
      && (!ok ==> Follows(TableOf(h', bucket), Slot(Single(who), bucket), log, op.at))
  {
    var s := Slot(Single(who), bucket);
    var swept := TableOf(SweepAll(h, op.at), bucket);
    SweepAllFollows(h, s, log, before, op.at);
    PlacedUnder(swept, who, who, bucket, op.at);
    PlaceFollows(swept, who, bucket, s, log, op.at);
    TryIsCounted(h, op);
    CountFollows(Place(swept, who, bucket, op.at).0, s, log, op.at);
  }

  lemma OtherTryFollows(h: Hits, s: Slot, log: seq<Mark>, before: nat, op: Op)
    requires Follows(TableOf(h, s.bucket), s, log, before) && before <= op.at
    requires op.TryAddress? && s.key.Single? && (op.bucket == s.bucket ==> op.who != s.key.address)
    ensures Follows(TableOf(Apply(h, op).0, s.bucket), s, log, op.at)
  {
    SweepAllFollows(h, s, log, before, op.at);
    TryIsCounted(h, op);
    if op.bucket == s.bucket {
      var swept := TableOf(SweepAll(h, op.at), op.bucket);
      var (room, key) := Place(swept, op.who, op.bucket, op.at);
      PlacedUnder(swept, op.who, s.key.address, op.bucket, op.at);
      PlaceFollows(swept, op.who, op.bucket, s, log, op.at);
      if key.Some? {
        var changed := Slot(key.value, op.bucket);
        CountInOnlyChanges(room, changed, op.at);
        ElsewhereFollows(room, CountIn(room, changed, op.at).0, s, changed, log, op.at);
      }
    }
  }

  lemma TakeBackFollows(t: Table, s: Slot, log: seq<Mark>, at: nat)
    requires Follows(t, s, log, at)
    ensures Follows(TakeBack(t, s), s, log + [Forgiven(at)], at)
  {
    ForgivingKeepsRest(AtOf(t, s), Unforgiven(log), at, s.bucket.window);
    UnforgivenForgiven(log, at);
    assert AtOf(TakeBack(t, s), s) == Pop(AtOf(t, s));
  }

  lemma ForgivenessFollows(h: Hits, s: Slot, log: seq<Mark>, before: nat, op: Op)
    requires Follows(TableOf(h, s.bucket), s, log, before) && before <= op.at && op.ForgiveOne?
    ensures
      var t' := TableOf(Apply(h, op).0, s.bucket);
      && (s == Slot(Single(op.who), op.bucket) ==> Follows(t', s, log + [Forgiven(op.at)], op.at))
      && (s != Slot(Single(op.who), op.bucket) ==> Follows(t', s, log, op.at))
  {
    var t, changed := TableOf(h, s.bucket), Slot(Single(op.who), op.bucket);
    SweepFollows(t, s, log, before, op.at);
    assert TableOf(Apply(h, op).0, s.bucket) == if op.bucket == s.bucket then TakeBack(t, changed) else t;
    if s == changed {
      TakeBackFollows(t, s, log, op.at);
    } else if op.bucket == s.bucket {
      CountInOnlyChanges(t, changed, op.at);
      ElsewhereFollows(t, TakeBack(t, changed), s, changed, log, op.at);
    }
  }

  lemma MemberStepFollows(h: Hits, s: Slot, log: seq<Mark>, before: nat, op: Op)
    requires Follows(TableOf(h, s.bucket), s, log, before) && before <= op.at
    requires op.TryMember? || op.ForgiveMember?
    ensures Follows(TableOf(Apply(h, op).0, s.bucket), s, log, op.at)
  {
    SweepAllFollows(h, s, log, before, op.at);
    SweepFollows(TableOf(h, s.bucket), s, log, before, op.at);
  }

  lemma StepFollows(h: Hits, who: Address, bucket: Bucket, log: seq<Mark>, now: nat, op: Op)
    requires Follows(TableOf(h, bucket), Slot(Single(who), bucket), log, now) && now <= op.at
    requires IsOwnTry(op, who, bucket) ==> RoomFor(TableOf(SweepAll(h, op.at), bucket), who, bucket, op.at)
    ensures
      var (h', ok) := Apply(h, op);
      && (IsOwnTry(op, who, bucket) ==> ok == Allowed(log, op.at, bucket))
      && Follows(TableOf(h', bucket), Slot(Single(who), bucket), OwnLog(log, who, bucket, op, ok), op.at)
  {
    var s, ok := Slot(Single(who), bucket), Apply(h, op).1;
    if IsOwnTry(op, who, bucket) {
      OwnTryFollows(h, who, bucket, log, now, op);
      assert OwnLog(log, who, bucket, op, ok) == if ok then log + [Tried(op.at)] else log;
    } else if op.TryAddress? {
      OtherTryFollows(h, s, log, now, op);
      assert OwnLog(log, who, bucket, op, ok) == log;
    } else if op.ForgiveOne? {
      ForgivenessFollows(h, s, log, now, op);
      assert s == Slot(Single(op.who), op.bucket) <==> IsOwnForgiveness(op, who, bucket);
    } else {
      MemberStepFollows(h, s, log, now, op);
      assert OwnLog(log, who, bucket, op, ok) == log;
    }
  }

  lemma InOrderRest(ops: seq<Op>, now: nat)
    requires InOrder(ops, now) && ops != []
    ensures now <= ops[0].at && InOrder(ops[1..], ops[0].at)
  {
  }

  /**
    An address that there is room for whenever it tries gets the answers of a
    log of its own tries that forgets nothing: so many unexpired, unforgiven
    ones in this bucket, and one more or not - whatever other addresses do,
    and whatever is swept when.
   */
  lemma {:induction false} AnAddressAnswersForItself(
    h: Hits, who: Address, bucket: Bucket, log: seq<Mark>, now: nat, ops: seq<Op>)
    requires Follows(TableOf(h, bucket), Slot(Single(who), bucket), log, now)
    requires InOrder(ops, now) && AlwaysRoom(h, who, bucket, ops)
    ensures OwnAnswers(h, who, bucket, ops) == OwnVerdicts(log, who, bucket, ops)
    decreases |ops|
  {
    if ops != [] {
      var (h', ok) := Apply(h, ops[0]);
      InOrderRest(ops, now);
      StepFollows(h, who, bucket, log, now, ops[0]);
      AnAddressAnswersForItself(h', who, bucket, OwnLog(log, who, bucket, ops[0], ok), ops[0].at, ops[1..]);
    }
  }

  /** From a fresh limiter, in every run with room for the address. */
  lemma WithRoomAnAddressAnswersForItself(who: Address, bucket: Bucket, now: nat, ops: seq<Op>)
    requires InOrder(ops, now) && AlwaysRoom(Hits(map[], NO_TABLE, now), who, bucket, ops)
    ensures OwnAnswers(Hits(map[], NO_TABLE, now), who, bucket, ops) == OwnVerdicts([], who, bucket, ops)
  {
    var s := Slot(Single(who), bucket);
    assert forall i, j :: Apart([], i, j);
    AnAddressAnswersForItself(Hits(map[], NO_TABLE, now), who, bucket, [], now, ops);
  }

  // ---- No room ----

  predicate IsNetworkOf(key: Key, who: Address) {
    match who
    case V4(a, b, c, _) => key == Net24(a, b, c)
    case V6(s0, s1, s2, _) => key == Net48(s0, s1, s2)
    case Unknown => key == EverybodyElse
  }

  /** A bucket that admits lets an address there is no room for through, and counts it nowhere. */
  lemma NoRoomIsAdmitted(h: Hits, who: Address, bucket: Bucket, at: nat)
    requires !RoomFor(TableOf(SweepAll(h, at), bucket), who, bucket, at)
    requires bucket.whenFull == Admit
    ensures
      var (h', ok) := Apply(h, TryAddress(who, bucket, at));
      && ok
      && TableOf(h', bucket) == Left(TableOf(SweepAll(h, at), bucket), at)
      && h'.members == SweepAll(h, at).members
      && forall other :: other != bucket ==> TableOf(h', other) == TableOf(SweepAll(h, at), other)
  {
  }

  /** A table that answered and counted a try under one key alone, `left` being what it was before. */
  ghost predicate CountedOnlyUnder(left: Table, t': Table, past: History, s: Slot, at: nat, ok: bool) {
    && ok == Allowed(MarksOf(past, s), at, s.bucket)
    && Tracks(t', if ok then past[s := MarksOf(past, s) + [Tried(at)]] else past, at)
    && forall other {:trigger AtOf(t', other)} :: other != s ==> AtOf(t', other) == AtOf(left, other)
  }

  lemma CoarserIsCounted(t: Table, past: History, who: Address, bucket: Bucket, at: nat, network: Key)
    requires Tracks(t, past, at) && !RoomFor(t, who, bucket, at)
    requires bucket.whenFull == Coarsen && IsNetworkOf(network, who)
    ensures
      var left := Left(t, at);
      var key := if Slot(network, bucket) in left.tries || |left.tries| < 25_000 then network else EverybodyElse;
      && Place(t, who, bucket, at) == (left, Some(key))
      && var (t', ok) := CountIn(left, Slot(key, bucket), at);
         CountedOnlyUnder(left, t', past, Slot(key, bucket), at, ok)
  {
    var left := Left(t, at);
    var key := if Slot(network, bucket) in left.tries || |left.tries| < 25_000 then network else EverybodyElse;
    PlaceTracks(t, past, who, bucket, at);
    CountTracks(left, past, at, Slot(key, bucket));
    CountInOnlyChanges(left, Slot(key, bucket), at);
  }

  lemma AccountedOnceSwept(bucket: Bucket, now: nat, ops: seq<Op>, at: nat)
    requires InOrder(ops, now) && now <= at && forall i :: 0 <= i < |ops| ==> ops[i].at <= at
    ensures
      var start := Hits(map[], NO_TABLE, now);
      Tracks(TableOf(SweepAll(Run(start, ops), at), bucket), Record(bucket, start, map[], ops), at)
  {
    var start := Hits(map[], NO_TABLE, now);
    NothingTracksNothing(now);
    assert AllLawful(map[], now);
    RunIsAccounted(bucket, start, map[], now, ops, at);
    SweptTableTracks(bucket, Run(start, ops), Record(bucket, start, map[], ops), at, at);
  }

  /**
    After any run, a bucket that coarsens answers an address there is no room
    for by what was let through and not forgiven under one key, and counts it
    under that key and no other: its own /24 or /48; or everybody else, once
    that network is not there and 25,000 entries are.
   */
  lemma NoRoomIsCountedCoarser(bucket: Bucket, now: nat, ops: seq<Op>, who: Address, at: nat, network: Key)
    requires InOrder(ops, now) && now <= at && forall i :: 0 <= i < |ops| ==> ops[i].at <= at
    requires !RoomFor(TableOf(SweepAll(Run(Hits(map[], NO_TABLE, now), ops), at), bucket), who, bucket, at)
    requires bucket.whenFull == Coarsen && IsNetworkOf(network, who)
    ensures
      var start := Hits(map[], NO_TABLE, now);
      var h, past := Run(start, ops), Record(bucket, start, map[], ops);
      var left := Left(TableOf(SweepAll(h, at), bucket), at);
      var key := if Slot(network, bucket) in left.tries || |left.tries| < 25_000 then network else EverybodyElse;
      var (h', ok) := Apply(h, TryAddress(who, bucket, at));
      CountedOnlyUnder(left, TableOf(h', bucket), past, Slot(key, bucket), at, ok)
  {
    var start := Hits(map[], NO_TABLE, now);
    var h, past := Run(start, ops), Record(bucket, start, map[], ops);
    AccountedOnceSwept(bucket, now, ops, at);
    TryIsCounted(h, TryAddress(who, bucket, at));
    CoarserIsCounted(TableOf(SweepAll(h, at), bucket), past, who, bucket, at, network);
  }

  // ---- What a sweep takes ----

  /** Of each slot exactly what has a try that is still in its window is left, as it was. */
  ghost predicate OnlyRecent(t: Table, swept: Table, now: nat) {
    && swept.sweptFull == t.sweptFull
    && forall s {:trigger s in swept.tries} ::
         (s in swept.tries <==>
            s in t.tries && t.tries[s].at != []
            && now - t.tries[s].at[|t.tries[s].at| - 1] < t.tries[s].window)
         && (s in swept.tries ==> swept.tries[s] == t.tries[s])
  }

  /** Once a minute, and no oftener, every table is rid of whoever is done. */
  lemma SweptOnceAMinute(h: Hits, now: nat)
    ensures
      var after := SweepAll(h, now);
      && (now - h.swept < 60_000 ==> after == h)
      && (now - h.swept >= 60_000 ==>
            && after.swept == now && after.addresses.Keys == h.addresses.Keys
            && OnlyRecent(h.members, after.members, now)
            && forall b :: b in h.addresses ==> OnlyRecent(h.addresses[b], after.addresses[b], now))
  {
    if now - h.swept >= 60_000 {
      assert OnlyRecent(h.members, Sweep(h.members, now), now);
      forall b | b in h.addresses
        ensures OnlyRecent(h.addresses[b], Sweep(h.addresses[b], now), now)
      {
      }
    }
  }
}
