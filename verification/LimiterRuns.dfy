/**
  What the limiter's forgetting costs: nothing. Against a history that keeps
  every try, its answers are the same, and its tables stay bounded.
 */
module LimiterRuns {
  import opened Basics
  import opened Wrappers
  import opened Limiter

  // ---- The history nobody keeps ----

  datatype Mark = Tried(at: nat) | Forgiven(at: nat)

  type History = map<Slot, seq<Mark>>

  function MarksOf(h: History, s: Slot): seq<Mark> {
    if s in h then h[s] else []
  }

  /** The tries not forgiven: forgiving takes back the latest. */
  function Unforgiven(marks: seq<Mark>): seq<nat> {
    if marks == [] then [] else
    var earlier := Unforgiven(marks[..|marks| - 1]);
    match marks[|marks| - 1]
    case Tried(at) => earlier + [at]
    case Forgiven(_) => Pop(earlier)
  }

  function Pop(log: seq<nat>): seq<nat> {
    if log == [] then [] else log[..|log| - 1]
  }

  /** How many of these tries are still in the window at `now`. */
  function Fresh(log: seq<nat>, now: nat, window: nat): nat {
    if log == [] then 0
    else Fresh(log[..|log| - 1], now, window) + (if now - log[|log| - 1] < window then 1 else 0)
  }

  predicate Allowed(marks: seq<Mark>, now: nat, bucket: Bucket) {
    Fresh(Unforgiven(marks), now, bucket.window) < bucket.max
  }

  // ---- A table against its history ----

  predicate Apart(log: seq<nat>, i: int, j: int) {
    0 <= i < j < |log| ==> log[i] <= log[j]
  }

  ghost predicate Sorted(log: seq<nat>, now: nat) {
    && (forall i, j :: Apart(log, i, j))
    && (forall i :: 0 <= i < |log| ==> log[i] <= now)
  }

  /** What is kept is the end of the log, and what is gone had expired. */
  ghost predicate IsRestOf(at: seq<nat>, log: seq<nat>, now: nat, window: nat) {
    && |at| <= |log|
    && at == log[|log| - |at|..]
    && Sorted(log, now)
    && forall i :: 0 <= i < |log| - |at| ==> now - log[i] >= window
  }

  ghost predicate Tracks(t: Table, h: History, now: nat) {
    forall s {:trigger TracksAt(t, h, now, s)} :: TracksAt(t, h, now, s)
  }

  ghost predicate TracksAt(t: Table, h: History, now: nat, s: Slot) {
    && IsRestOf(AtOf(t, s), Unforgiven(MarksOf(h, s)), now, s.bucket.window)
    && (s in t.tries ==> t.tries[s].window == s.bucket.window)
  }

  lemma {:induction false} DropExpiredKeepsRest(at: seq<nat>, log: seq<nat>, now: nat, window: nat)
    requires IsRestOf(at, log, now, window)
    ensures
      var rest := DropExpired(at, now, window);
      && IsRestOf(rest, log, now, window)
      && forall i :: 0 <= i < |rest| ==> now - rest[i] < window
    decreases |at|
  {
    if at != [] && now - at[0] >= window {
      assert at[0] == log[|log| - |at|];
      DropExpiredKeepsRest(at[1..], log, now, window);
    } else if at != [] {
      var k := |log| - |at|;
      forall i | 0 <= i < |at|
        ensures now - at[i] < window
      {
        assert at[i] == log[k + i] && at[0] == log[k];
        assert Apart(log, k, k + i);
      }
    }
  }

  lemma SortedBefore(log: seq<nat>, now: nat)
    requires Sorted(log, now)
    ensures Sorted(Pop(log), now)
  {
    forall i, j
      ensures Apart(Pop(log), i, j)
    {
      assert Apart(log, i, j);
    }
  }

  lemma {:induction false} FreshCounts(log: seq<nat>, k: nat, now: nat, window: nat)
    requires k <= |log|
    requires forall i :: 0 <= i < k ==> now - log[i] >= window
    requires forall i :: k <= i < |log| ==> now - log[i] < window
    ensures Fresh(log, now, window) == |log| - k
  {
    if log != [] {
      var n := |log| - 1;
      FreshCounts(log[..n], if k == |log| then n else k, now, window);
    }
  }

  lemma FreshIsTheRest(at: seq<nat>, log: seq<nat>, now: nat, window: nat)
    requires IsRestOf(at, log, now, window)
    requires forall i :: 0 <= i < |at| ==> now - at[i] < window
    ensures Fresh(log, now, window) == |at|
  {
    var k := |log| - |at|;
    forall i | k <= i < |log|
      ensures now - log[i] < window
    {
      assert at[i - k] == log[i];
    }
    FreshCounts(log, k, now, window);
  }

  lemma LaterIsRest(at: seq<nat>, log: seq<nat>, before: nat, now: nat, window: nat)
    requires IsRestOf(at, log, before, window) && before <= now
    ensures IsRestOf(at, log, now, window)
  {
  }

  lemma OnlyExpiredIsForgotten(at: seq<nat>, log: seq<nat>, now: nat, window: nat)
    requires IsRestOf(at, log, now, window)
    requires at != [] ==> now - at[|at| - 1] >= window
    ensures IsRestOf([], log, now, window)
  {
    assert log[|log|..] == [];
    if at != [] {
      var n := |log| - 1;
      assert at[|at| - 1] == log[n];
      forall i | 0 <= i < |log|
        ensures now - log[i] >= window
      {
        assert Apart(log, i, n);
      }
    }
  }

  lemma SweepTracksHere(t: Table, h: History, before: nat, now: nat, s: Slot)
    requires TracksAt(t, h, before, s) && before <= now
    ensures TracksAt(Sweep(t, now), h, now, s) && TracksAt(t, h, now, s)
  {
    var log := Unforgiven(MarksOf(h, s));
    LaterIsRest(AtOf(t, s), log, before, now, s.bucket.window);
    if s !in t.tries || !Kept(t.tries[s], now) {
      OnlyExpiredIsForgotten(AtOf(t, s), log, now, s.bucket.window);
      assert AtOf(Sweep(t, now), s) == [];
    }
  }

  lemma SweepTracks(t: Table, h: History, before: nat, now: nat)
    requires Tracks(t, h, before) && before <= now
    ensures Tracks(Sweep(t, now), h, now)
    ensures Tracks(t, h, now)
  {
    forall s
      ensures TracksAt(Sweep(t, now), h, now, s) && TracksAt(t, h, now, s)
    {
      assert TracksAt(t, h, before, s);
      SweepTracksHere(t, h, before, now, s);
    }
  }

  /** The history after a try under a slot: refused tries leave nothing. */
  function AfterTry(h: History, s: Slot, now: nat, ok: bool): History {
    if ok then h[s := MarksOf(h, s) + [Tried(now)]] else h
  }

  lemma UnforgivenTry(marks: seq<Mark>, now: nat)
    ensures Unforgiven(marks + [Tried(now)]) == Unforgiven(marks) + [now]
  {
    assert (marks + [Tried(now)])[..|marks|] == marks;
  }

  lemma UnforgivenForgiven(marks: seq<Mark>, now: nat)
    ensures Unforgiven(marks + [Forgiven(now)]) == Pop(Unforgiven(marks))
  {
    assert (marks + [Forgiven(now)])[..|marks|] == marks;
  }

  lemma TryKeepsRest(at: seq<nat>, log: seq<nat>, now: nat, window: nat)
    requires IsRestOf(at, log, now, window)
    ensures IsRestOf(at + [now], log + [now], now, window)
  {
    var k := |log| - |at|;
    assert (log + [now])[k..] == log[k..] + [now];
    forall i, j
      ensures Apart(log + [now], i, j)
    {
      assert Apart(log, i, j);
    }
  }

  lemma ForgivingKeepsRest(at: seq<nat>, log: seq<nat>, now: nat, window: nat)
    requires IsRestOf(at, log, now, window)
    ensures IsRestOf(Pop(at), Pop(log), now, window)
  {
    SortedBefore(log, now);
    if at != [] {
      var n := |log| - 1;
      assert log[..n][n - (|at| - 1)..] == at[..|at| - 1];
    }
  }

  /** Every slot but one is as it was. */
  ghost predicate OnlyChanges(t: Table, t': Table, s: Slot) {
    forall other {:trigger AtOf(t', other)} :: other != s ==>
      && AtOf(t', other) == AtOf(t, other)
      && (other in t'.tries ==> other in t.tries && t'.tries[other].window == t.tries[other].window)
  }

  ghost predicate OnlyMarks(h: History, h': History, s: Slot) {
    forall other {:trigger MarksOf(h', other)} :: other != s ==> MarksOf(h', other) == MarksOf(h, other)
  }

  lemma OneSlotTracks(t: Table, h: History, t': Table, h': History, now: nat, s: Slot)
    requires Tracks(t, h, now)
    requires OnlyChanges(t, t', s) && OnlyMarks(h, h', s)
    requires TracksAt(t', h', now, s)
    ensures Tracks(t', h', now)
  {
    forall other
      ensures TracksAt(t', h', now, other)
    {
      assert TracksAt(t, h, now, other);
      if other != s {
        assert AtOf(t', other) == AtOf(t, other) && MarksOf(h', other) == MarksOf(h, other);
      }
    }
  }

  lemma CountInOnlyChanges(t: Table, s: Slot, now: nat)
    ensures OnlyChanges(t, CountIn(t, s, now).0, s)
    ensures OnlyChanges(t, TakeBack(t, s), s)
  {
  }

  lemma MarkingOnlyMarks(h: History, s: Slot, now: nat, ok: bool)
    ensures OnlyMarks(h, AfterTry(h, s, now, ok), s)
    ensures OnlyMarks(h, AfterForgiving(h, s, now), s)
  {
  }

  lemma TracksHere(t: Table, h: History, now: nat, s: Slot)
    requires Tracks(t, h, now)
    ensures TracksAt(t, h, now, s)
  {
  }

  lemma TryAgainstLog(at: seq<nat>, log: seq<nat>, now: nat, window: nat)
    requires IsRestOf(at, log, now, window)
    ensures
      var rest := DropExpired(at, now, window);
      && Fresh(log, now, window) == |rest|
      && IsRestOf(rest, log, now, window)
      && IsRestOf(rest + [now], log + [now], now, window)
  {
    DropExpiredKeepsRest(at, log, now, window);
    FreshIsTheRest(DropExpired(at, now, window), log, now, window);
    TryKeepsRest(DropExpired(at, now, window), log, now, window);
  }

  lemma CountInHere(t: Table, s: Slot, now: nat)
    ensures
      var (t', ok) := CountIn(t, s, now);
      var rest := DropExpired(AtOf(t, s), now, s.bucket.window);
      && ok == (|rest| < s.bucket.max)
      && AtOf(t', s) == (if ok then rest + [now] else rest)
      && s in t'.tries
      && (t'.tries[s].window == if s in t.tries then t.tries[s].window else s.bucket.window)
  {
  }

  lemma TryHere(h: History, s: Slot, now: nat, ok: bool)
    ensures
      var log := Unforgiven(MarksOf(h, s));
      Unforgiven(MarksOf(AfterTry(h, s, now, ok), s)) == if ok then log + [now] else log
  {
    UnforgivenTry(MarksOf(h, s), now);
  }

  lemma CountTracksHere(t: Table, h: History, now: nat, s: Slot)
    requires TracksAt(t, h, now, s)
    ensures
      var (t', ok) := CountIn(t, s, now);
      && ok == Allowed(MarksOf(h, s), now, s.bucket)
      && TracksAt(t', AfterTry(h, s, now, ok), now, s)
  {
    TryAgainstLog(AtOf(t, s), Unforgiven(MarksOf(h, s)), now, s.bucket.window);
    CountInHere(t, s, now);
    TryHere(h, s, now, CountIn(t, s, now).1);
  }

  /** Counting answers what the whole history says. */
  lemma CountTracks(t: Table, h: History, now: nat, s: Slot)
    requires Tracks(t, h, now)
    ensures
      var (t', ok) := CountIn(t, s, now);
      && ok == Allowed(MarksOf(h, s), now, s.bucket)
      && Tracks(t', AfterTry(h, s, now, ok), now)
  {
    TracksHere(t, h, now, s);
    CountTracksHere(t, h, now, s);
    CountInOnlyChanges(t, s, now);
    MarkingOnlyMarks(h, s, now, CountIn(t, s, now).1);
    OneSlotTracks(t, h, CountIn(t, s, now).0, AfterTry(h, s, now, CountIn(t, s, now).1), now, s);
  }

  function AfterForgiving(h: History, s: Slot, now: nat): History {
    h[s := MarksOf(h, s) + [Forgiven(now)]]
  }

  lemma ForgivingTracksHere(t: Table, h: History, now: nat, s: Slot)
    requires TracksAt(t, h, now, s)
    ensures TracksAt(TakeBack(t, s), AfterForgiving(h, s, now), now, s)
  {
    ForgivingKeepsRest(AtOf(t, s), Unforgiven(MarksOf(h, s)), now, s.bucket.window);
    UnforgivenForgiven(MarksOf(h, s), now);
    assert MarksOf(AfterForgiving(h, s, now), s) == MarksOf(h, s) + [Forgiven(now)];
    assert AtOf(TakeBack(t, s), s) == Pop(AtOf(t, s));
  }

  lemma ForgivingTracks(t: Table, h: History, now: nat, s: Slot)
    requires Tracks(t, h, now)
    ensures Tracks(TakeBack(t, s), AfterForgiving(h, s, now), now)
  {
    TracksHere(t, h, now, s);
    ForgivingTracksHere(t, h, now, s);
    CountInOnlyChanges(t, s, now);
    MarkingOnlyMarks(h, s, now, true);
    OneSlotTracks(t, h, TakeBack(t, s), AfterForgiving(h, s, now), now, s);
  }

  // ---- Accounts and devices: the same answers as the whole history ----

  datatype Op =
    | TryMember(member: Key, bucket: Bucket, at: nat)
    | TryAddress(who: Address, bucket: Bucket, at: nat)
    | ForgiveMember(device: nat, bucket: Bucket, at: nat)
    | ForgiveOne(who: Address, bucket: Bucket, at: nat)

  /** Time does not run backwards. */
  predicate InOrder(ops: seq<Op>, now: nat) {
    && (forall i :: 0 <= i < |ops| ==> now <= ops[i].at)
    && (forall i, j :: 0 <= i < j < |ops| ==> ops[i].at <= ops[j].at)
  }

  function Apply(h: Hits, op: Op): (Hits, bool) {
    match op
    case TryMember(member, bucket, at) => CountMember(h, member, bucket, at)
    case TryAddress(who, bucket, at) => CountAddress(h, who, bucket, at)
    case ForgiveMember(device, bucket, _) => (ForgiveDevice(h, device, bucket), true)
    case ForgiveOne(who, bucket, _) => (ForgiveAddress(h, who, bucket), true)
  }

  /** What the limiter answers accounts and devices, in order. */
  function Answers(h: Hits, ops: seq<Op>): seq<bool>
    decreases |ops|
  {
    if ops == [] then [] else
    var (h', ok) := Apply(h, ops[0]);
    (if ops[0].TryMember? then [ok] else []) + Answers(h', ops[1..])
  }

  /** What the whole history answers them; it never hears of addresses or sweeps. */
  function Verdicts(h: History, ops: seq<Op>): seq<bool>
    decreases |ops|
  {
    if ops == [] then [] else
    match ops[0]
    case TryMember(member, bucket, at) =>
      var s := Slot(member, bucket);
      var ok := Allowed(MarksOf(h, s), at, bucket);
      [ok] + Verdicts(AfterTry(h, s, at, ok), ops[1..])
    case ForgiveMember(device, bucket, at) =>
      Verdicts(AfterForgiving(h, Slot(Device(device), bucket), at), ops[1..])
    case _ => Verdicts(h, ops[1..])
  }

  lemma SweepAllTracksMembers(h: Hits, past: History, before: nat, now: nat)
    requires Tracks(h.members, past, before) && before <= now
    ensures Tracks(SweepAll(h, now).members, past, now)
  {
    SweepTracks(h.members, past, before, now);
  }

  /**
    Whatever addresses do in between, and whatever is swept when, accounts and
    devices get the answers of a log that forgets nothing: so many unexpired,
    unforgiven tries, and one more or not.
   */
  lemma {:induction false} MembersGetTheWholeHistory(h: Hits, past: History, now: nat, ops: seq<Op>)
    requires Tracks(h.members, past, now) && InOrder(ops, now)
    ensures Answers(h, ops) == Verdicts(past, ops)
    decreases |ops|
  {
    if ops != [] {
      var op := ops[0];
      var (h', ok) := Apply(h, op);
      match op {
        case TryMember(member, bucket, at) =>
          var s := Slot(member, bucket);
          SweepAllTracksMembers(h, past, now, at);
          CountTracks(SweepAll(h, at).members, past, at, s);
          MembersGetTheWholeHistory(h', AfterTry(past, s, at, ok), at, ops[1..]);
        case TryAddress(who, bucket, at) =>
          SweepAllTracksMembers(h, past, now, at);
          MembersGetTheWholeHistory(h', past, at, ops[1..]);
        case ForgiveMember(device, bucket, at) =>
          SweepTracks(h.members, past, now, at);
          ForgivingTracks(h.members, past, at, Slot(Device(device), bucket));
          MembersGetTheWholeHistory(h', AfterForgiving(past, Slot(Device(device), bucket), at), at, ops[1..]);
        case ForgiveOne(who, bucket, at) =>
          MembersGetTheWholeHistory(h', past, now, ops[1..]);
      }
    }
  }

  lemma NothingTracksNothing(now: nat)
    ensures Tracks(NO_TABLE, map[], now)
  {
    forall s
      ensures TracksAt(NO_TABLE, map[], now, s)
    {
      assert forall i, j :: Apart([], i, j);
    }
  }

  /** From a fresh limiter, in every run. */
  lemma LimiterForgetsNothingThatCounts(ops: seq<Op>, now: nat)
    requires InOrder(ops, now)
    ensures Answers(Hits(map[], NO_TABLE, now), ops) == Verdicts(map[], ops)
  {
    NothingTracksNothing(now);
    MembersGetTheWholeHistory(Hits(map[], NO_TABLE, now), map[], now, ops);
  }

  // ---- Addresses: bounded tables ----

  /** Room for addresses, for networks, and for everybody else - who only takes the last place. */
  ghost predicate Bounded(t: Table, bucket: Bucket) {
    || |t.tries| <= MAX_ADDRESSES + MAX_NETWORKS
    || (|t.tries| == MAX_ADDRESSES + MAX_NETWORKS + 1 && Slot(EverybodyElse, bucket) in t.tries)
  }

  lemma SweepKeepsBounded(t: Table, bucket: Bucket, now: nat)
    requires Bounded(t, bucket)
    ensures Bounded(Sweep(t, now), bucket)
  {
    var after := Sweep(t, now);
    assert after.tries.Keys <= t.tries.Keys;
    PartIsSmaller(after.tries.Keys, t.tries.Keys);
  }

  lemma PlaceKeepsBounded(t: Table, who: Address, bucket: Bucket, now: nat)
    requires Bounded(t, bucket)
    ensures
      var (room, key) := Place(t, who, bucket, now);
      && Bounded(room, bucket)
      && (key.Some? ==> Bounded(CountIn(room, Slot(key.value, bucket), now).0, bucket))
  {
    SweepKeepsBounded(t, bucket, now);
    var (room, key) := Place(t, who, bucket, now);
    if key.Some? {
      OneKeyMore(room, Slot(key.value, bucket), now);
    }
  }

  lemma OneKeyMore(t: Table, s: Slot, now: nat)
    ensures
      var after := CountIn(t, s, now).0;
      && after.tries.Keys == t.tries.Keys + {s}
      && |after.tries| == |t.tries| + (if s in t.tries then 0 else 1)
  {
    var after := CountIn(t, s, now).0;
    assert after.tries.Keys == t.tries.Keys + {s};
  }

  ghost predicate AllBounded(h: Hits) {
    forall b :: b in h.addresses ==> Bounded(h.addresses[b], b)
  }

  lemma SweepAllKeepsBounded(h: Hits, now: nat)
    requires AllBounded(h)
    ensures AllBounded(SweepAll(h, now))
  {
    forall b | b in h.addresses
      ensures Bounded(Sweep(h.addresses[b], now), b)
    {
      SweepKeepsBounded(h.addresses[b], b, now);
    }
  }

  lemma StepKeepsBounded(h: Hits, op: Op)
    requires AllBounded(h)
    ensures AllBounded(Apply(h, op).0)
  {
    SweepAllKeepsBounded(h, op.at);
    match op
    case TryAddress(who, bucket, at) =>
      PlaceKeepsBounded(TableOf(SweepAll(h, at), bucket), who, bucket, at);
    case ForgiveOne(who, bucket, _) =>
      if bucket in h.addresses {
        assert TakeBack(h.addresses[bucket], Slot(Single(who), bucket)).tries.Keys == h.addresses[bucket].tries.Keys;
      }
    case _ =>
  }

  function Run(h: Hits, ops: seq<Op>): Hits
    decreases |ops|
  {
    if ops == [] then h else Run(Apply(h, ops[0]).0, ops[1..])
  }

  /** However many addresses anybody makes up, no table outgrows its bound. */
  lemma {:induction false} TablesStayBounded(h: Hits, ops: seq<Op>, bucket: Bucket)
    requires AllBounded(h)
    ensures
      var t := TableOf(Run(h, ops), bucket);
      && |t.tries| <= MAX_ADDRESSES + MAX_NETWORKS + 1
      && (|t.tries| == MAX_ADDRESSES + MAX_NETWORKS + 1 ==> Slot(EverybodyElse, bucket) in t.tries)
    decreases |ops|
  {
    if ops != [] {
      StepKeepsBounded(h, ops[0]);
      TablesStayBounded(Apply(h, ops[0]).0, ops[1..], bucket);
    } else {
      assert bucket in h.addresses ==> Bounded(h.addresses[bucket], bucket);
    }
  }

  // ---- Addresses: what they are counted under ----

  /** A table once whoever is done is forgotten, which is looked into once a second at most. */
  function Left(t: Table, now: nat): Table {
    if t.sweptFull == None || now - t.sweptFull.value >= 1000 then Table(Sweep(t, now).tries, Some(now)) else t
  }

  /** There is room for an address that is in the table, and for another while 20,000 entries are not reached. */
  predicate RoomFor(t: Table, who: Address, bucket: Bucket, now: nat) {
    Slot(Single(who), bucket) in t.tries || |t.tries| < 20_000 || |Left(t, now).tries| < 20_000
  }

  /**
    What a try from an address counts under: itself while there is room; with
    none, nothing, or its /24 or /48, or everybody else once that network is not
    there and 25,000 entries are.
   */
  function CountedUnder(t: Table, who: Address, bucket: Bucket, now: nat): Option<Key> {
    if RoomFor(t, who, bucket, now) then Some(Single(who))
    else if bucket.whenFull == Admit then None
    else
      var network := match who
        case V4(a, b, c, _) => Net24(a, b, c)
        case V6(s0, s1, s2, _) => Net48(s0, s1, s2)
        case Unknown => EverybodyElse;
      if Slot(network, bucket) in Left(t, now).tries || |Left(t, now).tries| < 25_000
      then Some(network) else Some(EverybodyElse)
  }

  lemma PlacedWhereCounted(t: Table, who: Address, bucket: Bucket, now: nat)
    ensures Place(t, who, bucket, now).1 == CountedUnder(t, who, bucket, now)
  {
  }

  // ---- Addresses: what gets through in any window ----

  /** What was let through and what was forgiven, for the addresses of one bucket. */
  function Recorded(bucket: Bucket, h: Hits, past: History, op: Op): History {
    match op
    case TryAddress(who, b, at) =>
      var key := CountedUnder(TableOf(SweepAll(h, at), b), who, b, at);
      if b != bucket || key.None? then past
      else AfterTry(past, Slot(key.value, b), at, Apply(h, op).1)
    case ForgiveOne(who, b, at) =>
      if b != bucket then past else AfterForgiving(past, Slot(Single(who), b), at)
    case _ => past
  }

  function Record(bucket: Bucket, h: Hits, past: History, ops: seq<Op>): History
    decreases |ops|
  {
    if ops == [] then past
    else Record(bucket, Apply(h, ops[0]).0, Recorded(bucket, h, past, ops[0]), ops[1..])
  }

  /** Every try let through was one the history before it allowed, and time went forward. */
  ghost predicate Lawful(marks: seq<Mark>, bucket: Bucket, now: nat) {
    && (forall i :: 0 <= i < |marks| && marks[i].Tried? ==> Allowed(marks[..i], marks[i].at, bucket))
    && (forall i, j :: 0 <= i < j < |marks| ==> marks[i].at <= marks[j].at)
    && (forall i :: 0 <= i < |marks| ==> marks[i].at <= now)
  }

  lemma LawfulGrows(marks: seq<Mark>, bucket: Bucket, before: nat, mark: Mark)
    requires Lawful(marks, bucket, before) && before <= mark.at
    requires mark.Tried? ==> Allowed(marks, mark.at, bucket)
    ensures Lawful(marks + [mark], bucket, mark.at)
  {
    var more := marks + [mark];
    forall i | 0 <= i < |more| && more[i].Tried?
      ensures Allowed(more[..i], more[i].at, bucket)
    {
      if i == |marks| {
        assert more[..i] == marks;
      } else {
        assert more[..i] == marks[..i];
      }
    }
  }

  ghost predicate AllLawful(past: History, now: nat) {
    forall s {:trigger MarksOf(past, s)} :: Lawful(MarksOf(past, s), s.bucket, now)
  }

  ghost predicate Accounted(bucket: Bucket, h: Hits, past: History, now: nat) {
    Tracks(TableOf(h, bucket), past, now) && AllLawful(past, now)
  }

  lemma PlaceTracks(t: Table, past: History, who: Address, bucket: Bucket, now: nat)
    requires Tracks(t, past, now)
    ensures Tracks(Place(t, who, bucket, now).0, past, now)
  {
    SweepTracks(t, past, now, now);
    forall s
      ensures TracksAt(MakeRoom(t, now), past, now, s)
    {
      assert AtOf(MakeRoom(t, now), s) == AtOf(Sweep(t, now), s) || AtOf(MakeRoom(t, now), s) == AtOf(t, s);
      TracksHere(t, past, now, s);
      TracksHere(Sweep(t, now), past, now, s);
    }
  }

  lemma SweptTableTracks(bucket: Bucket, h: Hits, past: History, before: nat, now: nat)
    requires Tracks(TableOf(h, bucket), past, before) && before <= now
    ensures Tracks(TableOf(SweepAll(h, now), bucket), past, now)
  {
    SweepTracks(TableOf(h, bucket), past, before, now);
    if bucket !in h.addresses {
      assert TableOf(SweepAll(h, now), bucket) == NO_TABLE;
    }
  }

  lemma MarkingKeepsLawful(past: History, s: Slot, before: nat, mark: Mark)
    requires AllLawful(past, before) && before <= mark.at
    requires mark.Tried? ==> Allowed(MarksOf(past, s), mark.at, s.bucket)
    ensures AllLawful(past[s := MarksOf(past, s) + [mark]], mark.at)
    ensures AllLawful(past, mark.at)
  {
    var more := past[s := MarksOf(past, s) + [mark]];
    forall other
      ensures Lawful(MarksOf(more, other), other.bucket, mark.at) && Lawful(MarksOf(past, other), other.bucket, mark.at)
    {
      assert Lawful(MarksOf(past, other), other.bucket, before);
      if other == s {
        LawfulGrows(MarksOf(past, s), s.bucket, before, mark);
      }
    }
  }

  lemma TryIsAccounted(bucket: Bucket, h: Hits, past: History, now: nat, who: Address, at: nat)
    requires Accounted(bucket, h, past, now) && now <= at
    ensures
      var op := TryAddress(who, bucket, at);
      Accounted(bucket, Apply(h, op).0, Recorded(bucket, h, past, op), at)
  {
    var swept := SweepAll(h, at);
    SweptTableTracks(bucket, h, past, now, at);
    PlaceTracks(TableOf(swept, bucket), past, who, bucket, at);
    PlacedWhereCounted(TableOf(swept, bucket), who, bucket, at);
    var (t, key) := Place(TableOf(swept, bucket), who, bucket, at);
    if key.Some? {
      CountTracks(t, past, at, Slot(key.value, bucket));
      var ok := CountIn(t, Slot(key.value, bucket), at).1;
      if ok {
        MarkingKeepsLawful(past, Slot(key.value, bucket), now, Tried(at));
      } else {
        MarkingKeepsLawful(past, Slot(key.value, bucket), now, Forgiven(at));
      }
    } else {
      MarkingKeepsLawful(past, Slot(EverybodyElse, bucket), now, Forgiven(at));
    }
  }

  lemma OtherStepIsAccounted(bucket: Bucket, h: Hits, past: History, now: nat, op: Op)
    requires Accounted(bucket, h, past, now) && now <= op.at
    requires op.TryAddress? ==> op.bucket != bucket
    ensures Accounted(bucket, Apply(h, op).0, Recorded(bucket, h, past, op), op.at)
  {
    SweptTableTracks(bucket, h, past, now, op.at);
    SweepTracks(TableOf(h, bucket), past, now, op.at);
    var s := Slot(if op.ForgiveOne? then Single(op.who) else EverybodyElse, bucket);
    MarkingKeepsLawful(past, s, now, Forgiven(op.at));
    if op.ForgiveOne? && op.bucket == bucket {
      ForgivingTracks(TableOf(h, bucket), past, op.at, s);
      if bucket !in h.addresses {
        assert TakeBack(NO_TABLE, s) == NO_TABLE;
      }
    }
  }

  lemma {:induction false} RunIsAccounted(bucket: Bucket, h: Hits, past: History, now: nat, ops: seq<Op>, end: nat)
    requires Accounted(bucket, h, past, now) && InOrder(ops, now)
    requires now <= end && forall i :: 0 <= i < |ops| ==> ops[i].at <= end
    ensures Accounted(bucket, Run(h, ops), Record(bucket, h, past, ops), end)
    decreases |ops|
  {
    if ops == [] {
      SweepTracks(TableOf(h, bucket), past, now, end);
      MarkingKeepsLawful(past, Slot(EverybodyElse, bucket), now, Forgiven(end));
    } else {
      var op := ops[0];
      if op.TryAddress? && op.bucket == bucket {
        TryIsAccounted(bucket, h, past, now, op.who, op.at);
      } else {
        OtherStepIsAccounted(bucket, h, past, now, op);
      }
      RunIsAccounted(bucket, Apply(h, op).0, Recorded(bucket, h, past, op), op.at, ops[1..], end);
    }
  }

  /** Tries let through, and tries forgiven, from `from` up to before `to`. */
  function TriesIn(marks: seq<Mark>, from: nat, to: nat): nat {
    if marks == [] then 0 else
    var m := marks[|marks| - 1];
    TriesIn(marks[..|marks| - 1], from, to) + (if m.Tried? && from <= m.at < to then 1 else 0)
  }

  function ForgivenIn(marks: seq<Mark>, from: nat, to: nat): nat {
    if marks == [] then 0 else
    var m := marks[|marks| - 1];
    ForgivenIn(marks[..|marks| - 1], from, to) + (if m.Forgiven? && from <= m.at < to then 1 else 0)
  }

  /** How many of these tries are from `from` on. */
  function Since(log: seq<nat>, from: nat): nat {
    if log == [] then 0
    else Since(log[..|log| - 1], from) + (if log[|log| - 1] >= from then 1 else 0)
  }

  lemma {:induction false} SinceIsFresh(log: seq<nat>, from: nat, now: nat, window: nat)
    requires now < from + window
    ensures Since(log, from) <= Fresh(log, now, window)
  {
    if log != [] {
      SinceIsFresh(log[..|log| - 1], from, now, window);
    }
  }

  lemma {:induction false} NothingSinceYet(marks: seq<Mark>, from: nat, to: nat)
    requires forall i :: 0 <= i < |marks| ==> marks[i].at < from
    ensures Since(Unforgiven(marks), from) == 0 && TriesIn(marks, from, to) == 0
  {
    if marks != [] {
      NothingSinceYet(marks[..|marks| - 1], from, to);
    }
  }

  lemma OneMoreMark(marks: seq<Mark>, m: Mark, from: nat, to: nat)
    requires TriesIn(marks, from, to) <= Since(Unforgiven(marks), from) + ForgivenIn(marks, from, to)
    requires m.at < to && (m.at < from ==> Since(Unforgiven(marks), from) == 0)
    requires m.at < from ==> TriesIn(marks, from, to) == 0
    ensures
      var more := marks + [m];
      TriesIn(more, from, to) <= Since(Unforgiven(more), from) + ForgivenIn(more, from, to)
  {
    var more := marks + [m];
    assert more[..|marks|] == marks;
    if m.Tried? {
      UnforgivenTry(marks, m.at);
      assert (Unforgiven(marks) + [m.at])[..|Unforgiven(marks)|] == Unforgiven(marks);
    } else {
      UnforgivenForgiven(marks, m.at);
    }
  }

  lemma LawfulBefore(marks: seq<Mark>, bucket: Bucket, now: nat, n: nat)
    requires Lawful(marks, bucket, now) && n <= |marks|
    ensures Lawful(marks[..n], bucket, now)
  {
    forall i | 0 <= i < n && marks[..n][i].Tried?
      ensures Allowed(marks[..n][..i], marks[..n][i].at, bucket)
    {
      assert marks[..n][..i] == marks[..i];
    }
  }

  /** While the window lasts, what was let through is still on the log or was forgiven in it. */
  lemma {:induction false} LetThroughIsKept(marks: seq<Mark>, bucket: Bucket, now: nat, from: nat, to: nat)
    requires Lawful(marks, bucket, now)
    requires forall i :: 0 <= i < |marks| ==> marks[i].at < to
    ensures TriesIn(marks, from, to) <= Since(Unforgiven(marks), from) + ForgivenIn(marks, from, to)
  {
    if marks != [] {
      var n := |marks| - 1;
      LawfulBefore(marks, bucket, now, n);
      LetThroughIsKept(marks[..n], bucket, now, from, to);
      if marks[n].at < from {
        NothingSinceYet(marks[..n], from, to);
      }
      OneMoreMark(marks[..n], marks[n], from, to);
      assert marks[..n] + [marks[n]] == marks;
    }
  }

  /** In any window, no more gets through than the bucket allows and what is forgiven in it. */
  lemma {:induction false} WindowBound(marks: seq<Mark>, bucket: Bucket, now: nat, from: nat)
    requires Lawful(marks, bucket, now)
    ensures TriesIn(marks, from, from + bucket.window) <= bucket.max + ForgivenIn(marks, from, from + bucket.window)
  {
    if marks != [] {
      var n, to := |marks| - 1, from + bucket.window;
      LawfulBefore(marks, bucket, now, n);
      WindowBound(marks[..n], bucket, now, from);
      if marks[n].Tried? && from <= marks[n].at < to {
        LetThroughIsKept(marks[..n], bucket, now, from, to);
        SinceIsFresh(Unforgiven(marks[..n]), from, marks[n].at, bucket.window);
      }
    }
  }

  /**
    In every run of anything, for each key that addresses are counted under -
    their own, a network, or everybody else - no more tries get through in any
    window than the bucket allows, and those forgiven in it.
   */
  lemma NoKeyGetsMoreThanItsShare(bucket: Bucket, now: nat, ops: seq<Op>, end: nat, key: Key, from: nat)
    requires InOrder(ops, now) && now <= end && forall i :: 0 <= i < |ops| ==> ops[i].at <= end
    ensures
      var marks := MarksOf(Record(bucket, Hits(map[], NO_TABLE, now), map[], ops), Slot(key, bucket));
      TriesIn(marks, from, from + bucket.window) <= bucket.max + ForgivenIn(marks, from, from + bucket.window)
  {
    var h := Hits(map[], NO_TABLE, now);
    NothingTracksNothing(now);
    assert AllLawful(map[], now);
    RunIsAccounted(bucket, h, map[], now, ops, end);
    WindowBound(MarksOf(Record(bucket, h, map[], ops), Slot(key, bucket)), bucket, end, from);
  }
}
