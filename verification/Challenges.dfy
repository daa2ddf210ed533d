/**
  Challenges: what a device was given to sign and has not answered yet.
 */
module Challenges {

  type Challenge = seq<nat>
  type DeviceId = nat

  const CHALLENGE_TTL_MS := 60_000
  const CHALLENGES_PER_DEVICE := 4

  datatype Given = Given(challenge: Challenge, expiresMs: nat)

  type Outstanding = map<DeviceId, seq<Given>>

  /** What of a queue has not run out, in order. */
  function Unexpired(queue: seq<Given>, now: nat): seq<Given> {
    if queue == [] then [] else
    var n := |queue| - 1;
    Unexpired(queue[..n], now) + (if queue[n].expiresMs > now then [queue[n]] else [])
  }

  function Retained(o: Outstanding, now: nat): Outstanding {
    map d | d in o && Unexpired(o[d], now) != [] :: Unexpired(o[d], now)
  }

  /** The same, with the queues in `left` not looked at yet. */
  function RetainedBut(o: Outstanding, left: set<DeviceId>, now: nat): Outstanding {
    map d | d in o && (d in left || Unexpired(o[d], now) != []) :: if d in left then o[d] else Unexpired(o[d], now)
  }

  function QueueOf(o: Outstanding, device: DeviceId): seq<Given> {
    if device in o then o[device] else []
  }

  function WithRoom(queue: seq<Given>): seq<Given> {
    if |queue| >= CHALLENGES_PER_DEVICE then queue[1..] else queue
  }

  function Issue(o: Outstanding, device: DeviceId, challenge: Challenge, now: nat): Outstanding {
    var kept := Retained(o, now);
    kept[device := WithRoom(QueueOf(kept, device)) + [Given(challenge, now + CHALLENGE_TTL_MS)]]
  }

  function OthersThan(queue: seq<Given>, challenge: Challenge): seq<Given> {
    if queue == [] then [] else
    var n := |queue| - 1;
    OthersThan(queue[..n], challenge) + (if queue[n].challenge != challenge then [queue[n]] else [])
  }

  /** Whether it was there; two requests carrying one signature race for it. */
  function Spend(o: Outstanding, device: DeviceId, challenge: Challenge): (Outstanding, bool) {
    if device !in o then (o, false) else
    var left := OthersThan(o[device], challenge);
    (if left == [] then o - {device} else o[device := left], |left| < |o[device]|)
  }

  predicate Held(o: Outstanding, device: DeviceId, challenge: Challenge) {
    exists i :: 0 <= i < |QueueOf(o, device)| && QueueOf(o, device)[i].challenge == challenge
  }

  // ---- The table as the source works on it ----

  class Table {
    var inner: Outstanding

    constructor ()
      ensures inner == map[]
    {
      inner := map[];
    }

    static method Retain(queue: seq<Given>, now: nat) returns (kept: seq<Given>)
      ensures kept == Unexpired(queue, now)
    {
      kept := [];
      for i := 0 to |queue|
        invariant kept == Unexpired(queue[..i], now)
      {
        assert queue[..i + 1][..i] == queue[..i];
        if queue[i].expiresMs > now {
          kept := kept + [queue[i]];
        }
      }
      assert queue[..|queue|] == queue;
    }

    /** Queue by queue; one that is left empty goes. */
    static method RetainAll(o: Outstanding, now: nat) returns (kept: Outstanding)
      ensures kept == Retained(o, now)
    {
      kept := o;
      var left := o.Keys;
      while left != {}
        invariant left <= o.Keys
        invariant kept == RetainedBut(o, left, now)
        decreases |left|
      {
        var device :| device in left;
        var issued := Retain(o[device], now);
        kept := if issued == [] then kept - {device} else kept[device := issued];
        left := left - {device};
      }
    }

    method IssueOne(device: DeviceId, challenge: Challenge, now: nat)
      modifies this
      ensures inner == Issue(old(inner), device, challenge, now)
    {
      inner := RetainAll(inner, now);
      var issued := if device in inner then inner[device] else [];
      if |issued| >= CHALLENGES_PER_DEVICE {
        issued := issued[1..];
      }
      issued := issued + [Given(challenge, now + CHALLENGE_TTL_MS)];
      inner := inner[device := issued];
    }

    /** The challenges a device may answer now. */
    method OutstandingOf(device: DeviceId, now: nat) returns (answerable: seq<Challenge>)
      ensures forall c :: c in answerable <==> Answerable(QueueOf(inner, device), now, c)
    {
      answerable := [];
      var issued := QueueOf(inner, device);
      for i := 0 to |issued|
        invariant forall c :: c in answerable <==> Answerable(issued[..i], now, c)
      {
        assert issued[..i + 1] == issued[..i] + [issued[i]];
        AnswerableOneMore(issued[..i], issued[i], now);
        if issued[i].expiresMs > now {
          answerable := answerable + [issued[i].challenge];
        }
      }
      assert issued[..|issued|] == issued;
    }

    method SpendOne(device: DeviceId, challenge: Challenge) returns (spent: bool)
      modifies this
      ensures (inner, spent) == Spend(old(inner), device, challenge)
    {
      if device !in inner {
        return false;
      }
      var issued := inner[device];
      var left: seq<Given> := [];
      for i := 0 to |issued|
        invariant left == OthersThan(issued[..i], challenge)
      {
        assert issued[..i + 1][..i] == issued[..i];
        if issued[i].challenge != challenge {
          left := left + [issued[i]];
        }
      }
      assert issued[..|issued|] == issued;
      spent := |left| < |issued|;
      inner := if left == [] then inner - {device} else inner[device := left];
    }
  }

  ghost predicate Answerable(queue: seq<Given>, now: nat, challenge: Challenge) {
    exists g :: g in queue && g.challenge == challenge && g.expiresMs > now
  }

  lemma AnswerableOneMore(queue: seq<Given>, last: Given, now: nat)
    ensures forall c :: Answerable(queue + [last], now, c) <==>
      Answerable(queue, now, c) || (c == last.challenge && last.expiresMs > now)
  {
    assert last in queue + [last];
    forall c | Answerable(queue, now, c)
      ensures Answerable(queue + [last], now, c)
    {
      var g :| g in queue && g.challenge == c && g.expiresMs > now;
      assert g in queue + [last];
    }
  }

  // ---- What queues keep ----

  lemma {:induction false} OthersAreThose(queue: seq<Given>, challenge: Challenge)
    ensures |OthersThan(queue, challenge)| <= |queue|
    ensures |OthersThan(queue, challenge)| == |queue| <==>
      forall i :: 0 <= i < |queue| ==> queue[i].challenge != challenge
    ensures forall g :: g in OthersThan(queue, challenge) <==> g in queue && g.challenge != challenge
  {
    if queue != [] {
      var n := |queue| - 1;
      OthersAreThose(queue[..n], challenge);
      assert queue == queue[..n] + [queue[n]];
    }
  }

  lemma {:induction false} UnexpiredAreThose(queue: seq<Given>, now: nat)
    ensures |Unexpired(queue, now)| <= |queue|
    ensures forall g :: g in Unexpired(queue, now) <==> g in queue && g.expiresMs > now
  {
    if queue != [] {
      var n := |queue| - 1;
      UnexpiredAreThose(queue[..n], now);
      assert queue == queue[..n] + [queue[n]];
    }
  }

  lemma HeldByMember(o: Outstanding, device: DeviceId, challenge: Challenge)
    ensures Held(o, device, challenge) <==> exists g :: g in QueueOf(o, device) && g.challenge == challenge
  {
    if g :| g in QueueOf(o, device) && g.challenge == challenge {
      var i :| 0 <= i < |QueueOf(o, device)| && QueueOf(o, device)[i] == g;
    }
  }

  /** Spending takes that challenge of that device, if it was there, and nothing else. */
  lemma SpendTakesOne(o: Outstanding, device: DeviceId, challenge: Challenge)
    ensures
      var (after, spent) := Spend(o, device, challenge);
      && (spent <==> Held(o, device, challenge))
      && !Held(after, device, challenge)
      && (forall d :: d != device ==> QueueOf(after, d) == QueueOf(o, d))
      && (forall g :: g in QueueOf(after, device) <==> g in QueueOf(o, device) && g.challenge != challenge)
  {
    var queue := QueueOf(o, device);
    OthersAreThose(queue, challenge);
    var after := Spend(o, device, challenge).0;
    assert QueueOf(after, device) == OthersThan(queue, challenge);
    HeldByMember(after, device, challenge);
  }

  lemma IssueBringsNoOther(o: Outstanding, device: DeviceId, challenge: Challenge, now: nat, d: DeviceId, c: Challenge)
    requires d != device || c != challenge
    ensures Held(Issue(o, device, challenge, now), d, c) ==> Held(o, d, c)
  {
    var after := Issue(o, device, challenge, now);
    UnexpiredAreThose(QueueOf(o, d), now);
    HeldByMember(after, d, c);
    HeldByMember(o, d, c);
    if g :| g in QueueOf(after, d) && g.challenge == c {
      assert g in Unexpired(QueueOf(o, d), now);
    }
  }

  // ---- Runs ----

  datatype Op = Ask(device: DeviceId, challenge: Challenge, now: nat) | Answer(device: DeviceId, challenge: Challenge)

  function Apply(o: Outstanding, op: Op): Outstanding {
    match op
    case Ask(device, challenge, now) => Issue(o, device, challenge, now)
    case Answer(device, challenge) => Spend(o, device, challenge).0
  }

  function Run(o: Outstanding, ops: seq<Op>): Outstanding
    decreases |ops|
  {
    if ops == [] then o else Run(Apply(o, ops[0]), ops[1..])
  }

  /** How many requests of a run won with this challenge. */
  function TimesWon(o: Outstanding, ops: seq<Op>, device: DeviceId, challenge: Challenge): nat
    decreases |ops|
  {
    if ops == [] then 0 else
    (if ops[0] == Answer(device, challenge) && Spend(o, device, challenge).1 then 1 else 0)
      + TimesWon(Apply(o, ops[0]), ops[1..], device, challenge)
  }

  /** However many requests carry the same answer, in whatever order: one wins at most, and none after it. */
  lemma {:induction false} AnsweredOnce(o: Outstanding, ops: seq<Op>, device: DeviceId, challenge: Challenge)
    requires forall i :: 0 <= i < |ops| && ops[i].Ask? ==> ops[i].device != device || ops[i].challenge != challenge
    ensures TimesWon(o, ops, device, challenge) <= if Held(o, device, challenge) then 1 else 0
    decreases |ops|
  {
    if ops != [] {
      match ops[0] {
        case Ask(d, c, now) => IssueBringsNoOther(o, d, c, now, device, challenge);
        case Answer(d, c) =>
          SpendTakesOne(o, d, c);
          HeldByMember(o, device, challenge);
          HeldByMember(Apply(o, ops[0]), device, challenge);
      }
      AnsweredOnce(Apply(o, ops[0]), ops[1..], device, challenge);
    }
  }

  ghost predicate Capped(o: Outstanding) {
    forall d :: d in o ==> 1 <= |o[d]| <= CHALLENGES_PER_DEVICE
  }

  /** In every run a device has so many outstanding at most, and one that has none takes no room. */
  lemma {:induction false} CapsHold(o: Outstanding, ops: seq<Op>)
    requires Capped(o)
    ensures Capped(Run(o, ops))
    ensures forall d :: |QueueOf(Run(o, ops), d)| <= 4
    decreases |ops|
  {
    if ops != [] {
      StepKeepsCaps(o, ops[0]);
      CapsHold(Apply(o, ops[0]), ops[1..]);
    }
  }

  lemma StepKeepsCaps(o: Outstanding, op: Op)
    requires Capped(o)
    ensures Capped(Apply(o, op))
  {
    match op
    case Ask(device, challenge, now) =>
      forall d | d in o
        ensures |Unexpired(o[d], now)| <= |o[d]|
      {
        UnexpiredAreThose(o[d], now);
      }
    case Answer(device, challenge) => OthersAreThose(QueueOf(o, device), challenge);
  }

  // ---- Asked again in between ----

  /** A challenge is there, with at most `k` behind it. */
  ghost predicate Stands(queue: seq<Given>, g: Given, k: int) {
    exists i :: 0 <= i < |queue| && queue[i] == g && |queue| - 1 - i <= k
  }

  lemma {:induction false} UnexpiredStands(queue: seq<Given>, g: Given, k: int, now: nat)
    requires Stands(queue, g, k) && g.expiresMs > now
    ensures Stands(Unexpired(queue, now), g, k)
  {
    var n := |queue| - 1;
    var last := Unexpired(queue, now);
    var i :| 0 <= i < |queue| && queue[i] == g && |queue| - 1 - i <= k;
    if i == n {
      assert last[|last| - 1] == g;
    } else {
      assert queue[..n][i] == g;
      UnexpiredStands(queue[..n], g, n - 1 - i, now);
      var rest := Unexpired(queue[..n], now);
      var j :| 0 <= j < |rest| && rest[j] == g && |rest| - 1 - j <= n - 1 - i;
      assert last[j] == g;
    }
  }

  lemma {:induction false} OthersStand(queue: seq<Given>, g: Given, k: int, challenge: Challenge)
    requires Stands(queue, g, k) && g.challenge != challenge
    ensures Stands(OthersThan(queue, challenge), g, k)
  {
    var n := |queue| - 1;
    var last := OthersThan(queue, challenge);
    var i :| 0 <= i < |queue| && queue[i] == g && |queue| - 1 - i <= k;
    if i == n {
      assert last[|last| - 1] == g;
    } else {
      assert queue[..n][i] == g;
      OthersStand(queue[..n], g, n - 1 - i, challenge);
      var rest := OthersThan(queue[..n], challenge);
      var j :| 0 <= j < |rest| && rest[j] == g && |rest| - 1 - j <= n - 1 - i;
      assert last[j] == g;
    }
  }

  function AsksFor(ops: seq<Op>, device: DeviceId): nat {
    if ops == [] then 0 else (if ops[0].Ask? && ops[0].device == device then 1 else 0) + AsksFor(ops[1..], device)
  }

  lemma AskKeepsStanding(
    o: Outstanding, device: DeviceId, challenge: Challenge, now: nat, d: DeviceId, g: Given, k: int)
    requires Capped(o) && Stands(QueueOf(o, d), g, k) && g.expiresMs > now
    requires d == device ==> k + 1 < CHALLENGES_PER_DEVICE
    ensures Stands(QueueOf(Issue(o, device, challenge, now), d), g, if d == device then k + 1 else k)
  {
    UnexpiredStands(QueueOf(o, d), g, k, now);
    UnexpiredAreThose(QueueOf(o, d), now);
    var kept := Unexpired(QueueOf(o, d), now);
    var i :| 0 <= i < |kept| && kept[i] == g && |kept| - 1 - i <= k;
    if d == device {
      var after := WithRoom(kept) + [Given(challenge, now + CHALLENGE_TTL_MS)];
      assert after[if |kept| >= CHALLENGES_PER_DEVICE then i - 1 else i] == g;
    }
  }

  /**
    Whoever asks in a device's name does not take its challenge away: through
    three later ones it stays answerable, until it runs out or is answered.
   */
  lemma {:induction false} OutlivesThreeMore(o: Outstanding, ops: seq<Op>, device: DeviceId, g: Given, k: nat)
    requires Capped(o) && Stands(QueueOf(o, device), g, k)
    requires k + AsksFor(ops, device) < CHALLENGES_PER_DEVICE
    requires forall i :: 0 <= i < |ops| && ops[i].Ask? ==> ops[i].now < g.expiresMs
    requires forall i :: 0 <= i < |ops| && ops[i].Answer? ==> ops[i] != Answer(device, g.challenge)
    ensures g in QueueOf(Run(o, ops), device) && Held(Run(o, ops), device, g.challenge)
    decreases |ops|
  {
    if ops != [] {
      StepKeepsCaps(o, ops[0]);
      match ops[0] {
        case Ask(d, c, now) =>
          AskKeepsStanding(o, d, c, now, device, g, k);
          OutlivesThreeMore(Apply(o, ops[0]), ops[1..], device, g, if d == device then k + 1 else k);
        case Answer(d, c) =>
          if d == device {
            OthersStand(QueueOf(o, device), g, k, c);
          }
          OutlivesThreeMore(Apply(o, ops[0]), ops[1..], device, g, k);
      }
    }
  }

  // ---- How long a challenge may be answered ----

  /** Whatever of a queue has this challenge runs out then. */
  ghost predicate RunsOutAt(queue: seq<Given>, challenge: Challenge, expiresMs: nat) {
    forall g :: g in queue && g.challenge == challenge ==> g.expiresMs == expiresMs
  }

  lemma {:induction false} RunsOutThenToo(
    o: Outstanding, ops: seq<Op>, device: DeviceId, challenge: Challenge, expiresMs: nat)
    requires RunsOutAt(QueueOf(o, device), challenge, expiresMs)
    requires forall i :: 0 <= i < |ops| && ops[i].Ask? ==> ops[i].device != device || ops[i].challenge != challenge
    ensures RunsOutAt(QueueOf(Run(o, ops), device), challenge, expiresMs)
    decreases |ops|
  {
    if ops != [] {
      match ops[0] {
        case Ask(d, c, now) => UnexpiredAreThose(QueueOf(o, device), now);
        case Answer(d, c) => OthersAreThose(QueueOf(o, device), c);
      }
      RunsOutThenToo(Apply(o, ops[0]), ops[1..], device, challenge, expiresMs);
    }
  }

  /**
    A new challenge may be answered for a minute from when it was asked for, and
    not a millisecond longer, whatever three more are asked for in between.
   */
  lemma AnswerableForAMinute(
    o: Outstanding, device: DeviceId, challenge: Challenge, asked: nat, ops: seq<Op>, now: nat)
    requires Capped(o) && !Held(o, device, challenge)
    requires AsksFor(ops, device) <= 3
    requires forall i :: 0 <= i < |ops| && ops[i].Ask? ==>
      ops[i].now < asked + 60_000 && (ops[i].device != device || ops[i].challenge != challenge)
    requires forall i :: 0 <= i < |ops| && ops[i].Answer? ==> ops[i] != Answer(device, challenge)
    ensures Answerable(QueueOf(Run(Issue(o, device, challenge, asked), ops), device), now, challenge)
      <==> now < asked + 60_000
  {
    var after, g := Issue(o, device, challenge, asked), Given(challenge, asked + CHALLENGE_TTL_MS);
    var queue := QueueOf(after, device);
    StepKeepsCaps(o, Ask(device, challenge, asked));
    assert queue[|queue| - 1] == g;
    UnexpiredAreThose(QueueOf(o, device), asked);
    HeldByMember(o, device, challenge);
    RunsOutThenToo(after, ops, device, challenge, g.expiresMs);
    OutlivesThreeMore(after, ops, device, g, 0);
  }

  /** When one is asked for, whatever has run out is forgotten, of every device. */
  lemma NothingExpiredStays(o: Outstanding, device: DeviceId, challenge: Challenge, now: nat, d: DeviceId, g: Given)
    requires g in QueueOf(Issue(o, device, challenge, now), d)
    ensures g.expiresMs > now
  {
    UnexpiredAreThose(QueueOf(o, d), now);
  }
}
