/**
  The relay two devices pair through: a post box with two slots and a timer.
 */
module Pairing {
  import opened Basics
  import opened Wrappers

  type SessionId = string
  type AccountId = nat
  type DeviceId = nat
  type Message = seq<nat>
  type Claim = string

  const TTL_MS := 10 * 60 * 1000
  const MAX_MESSAGES := 4
  const MAX_MESSAGE_BYTES := 8 * 1024
  const OPEN_PER_ACCOUNT := 3
  const OPEN_AT_MOST := 1000
  const MAX_CLAIM_BYTES := 128

  datatype Side = A | B {
    function Other(): Side {
      if A? then B else A
    }
  }

  datatype Error = RateLimited | TooManyOpen | Unauthorized | TooLarge | EmptyMessage | TooManyMessages | NotFound

  /** `claim` is what side `b` holds its side with; a hash of it, in the source. */
  datatype Session = Session(
    account: AccountId, opener: DeviceId, claim: Option<Claim>,
    fromA: seq<Message>, fromB: seq<Message>, expiresMs: nat)
  {
    function Slot(side: Side): seq<Message> {
      if side.A? then fromA else fromB
    }

    function Put(side: Side, message: Message): Session {
      if side.A? then this.(fromA := fromA + [message]) else this.(fromB := fromB + [message])
    }
  }

  type Sessions = map<SessionId, Session>

  /** When each session was looked at: the clock is read for each of them. */
  type Looks = map<SessionId, nat>

  function SeenAt(looks: Looks, id: SessionId): nat {
    if id in looks then looks[id] else 0
  }

  function Unexpired(s: Sessions, looks: Looks): Sessions {
    map id | id in s && s[id].expiresMs > SeenAt(looks, id) :: s[id]
  }

  function OpenedFor(s: Sessions, account: AccountId): set<SessionId> {
    set id | id in s && s[id].account == account
  }

  /** `code` is the first code drawn that is not in use. */
  function Open(s: Sessions, account: AccountId, opener: DeviceId, looks: Looks, now: nat, code: SessionId)
    : (Sessions, Result<SessionId, Error>)
  {
    var s := Unexpired(s, looks);
    if |s| >= OPEN_AT_MOST then (s, Failure(RateLimited))
    else if |OpenedFor(s, account)| >= OPEN_PER_ACCOUNT then (s, Failure(TooManyOpen))
    else (s[code := Session(account, opener, None, [], [], now + TTL_MS)], Success(code))
  }

  /** One that is there and has not run out; an expired one goes, and answers like one that never was. */
  function Live(s: Sessions, id: SessionId, now: nat): (Sessions, bool) {
    if id in s && s[id].expiresMs > now then (s, true) else (s - {id}, false)
  }

  /** A claim as it counts: without the space around it, and neither empty nor too long. */
  function ClaimGiven(claim: Option<Claim>): Option<Claim> {
    if claim.None? then None else
    var trimmed := Trim(claim.value);
    if trimmed == [] || Utf8Bytes(trimmed) > MAX_CLAIM_BYTES then None else Some(trimmed)
  }

  /** Whether whoever asks may speak for a side; the first claim to arrive holds side `b`. */
  function Admit(s: Sessions, id: SessionId, side: Side, device: Option<DeviceId>, claim: Option<Claim>, now: nat)
    : (Sessions, Result<(), Error>)
  {
    var (s, there) := Live(s, id, now);
    if !there then (s, Failure(NotFound)) else
    match side
    case A => (s, if device == Some(s[id].opener) then Success(()) else Failure(Unauthorized))
    case B =>
      var given := ClaimGiven(claim);
      if given.None? then (s, Failure(Unauthorized))
      else if s[id].claim.None? then (s[id := s[id].(claim := given)], Success(()))
      else (s, if s[id].claim == given then Success(()) else Failure(Unauthorized))
  }

  function Post(s: Sessions, id: SessionId, side: Side, message: Message, now: nat): (Sessions, Result<(), Error>) {
    if |message| > MAX_MESSAGE_BYTES then (s, Failure(TooLarge))
    else if message == [] then (s, Failure(EmptyMessage)) else
    var (s, there) := Live(s, id, now);
    if !there then (s, Failure(NotFound))
    else if |s[id].Slot(side)| >= MAX_MESSAGES then (s, Failure(TooManyMessages))
    else (s[id := s[id].Put(side, message)], Success(()))
  }

  /** What the other side has said, from `after` on. */
  function Read(s: Sessions, id: SessionId, side: Side, after: nat, now: nat): (Sessions, Result<seq<Message>, Error>) {
    var (s, there) := Live(s, id, now);
    if !there then (s, Failure(NotFound)) else
    var messages := s[id].Slot(side.Other());
    (s, Success(if after <= |messages| then messages[after..] else []))
  }

  function CloseOpenedBy(s: Sessions, device: DeviceId): Sessions {
    map id | id in s && s[id].opener != device :: s[id]
  }

  // ---- The table as the source works on it ----

  class Pairings {
    var inner: Sessions

    constructor ()
      ensures inner == map[]
    {
      inner := map[];
    }

    /** Draw codes until one is not in use. `codes` is what the dice show; one of them must be free. */
    method OpenSession(account: AccountId, opener: DeviceId, looks: Looks, now: nat, codes: seq<SessionId>)
      returns (r: Result<SessionId, Error>, ghost code: SessionId)
      requires exists i :: 0 <= i < |codes| && codes[i] !in Unexpired(inner, looks)
      modifies this
      ensures code in codes && code !in Unexpired(old(inner), looks)
      ensures (inner, r) == Open(old(inner), account, opener, looks, now, code)
    {
      ghost var k :| 0 <= k < |codes| && codes[k] !in Unexpired(inner, looks);
      code := codes[k];
      inner := map id | id in inner && inner[id].expiresMs > SeenAt(looks, id) :: inner[id];
      if |inner| >= OPEN_AT_MOST {
        return Failure(RateLimited), code;
      }
      var mine := set id | id in inner && inner[id].account == account;
      assert mine == OpenedFor(inner, account);
      if |mine| >= OPEN_PER_ACCOUNT {
        return Failure(TooManyOpen), code;
      }
      var i := 0;
      while codes[i] in inner
        invariant 0 <= i <= k
        decreases k - i
      {
        i := i + 1;
      }
      code := codes[i];
      inner := inner[codes[i] := Session(account, opener, None, [], [], now + TTL_MS)];
      r := Success(codes[i]);
    }

    method FindLive(id: SessionId, now: nat) returns (there: bool)
      modifies this
      ensures (inner, there) == Live(old(inner), id, now)
    {
      there := id in inner && inner[id].expiresMs > now;
      if !there {
        inner := inner - {id};
      }
    }

    method AdmitTo(id: SessionId, side: Side, device: Option<DeviceId>, claim: Option<Claim>, now: nat)
      returns (r: Result<(), Error>)
      modifies this
      ensures (inner, r) == Admit(old(inner), id, side, device, claim, now)
    {
      var there := FindLive(id, now);
      if !there {
        return Failure(NotFound);
      }
      match side
      case A =>
        r := if device == Some(inner[id].opener) then Success(()) else Failure(Unauthorized);
      case B =>
        var given := ClaimGiven(claim);
        if given.None? {
          return Failure(Unauthorized);
        }
        match inner[id].claim
        case None =>
          inner := inner[id := inner[id].(claim := given)];
          r := Success(());
        case Some(held) =>
          r := if held == given.value then Success(()) else Failure(Unauthorized);
    }

    method PostTo(id: SessionId, side: Side, message: Message, now: nat) returns (r: Result<(), Error>)
      modifies this
      ensures (inner, r) == Post(old(inner), id, side, message, now)
    {
      if |message| > MAX_MESSAGE_BYTES {
        return Failure(TooLarge);
      }
      if message == [] {
        return Failure(EmptyMessage);
      }
      var there := FindLive(id, now);
      if !there {
        return Failure(NotFound);
      }
      if |inner[id].Slot(side)| >= MAX_MESSAGES {
        return Failure(TooManyMessages);
      }
      inner := inner[id := inner[id].Put(side, message)];
      r := Success(());
    }

    /** `iter().skip(after)`, message by message. */
    method ReadFrom(id: SessionId, side: Side, after: nat, now: nat) returns (r: Result<seq<Message>, Error>)
      modifies this
      ensures (inner, r) == Read(old(inner), id, side, after, now)
    {
      var there := FindLive(id, now);
      if !there {
        return Failure(NotFound);
      }
      var messages := inner[id].Slot(side.Other());
      var read: seq<Message> := [];
      for i := 0 to |messages|
        invariant read == if after <= i then messages[after..i] else []
      {
        if i >= after {
          read := read + [messages[i]];
        }
      }
      assert after <= |messages| ==> read == messages[after..];
      r := Success(read);
    }

    method Close(id: SessionId) returns (was: bool)
      modifies this
      ensures inner == old(inner) - {id} && was == (id in old(inner))
    {
      was := id in inner;
      inner := inner - {id};
    }

    method CloseAllOpenedBy(device: DeviceId) returns (gone: int)
      modifies this
      ensures inner == CloseOpenedBy(old(inner), device)
      ensures forall id :: id in inner <==> id in old(inner) && old(inner)[id].opener != device
      ensures gone == |old(inner)| - |inner|
    {
      var before := |inner|;
      inner := map id | id in inner && inner[id].opener != device :: inner[id];
      gone := before - |inner|;
    }
  }

  // ---- When each of them succeeds ----

  predicate Lives(s: Sessions, id: SessionId, now: nat) {
    id in s && s[id].expiresMs > now
  }

  /** What counts as this claim: what was sent without the space around it, of 1 to 128 bytes. */
  ghost predicate IsClaim(sent: Option<Claim>, claim: Claim) {
    sent.Some? && IsTrimmed(sent.value, claim) && claim != [] && Utf8Bytes(claim) <= 128
  }

  lemma ClaimGivenIs(sent: Option<Claim>)
    ensures ClaimGiven(sent).Some? ==> IsClaim(sent, ClaimGiven(sent).value)
    ensures forall claim {:trigger IsClaim(sent, claim)} :: IsClaim(sent, claim) ==> ClaimGiven(sent) == Some(claim)
  {
    if sent.Some? {
      TrimTakesTheSpace(sent.value);
      forall claim {:trigger IsClaim(sent, claim)} | IsClaim(sent, claim)
        ensures claim == Trim(sent.value)
      {
        TrimmedIsOne(sent.value, claim, Trim(sent.value));
      }
    }
  }

  /**
    Who is let speak while a session lives: for `a` its opener and nobody else;
    for `b` whoever brings the first claim, which is kept, or the same claim
    again. What is not there or has run out is not found, and gone.
   */
  lemma AdmitsExactlyWhen(
    s: Sessions, id: SessionId, side: Side, device: Option<DeviceId>, sent: Option<Claim>, now: nat)
    ensures
      var (after, answer) := Admit(s, id, side, device, sent, now);
      if !Lives(s, id, now) then
        answer == Failure(NotFound) && after == s - {id}
      else
        var x := s[id];
        && (answer.Success? || answer == Failure(Unauthorized))
        && (side.A? ==> after == s && (answer.Success? <==> device == Some(x.opener)))
        && (side.B? ==>
              && (answer.Success? <==>
                    exists claim :: IsClaim(sent, claim) && (x.claim == None || x.claim == Some(claim)))
              && (answer.Success? ==>
                    exists claim ::
                      && IsClaim(sent, claim)
                      && after == s[id := Session(x.account, x.opener, Some(claim), x.fromA, x.fromB, x.expiresMs)])
              && (answer.Failure? ==> after == s))
  {
    ClaimGivenIs(sent);
    if Lives(s, id, now) && side.B? && ClaimGiven(sent).Some? {
      var x, claim := s[id], ClaimGiven(sent).value;
      assert IsClaim(sent, claim);
      if x.claim == Some(claim) {
        assert s == s[id := Session(x.account, x.opener, Some(claim), x.fromA, x.fromB, x.expiresMs)];
      }
    }
  }

  /**
    A message gets in exactly when it is of 1 to 8,192 bytes, its session lives
    and its side has said fewer than four.
   */
  lemma PostsExactlyWhen(s: Sessions, id: SessionId, side: Side, message: Message, now: nat)
    ensures
      var (after, answer) := Post(s, id, side, message, now);
      var lives := Lives(s, id, now);
      var said := if lives then if side.A? then |s[id].fromA| else |s[id].fromB| else 0;
      && (answer == Failure(TooLarge) <==> |message| > 8192)
      && (answer == Failure(EmptyMessage) <==> |message| == 0)
      && (answer == Failure(NotFound) <==> 1 <= |message| <= 8192 && !lives)
      && (answer == Failure(TooManyMessages) <==> 1 <= |message| <= 8192 && lives && said >= 4)
      && (answer.Success? <==> 1 <= |message| <= 8192 && lives && said < 4)
      && (answer.Success? ==>
            var x := s[id];
            after == s[id := if side.A?
              then Session(x.account, x.opener, x.claim, x.fromA + [message], x.fromB, x.expiresMs)
              else Session(x.account, x.opener, x.claim, x.fromA, x.fromB + [message], x.expiresMs)])
      && (answer.Failure? ==> after == if answer.error.NotFound? then s - {id} else s)
  {
    if Lives(s, id, now) {
      assert s[id].Slot(side) == if side.A? then s[id].fromA else s[id].fromB;
    }
  }

  /** A reader is answered what the other side has said from there on, exactly while the session lives. */
  lemma ReadsExactlyWhen(s: Sessions, id: SessionId, side: Side, from: nat, now: nat)
    ensures
      var (after, answer) := Read(s, id, side, from, now);
      if !Lives(s, id, now) then
        answer == Failure(NotFound) && after == s - {id}
      else
        var said := if side.A? then s[id].fromB else s[id].fromA;
        && after == s && answer.Success?
        && |answer.value| == (if from < |said| then |said| - from else 0)
        && forall k :: 0 <= k < |answer.value| ==> answer.value[k] == said[from + k]
  {
    assert Lives(s, id, now) ==> s[id].Slot(side.Other()) == if side.A? then s[id].fromB else s[id].fromA;
  }

  /** The sessions that had not run out when they were looked at. */
  function StillOpen(s: Sessions, looks: Looks): set<SessionId> {
    set id | id in s && s[id].expiresMs > if id in looks then looks[id] else 0
  }

  function StillOpenFor(s: Sessions, looks: Looks, account: AccountId): set<SessionId> {
    set id | id in StillOpen(s, looks) && s[id].account == account
  }

  lemma UnexpiredIsStillOpen(s: Sessions, looks: Looks, account: AccountId)
    ensures
      var left := Unexpired(s, looks);
      && left.Keys == StillOpen(s, looks) && |left| == |StillOpen(s, looks)|
      && OpenedFor(left, account) == StillOpenFor(s, looks, account)
      && forall id :: id in left ==> left[id] == s[id]
  {
    var left := Unexpired(s, looks);
    assert left.Keys == StillOpen(s, looks);
    assert |left| == |left.Keys|;
  }

  /** A session is opened exactly while fewer than 1,000 unexpired ones are, and fewer than three of the account. */
  lemma OpensExactlyWhen(
    s: Sessions, account: AccountId, opener: DeviceId, looks: Looks, now: nat, code: SessionId)
    ensures
      var (after, answer) := Open(s, account, opener, looks, now, code);
      var left := StillOpen(s, looks);
      && answer == (if |left| >= 1000 then Failure(RateLimited)
                    else if |StillOpenFor(s, looks, account)| >= 3 then Failure(TooManyOpen)
                    else Success(code))
      && after.Keys == left + (if answer.Success? then {code} else {})
      && (answer.Success? ==> after[code] == Session(account, opener, None, [], [], now + 600_000))
      && forall id :: id in left && (answer.Success? ==> id != code) ==> after[id] == s[id]
  {
    UnexpiredIsStillOpen(s, looks, account);
  }

  // ---- Runs ----

  datatype Op =
    | OpenOne(account: AccountId, opener: DeviceId, looks: Looks, now: nat, code: SessionId)
    | AdmitOne(id: SessionId, side: Side, device: Option<DeviceId>, claim: Option<Claim>, now: nat)
    | PostOne(id: SessionId, side: Side, message: Message, now: nat)
    | ReadOne(id: SessionId, side: Side, after: nat, now: nat)
    | CloseOne(id: SessionId)
    | CloseAll(opener: DeviceId)

  function Apply(s: Sessions, op: Op): Sessions {
    match op
    case OpenOne(account, opener, looks, now, code) =>
      if code in Unexpired(s, looks) then Unexpired(s, looks) else Open(s, account, opener, looks, now, code).0
    case AdmitOne(id, side, device, claim, now) => Admit(s, id, side, device, claim, now).0
    case PostOne(id, side, message, now) => Post(s, id, side, message, now).0
    case ReadOne(id, side, after, now) => Read(s, id, side, after, now).0
    case CloseOne(id) => s - {id}
    case CloseAll(device) => CloseOpenedBy(s, device)
  }

  function Run(s: Sessions, ops: seq<Op>): Sessions
    decreases |ops|
  {
    if ops == [] then s else Run(Apply(s, ops[0]), ops[1..])
  }

  // ---- Caps ----

  ghost predicate SessionOk(x: Session) {
    forall side: Side :: |x.Slot(side)| <= MAX_MESSAGES
      && forall m :: m in x.Slot(side) ==> 1 <= |m| <= MAX_MESSAGE_BYTES
  }

  ghost predicate Capped(s: Sessions) {
    && |s| <= OPEN_AT_MOST
    && (forall account {:trigger OpenedFor(s, account)} :: |OpenedFor(s, account)| <= OPEN_PER_ACCOUNT)
    && (forall id {:trigger SessionOk(s[id])} :: id in s ==> SessionOk(s[id]))
  }

  /** Fewer sessions, each as before or still in order, keep the caps. */
  lemma LessKeepsCaps(s: Sessions, less: Sessions)
    requires Capped(s) && less.Keys <= s.Keys
    requires forall id :: id in less ==> less[id].account == s[id].account && (less[id] == s[id] || SessionOk(less[id]))
    ensures Capped(less)
  {
    PartIsSmaller(less.Keys, s.Keys);
    forall account
      ensures |OpenedFor(less, account)| <= OPEN_PER_ACCOUNT
    {
      PartIsSmaller(OpenedFor(less, account), OpenedFor(s, account));
    }
    forall id | id in less
      ensures SessionOk(less[id])
    {
      assert SessionOk(s[id]);
    }
  }

  lemma OneMoreOfAnAccount(s: Sessions, code: SessionId, x: Session, account: AccountId)
    requires code !in s
    ensures |OpenedFor(s[code := x], account)| == |OpenedFor(s, account)| + (if account == x.account then 1 else 0)
  {
    var before, after := OpenedFor(s, account), OpenedFor(s[code := x], account);
    if account == x.account {
      assert after == before + {code};
    } else {
      assert after == before;
    }
  }

  lemma OneMoreIsInOrder(s: Sessions, code: SessionId, x: Session, id: SessionId)
    requires id in s[code := x] && (id in s ==> SessionOk(s[id])) && SessionOk(x)
    ensures SessionOk(s[code := x][id])
  {
  }

  lemma OneMoreKeepsCaps(s: Sessions, code: SessionId, x: Session)
    requires Capped(s) && code !in s && SessionOk(x)
    requires |s| < OPEN_AT_MOST && |OpenedFor(s, x.account)| < OPEN_PER_ACCOUNT
    ensures Capped(s[code := x])
  {
    forall account {:trigger OpenedFor(s[code := x], account)}
      ensures |OpenedFor(s[code := x], account)| <= OPEN_PER_ACCOUNT
    {
      OneMoreOfAnAccount(s, code, x, account);
      assert |OpenedFor(s, account)| <= OPEN_PER_ACCOUNT;
    }
    forall id {:trigger SessionOk(s[code := x][id])} | id in s[code := x]
      ensures SessionOk(s[code := x][id])
    {
      assert id in s ==> SessionOk(s[id]);
      OneMoreIsInOrder(s, code, x, id);
    }
    assert s[code := x].Keys == s.Keys + {code};
  }

  lemma OpenKeepsCaps(s: Sessions, account: AccountId, opener: DeviceId, looks: Looks, now: nat, code: SessionId)
    requires Capped(s) && code !in Unexpired(s, looks)
    ensures Capped(Open(s, account, opener, looks, now, code).0)
  {
    var left := Unexpired(s, looks);
    LessKeepsCaps(s, left);
    if |left| < OPEN_AT_MOST && |OpenedFor(left, account)| < OPEN_PER_ACCOUNT {
      OneMoreKeepsCaps(left, code, Session(account, opener, None, [], [], now + TTL_MS));
    }
  }

  lemma PutKeepsOk(x: Session, side: Side, message: Message)
    requires SessionOk(x) && |x.Slot(side)| < MAX_MESSAGES && 1 <= |message| <= MAX_MESSAGE_BYTES
    ensures SessionOk(x.Put(side, message))
  {
    forall other: Side
      ensures |x.Put(side, message).Slot(other)| <= MAX_MESSAGES
      ensures forall m :: m in x.Put(side, message).Slot(other) ==> 1 <= |m| <= MAX_MESSAGE_BYTES
    {
      assert |x.Slot(other)| <= MAX_MESSAGES;
    }
  }

  lemma ClaimKeepsOk(x: Session, claim: Option<Claim>)
    requires SessionOk(x)
    ensures SessionOk(x.(claim := claim))
  {
    forall side: Side
      ensures x.(claim := claim).Slot(side) == x.Slot(side)
    {
    }
  }

  lemma AdmitKeepsCaps(s: Sessions, id: SessionId, side: Side, device: Option<DeviceId>, claim: Option<Claim>, now: nat)
    requires Capped(s)
    ensures Capped(Admit(s, id, side, device, claim, now).0)
  {
    if id in s {
      assert SessionOk(s[id]);
      ClaimKeepsOk(s[id], ClaimGiven(claim));
    }
    LessKeepsCaps(s, Admit(s, id, side, device, claim, now).0);
  }

  lemma PostKeepsCaps(s: Sessions, id: SessionId, side: Side, message: Message, now: nat)
    requires Capped(s)
    ensures Capped(Post(s, id, side, message, now).0)
  {
    if id in s && |s[id].Slot(side)| < MAX_MESSAGES && 1 <= |message| <= MAX_MESSAGE_BYTES {
      assert SessionOk(s[id]);
      PutKeepsOk(s[id], side, message);
    }
    LessKeepsCaps(s, Post(s, id, side, message, now).0);
  }

  lemma StepKeepsCaps(s: Sessions, op: Op)
    requires Capped(s)
    ensures Capped(Apply(s, op))
  {
    match op
    case OpenOne(account, opener, looks, now, code) =>
      if code in Unexpired(s, looks) {
        LessKeepsCaps(s, Unexpired(s, looks));
      } else {
        OpenKeepsCaps(s, account, opener, looks, now, code);
      }
    case AdmitOne(id, side, device, claim, now) => AdmitKeepsCaps(s, id, side, device, claim, now);
    case PostOne(id, side, message, now) => PostKeepsCaps(s, id, side, message, now);
    case ReadOne(id, side, after, now) => LessKeepsCaps(s, Apply(s, op));
    case CloseOne(id) => LessKeepsCaps(s, Apply(s, op));
    case CloseAll(opener) => LessKeepsCaps(s, Apply(s, op));
  }

  lemma {:induction false} RunKeepsCaps(s: Sessions, ops: seq<Op>)
    requires Capped(s)
    ensures Capped(Run(s, ops))
    decreases |ops|
  {
    if ops != [] {
      StepKeepsCaps(s, ops[0]);
      RunKeepsCaps(Apply(s, ops[0]), ops[1..]);
    }
  }

  /**
    From an empty table, in every run: so many sessions in all, so many an
    account, so many messages a side, none empty or large.
   */
  lemma CapsHoldInEveryRun(ops: seq<Op>, account: AccountId, id: SessionId, side: Side)
    ensures
      var after := Run(map[], ops);
      && |after| <= 1000
      && |OpenedFor(after, account)| <= 3
      && (id in after ==> |after[id].Slot(side)| <= 4 && forall m :: m in after[id].Slot(side) ==> 1 <= |m| <= 8192)
  {
    forall other {:trigger OpenedFor(map[], other)}
      ensures |OpenedFor(map[], other)| <= OPEN_PER_ACCOUNT
    {
      assert OpenedFor(map[], other) == {};
    }
    RunKeepsCaps(map[], ops);
    var after := Run(map[], ops);
    assert |OpenedFor(after, account)| <= OPEN_PER_ACCOUNT;
    assert id in after ==> SessionOk(after[id]);
  }

  // ---- One session ----

  /** What of a session never changes, and what only grows. */
  ghost predicate Follows(before: Session, after: Session) {
    && after.account == before.account && after.opener == before.opener && after.expiresMs == before.expiresMs
    && before.fromA <= after.fromA && before.fromB <= after.fromB
    && (before.claim.Some? ==> after.claim == before.claim)
  }

  /** Nobody draws this code again: from then on it would be another session. */
  ghost predicate SameSession(ops: seq<Op>, id: SessionId) {
    forall i :: 0 <= i < |ops| && ops[i].OpenOne? ==> ops[i].code != id
  }

  lemma {:induction false} SessionOnlyGrows(s: Sessions, ops: seq<Op>, id: SessionId)
    requires SameSession(ops, id)
    ensures id in Run(s, ops) ==> id in s && Follows(s[id], Run(s, ops)[id])
    decreases |ops|
  {
    if ops != [] {
      assert SameSession(ops[1..], id);
      SessionOnlyGrows(Apply(s, ops[0]), ops[1..], id);
    }
  }

  /**
    Whoever speaks for a side of one session is one and the same: for `a` the
    device that opened it, for `b` whoever brought the first claim.
   */
  lemma OneSpeakerPerSide(
    s: Sessions, id: SessionId, side: Side, d1: Option<DeviceId>, c1: Option<Claim>, now1: nat,
    ops: seq<Op>, d2: Option<DeviceId>, c2: Option<Claim>, now2: nat)
    requires SameSession(ops, id)
    requires Admit(s, id, side, d1, c1, now1).1.Success?
    requires Admit(Run(Admit(s, id, side, d1, c1, now1).0, ops), id, side, d2, c2, now2).1.Success?
    ensures id in s
    ensures side.A? ==> d1 == Some(s[id].opener) == d2
    ensures side.B? ==> ClaimGiven(c1).Some? && ClaimGiven(c1) == ClaimGiven(c2)
    ensures side.B? && s[id].claim.Some? ==> ClaimGiven(c1) == s[id].claim
  {
    SessionOnlyGrows(Admit(s, id, side, d1, c1, now1).0, ops, id);
  }

  // ---- Two ordered channels ----

  /** A device that starts at 0 and asks from where its last answer ended. */
  datatype Reader = Reader(next: nat, got: seq<Message>)

  /** The session watched, who reads it, and everything either side ever got in. */
  datatype Relay = Relay(sessions: Sessions, a: Reader, b: Reader, postedA: seq<Message>, postedB: seq<Message>) {
    function Posted(side: Side): seq<Message> {
      if side.A? then postedA else postedB
    }

    function ReaderOf(side: Side): Reader {
      if side.A? then a else b
    }
  }

  /** Anything anybody does, or one of the two readers asking for what is next. */
  datatype Move = Other(op: Op) | Ask(side: Side, now: nat)

  function Moved(r: Relay, id: SessionId, m: Move): Relay {
    match m
    case Other(op) =>
      var after := Apply(r.sessions, op);
      var taken := op.PostOne? && op.id == id && Post(r.sessions, id, op.side, op.message, op.now).1.Success?;
      r.(sessions := after,
         postedA := if taken && op.side.A? then r.postedA + [op.message] else r.postedA,
         postedB := if taken && op.side.B? then r.postedB + [op.message] else r.postedB)
    case Ask(side, now) =>
      var reader := r.ReaderOf(side);
      var (after, answer) := Read(r.sessions, id, side, reader.next, now);
      if answer.Failure? then r.(sessions := after) else
      var reader' := Reader(reader.next + |answer.value|, reader.got + answer.value);
      r.(sessions := after, a := if side.A? then reader' else r.a, b := if side.B? then reader' else r.b)
  }

  function MovedAll(r: Relay, id: SessionId, moves: seq<Move>): Relay
    decreases |moves|
  {
    if moves == [] then r else MovedAll(Moved(r, id, moves[0]), id, moves[1..])
  }

  ghost predicate Delivered(r: Relay, side: Side) {
    var reader := r.ReaderOf(side);
    reader.next <= |r.Posted(side.Other())| && reader.got == r.Posted(side.Other())[..reader.next]
  }

  ghost predicate RelayOk(r: Relay, id: SessionId) {
    && (id in r.sessions ==> r.sessions[id].fromA == r.postedA && r.sessions[id].fromB == r.postedB)
    && Delivered(r, A) && Delivered(r, B)
  }

  lemma MoveKeepsRelay(r: Relay, id: SessionId, m: Move)
    requires RelayOk(r, id)
    requires m.Other? && m.op.OpenOne? ==> m.op.code != id
    ensures RelayOk(Moved(r, id, m), id)
  {
    if m.Other? {
      OtherMoveKeepsRelay(r, id, m.op);
    } else {
      AskKeepsRelay(r, id, m.side, m.now);
    }
  }

  lemma OtherMoveKeepsRelay(r: Relay, id: SessionId, op: Op)
    requires RelayOk(r, id)
    requires op.OpenOne? ==> op.code != id
    ensures RelayOk(Moved(r, id, Other(op)), id)
  {
    var after := Moved(r, id, Other(op));
    assert r.postedA <= after.postedA && r.postedB <= after.postedB;
    assert after.postedA[..r.b.next] == r.postedA[..r.b.next];
    assert after.postedB[..r.a.next] == r.postedB[..r.a.next];
  }

  lemma AskKeepsRelay(r: Relay, id: SessionId, side: Side, now: nat)
    requires RelayOk(r, id)
    ensures RelayOk(Moved(r, id, Ask(side, now)), id)
  {
    var posted, reader := r.Posted(side.Other()), r.ReaderOf(side);
    assert posted[..reader.next] + posted[reader.next..] == posted[..|posted|];
  }

  /**
    A reader that follows `next` has got exactly the first so many messages the
    other side got in: none missing, none twice, none of its own.
   */
  lemma ReadersGetAPrefix(r: Relay, id: SessionId, moves: seq<Move>, side: Side)
    requires RelayOk(r, id)
    requires forall i :: 0 <= i < |moves| && moves[i].Other? && moves[i].op.OpenOne? ==> moves[i].op.code != id
    ensures
      var after := MovedAll(r, id, moves);
      var reader := after.ReaderOf(side);
      && reader.next <= |after.Posted(side.Other())|
      && reader.got == after.Posted(side.Other())[..reader.next]
  {
    RunKeepsRelay(r, id, moves);
  }

  /** A session just opened, nothing said and nothing read. */
  function Opened(s: Sessions, account: AccountId, opener: DeviceId, looks: Looks, now: nat, code: SessionId): Relay {
    Relay(Open(s, account, opener, looks, now, code).0, Reader(0, []), Reader(0, []), [], [])
  }

  lemma OpeningStartsTheRelay(
    s: Sessions, account: AccountId, opener: DeviceId, looks: Looks, now: nat, code: SessionId)
    requires Open(s, account, opener, looks, now, code).1.Success?
    ensures RelayOk(Opened(s, account, opener, looks, now, code), code)
  {
    var r := Opened(s, account, opener, looks, now, code);
    assert r.postedA[..0] == [] && r.postedB[..0] == [];
  }

  /**
    From the opening of a session, in every run: what a reader that follows
    `next` has got is the first so many messages of the other side, and when it
    asks while the session lives, all of them.
   */
  lemma FromTheOpeningOn(
    s: Sessions, account: AccountId, opener: DeviceId, looks: Looks, now: nat, code: SessionId,
    moves: seq<Move>, side: Side, later: nat)
    requires Open(s, account, opener, looks, now, code).1.Success?
    requires forall i :: 0 <= i < |moves| && moves[i].Other? && moves[i].op.OpenOne? ==> moves[i].op.code != code
    ensures
      var after := MovedAll(Opened(s, account, opener, looks, now, code), code, moves);
      && after.ReaderOf(side).got <= after.Posted(side.Other())
      && (code in after.sessions && after.sessions[code].expiresMs > later ==>
            Moved(after, code, Ask(side, later)).ReaderOf(side).got == after.Posted(side.Other()))
  {
    OpeningStartsTheRelay(s, account, opener, looks, now, code);
    var r := Opened(s, account, opener, looks, now, code);
    ReadersGetAPrefix(r, code, moves, side);
    RunKeepsRelay(r, code, moves);
    var after := MovedAll(r, code, moves);
    if code in after.sessions && after.sessions[code].expiresMs > later {
      AskingCatchesUp(after, code, side, later);
    }
  }

  lemma {:induction false} RunKeepsRelay(r: Relay, id: SessionId, moves: seq<Move>)
    requires RelayOk(r, id)
    requires forall i :: 0 <= i < |moves| && moves[i].Other? && moves[i].op.OpenOne? ==> moves[i].op.code != id
    ensures RelayOk(MovedAll(r, id, moves), id)
    decreases |moves|
  {
    if moves != [] {
      MoveKeepsRelay(r, id, moves[0]);
      RunKeepsRelay(Moved(r, id, moves[0]), id, moves[1..]);
    }
  }

  /** And when it asks while the session lives, it gets all there is. */
  lemma AskingCatchesUp(r: Relay, id: SessionId, side: Side, now: nat)
    requires RelayOk(r, id) && id in r.sessions && r.sessions[id].expiresMs > now
    ensures Moved(r, id, Ask(side, now)).ReaderOf(side).got == r.Posted(side.Other())
  {
    AskKeepsRelay(r, id, side, now);
    var reader := Moved(r, id, Ask(side, now)).ReaderOf(side);
    assert r.Posted(side.Other())[..reader.next] == r.Posted(side.Other());
  }
}
