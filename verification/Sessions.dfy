/**
  Session tokens: a table by token and a queue by device, changed together.
 */
module Sessions {
  import opened Wrappers

  type Token = nat
  type DeviceId = nat
  type AccountId = nat

  const TOKENS_PER_DEVICE := 8

  datatype Session = Session(account: AccountId, device: DeviceId, expiresMs: nat)

  datatype Tokens = Tokens(byToken: map<Token, Session>, byDevice: map<DeviceId, seq<Token>>)

  function HeldBy(s: Tokens, device: DeviceId): seq<Token> {
    if device in s.byDevice then s.byDevice[device] else []
  }

  predicate Good(byToken: map<Token, Session>, t: Token, now: nat) {
    t in byToken && byToken[t].expiresMs > now
  }

  /** Those of a queue that have not run out, in order. */
  function Unexpired(byToken: map<Token, Session>, held: seq<Token>, now: nat): seq<Token> {
    if held == [] then [] else
    var n := |held| - 1;
    Unexpired(byToken, held[..n], now) + (if Good(byToken, held[n], now) then [held[n]] else [])
  }

  /** The end of a queue that leaves room for one more. */
  function WithRoom(held: seq<Token>): seq<Token> {
    if |held| < TOKENS_PER_DEVICE then held else held[|held| - (TOKENS_PER_DEVICE - 1)..]
  }

  /** A new token: the device's expired ones go, and its oldest when it has too many. */
  function Issue(s: Tokens, account: AccountId, device: DeviceId, ttlMs: nat, now: nat, token: Token): Tokens {
    var held := HeldBy(s, device);
    var kept := WithRoom(Unexpired(s.byToken, held, now));
    Tokens(
      (map t | t in s.byToken && (t in held ==> t in kept) :: s.byToken[t])
        [token := Session(account, device, now + ttlMs)],
      s.byDevice[device := kept + [token]])
  }

  function Get(s: Tokens, t: Token, now: nat): Option<Session> {
    if Good(s.byToken, t, now) then Some(s.byToken[t]) else None
  }

  function DropDevice(s: Tokens, device: DeviceId): Tokens {
    var held := HeldBy(s, device);
    Tokens(
      map t | t in s.byToken && t !in held :: s.byToken[t],
      map d | d in s.byDevice && d != device :: s.byDevice[d])
  }

  function Sweep(s: Tokens, now: nat): Tokens {
    Tokens(
      map t | t in s.byToken && s.byToken[t].expiresMs > now :: s.byToken[t],
      map d | d in s.byDevice && Unexpired(s.byToken, s.byDevice[d], now) != []
        :: Unexpired(s.byToken, s.byDevice[d], now))
  }

  // ---- The tables as the source works on them ----

  class Table {
    var byToken: map<Token, Session>
    var byDevice: map<DeviceId, seq<Token>>

    ghost function State(): Tokens
      reads this
    {
      Tokens(byToken, byDevice)
    }

    constructor ()
      ensures State() == Tokens(map[], map[])
    {
      byToken, byDevice := map[], map[];
    }

    /** `retain`: drop the expired ones from a queue, and from the table with it. */
    static method RetainGood(tokens: map<Token, Session>, held: seq<Token>, now: nat)
      returns (left: map<Token, Session>, kept: seq<Token>)
      requires Distinct(held)
      ensures kept == Unexpired(tokens, held, now)
      ensures left == map t | t in tokens && (t in held ==> t in kept) :: tokens[t]
    {
      left, kept := tokens, [];
      for i := 0 to |held|
        invariant kept == Unexpired(tokens, held[..i], now)
        invariant left == map t | t in tokens && (t in held[..i] ==> Good(tokens, t, now)) :: tokens[t]
      {
        assert held[..i + 1][..i] == held[..i];
        forall k | 0 <= k < i
          ensures held[k] != held[i]
        {
          assert Differ(held, k, i);
        }
        if held[i] in left && left[held[i]].expiresMs > now {
          kept := kept + [held[i]];
        } else {
          left := left - {held[i]};
        }
      }
      assert held[..|held|] == held;
      UnexpiredHas(tokens, held, now);
    }

    method IssueToken(account: AccountId, device: DeviceId, ttlMs: nat, now: nat, token: Token)
      requires Agree(State()) && token !in byToken
      modifies this
      ensures State() == Issue(old(State()), account, device, ttlMs, now, token)
      ensures Agree(State())
    {
      var held := if device in byDevice then byDevice[device] else [];
      ghost var all, before := held, State();
      var left, kept := RetainGood(byToken, held, now);
      ghost var good := kept;
      UnexpiredHas(byToken, held, now);
      UnexpiredKeepsOrder(byToken, held, now);
      while |kept| >= TOKENS_PER_DEVICE
        invariant |kept| <= |good| && kept == good[|good| - |kept|..]
        invariant |good| >= TOKENS_PER_DEVICE ==> |kept| >= TOKENS_PER_DEVICE - 1
        invariant |good| < TOKENS_PER_DEVICE ==> kept == good
        invariant left == map t | t in byToken && (t in all ==> t in kept) :: byToken[t]
        decreases |kept|
      {
        var oldest := kept[0];
        forall k | 1 <= k < |kept|
          ensures kept[k] != oldest
        {
          assert Differ(good, |good| - |kept|, |good| - |kept| + k);
        }
        kept := kept[1..];
        left := left - {oldest};
      }
      byDevice := byDevice[device := kept + [token]];
      byToken := left[token := Session(account, device, now + ttlMs)];
      IssueKeepsAgreement(before, account, device, ttlMs, now, token);
    }

    static method TakeOut(tokens: map<Token, Session>, held: seq<Token>) returns (left: map<Token, Session>)
      ensures left == map t | t in tokens && t !in held :: tokens[t]
    {
      left := tokens;
      for i := 0 to |held|
        invariant left == map t | t in tokens && t !in held[..i] :: tokens[t]
      {
        left := left - {held[i]};
      }
      assert held[..|held|] == held;
    }

    method Drop(device: DeviceId)
      requires Agree(State())
      modifies this
      ensures State() == DropDevice(old(State()), device)
      ensures Agree(State())
    {
      DropKeepsAgreement(State(), device);
      ghost var goal := DropDevice(State(), device);
      if device in byDevice {
        var held := byDevice[device];
        byDevice := map d | d in byDevice && d != device :: byDevice[d];
        byToken := TakeOut(byToken, held);
      }
      assert byDevice == goal.byDevice;
      assert byToken == goal.byToken;
    }

    /** `retain` over the queues: those with nothing left go altogether. */
    static method SweepQueues(s: Tokens, now: nat) returns (queues: map<DeviceId, seq<Token>>)
      ensures queues == Sweep(s, now).byDevice
    {
      queues := map[];
      var left := s.byDevice.Keys;
      while left != {}
        invariant left <= s.byDevice.Keys
        invariant forall d :: d in queues <==> d in Sweep(s, now).byDevice && d !in left
        invariant forall d :: d in queues ==> queues[d] == Sweep(s, now).byDevice[d]
        decreases |left|
      {
        var d :| d in left;
        var held := Unexpired(s.byToken, s.byDevice[d], now);
        if held != [] {
          queues := queues[d := held];
        }
        left := left - {d};
      }
    }

    method SweepExpired(now: nat) returns (gone: int)
      requires Agree(State())
      modifies this
      ensures State() == Sweep(old(State()), now) && Agree(State())
      ensures gone == |old(byToken)| - |byToken|
    {
      SweepTakesExactlyTheExpired(State(), now);
      var before := |byToken|;
      var queues := SweepQueues(Tokens(byToken, byDevice), now);
      byToken := map t | t in byToken && byToken[t].expiresMs > now :: byToken[t];
      byDevice := queues;
      gone := before - |byToken|;
    }
  }

  // ---- The two tables say the same ----

  predicate Differ(q: seq<Token>, i: int, j: int) {
    0 <= i < j < |q| ==> q[i] != q[j]
  }

  ghost predicate Distinct(q: seq<Token>) {
    forall i, j :: Differ(q, i, j)
  }

  ghost predicate QueueOk(s: Tokens, d: DeviceId, q: seq<Token>) {
    && |q| <= TOKENS_PER_DEVICE
    && Distinct(q)
    && forall t :: t in q ==> t in s.byToken && s.byToken[t].device == d
  }

  /** A token is in its device's queue, once, and what is in a queue is a token of that device. */
  ghost predicate Agree(s: Tokens) {
    && (forall d {:trigger d in s.byDevice} :: d in s.byDevice ==> QueueOk(s, d, s.byDevice[d]))
    && (forall t :: t in s.byToken ==> t in HeldBy(s, s.byToken[t].device))
  }

  lemma {:induction false} UnexpiredHas(byToken: map<Token, Session>, held: seq<Token>, now: nat)
    ensures forall t :: t in Unexpired(byToken, held, now) <==> t in held && Good(byToken, t, now)
    ensures |Unexpired(byToken, held, now)| <= |held|
  {
    if held != [] {
      var n := |held| - 1;
      UnexpiredHas(byToken, held[..n], now);
      assert held == held[..n] + [held[n]];
    }
  }

  lemma {:induction false} UnexpiredKeepsOrder(byToken: map<Token, Session>, held: seq<Token>, now: nat)
    requires Distinct(held)
    ensures Distinct(Unexpired(byToken, held, now))
  {
    if held != [] {
      var n := |held| - 1;
      forall i, j
        ensures Differ(held[..n], i, j)
      {
        assert Differ(held, i, j);
      }
      UnexpiredKeepsOrder(byToken, held[..n], now);
      UnexpiredHas(byToken, held[..n], now);
      var rest := Unexpired(byToken, held[..n], now);
      forall i, j
        ensures Differ(Unexpired(byToken, held, now), i, j)
      {
        assert Differ(rest, i, j);
        if 0 <= i < j == |rest| {
          assert rest[i] in held[..n];
          var k :| 0 <= k < n && held[..n][k] == rest[i];
          assert Differ(held, k, n);
        }
      }
    }
  }

  lemma WithRoomKeepsOrder(q: seq<Token>, token: Token)
    requires Distinct(q) && token !in q
    ensures Distinct(WithRoom(q) + [token]) && |WithRoom(q)| < TOKENS_PER_DEVICE
    ensures forall t :: t in WithRoom(q) ==> t in q
  {
    var off := |q| - |WithRoom(q)|;
    forall i, j
      ensures Differ(WithRoom(q) + [token], i, j)
    {
      assert Differ(q, off + i, off + j);
    }
  }

  lemma QueueAfterIssue(s: Tokens, device: DeviceId, now: nat, token: Token)
    requires Agree(s) && token !in s.byToken
    ensures
      var kept := WithRoom(Unexpired(s.byToken, HeldBy(s, device), now));
      && |kept| < TOKENS_PER_DEVICE
      && Distinct(kept + [token])
      && forall t :: t in kept ==> t in HeldBy(s, device) && t in s.byToken && s.byToken[t].device == device
  {
    var held := HeldBy(s, device);
    if device in s.byDevice {
      assert QueueOk(s, device, s.byDevice[device]);
    } else {
      assert forall i, j :: Differ(held, i, j);
    }
    UnexpiredHas(s.byToken, held, now);
    UnexpiredKeepsOrder(s.byToken, held, now);
    WithRoomKeepsOrder(Unexpired(s.byToken, held, now), token);
  }

  lemma IssueKeepsAgreement(s: Tokens, account: AccountId, device: DeviceId, ttlMs: nat, now: nat, token: Token)
    requires Agree(s) && token !in s.byToken
    ensures Agree(Issue(s, account, device, ttlMs, now, token))
  {
    var after := Issue(s, account, device, ttlMs, now, token);
    QueueAfterIssue(s, device, now, token);
    forall d | d in after.byDevice
      ensures QueueOk(after, d, after.byDevice[d])
    {
      if d != device {
        assert QueueOk(s, d, s.byDevice[d]);
        NotInBoth(s, d, device);
      }
    }
    forall t | t in after.byToken
      ensures t in HeldBy(after, after.byToken[t].device)
    {
      if t != token {
        assert t in HeldBy(s, s.byToken[t].device);
      }
    }
  }

  /** Queues of different devices share no token. */
  lemma NotInBoth(s: Tokens, d: DeviceId, e: DeviceId)
    requires Agree(s) && d != e
    ensures forall t :: t in HeldBy(s, d) ==> t !in HeldBy(s, e)
  {
    if d in s.byDevice && e in s.byDevice {
      assert QueueOk(s, d, s.byDevice[d]) && QueueOk(s, e, s.byDevice[e]);
    }
  }

  lemma DropKeepsAgreement(s: Tokens, device: DeviceId)
    requires Agree(s)
    ensures Agree(DropDevice(s, device))
    ensures forall t :: t in DropDevice(s, device).byToken <==> t in s.byToken && s.byToken[t].device != device
  {
    var after := DropDevice(s, device);
    if device in s.byDevice {
      assert QueueOk(s, device, s.byDevice[device]);
    }
    forall d | d in after.byDevice
      ensures QueueOk(after, d, after.byDevice[d])
    {
      assert QueueOk(s, d, s.byDevice[d]);
      NotInBoth(s, d, device);
    }
  }

  /** The sweep takes exactly what has run out. */
  lemma SweepTakesExactlyTheExpired(s: Tokens, now: nat)
    requires Agree(s)
    ensures Agree(Sweep(s, now))
    ensures forall t, later :: now <= later ==> Get(Sweep(s, now), t, later) == Get(s, t, later)
    ensures forall t :: t in Sweep(s, now).byToken <==> Good(s.byToken, t, now)
  {
    var after := Sweep(s, now);
    forall d | d in after.byDevice
      ensures QueueOk(after, d, after.byDevice[d])
    {
      assert QueueOk(s, d, s.byDevice[d]);
      UnexpiredHas(s.byToken, s.byDevice[d], now);
      UnexpiredKeepsOrder(s.byToken, s.byDevice[d], now);
    }
    forall t | t in after.byToken
      ensures t in HeldBy(after, after.byToken[t].device)
    {
      var d := s.byToken[t].device;
      assert t in HeldBy(s, d);
      UnexpiredHas(s.byToken, s.byDevice[d], now);
    }
  }

  // ---- Runs ----

  datatype Op =
    | SignIn(account: AccountId, device: DeviceId, ttlMs: nat, token: Token, at: nat)
    | Revoke(device: DeviceId, at: nat)
    | Tick(at: nat)

  /** Tokens are random and never come up twice: `given` are those there ever were. */
  datatype World = World(tokens: Tokens, given: set<Token>)

  function Apply(w: World, op: Op): World {
    match op
    case SignIn(account, device, ttlMs, token, at) =>
      if token in w.given then w
      else World(Issue(w.tokens, account, device, ttlMs, at, token), w.given + {token})
    case Revoke(device, _) => w.(tokens := DropDevice(w.tokens, device))
    case Tick(at) => w.(tokens := Sweep(w.tokens, at))
  }

  function Run(w: World, ops: seq<Op>): World
    decreases |ops|
  {
    if ops == [] then w else Run(Apply(w, ops[0]), ops[1..])
  }

  ghost predicate Ok(w: World) {
    Agree(w.tokens) && forall t :: t in w.tokens.byToken ==> t in w.given
  }

  lemma StepKeepsOk(w: World, op: Op)
    requires Ok(w)
    ensures Ok(Apply(w, op))
  {
    match op
    case SignIn(account, device, ttlMs, token, at) =>
      if token !in w.given {
        IssueKeepsAgreement(w.tokens, account, device, ttlMs, at, token);
      }
    case Revoke(device, _) => DropKeepsAgreement(w.tokens, device);
    case Tick(at) => SweepTakesExactlyTheExpired(w.tokens, at);
  }

  /** In every run the two tables describe one relation, with short queues. */
  lemma {:induction false} TablesAlwaysAgree(w: World, ops: seq<Op>)
    requires Ok(w)
    ensures
      var s := Run(w, ops).tokens;
      && Ok(Run(w, ops))
      && (forall t, d :: t in HeldBy(s, d) <==> t in s.byToken && s.byToken[t].device == d)
      && (forall d :: |HeldBy(s, d)| <= 8 && Distinct(HeldBy(s, d)))
    decreases |ops|
  {
    if ops != [] {
      StepKeepsOk(w, ops[0]);
      TablesAlwaysAgree(Apply(w, ops[0]), ops[1..]);
    } else {
      var s := w.tokens;
      forall d
        ensures |HeldBy(s, d)| <= TOKENS_PER_DEVICE && Distinct(HeldBy(s, d))
        ensures forall t :: t in HeldBy(s, d) ==> t in s.byToken && s.byToken[t].device == d
      {
        if d in s.byDevice {
          assert QueueOk(s, d, s.byDevice[d]);
        } else {
          assert forall i, j :: Differ(HeldBy(s, d), i, j);
        }
      }
    }
  }

  /** A token given out before is only ever lost, never given to anybody else. */
  lemma {:induction false} OldTokensOnlyGo(w: World, ops: seq<Op>, t: Token)
    requires Ok(w) && t in w.given
    ensures
      var later := Run(w, ops).tokens.byToken;
      t in later ==> t in w.tokens.byToken && later[t] == w.tokens.byToken[t]
    decreases |ops|
  {
    if ops != [] {
      StepKeepsOk(w, ops[0]);
      OldTokensOnlyGo(Apply(w, ops[0]), ops[1..], t);
    }
  }

  /** Once a device is dropped, no token it was given before is ever found again. */
  lemma DroppedDeviceStaysOut(w: World, ops: seq<Op>, device: DeviceId, t: Token, at: nat, now: nat)
    requires Ok(w) && t in w.given
    ensures
      var found := Get(Run(Apply(w, Revoke(device, at)), ops).tokens, t, now);
      found.Some? ==> found.value.device != device
  {
    StepKeepsOk(w, Revoke(device, at));
    DropKeepsAgreement(w.tokens, device);
    OldTokensOnlyGo(Apply(w, Revoke(device, at)), ops, t);
  }

  // ---- How long a token lasts ----

  /** At most `k` tokens of the queue are newer than `t`. */
  ghost predicate AmongNewest(q: seq<Token>, t: Token, k: nat) {
    exists i :: 0 <= i < |q| && q[i] == t && |q| - 1 - i <= k
  }

  lemma {:induction false} UnexpiredKeepsPlace(byToken: map<Token, Session>, q: seq<Token>, now: nat, t: Token, k: nat)
    requires AmongNewest(q, t, k) && Good(byToken, t, now)
    ensures AmongNewest(Unexpired(byToken, q, now), t, k)
  {
    var n := |q| - 1;
    var rest := Unexpired(byToken, q[..n], now);
    var all := Unexpired(byToken, q, now);
    if q[n] == t {
      assert all[|rest|] == t;
    } else {
      var i :| 0 <= i < |q| && q[i] == t && |q| - 1 - i <= k;
      assert q[..n][i] == t;
      UnexpiredKeepsPlace(byToken, q[..n], now, t, k - 1);
      var j :| 0 <= j < |rest| && rest[j] == t && |rest| - 1 - j <= k - 1;
      assert all[j] == t;
    }
  }

  lemma RoomKeepsPlace(q: seq<Token>, t: Token, k: nat, token: Token)
    requires AmongNewest(q, t, k) && k < TOKENS_PER_DEVICE - 1
    ensures AmongNewest(WithRoom(q) + [token], t, k + 1)
  {
    var i :| 0 <= i < |q| && q[i] == t && |q| - 1 - i <= k;
    var off := |q| - |WithRoom(q)|;
    assert (WithRoom(q) + [token])[i - off] == t;
  }

  function SignIns(ops: seq<Op>, device: DeviceId): nat
    decreases |ops|
  {
    if ops == [] then 0
    else (if ops[0].SignIn? && ops[0].device == device then 1 else 0) + SignIns(ops[1..], device)
  }

  lemma SignInKeepsPlace(w: World, op: Op, t: Token, k: nat)
    requires Ok(w) && op.SignIn? && t in w.tokens.byToken && op.at < w.tokens.byToken[t].expiresMs
    requires AmongNewest(HeldBy(w.tokens, w.tokens.byToken[t].device), t, k)
    requires w.tokens.byToken[t].device == op.device ==> k < TOKENS_PER_DEVICE - 1
    ensures
      var after, d := Apply(w, op).tokens, w.tokens.byToken[t].device;
      && t in after.byToken && after.byToken[t] == w.tokens.byToken[t]
      && AmongNewest(HeldBy(after, d), t, if d == op.device then k + 1 else k)
  {
    var d := w.tokens.byToken[t].device;
    if op.token !in w.given {
      var held := HeldBy(w.tokens, op.device);
      if d == op.device {
        UnexpiredKeepsPlace(w.tokens.byToken, held, op.at, t, k);
        RoomKeepsPlace(Unexpired(w.tokens.byToken, held, op.at), t, k, op.token);
        var kept := WithRoom(Unexpired(w.tokens.byToken, held, op.at));
        assert t in kept + [op.token];
      } else {
        assert t in HeldBy(w.tokens, d);
        NotInBoth(w.tokens, d, op.device);
      }
    }
  }

  lemma OtherStepKeepsPlace(w: World, op: Op, t: Token, k: nat)
    requires Ok(w) && !op.SignIn? && t in w.tokens.byToken && op.at < w.tokens.byToken[t].expiresMs
    requires AmongNewest(HeldBy(w.tokens, w.tokens.byToken[t].device), t, k)
    requires op.Revoke? ==> op.device != w.tokens.byToken[t].device
    ensures
      var after, d := Apply(w, op).tokens, w.tokens.byToken[t].device;
      && t in after.byToken && after.byToken[t] == w.tokens.byToken[t]
      && AmongNewest(HeldBy(after, d), t, k)
  {
    var d := w.tokens.byToken[t].device;
    if op.Revoke? {
      NotInBoth(w.tokens, d, op.device);
    } else {
      UnexpiredKeepsPlace(w.tokens.byToken, HeldBy(w.tokens, d), op.at, t, k);
    }
  }

  /** Seven more sign-ins of its device do not cost a token its place, and nothing else does but its end. */
  lemma {:induction false} KeepsPlaceThroughSeven(w: World, ops: seq<Op>, t: Token, k: nat)
    requires Ok(w) && t in w.tokens.byToken
    requires AmongNewest(HeldBy(w.tokens, w.tokens.byToken[t].device), t, k)
    requires k + SignIns(ops, w.tokens.byToken[t].device) <= TOKENS_PER_DEVICE - 1
    requires forall i :: 0 <= i < |ops| ==>
      ops[i].at < w.tokens.byToken[t].expiresMs && (ops[i].Revoke? ==> ops[i].device != w.tokens.byToken[t].device)
    ensures
      var later := Run(w, ops).tokens.byToken;
      t in later && later[t] == w.tokens.byToken[t]
    decreases |ops|
  {
    if ops != [] {
      var op, d := ops[0], w.tokens.byToken[t].device;
      StepKeepsOk(w, op);
      if op.SignIn? {
        SignInKeepsPlace(w, op, t, k);
        KeepsPlaceThroughSeven(Apply(w, op), ops[1..], t, if d == op.device then k + 1 else k);
      } else {
        OtherStepKeepsPlace(w, op, t, k);
        KeepsPlaceThroughSeven(Apply(w, op), ops[1..], t, k);
      }
    }
  }

  /** From sign-in on: the token is found until it runs out, through any seven later sign-ins. */
  lemma TokenOutlivesSevenSignIns(w: World, first: Op, ops: seq<Op>, now: nat)
    requires Ok(w) && first.SignIn? && first.token !in w.given
    requires SignIns(ops, first.device) <= 7
    requires now < first.at + first.ttlMs
    requires forall i :: 0 <= i < |ops| ==>
      ops[i].at < first.at + first.ttlMs && (ops[i].Revoke? ==> ops[i].device != first.device)
    ensures Get(Run(Apply(w, first), ops).tokens, first.token, now)
         == Some(Session(first.account, first.device, first.at + first.ttlMs))
  {
    var next := Apply(w, first);
    var q := HeldBy(next.tokens, first.device);
    StepKeepsOk(w, first);
    assert q[|q| - 1] == first.token;
    KeepsPlaceThroughSeven(next, ops, first.token, 0);
  }

  /** Once it has run out it is never found again, whatever happens. */
  lemma NotFoundOnceRunOut(w: World, first: Op, ops: seq<Op>, now: nat)
    requires Ok(w) && first.SignIn? && first.token !in w.given
    requires now >= first.at + first.ttlMs
    ensures Get(Run(Apply(w, first), ops).tokens, first.token, now) == None
  {
    StepKeepsOk(w, first);
    OldTokensOnlyGo(Apply(w, first), ops, first.token);
  }

  /** And no longer: with eight good tokens held, one more sign-in costs exactly the oldest. */
  lemma EighthSignInCostsTheOldest(w: World, op: Op, t: Token)
    requires Ok(w) && op.SignIn? && op.token !in w.given
    requires
      var q := HeldBy(w.tokens, op.device);
      |q| == 8 && forall x :: x in q ==> Good(w.tokens.byToken, x, op.at)
    requires t in HeldBy(w.tokens, op.device)
    ensures t in Apply(w, op).tokens.byToken <==> t != HeldBy(w.tokens, op.device)[0]
  {
    var q := HeldBy(w.tokens, op.device);
    AllGoodStay(w.tokens.byToken, q, op.at);
    assert QueueOk(w.tokens, op.device, w.tokens.byDevice[op.device]);
    var i :| 0 <= i < |q| && q[i] == t;
    if i > 0 {
      assert q[1..][i - 1] == t;
    }
    forall j | 0 <= j < |q[1..]|
      ensures q[1..][j] != q[0]
    {
      assert Differ(q, 0, j + 1);
    }
  }

  lemma {:induction false} AllGoodStay(byToken: map<Token, Session>, q: seq<Token>, now: nat)
    requires forall x :: x in q ==> Good(byToken, x, now)
    ensures Unexpired(byToken, q, now) == q
  {
    if q != [] {
      assert q == q[..|q| - 1] + [q[|q| - 1]];
      AllGoodStay(byToken, q[..|q| - 1], now);
    }
  }
}
