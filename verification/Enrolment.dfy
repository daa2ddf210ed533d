/**
  The one-time tokens a device joins an account with: what the enrol request
  does with one, in its order, and how much one token is good for over any run.

  The source stores a token's hash; hashes do not collide here, so the table is
  kept by token.
 */
module Enrolment {
  import opened Wrappers

  type Token = string
  type AccountId = nat
  type DeviceId = nat
  type Key = seq<nat>

  const ENROLMENT_TTL_MS := 10 * 60 * 1000
  const ENROLMENT_ATTEMPTS := 5
  const KEPT_MS := 30 * 24 * 60 * 60 * 1000

  /** `maker` is nothing for a row from before makers were written down. */
  datatype Enrolment = Enrolment(
    account: AccountId, expiresMs: nat, usedMs: Option<nat>, maker: Option<DeviceId>, failures: nat)

  /** The tables a join reads and writes. */
  datatype Tables = Tables(
    enrolments: map<Token, Enrolment>, verifiers: map<AccountId, Key>, devices: map<DeviceId, AccountId>)

  /** What a joining device sends, and the three times the clock is read for it. */
  datatype Join = Join(token: Token, key: Key, device: DeviceId, seenMs: nat, againMs: nat, spentMs: nat)

  predicate Unused(enrolments: map<Token, Enrolment>, token: Token) {
    token in enrolments && enrolments[token].usedMs.None?
  }

  function Peek(t: Tables, token: Token, now: nat): Option<AccountId> {
    if Unused(t.enrolments, token) && t.enrolments[token].expiresMs > now
    then Some(t.enrolments[token].account)
    else None
  }

  predicate Verify(t: Tables, account: AccountId, key: Key) {
    account in t.verifiers && t.verifiers[account] == key
  }

  /** One wrong password more; the fifth spends the token. */
  function Failed(t: Tables, token: Token, now: nat): Tables {
    if !Unused(t.enrolments, token) then t else
    var row := t.enrolments[token];
    var failures := row.failures + 1;
    t.(enrolments := t.enrolments[token := row.(
      failures := failures,
      usedMs := if failures >= ENROLMENT_ATTEMPTS then Some(now) else None)])
  }

  function Spend(t: Tables, token: Token, now: nat): Tables {
    if !Unused(t.enrolments, token) then t
    else t.(enrolments := t.enrolments[token := t.enrolments[token].(usedMs := Some(now))])
  }

  /** Look, prove, then either count the failure or spend the token and let the device in. */
  function Enrol(t: Tables, j: Join): (Tables, Result<AccountId, ()>) {
    var account := Peek(t, j.token, j.seenMs);
    if account.None? then (t, Failure(()))
    else if !Verify(t, account.value, j.key) then (Failed(t, j.token, j.againMs), Failure(()))
    else if Peek(t, j.token, j.againMs).None? then (t, Failure(()))
    else
      var spent := Spend(t, j.token, j.spentMs);
      (spent.(devices := spent.devices[j.device := account.value]), Success(account.value))
  }

  function Made(account: AccountId, maker: DeviceId, now: nat): Enrolment {
    Enrolment(account, now + ENROLMENT_TTL_MS, None, Some(maker), 0)
  }

  function DropOf(enrolments: map<Token, Enrolment>, device: DeviceId): map<Token, Enrolment> {
    map token | token in enrolments
      && !(enrolments[token].maker == Some(device) && enrolments[token].usedMs.None?) :: enrolments[token]
  }

  function Kept(enrolments: map<Token, Enrolment>, now: nat): map<Token, Enrolment> {
    map token | token in enrolments && enrolments[token].expiresMs >= now - KEPT_MS :: enrolments[token]
  }

  // ---- The tables as the source works on them ----

  class Database {
    var enrolments: map<Token, Enrolment>
    var verifiers: map<AccountId, Key>
    var devices: map<DeviceId, AccountId>

    function All(): Tables
      reads this
    {
      Tables(enrolments, verifiers, devices)
    }

    constructor (t: Tables)
      ensures All() == t
    {
      enrolments, verifiers, devices := t.enrolments, t.verifiers, t.devices;
    }

    /** A token nobody has drawn before. */
    method CreateEnrolment(token: Token, account: AccountId, device: DeviceId, now: nat)
      requires token !in enrolments
      modifies this`enrolments
      ensures enrolments == old(enrolments)[token := Made(account, device, now)]
    {
      enrolments := enrolments[token := Enrolment(account, now + ENROLMENT_TTL_MS, None, Some(device), 0)];
    }

    method PeekEnrolment(token: Token, now: nat) returns (account: Option<AccountId>)
      ensures account == Peek(All(), token, now)
    {
      if token !in enrolments {
        return None;
      }
      var row := enrolments[token];
      if row.usedMs.Some? || row.expiresMs <= now {
        return None;
      }
      return Some(row.account);
    }

    /** Two updates: one counts, one spends. */
    method EnrolmentFailed(token: Token, now: nat) returns (spent: bool)
      modifies this`enrolments
      ensures All() == Failed(old(All()), token, now)
      ensures spent <==> Unused(old(enrolments), token) && !Unused(enrolments, token)
    {
      if token in enrolments && enrolments[token].usedMs.None? {
        enrolments := enrolments[token := enrolments[token].(failures := enrolments[token].failures + 1)];
      }
      spent := false;
      if token in enrolments && enrolments[token].usedMs.None? && enrolments[token].failures >= ENROLMENT_ATTEMPTS {
        enrolments := enrolments[token := enrolments[token].(usedMs := Some(now))];
        spent := true;
      }
    }

    method RedeemEnrolment(token: Token, now: nat, spentMs: nat) returns (account: Option<AccountId>)
      modifies this`enrolments
      ensures account == Peek(old(All()), token, now)
      ensures All() == if account.Some? then Spend(old(All()), token, spentMs) else old(All())
    {
      account := PeekEnrolment(token, now);
      if account.None? {
        return None;
      }
      var changed := token in enrolments && enrolments[token].usedMs.None?;
      if changed {
        enrolments := enrolments[token := enrolments[token].(usedMs := Some(spentMs))];
      }
      return if changed then account else None;
    }

    method HandleEnrol(j: Join) returns (r: Result<AccountId, ()>)
      requires j.device !in devices
      modifies this`enrolments, this`devices
      ensures (All(), r) == Enrol(old(All()), j)
    {
      var account := PeekEnrolment(j.token, j.seenMs);
      if account.None? {
        return Failure(());
      }
      if account.value !in verifiers || verifiers[account.value] != j.key {
        var _ := EnrolmentFailed(j.token, j.againMs);
        return Failure(());
      }
      var redeemed := RedeemEnrolment(j.token, j.againMs, j.spentMs);
      if redeemed.None? {
        return Failure(());
      }
      devices := devices[j.device := account.value];
      return Success(account.value);
    }

    method DropEnrolmentsOf(device: DeviceId) returns (gone: int)
      modifies this`enrolments
      ensures enrolments == DropOf(old(enrolments), device)
      ensures gone == |old(enrolments)| - |enrolments|
      ensures forall token :: token in enrolments <==>
                token in old(enrolments)
                && !(old(enrolments)[token].maker == Some(device) && old(enrolments)[token].usedMs == None)
    {
      gone := |enrolments|;
      enrolments := map token | token in enrolments
        && (enrolments[token].maker != Some(device) || enrolments[token].usedMs.Some?) :: enrolments[token];
      gone := gone - |enrolments|;
    }

    method Purge(now: nat)
      modifies this`enrolments
      ensures enrolments == Kept(old(enrolments), now)
      ensures forall token :: token in enrolments <==>
                token in old(enrolments) && old(enrolments)[token].expiresMs + 2_592_000_000 >= now
    {
      var cutoff := if now >= KEPT_MS then now - KEPT_MS else 0;
      enrolments := map token | token in enrolments && !(enrolments[token].expiresMs < cutoff) :: enrolments[token];
    }
  }

  // ---- Runs ----

  datatype Op =
    | Make(newToken: Token, account: AccountId, maker: DeviceId, now: nat)
    | Try(join: Join)
    | NewPassword(account: AccountId, key: Key)
    | Drop(maker: DeviceId)
    | Forget(now: nat)

  /** What a run did with a token: a password checked and found wrong, or a device let in. */
  datatype Event = WrongPassword(token: Token) | LetIn(token: Token, device: DeviceId, account: AccountId)

  function Apply(t: Tables, op: Op): Tables {
    match op
    case Make(token, account, maker, now) =>
      if token in t.enrolments then t else t.(enrolments := t.enrolments[token := Made(account, maker, now)])
    case Try(j) => Enrol(t, j).0
    case NewPassword(account, key) => t.(verifiers := t.verifiers[account := key])
    case Drop(maker) => t.(enrolments := DropOf(t.enrolments, maker))
    case Forget(now) => t.(enrolments := Kept(t.enrolments, now))
  }

  function Told(t: Tables, op: Op): seq<Event> {
    if !op.Try? then [] else
    var j := op.join;
    var account := Peek(t, j.token, j.seenMs);
    if account.None? then []
    else if !Verify(t, account.value, j.key) then [WrongPassword(j.token)]
    else if Enrol(t, j).1.Success? then [LetIn(j.token, j.device, account.value)]
    else []
  }

  function Run(t: Tables, ops: seq<Op>): Tables
    decreases |ops|
  {
    if ops == [] then t else Run(Apply(t, ops[0]), ops[1..])
  }

  function Story(t: Tables, ops: seq<Op>): seq<Event>
    decreases |ops|
  {
    if ops == [] then [] else Told(t, ops[0]) + Story(Apply(t, ops[0]), ops[1..])
  }

  function WrongTries(story: seq<Event>, token: Token): nat {
    |Picked(story, token, true)|
  }

  function Joins(story: seq<Event>, token: Token): nat {
    |Picked(story, token, false)|
  }

  /** The wrong tries, or the joins, of one token. */
  function Picked(story: seq<Event>, token: Token, wrong: bool): seq<Event> {
    if story == [] then [] else
    var rest := Picked(story[1..], token, wrong);
    if story[0].token == token && story[0].WrongPassword? == wrong then [story[0]] + rest else rest
  }

  lemma {:induction false} PickedOfBoth(a: seq<Event>, b: seq<Event>, token: Token, wrong: bool)
    ensures Picked(a + b, token, wrong) == Picked(a, token, wrong) + Picked(b, token, wrong)
  {
    if a == [] {
      assert a + b == b;
    } else {
      assert (a + b)[1..] == a[1..] + b;
      PickedOfBoth(a[1..], b, token, wrong);
    }
  }

  lemma PickedOfOne(story: seq<Event>, token: Token, wrong: bool)
    requires |story| <= 1
    ensures Picked(story, token, wrong) ==
      if |story| == 1 && story[0].token == token && story[0].WrongPassword? == wrong then story else []
  {
    if |story| == 1 {
      assert Picked(story[1..], token, wrong) == [];
      assert [story[0]] == story;
    }
  }

  /** How many wrong passwords a token still takes, the last one included. */
  function Left(t: Tables, token: Token): int {
    if Unused(t.enrolments, token) then ENROLMENT_ATTEMPTS - t.enrolments[token].failures else 0
  }

  /** No unused token has had its five. */
  ghost predicate BudgetsOk(t: Tables) {
    forall token {:trigger Unused(t.enrolments, token)} :: Unused(t.enrolments, token) ==> Left(t, token) > 0
  }

  /** Nobody draws this token again. */
  ghost predicate DrawnOnce(ops: seq<Op>, token: Token) {
    forall i :: 0 <= i < |ops| && ops[i].Make? ==> ops[i].newToken != token
  }

  lemma StepKeepsBudgets(t: Tables, op: Op)
    requires BudgetsOk(t)
    ensures BudgetsOk(Apply(t, op))
  {
    forall token {:trigger Unused(Apply(t, op).enrolments, token)} | Unused(Apply(t, op).enrolments, token)
      ensures Left(Apply(t, op), token) > 0
    {
      assert Unused(t.enrolments, token) ==> Left(t, token) > 0;
    }
  }

  /** Every wrong password takes one off what is left; whoever is let in takes it all. */
  lemma StepSpends(t: Tables, op: Op, token: Token)
    requires BudgetsOk(t)
    requires op.Make? ==> op.newToken != token
    ensures WrongTries(Told(t, op), token) + Joins(Told(t, op), token) + Left(Apply(t, op), token) <= Left(t, token)
    ensures Joins(Told(t, op), token) <= 1
    ensures Joins(Told(t, op), token) == 1 ==> Left(Apply(t, op), token) == 0
    ensures 0 <= Left(Apply(t, op), token)
  {
    StepKeepsBudgets(t, op);
    PickedOfOne(Told(t, op), token, true);
    PickedOfOne(Told(t, op), token, false);
    assert Unused(t.enrolments, token) ==> Left(t, token) > 0;
    assert Unused(Apply(t, op).enrolments, token) ==> Left(Apply(t, op), token) > 0;
  }

  /**
    Over every run a token lets one device in at most, and the wrong passwords
    checked with it and that one device together are within what was left: after
    the fifth wrong password, the right one gets nobody in.
   */
  lemma {:induction false} ATokenIsGoodForSoMuch(t: Tables, ops: seq<Op>, token: Token)
    requires BudgetsOk(t) && DrawnOnce(ops, token)
    ensures WrongTries(Story(t, ops), token) + Joins(Story(t, ops), token) <= Left(t, token)
    ensures Joins(Story(t, ops), token) <= 1
    decreases |ops|
  {
    if ops == [] {
      assert Unused(t.enrolments, token) ==> Left(t, token) > 0;
    } else {
      StepKeepsBudgets(t, ops[0]);
      StepSpends(t, ops[0], token);
      assert DrawnOnce(ops[1..], token);
      ATokenIsGoodForSoMuch(Apply(t, ops[0]), ops[1..], token);
      PickedOfBoth(Told(t, ops[0]), Story(Apply(t, ops[0]), ops[1..]), token, true);
      PickedOfBoth(Told(t, ops[0]), Story(Apply(t, ops[0]), ops[1..]), token, false);
    }
  }

  /** From the moment a token is made: five wrong passwords, or fewer and one device. */
  lemma ANewTokenIsGoodForFive(t: Tables, token: Token, account: AccountId, maker: DeviceId, now: nat, ops: seq<Op>)
    requires BudgetsOk(t) && token !in t.enrolments && DrawnOnce(ops, token)
    ensures
      var story := Story(Apply(t, Make(token, account, maker, now)), ops);
      && WrongTries(story, token) <= 5
      && Joins(story, token) <= 1
      && (WrongTries(story, token) == 5 ==> Joins(story, token) == 0)
  {
    StepKeepsBudgets(t, Make(token, account, maker, now));
    ATokenIsGoodForSoMuch(Apply(t, Make(token, account, maker, now)), ops, token);
  }

  /** A used token, one its maker took along, one nobody made: nothing happens with it any more. */
  lemma SpentStaysSpent(t: Tables, ops: seq<Op>, token: Token)
    requires BudgetsOk(t) && DrawnOnce(ops, token) && !Unused(t.enrolments, token)
    ensures WrongTries(Story(t, ops), token) == 0 && Joins(Story(t, ops), token) == 0
  {
    ATokenIsGoodForSoMuch(t, ops, token);
  }

  lemma DroppedWithItsMaker(t: Tables, maker: DeviceId, ops: seq<Op>, token: Token)
    requires BudgetsOk(t) && DrawnOnce(ops, token)
    requires token in t.enrolments && t.enrolments[token].maker == Some(maker)
    ensures
      var story := Story(Apply(t, Drop(maker)), ops);
      WrongTries(story, token) == 0 && Joins(story, token) == 0
  {
    StepKeepsBudgets(t, Drop(maker));
    SpentStaysSpent(Apply(t, Drop(maker)), ops, token);
  }

  predicate SameTerms(t: Tables, after: Tables, token: Token)
    requires token in t.enrolments && token in after.enrolments
  {
    && after.enrolments[token].account == t.enrolments[token].account
    && after.enrolments[token].expiresMs == t.enrolments[token].expiresMs
    && after.enrolments[token].maker == t.enrolments[token].maker
  }

  /** What a token is for never changes. */
  lemma StepKeepsTerms(t: Tables, op: Op, token: Token)
    requires op.Make? ==> op.newToken != token
    ensures token in Apply(t, op).enrolments ==> token in t.enrolments && SameTerms(t, Apply(t, op), token)
  {
  }

  /** Every try from the expiry on comes to nothing, and no run can put the expiry off. */
  lemma {:induction false} NothingAfterExpiry(t: Tables, ops: seq<Op>, token: Token)
    requires DrawnOnce(ops, token)
    requires token in t.enrolments ==>
      forall i :: 0 <= i < |ops| && ops[i].Try? ==> ops[i].join.seenMs >= t.enrolments[token].expiresMs
    ensures WrongTries(Story(t, ops), token) == 0 && Joins(Story(t, ops), token) == 0
    decreases |ops|
  {
    if ops != [] {
      StepKeepsTerms(t, ops[0], token);
      var after, rest := Apply(t, ops[0]), ops[1..];
      assert DrawnOnce(rest, token);
      assert token in after.enrolments ==>
        forall i :: 0 <= i < |rest| && rest[i].Try? ==> rest[i].join.seenMs >= after.enrolments[token].expiresMs;
      NothingAfterExpiry(after, rest, token);
      PickedOfBoth(Told(t, ops[0]), Story(after, rest), token, true);
      PickedOfBoth(Told(t, ops[0]), Story(after, rest), token, false);
    }
  }

  /** Whoever is let in with a token joins the account it was made for. */
  lemma {:induction false} JoinsTheMakersAccount(t: Tables, ops: seq<Op>, token: Token, e: Event)
    requires DrawnOnce(ops, token) && e in Story(t, ops) && e.LetIn? && e.token == token
    ensures token in t.enrolments && e.account == t.enrolments[token].account
    decreases |ops|
  {
    if e !in Told(t, ops[0]) {
      StepKeepsTerms(t, ops[0], token);
      assert DrawnOnce(ops[1..], token);
      JoinsTheMakersAccount(Apply(t, ops[0]), ops[1..], token, e);
    }
  }

  lemma LetInExactlyWhen(t: Tables, j: Join)
    requires BudgetsOk(t)
    ensures Enrol(t, j).1.Success? <==>
      && Left(t, j.token) > 0
      && t.enrolments[j.token].expiresMs > j.seenMs && t.enrolments[j.token].expiresMs > j.againMs
      && Verify(t, t.enrolments[j.token].account, j.key)
  {
    assert Unused(t.enrolments, j.token) ==> Left(t, j.token) > 0;
  }

  /** Nothing here takes the token away: its maker stays, and it is not long expired. */
  predicate Leaves(op: Op, maker: Option<DeviceId>, expiresMs: nat) {
    (op.Drop? ==> maker != Some(op.maker)) && (op.Forget? ==> op.now <= expiresMs + KEPT_MS)
  }

  /**
    A mistyped password costs one try and no more: while nobody gets in with the
    token and nothing takes it away, what is left is what there was, less the
    wrong passwords.
   */
  lemma {:induction false} MistypingCostsOneTry(t: Tables, ops: seq<Op>, token: Token)
    requires BudgetsOk(t) && DrawnOnce(ops, token) && token in t.enrolments
    requires forall i :: 0 <= i < |ops| ==> Leaves(ops[i], t.enrolments[token].maker, t.enrolments[token].expiresMs)
    requires Joins(Story(t, ops), token) == 0
    ensures BudgetsOk(Run(t, ops))
    ensures token in Run(t, ops).enrolments && SameTerms(t, Run(t, ops), token)
    ensures Left(Run(t, ops), token) == Left(t, token) - WrongTries(Story(t, ops), token)
    decreases |ops|
  {
    if ops != [] {
      StepKeepsBudgets(t, ops[0]);
      assert DrawnOnce(ops[1..], token);
      PickedOfBoth(Told(t, ops[0]), Story(Apply(t, ops[0]), ops[1..]), token, true);
      PickedOfBoth(Told(t, ops[0]), Story(Apply(t, ops[0]), ops[1..]), token, false);
      StepCostsOneTry(t, ops[0], token);
      MistypingCostsOneTry(Apply(t, ops[0]), ops[1..], token);
    }
  }

  lemma StepCostsOneTry(t: Tables, op: Op, token: Token)
    requires BudgetsOk(t) && (op.Make? ==> op.newToken != token) && token in t.enrolments
    requires Leaves(op, t.enrolments[token].maker, t.enrolments[token].expiresMs)
    requires Joins(Told(t, op), token) == 0
    ensures token in Apply(t, op).enrolments && SameTerms(t, Apply(t, op), token)
    ensures Left(Apply(t, op), token) == Left(t, token) - WrongTries(Told(t, op), token)
  {
    PickedOfOne(Told(t, op), token, true);
    PickedOfOne(Told(t, op), token, false);
    assert Unused(t.enrolments, token) ==> Left(t, token) > 0;
  }

  /**
    Exactly when a new token lets a device in: after whatever else was tried
    with it and with others, the right key gets in just while fewer than five
    wrong ones were checked and both looks are before the expiry.
   */
  lemma TheRightKeyGetsInExactlyWhen(
    t: Tables, token: Token, account: AccountId, maker: DeviceId, now: nat, ops: seq<Op>, j: Join)
    requires BudgetsOk(t) && token !in t.enrolments && DrawnOnce(ops, token) && j.token == token
    requires forall i :: 0 <= i < |ops| ==> Leaves(ops[i], Some(maker), now + ENROLMENT_TTL_MS)
    requires Joins(Story(Apply(t, Make(token, account, maker, now)), ops), token) == 0
    ensures
      var made := Apply(t, Make(token, account, maker, now));
      Enrol(Run(made, ops), j).1 == (
        if && WrongTries(Story(made, ops), token) < 5
           && j.seenMs < now + 600_000 && j.againMs < now + 600_000
           && Verify(Run(made, ops), account, j.key)
        then Success(account) else Failure(()))
  {
    var made := Apply(t, Make(token, account, maker, now));
    StepKeepsBudgets(t, Make(token, account, maker, now));
    MistypingCostsOneTry(made, ops, token);
    LetInExactlyWhen(Run(made, ops), j);
  }

  // ---- The devices a run leaves ----

  /**
    What a join does to the tables. One that succeeds answers the account its
    token's row names, puts the device there under that account, and marks that
    row as used; one that fails lets no device in. Everything else stays, but
    for a wrong password, which may touch the token's own row.
   */
  lemma JoinWrites(t: Tables, j: Join)
    ensures
      var (after, answer) := Enrol(t, j);
      && after.verifiers == t.verifiers
      && after.enrolments.Keys == t.enrolments.Keys
      && (forall token :: token in t.enrolments && token != j.token ==>
            after.enrolments[token] == t.enrolments[token])
      && (answer.Success? <==>
            (&& j.token in t.enrolments
             && var row := t.enrolments[j.token];
                && row.usedMs == None && row.expiresMs > j.seenMs && row.expiresMs > j.againMs
                && row.account in t.verifiers && t.verifiers[row.account] == j.key))
      && (answer.Failure? ==> after.devices == t.devices)
      && (answer.Success? ==>
            var row := t.enrolments[j.token];
            && answer.value == row.account
            && after.devices == t.devices[j.device := row.account]
            && after.enrolments[j.token] ==
                 Enrolment(row.account, row.expiresMs, Some(j.spentMs), row.maker, row.failures))
  {
  }

  /**
    Request `i` let this device in: it named an unused, unexpired token and
    proved the password of the account of that token's row, which was used then.
   */
  ghost predicate LetInAt(t: Tables, ops: seq<Op>, i: nat, device: DeviceId, account: AccountId) {
    && i < |ops| && ops[i].Try? && ops[i].join.device == device
    && var j, before, after := ops[i].join, Run(t, ops[..i]), Run(t, ops[..i + 1]);
       && j.token in before.enrolments
       && var row := before.enrolments[j.token];
          && row.account == account && row.usedMs == None && row.expiresMs > j.seenMs && row.expiresMs > j.againMs
          && account in before.verifiers && before.verifiers[account] == j.key
          && j.token in after.enrolments && after.enrolments[j.token].usedMs == Some(j.spentMs)
  }

  lemma {:induction false} RunOfBoth(t: Tables, first: seq<Op>, second: seq<Op>)
    ensures Run(t, first + second) == Run(Run(t, first), second)
    decreases |first|
  {
    if first == [] {
      assert first + second == second;
    } else {
      assert (first + second)[1..] == first[1..] + second;
      RunOfBoth(Apply(t, first[0]), first[1..], second);
    }
  }

  lemma RunOfOneMore(t: Tables, ops: seq<Op>, n: nat)
    requires n < |ops|
    ensures Run(t, ops[..n + 1]) == Apply(Run(t, ops[..n]), ops[n])
  {
    assert ops[..n + 1] == ops[..n] + [ops[n]];
    RunOfBoth(t, ops[..n], [ops[n]]);
    assert [ops[n]][1..] == [];
  }

  /** A device that a run brings stands under the account of the token it was let in with. */
  lemma {:induction false} ADeviceIsOfItsTokensAccount(t: Tables, ops: seq<Op>, device: DeviceId)
    requires device !in t.devices && device in Run(t, ops).devices
    ensures exists i: nat :: LetInAt(t, ops, i, device, Run(t, ops).devices[device])
    decreases |ops|
  {
    var n := |ops| - 1;
    var before, op := Run(t, ops[..n]), ops[n];
    RunOfOneMore(t, ops, n);
    assert ops[..n + 1] == ops;
    if op.Try? {
      JoinWrites(before, op.join);
    }
    if op.Try? && op.join.device == device && Enrol(before, op.join).1.Success? {
      assert LetInAt(t, ops, n, device, Run(t, ops).devices[device]);
    } else {
      ADeviceIsOfItsTokensAccount(t, ops[..n], device);
      var i: nat :| LetInAt(t, ops[..n], i, device, before.devices[device]);
      assert ops[..n][..i] == ops[..i] && ops[..n][..i + 1] == ops[..i + 1];
      assert LetInAt(t, ops, i, device, Run(t, ops).devices[device]);
    }
  }

  lemma {:induction false} UsedStaysUsed(t: Tables, ops: seq<Op>, token: Token)
    requires DrawnOnce(ops, token) && !Unused(t.enrolments, token)
    ensures !Unused(Run(t, ops).enrolments, token)
    decreases |ops|
  {
    if ops != [] {
      assert DrawnOnce(ops[1..], token);
      UsedStaysUsed(Apply(t, ops[0]), ops[1..], token);
    }
  }

  /** One token lets one device in, once. */
  lemma OneTokenOneDevice(
    t: Tables, ops: seq<Op>, i: nat, j: nat, one: DeviceId, other: DeviceId, a: AccountId, b: AccountId)
    requires LetInAt(t, ops, i, one, a) && LetInAt(t, ops, j, other, b)
    requires ops[i].join.token == ops[j].join.token && DrawnOnce(ops, ops[i].join.token)
    ensures i == j && one == other && a == b
  {
    if i < j {
      UsedSince(t, ops, i, j, ops[i].join.token);
    } else if j < i {
      UsedSince(t, ops, j, i, ops[i].join.token);
    }
  }

  lemma UsedSince(t: Tables, ops: seq<Op>, i: nat, j: nat, token: Token)
    requires i < j < |ops| && DrawnOnce(ops, token)
    requires !Unused(Run(t, ops[..i + 1]).enrolments, token)
    ensures !Unused(Run(t, ops[..j]).enrolments, token)
  {
    var between := ops[i + 1..j];
    assert ops[..j] == ops[..i + 1] + between;
    RunOfBoth(t, ops[..i + 1], between);
    assert DrawnOnce(between, token);
    UsedStaysUsed(Run(t, ops[..i + 1]), between, token);
  }
}
