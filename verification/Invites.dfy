/**
  Invites: a code somebody types off a screen, good for one account.

  The source stores the hash of a code as it counts, with dashes and case taken
  out; hashes do not collide here, so the table is kept by that.
 */
module Invites {
  import opened Wrappers

  const CODE_ALPHABET := "ABCDEFGHJKMNPQRSTVWXYZ23456789"
  const CODE_LENGTH := 15

  datatype Invite = Invite(expiresMs: nat, usedMs: Option<nat>)

  // ---- Codes as drawn and as typed ----

  predicate IsUpper(c: char) { 'A' <= c <= 'Z' }
  predicate IsLower(c: char) { 'a' <= c <= 'z' }
  predicate IsAlphanumeric(c: char) { IsUpper(c) || IsLower(c) || '0' <= c <= '9' }

  function ToUpper(c: char): char {
    if IsLower(c) then (c as int - 'a' as int + 'A' as int) as char else c
  }

  /** Dashes and case are noise. */
  function Normalise(code: string): string {
    if code == [] then []
    else if IsAlphanumeric(code[0]) then [ToUpper(code[0])] + Normalise(code[1..])
    else Normalise(code[1..])
  }

  function Letter(b: bv8): char {
    CODE_ALPHABET[b as int % |CODE_ALPHABET|]
  }

  function Letters(bytes: seq<bv8>): string {
    seq(|bytes|, i requires 0 <= i < |bytes| => Letter(bytes[i]))
  }

  /** The code of fifteen random bytes: three groups of five. */
  method MakeCode(bytes: seq<bv8>) returns (code: string)
    requires |bytes| == CODE_LENGTH
    ensures |code| == 17 && code[5] == code[11] == '-'
    ensures Normalise(code) == Letters(bytes)
  {
    code := "";
    for i := 0 to |bytes|
      invariant |code| == i + (if i > 10 then 2 else if i > 5 then 1 else 0)
      invariant i > 5 ==> code[5] == '-'
      invariant i > 10 ==> code[11] == '-'
      invariant Normalise(code) == Letters(bytes[..i])
    {
      if i > 0 && i % 5 == 0 {
        NormaliseOfBoth(code, "-");
        code := code + ['-'];
      }
      LetterStands(bytes[i]);
      NormaliseOfBoth(code, [Letter(bytes[i])]);
      assert Letters(bytes[..i + 1]) == Letters(bytes[..i]) + [Letter(bytes[i])];
      code := code + [Letter(bytes[i])];
    }
    assert bytes[..|bytes|] == bytes;
  }

  lemma LetterStands(b: bv8)
    ensures IsAlphanumeric(Letter(b)) && ToUpper(Letter(b)) == Letter(b)
    ensures Normalise([Letter(b)]) == [Letter(b)]
  {
  }

  lemma {:induction false} NormaliseOfBoth(a: string, b: string)
    ensures Normalise(a + b) == Normalise(a) + Normalise(b)
  {
    if a == [] {
      assert a + b == b;
    } else {
      assert (a + b)[1..] == a[1..] + b;
      NormaliseOfBoth(a[1..], b);
    }
  }

  /** Typed in lower case, or with anything but letters and digits put in or left out, it is the same code. */
  lemma TypedIsDrawn(before: string, noise: string, after: string, c: char)
    requires forall i :: 0 <= i < |noise| ==> !IsAlphanumeric(noise[i])
    ensures Normalise(before + noise + after) == Normalise(before + after)
    ensures Normalise(before + [c] + after) == Normalise(before + [ToUpper(c)] + after)
  {
    NoiseIsNothing(noise);
    NormaliseOfBoth(before + noise, after);
    NormaliseOfBoth(before, noise);
    NormaliseOfBoth(before, after);
    NormaliseOfBoth(before + [c], after);
    NormaliseOfBoth(before, [c]);
    NormaliseOfBoth(before + [ToUpper(c)], after);
    NormaliseOfBoth(before, [ToUpper(c)]);
  }

  lemma {:induction false} NoiseIsNothing(noise: string)
    requires forall i :: 0 <= i < |noise| ==> !IsAlphanumeric(noise[i])
    ensures Normalise(noise) == []
  {
    if noise != [] {
      NoiseIsNothing(noise[1..]);
    }
  }

  /** What a code counts as is what it counts as again, and is letters and digits only. */
  lemma {:induction false} NormaliseSettles(code: string)
    ensures Normalise(Normalise(code)) == Normalise(code)
    ensures forall c :: c in Normalise(code) ==> IsAlphanumeric(c) && !IsLower(c)
  {
    if code != [] {
      NormaliseSettles(code[1..]);
      if IsAlphanumeric(code[0]) {
        assert Normalise(code)[1..] == Normalise(code[1..]);
      }
    }
  }

  // ---- Good for once ----

  function Spent(invites: map<string, Invite>, code: string, now: nat): map<string, Invite> {
    if Good(invites, code, now)
    then invites[Normalise(code) := invites[Normalise(code)].(usedMs := Some(now))]
    else invites
  }

  predicate Good(invites: map<string, Invite>, code: string, now: nat) {
    && Normalise(code) in invites
    && invites[Normalise(code)].usedMs.None?
    && invites[Normalise(code)].expiresMs > now
  }

  class Table {
    var invites: map<string, Invite>

    constructor ()
      ensures invites == map[]
    {
      invites := map[];
    }

    method CreateInvite(bytes: seq<bv8>, now: nat, ttlMs: nat) returns (code: string)
      requires |bytes| == CODE_LENGTH && Letters(bytes) !in invites
      modifies this
      ensures Normalise(code) == Letters(bytes)
      ensures invites == old(invites)[Letters(bytes) := Invite(now + ttlMs, None)]
    {
      code := MakeCode(bytes);
      invites := invites[Normalise(code) := Invite(now + ttlMs, None)];
    }

    method RedeemInvite(code: string, now: nat) returns (was: bool)
      modifies this
      ensures was == Good(old(invites), code, now)
      ensures invites == Spent(old(invites), code, now)
      ensures
        var key := Normalise(code);
        && (was <==>
              key in old(invites) && old(invites)[key].usedMs == None && old(invites)[key].expiresMs > now)
        && (was ==> invites == old(invites)[key := Invite(old(invites)[key].expiresMs, Some(now))])
        && (!was ==> invites == old(invites))
    {
      var key := Normalise(code);
      was := key in invites && invites[key].usedMs.None? && invites[key].expiresMs > now;
      if was {
        invites := invites[key := invites[key].(usedMs := Some(now))];
      }
    }

    method Purge(now: nat)
      modifies this
      ensures invites == Kept(old(invites), now)
      ensures forall code :: code in invites <==>
                code in old(invites) && old(invites)[code].expiresMs + 2_592_000_000 >= now
    {
      var cutoff := if now >= KEPT_MS then now - KEPT_MS else 0;
      invites := map code | code in invites && !(invites[code].expiresMs < cutoff) :: invites[code];
    }
  }

  const KEPT_MS := 30 * 24 * 60 * 60 * 1000

  function Kept(invites: map<string, Invite>, now: nat): map<string, Invite> {
    map code | code in invites && invites[code].expiresMs >= now - KEPT_MS :: invites[code]
  }

  datatype Op = Make(drawn: string, expiresMs: nat) | Redeem(typed: string, now: nat) | Forget(now: nat)

  function Apply(invites: map<string, Invite>, op: Op): map<string, Invite> {
    match op
    case Make(drawn, expiresMs) => if drawn in invites then invites else invites[drawn := Invite(expiresMs, None)]
    case Redeem(typed, now) => Spent(invites, typed, now)
    case Forget(now) => Kept(invites, now)
  }

  /** How often a run took `code`, spelled in whatever way, for a good invite. */
  function TimesTaken(invites: map<string, Invite>, ops: seq<Op>, code: string): nat
    decreases |ops|
  {
    if ops == [] then 0 else
    var taken := ops[0].Redeem? && Normalise(ops[0].typed) == code && Good(invites, ops[0].typed, ops[0].now);
    (if taken then 1 else 0) + TimesTaken(Apply(invites, ops[0]), ops[1..], code)
  }

  /** An invite lets in one account at most, however it is spelled, and a used one none. */
  lemma {:induction false} AnInviteIsTakenOnce(invites: map<string, Invite>, ops: seq<Op>, code: string)
    requires forall i :: 0 <= i < |ops| && ops[i].Make? ==> ops[i].drawn != code
    ensures TimesTaken(invites, ops, code) <= if code in invites && invites[code].usedMs.None? then 1 else 0
    decreases |ops|
  {
    if ops != [] {
      AnInviteIsTakenOnce(Apply(invites, ops[0]), ops[1..], code);
    }
  }

  /** And it is taken the once, if it is typed in time: nothing else uses it up. */
  lemma {:induction false} AnInviteIsGoodUntilTaken(
    invites: map<string, Invite>, ops: seq<Op>, code: string, typed: string, now: nat)
    requires code in invites && invites[code].usedMs.None? && invites[code].expiresMs > now
    requires forall i :: 0 <= i < |ops| && ops[i].Make? ==> ops[i].drawn != code
    requires forall i :: 0 <= i < |ops| && ops[i].Forget? ==> ops[i].now <= now
    requires TimesTaken(invites, ops, code) == 0 && Normalise(typed) == code
    ensures Good(RunAll(invites, ops), typed, now)
    decreases |ops|
  {
    if ops != [] {
      AnInviteIsGoodUntilTaken(Apply(invites, ops[0]), ops[1..], code, typed, now);
    }
  }

  /** From its expiry on nobody takes it, and no run can put that off. */
  lemma {:induction false} AnExpiredInviteIsNotTaken(invites: map<string, Invite>, ops: seq<Op>, code: string)
    requires forall i :: 0 <= i < |ops| && ops[i].Make? ==> ops[i].drawn != code
    requires code in invites ==>
      forall i :: 0 <= i < |ops| && ops[i].Redeem? ==> ops[i].now >= invites[code].expiresMs
    ensures TimesTaken(invites, ops, code) == 0
    decreases |ops|
  {
    if ops != [] {
      AnExpiredInviteIsNotTaken(Apply(invites, ops[0]), ops[1..], code);
    }
  }

  function RunAll(invites: map<string, Invite>, ops: seq<Op>): map<string, Invite>
    decreases |ops|
  {
    if ops == [] then invites else RunAll(Apply(invites, ops[0]), ops[1..])
  }
}
