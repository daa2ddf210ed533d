/**
  Which of two versions is the newer one, read off their text, and which
  release of a list is the newest.
 */
module Versions {
  import opened Basics
  import opened Wrappers
  import opened Stamps

  const TWO_64 := 0x1_0000_0000_0000_0000

  datatype Order = Less | Equal | Greater {
    function Flip(): Order {
      match this
      case Less => Greater
      case Equal => Equal
      case Greater => Less
    }
  }

  /** The numbers of a version, and what comes after its first dash. */
  datatype Key = Key(core: seq<nat>, pre: Option<seq<string>>)

  // ---- Reading text ----

  predicate IsLetter(c: char) { 'a' <= c <= 'z' || 'A' <= c <= 'Z' }

  function DropLeading(s: string, c: char): string {
    if s != [] && s[0] == c then DropLeading(s[1..], c) else s
  }

  function Split(s: string, c: char): (parts: seq<string>)
    ensures parts != []
  {
    if s == [] then [""]
    else if s[0] == c then [""] + Split(s[1..], c)
    else
      var parts := Split(s[1..], c);
      [[s[0]] + parts[0]] + parts[1..]
  }

  function SplitOnce(s: string, c: char): Option<(string, string)> {
    if s == [] then None
    else if s[0] == c then Some(("", s[1..]))
    else
      var rest := SplitOnce(s[1..], c);
      if rest.None? then None else Some(([s[0]] + rest.value.0, rest.value.1))
  }

  /** Digits, after a plus or not, of a number that fits. */
  function ParseU64(s: string): (n: Option<nat>)
    ensures n.Some? ==> n.value < TWO_64
  {
    var digits := if s != [] && s[0] == '+' then s[1..] else s;
    if digits == [] || !AllDigits(digits) || Number(digits) >= TWO_64 then None else Some(Number(digits))
  }

  function ParseAll(parts: seq<string>): (r: Option<seq<nat>>)
    ensures r.Some? ==> |r.value| == |parts|
  {
    if parts == [] then Some([]) else
    var first, rest := ParseU64(parts[0]), ParseAll(parts[1..]);
    if first.None? || rest.None? then None else Some([first.value] + rest.value)
  }

  function VersionKey(version: string): Option<Key> {
    var version := DropLeading(Trim(version), 'v');
    var halves := SplitOnce(version, '-');
    var core := if halves.Some? then halves.value.0 else version;
    var pre := if halves.Some? then Some(Split(halves.value.1, '.')) else None;
    var numbers := ParseAll(Split(core, '.'));
    if numbers.None? then None else Some(Key(numbers.value, pre))
  }

  // ---- Comparing ----

  function CompareNumbers(a: nat, b: nat): Order {
    if a < b then Less else if a == b then Equal else Greater
  }

  function CompareText(a: string, b: string): Order {
    if Before(a, b) then Less else if a == b then Equal else Greater
  }

  function CompareCores(a: seq<nat>, b: seq<nat>): Order {
    if a == [] || b == [] then CompareNumbers(|a|, |b|)
    else if a[0] != b[0] then CompareNumbers(a[0], b[0])
    else CompareCores(a[1..], b[1..])
  }

  /** Two numbers as numbers, anything else as text. */
  function CompareIdentifiers(a: string, b: string): Order {
    var x, y := ParseU64(a), ParseU64(b);
    if x.Some? && y.Some? then CompareNumbers(x.value, y.value) else CompareText(a, b)
  }

  function ComparePre(a: seq<string>, b: seq<string>): Order {
    if a == [] || b == [] then CompareNumbers(|a|, |b|)
    else if CompareIdentifiers(a[0], b[0]) != Equal then CompareIdentifiers(a[0], b[0])
    else ComparePre(a[1..], b[1..])
  }

  function CompareKeys(a: Key, b: Key): Order {
    var order := CompareCores(a.core, b.core);
    if order != Equal then order
    else if a.pre.None? && b.pre.None? then Equal
    else if a.pre.None? then Greater
    else if b.pre.None? then Less
    else ComparePre(a.pre.value, b.pre.value)
  }

  /** What no version can be read from is as new as anything. */
  function CompareVersions(a: string, b: string): Order {
    if VersionKey(a).Some? && VersionKey(b).Some? then CompareKeys(VersionKey(a).value, VersionKey(b).value) else Equal
  }

  // ---- Turned round ----

  lemma TextFlips(a: string, b: string)
    ensures CompareText(b, a) == CompareText(a, b).Flip()
  {
    BeforeIsAnOrder(a, b);
  }

  lemma {:induction false} CoresFlip(a: seq<nat>, b: seq<nat>)
    ensures CompareCores(b, a) == CompareCores(a, b).Flip()
  {
    if a != [] && b != [] && a[0] == b[0] {
      CoresFlip(a[1..], b[1..]);
    }
  }

  lemma {:induction false} PreFlips(a: seq<string>, b: seq<string>)
    ensures ComparePre(b, a) == ComparePre(a, b).Flip()
  {
    if a != [] && b != [] {
      TextFlips(a[0], b[0]);
      PreFlips(a[1..], b[1..]);
    }
  }

  lemma KeysFlip(a: Key, b: Key)
    ensures CompareKeys(b, a) == CompareKeys(a, b).Flip()
  {
    CoresFlip(a.core, b.core);
    if a.pre.Some? && b.pre.Some? {
      PreFlips(a.pre.value, b.pre.value);
    }
  }

  /** The other way round it is the other way round, for any text at all. */
  lemma VersionsFlip(a: string, b: string)
    ensures CompareVersions(b, a) == CompareVersions(a, b).Flip()
  {
    if VersionKey(a).Some? && VersionKey(b).Some? {
      KeysFlip(VersionKey(a).value, VersionKey(b).value);
    }
  }

  // ---- A preorder, where identifiers are numbers or words ----

  /** A number that fits, or something that begins with a letter. */
  predicate Plain(identifier: string) {
    ParseU64(identifier).Some? || (identifier != [] && IsLetter(identifier[0]))
  }

  predicate AllPlain(identifiers: seq<string>) {
    forall i :: 0 <= i < |identifiers| ==> Plain(identifiers[i])
  }

  predicate PlainVersion(version: string) {
    VersionKey(version).Some? && (VersionKey(version).value.pre.Some? ==> AllPlain(VersionKey(version).value.pre.value))
  }

  /** Numbers come before words. */
  lemma NumbersBeforeWords(number: string, word: string)
    requires ParseU64(number).Some? && ParseU64(word).None? && Plain(word)
    ensures CompareIdentifiers(number, word) == Less && CompareIdentifiers(word, number) == Greater
  {
    assert number[0] < word[0];
  }

  /** How orders go on: what follows from `a` against `b` and `b` against `c`. */
  predicate GoesOn(ab: Order, bc: Order, ac: Order) {
    ab != Greater && bc != Greater ==> ac == (if ab == Equal && bc == Equal then Equal else Less)
  }

  lemma TextGoesOn(a: string, b: string, c: string)
    ensures GoesOn(CompareText(a, b), CompareText(b, c), CompareText(a, c))
  {
    BeforeIsAnOrder(a, b);
    BeforeIsAnOrder(b, c);
    BeforeIsAnOrder(a, c);
    if CompareText(a, b) != Greater && CompareText(b, c) != Greater {
      BeforeGoesOn(a, b, c);
    }
  }

  lemma IdentifiersGoOn(a: string, b: string, c: string)
    requires Plain(a) && Plain(b) && Plain(c)
    ensures GoesOn(CompareIdentifiers(a, b), CompareIdentifiers(b, c), CompareIdentifiers(a, c))
  {
    var x, y, z := ParseU64(a).Some?, ParseU64(b).Some?, ParseU64(c).Some?;
    TextGoesOn(a, b, c);
    if x && !y { NumbersBeforeWords(a, b); }
    if y && !x { NumbersBeforeWords(b, a); }
    if y && !z { NumbersBeforeWords(b, c); }
    if z && !y { NumbersBeforeWords(c, b); }
    if x && !z { NumbersBeforeWords(a, c); }
    if z && !x { NumbersBeforeWords(c, a); }
  }

  lemma {:induction false} CoresGoOn(a: seq<nat>, b: seq<nat>, c: seq<nat>)
    ensures GoesOn(CompareCores(a, b), CompareCores(b, c), CompareCores(a, c))
    ensures CompareCores(a, b) == Equal ==> a == b
  {
    if a != [] && b != [] {
      if c == [] {
        CoresGoOn(a[1..], b[1..], c);
      } else {
        CoresGoOn(a[1..], b[1..], c[1..]);
      }
      if a[0] == b[0] && a[1..] == b[1..] {
        assert a == [a[0]] + a[1..] == b;
      }
    }
  }

  lemma {:induction false} PreGoesOn(a: seq<string>, b: seq<string>, c: seq<string>)
    requires AllPlain(a) && AllPlain(b) && AllPlain(c)
    ensures GoesOn(ComparePre(a, b), ComparePre(b, c), ComparePre(a, c))
  {
    if a != [] && b != [] && c != [] {
      IdentifiersGoOn(a[0], b[0], c[0]);
      PreGoesOn(a[1..], b[1..], c[1..]);
    }
  }

  lemma KeysGoOn(a: Key, b: Key, c: Key)
    requires a.pre.Some? ==> AllPlain(a.pre.value)
    requires b.pre.Some? ==> AllPlain(b.pre.value)
    requires c.pre.Some? ==> AllPlain(c.pre.value)
    ensures GoesOn(CompareKeys(a, b), CompareKeys(b, c), CompareKeys(a, c))
  {
    CoresGoOn(a.core, b.core, c.core);
    if a.pre.Some? && b.pre.Some? && c.pre.Some? {
      PreGoesOn(a.pre.value, b.pre.value, c.pre.value);
    }
  }

  /** Versions whose identifiers are numbers or words come in an order, equals aside. */
  lemma VersionsGoOn(a: string, b: string, c: string)
    requires PlainVersion(a) && PlainVersion(b) && PlainVersion(c)
    ensures GoesOn(CompareVersions(a, b), CompareVersions(b, c), CompareVersions(a, c))
  {
    KeysGoOn(VersionKey(a).value, VersionKey(b).value, VersionKey(c).value);
  }

  // ---- And exactly where not ----

  /** A word that sorts, as text, between two numbers that stand the wrong way round as text. */
  predicate Straddled(word: string, small: string, large: string) {
    && ParseU64(word).None? && ParseU64(small).Some? && ParseU64(large).Some?
    && ParseU64(small).value <= ParseU64(large).value
    && Before(large, word) && Before(word, small)
  }

  predicate Chained(a: string, b: string, c: string) {
    GoesOn(CompareIdentifiers(a, b), CompareIdentifiers(b, c), CompareIdentifiers(a, c))
  }

  /** For any three identifiers: the chain breaks just when one of them is a word the other two straddle. */
  lemma ChainsBreakExactlyWhen(a: string, b: string, c: string)
    ensures Chained(a, b, c) <==> !Straddled(a, b, c) && !Straddled(b, c, a) && !Straddled(c, a, b)
  {
    TextGoesOn(a, b, c);
    TextGoesOn(c, b, a);
    BeforeIsAnOrder(a, b);
    BeforeIsAnOrder(b, c);
    BeforeIsAnOrder(a, c);
  }

  predicate SomeStraddled(a: string, b: string, c: string) {
    Straddled(a, b, c) || Straddled(b, c, a) || Straddled(c, a, b)
  }

  /** A broken chain of first identifiers that the rest of the lists mends. */
  predicate Mended(a: seq<string>, b: seq<string>, c: seq<string>)
    requires a != [] && b != [] && c != []
  {
    || (CompareIdentifiers(a[0], b[0]) == Equal && ComparePre(a[1..], b[1..]) == Greater)
    || (CompareIdentifiers(b[0], c[0]) == Equal && ComparePre(b[1..], c[1..]) == Greater)
    || (CompareIdentifiers(a[0], c[0]) == Equal && ComparePre(a[1..], c[1..]) == Less)
  }

  /** Where three lists first differ, no word is straddled, or the rest mends it. */
  predicate InOneOrder(a: seq<string>, b: seq<string>, c: seq<string>) {
    a == [] || b == [] || c == [] ||
    (if CompareIdentifiers(a[0], b[0]) == Equal && CompareIdentifiers(b[0], c[0]) == Equal
     then InOneOrder(a[1..], b[1..], c[1..])
     else !SomeStraddled(a[0], b[0], c[0]) || Mended(a, b, c))
  }

  lemma {:induction false} PreChainsExactlyWhen(a: seq<string>, b: seq<string>, c: seq<string>)
    ensures GoesOn(ComparePre(a, b), ComparePre(b, c), ComparePre(a, c)) <==> InOneOrder(a, b, c)
  {
    if a != [] && b != [] && c != [] {
      ChainsBreakExactlyWhen(a[0], b[0], c[0]);
      if CompareIdentifiers(a[0], b[0]) == Equal && CompareIdentifiers(b[0], c[0]) == Equal {
        PreChainsExactlyWhen(a[1..], b[1..], c[1..]);
      }
    }
  }

  /**
    For any three texts a version can be read from: the comparison goes on from
    one to the next just when their numbers differ somewhere, one has nothing
    after a dash, or their lists are in one order.
   */
  lemma VersionsChainExactlyWhen(a: string, b: string, c: string)
    requires VersionKey(a).Some? && VersionKey(b).Some? && VersionKey(c).Some?
    ensures
      var x, y, z := VersionKey(a).value, VersionKey(b).value, VersionKey(c).value;
      GoesOn(CompareVersions(a, b), CompareVersions(b, c), CompareVersions(a, c)) <==>
        (x.core == y.core == z.core && x.pre.Some? && y.pre.Some? && z.pre.Some? ==>
           InOneOrder(x.pre.value, y.pre.value, z.pre.value))
  {
    var x, y, z := VersionKey(a).value, VersionKey(b).value, VersionKey(c).value;
    CoresGoOn(x.core, y.core, z.core);
    CoresAreEqual(x.core, y.core);
    CoresAreEqual(y.core, z.core);
    CoresAreEqual(x.core, z.core);
    if x.pre.Some? && y.pre.Some? && z.pre.Some? {
      PreChainsExactlyWhen(x.pre.value, y.pre.value, z.pre.value);
    }
  }

  lemma {:induction false} CoresAreEqual(a: seq<nat>, b: seq<nat>)
    ensures CompareCores(a, b) == Equal <==> a == b
  {
    if a != [] && b != [] && a[0] == b[0] {
      CoresAreEqual(a[1..], b[1..]);
      assert a == [a[0]] + a[1..] && b == [b[0]] + b[1..];
    }
  }

  /** Numbers are written without a plus and without leading zeros. */
  predicate Canonical(identifiers: seq<string>) {
    forall i :: 0 <= i < |identifiers| ==> CanonicalOne(identifiers[i])
  }

  predicate CanonicalOne(identifier: string) {
    ParseU64(identifier).Some? ==> identifier == Decimal(ParseU64(identifier).value)
  }

  /** Where three lists first differ, no word is straddled. */
  predicate NoneStraddled(a: seq<string>, b: seq<string>, c: seq<string>) {
    a == [] || b == [] || c == [] ||
    (if a[0] == b[0] == c[0] then NoneStraddled(a[1..], b[1..], c[1..]) else !SomeStraddled(a[0], b[0], c[0]))
  }

  lemma CanonicalEquals(x: string, y: string)
    requires CanonicalOne(x) && CanonicalOne(y)
    ensures CompareIdentifiers(x, y) == Equal <==> x == y
  {
    BeforeIsAnOrder(x, y);
  }

  lemma TwoEqualStraddleNothing(x: string, y: string, z: string)
    requires x == y || y == z || x == z
    ensures !SomeStraddled(x, y, z)
  {
    BeforeIsAnOrder(x, y);
    BeforeIsAnOrder(y, z);
    BeforeIsAnOrder(x, z);
  }

  /** Of numbers so written, what follows never mends a broken chain. */
  lemma {:induction false} CanonicalChainsExactlyWhen(a: seq<string>, b: seq<string>, c: seq<string>)
    requires Canonical(a) && Canonical(b) && Canonical(c)
    ensures GoesOn(ComparePre(a, b), ComparePre(b, c), ComparePre(a, c)) <==> NoneStraddled(a, b, c)
  {
    PreChainsExactlyWhen(a, b, c);
    CanonicalOrder(a, b, c);
  }

  lemma {:induction false} CanonicalOrder(a: seq<string>, b: seq<string>, c: seq<string>)
    requires Canonical(a) && Canonical(b) && Canonical(c)
    ensures InOneOrder(a, b, c) <==> NoneStraddled(a, b, c)
  {
    if a != [] && b != [] && c != [] {
      CanonicalEquals(a[0], b[0]);
      CanonicalEquals(b[0], c[0]);
      CanonicalEquals(a[0], c[0]);
      if a[0] == b[0] || b[0] == c[0] || a[0] == c[0] {
        TwoEqualStraddleNothing(a[0], b[0], c[0]);
      }
      if a[0] == b[0] == c[0] {
        CanonicalOrder(a[1..], b[1..], c[1..]);
      }
    }
  }

  /** Whatever the numbers, and however many: a release comes after its pre-releases and before those of a later one. */
  lemma ReleaseLiesBetween(own: string, release: string, later: string)
    requires VersionKey(own).Some? && VersionKey(release).Some? && VersionKey(later).Some?
    requires VersionKey(own).value.pre.Some? && VersionKey(release).value.pre.None?
    requires VersionKey(own).value.core == VersionKey(release).value.core
    requires CompareCores(VersionKey(release).value.core, VersionKey(later).value.core) == Less
    ensures CompareVersions(own, release) == CompareVersions(release, later) == CompareVersions(own, later) == Less
  {
    CoresAreEqual(VersionKey(own).value.core, VersionKey(release).value.core);
  }

  // ---- The newest release ----

  datatype Channel = Stable | Beta

  datatype Release = Release(tagName: string, draft: bool, prerelease: bool, htmlUrl: string)

  predicate Eligible(r: Release, current: string, channel: Channel) {
    !r.draft && (channel.Beta? || !r.prerelease) && CompareVersions(r.tagName, current) == Greater
  }

  function EligibleOf(list: seq<Release>, current: string, channel: Channel): seq<Release> {
    if list == [] then []
    else if Eligible(list[0], current, channel) then [list[0]] + EligibleOf(list[1..], current, channel)
    else EligibleOf(list[1..], current, channel)
  }

  /** The library's maximum: the last of those nothing is newer than. */
  function MaxBy(best: Release, rest: seq<Release>): Release
    decreases |rest|
  {
    if rest == [] then best
    else MaxBy(Better(best, rest[0]), rest[1..])
  }

  function NewestRelease(list: seq<Release>, current: string, channel: Channel): Option<Release> {
    var eligible := EligibleOf(list, current, channel);
    if eligible == [] then None else Some(MaxBy(eligible[0], eligible[1..]))
  }

  lemma {:induction false} EligibleAreThose(list: seq<Release>, current: string, channel: Channel, r: Release)
    ensures r in EligibleOf(list, current, channel) <==> r in list && Eligible(r, current, channel)
  {
    if list != [] {
      EligibleAreThose(list[1..], current, channel, r);
      assert r in list <==> r == list[0] || r in list[1..];
    }
  }

  ghost predicate AllPlainReleases(list: seq<Release>) {
    forall r :: r in list ==> PlainVersion(r.tagName)
  }

  function Better(a: Release, b: Release): Release {
    if CompareVersions(a.tagName, b.tagName) == Greater then a else b
  }

  predicate AtMost(a: Release, b: Release) {
    CompareVersions(a.tagName, b.tagName) != Greater
  }

  lemma BetterThanBoth(a: Release, b: Release, r: Release)
    requires PlainVersion(a.tagName) && PlainVersion(b.tagName) && PlainVersion(r.tagName)
    requires AtMost(Better(a, b), r)
    ensures AtMost(a, r) && AtMost(b, r)
  {
    VersionsFlip(a.tagName, b.tagName);
    VersionsGoOn(a.tagName, b.tagName, r.tagName);
    VersionsGoOn(b.tagName, a.tagName, r.tagName);
  }

  lemma {:induction false} MaxByIsMaximum(best: Release, rest: seq<Release>)
    requires PlainVersion(best.tagName) && AllPlainReleases(rest)
    ensures MaxBy(best, rest) == best || MaxBy(best, rest) in rest
    ensures AtMost(best, MaxBy(best, rest))
    ensures forall other :: other in rest ==> AtMost(other, MaxBy(best, rest))
    decreases |rest|
  {
    if rest == [] {
      VersionsFlip(best.tagName, best.tagName);
    } else {
      MaxByIsMaximum(Better(best, rest[0]), rest[1..]);
      BetterThanBoth(best, rest[0], MaxBy(best, rest));
      assert forall other :: other in rest ==> other == rest[0] || other in rest[1..];
    }
  }

  /**
    There is an answer just when some release of the list is no draft, is on the
    channel and is newer than what runs; the answer is one such, and none such
    is newer still.
   */
  lemma NewestIsNewest(list: seq<Release>, current: string, channel: Channel)
    requires forall r :: r in list && Eligible(r, current, channel) ==> PlainVersion(r.tagName)
    ensures
      var newest := NewestRelease(list, current, channel);
      && (newest.Some? <==>
            exists r :: r in list && !r.draft && (channel == Beta || !r.prerelease)
              && CompareVersions(r.tagName, current) == Greater)
      && (newest.Some? ==>
            newest.value in list && !newest.value.draft && (channel == Beta || !newest.value.prerelease)
            && CompareVersions(newest.value.tagName, current) == Greater)
      && forall r :: r in list && !r.draft && (channel == Beta || !r.prerelease)
           && CompareVersions(r.tagName, current) == Greater
           ==> CompareVersions(r.tagName, newest.value.tagName) != Greater
  {
    var eligible := EligibleOf(list, current, channel);
    forall r
      ensures r in eligible <==> r in list && Eligible(r, current, channel)
    {
      EligibleAreThose(list, current, channel, r);
    }
    if eligible != [] {
      assert eligible == [eligible[0]] + eligible[1..];
      assert eligible[0] in eligible;
      MaxByIsMaximum(eligible[0], eligible[1..]);
    }
  }

  /** Nothing after place `i` of a list is as new as what stands there. */
  ghost predicate LastAsNew(list: seq<Release>, i: nat) {
    i < |list| && forall j :: i < j < |list| ==> CompareVersions(list[j].tagName, list[i].tagName) == Less
  }

  lemma OlderFurtherOn(list: seq<Release>, i: nat, r: Release)
    requires LastAsNew(list, i) && r in list[i + 1..]
    ensures CompareVersions(r.tagName, list[i].tagName) == Less
  {
    var l :| 0 <= l < |list[i + 1..]| && list[i + 1..][l] == r;
    assert list[i + 1 + l] == r;
  }

  lemma {:induction false} MaxByIsLast(best: Release, rest: seq<Release>) returns (i: nat)
    requires PlainVersion(best.tagName) && AllPlainReleases(rest)
    ensures i <= |rest| && ([best] + rest)[i] == MaxBy(best, rest) && LastAsNew([best] + rest, i)
    decreases |rest|
  {
    i := 0;
    if rest != [] {
      var better, list := Better(best, rest[0]), [best] + rest;
      var k := MaxByIsLast(better, rest[1..]);
      var shorter := [better] + rest[1..];
      assert forall j :: 0 < j < |shorter| ==> shorter[j] == list[j + 1];
      VersionsFlip(best.tagName, rest[0].tagName);
      i := if k > 0 || better != best then k + 1 else 0;
      if k == 0 && better == best && CompareVersions(best.tagName, rest[0].tagName) != Greater {
        i := 1;
      }
      forall j | i < j < |list|
        ensures CompareVersions(list[j].tagName, list[i].tagName) == Less
      {
        if j > 1 {
          assert list[j] == shorter[j - 1];
        }
      }
    }
  }

  /** Whatever follows place `i` of the list and is eligible is in this part of the eligible. */
  ghost predicate FollowedBy(list: seq<Release>, current: string, channel: Channel, i: nat, part: seq<Release>) {
    forall j :: i < j < |list| && Eligible(list[j], current, channel) ==> list[j] in part
  }

  lemma FollowedInTheRest(list: seq<Release>, current: string, channel: Channel, i: nat, part: seq<Release>)
    requires list != [] && i < |list[1..]| && FollowedBy(list[1..], current, channel, i, part)
    ensures FollowedBy(list, current, channel, i + 1, part) && list[i + 1] == list[1..][i]
  {
    forall j | i + 1 < j < |list| && Eligible(list[j], current, channel)
      ensures list[j] in part
    {
      assert list[j] == list[1..][j - 1];
    }
  }

  lemma FollowedByTheEligible(list: seq<Release>, current: string, channel: Channel)
    requires list != []
    ensures FollowedBy(list, current, channel, 0, EligibleOf(list[1..], current, channel))
  {
    forall j | 0 < j < |list| && Eligible(list[j], current, channel)
      ensures list[j] in EligibleOf(list[1..], current, channel)
    {
      assert list[j] == list[1..][j - 1];
      EligibleAreThose(list[1..], current, channel, list[j]);
    }
  }

  lemma OnePlaceOn(first: Release, rest: seq<Release>, k: nat)
    requires 0 < k <= |rest|
    ensures ([first] + rest)[k] == rest[k - 1] && ([first] + rest)[k + 1..] == rest[k..]
  {
  }

  /** The place on the list of the eligible one at place `k`, and what follows it there. */
  lemma {:induction false} PlaceOfEligible(list: seq<Release>, current: string, channel: Channel, k: nat)
    returns (i: nat)
    requires k < |EligibleOf(list, current, channel)|
    ensures i < |list| && list[i] == EligibleOf(list, current, channel)[k]
    ensures FollowedBy(list, current, channel, i, EligibleOf(list, current, channel)[k + 1..])
  {
    var all, rest := EligibleOf(list, current, channel), EligibleOf(list[1..], current, channel);
    i := 0;
    if !Eligible(list[0], current, channel) {
      var m := PlaceOfEligible(list[1..], current, channel, k);
      FollowedInTheRest(list, current, channel, m, rest[k + 1..]);
      i := m + 1;
    } else {
      assert all == [list[0]] + rest;
      if k == 0 {
        FollowedByTheEligible(list, current, channel);
        assert all[1..] == rest;
      } else {
        var m := PlaceOfEligible(list[1..], current, channel, k - 1);
        OnePlaceOn(list[0], rest, k);
        FollowedInTheRest(list, current, channel, m, rest[k..]);
        i := m + 1;
      }
    }
  }

  /** Of several as new as each other it is the one that stands last: what follows it on the list is older. */
  lemma NewestIsTheLastAsNew(list: seq<Release>, current: string, channel: Channel)
    requires forall r :: r in list && Eligible(r, current, channel) ==> PlainVersion(r.tagName)
    requires NewestRelease(list, current, channel).Some?
    ensures
      var newest := NewestRelease(list, current, channel).value;
      exists i :: 0 <= i < |list| && list[i] == newest
        && forall j :: i < j < |list| && !list[j].draft && (channel == Beta || !list[j].prerelease)
             && CompareVersions(list[j].tagName, current) == Greater
             ==> CompareVersions(list[j].tagName, newest.tagName) == Less
  {
    var eligible := EligibleOf(list, current, channel);
    forall r | r in eligible
      ensures PlainVersion(r.tagName)
    {
      EligibleAreThose(list, current, channel, r);
    }
    assert eligible == [eligible[0]] + eligible[1..];
    var k := MaxByIsLast(eligible[0], eligible[1..]);
    var i := PlaceOfEligible(list, current, channel, k);
    forall j | i < j < |list| && Eligible(list[j], current, channel)
      ensures CompareVersions(list[j].tagName, list[i].tagName) == Less
    {
      OlderFurtherOn(eligible, k, list[j]);
    }
  }

  /** Whatever the order of the list, it is the same release or one as new. */
  lemma NewestInAnyOrder(one: seq<Release>, other: seq<Release>, current: string, channel: Channel)
    requires forall r :: r in one <==> r in other
    requires forall r :: r in one && Eligible(r, current, channel) ==> PlainVersion(r.tagName)
    ensures
      var x, y := NewestRelease(one, current, channel), NewestRelease(other, current, channel);
      && (x.Some? <==> y.Some?)
      && (x.Some? ==> CompareVersions(x.value.tagName, y.value.tagName) == Equal)
  {
    NewestIsNewest(one, current, channel);
    NewestIsNewest(other, current, channel);
    var x, y := NewestRelease(one, current, channel), NewestRelease(other, current, channel);
    if x.Some? && y.Some? {
      VersionsFlip(x.value.tagName, y.value.tagName);
    }
  }
}
