/**
  How far the comparison of two versions' texts agrees with their precedence
  under section 11 of Semantic Versioning 2.0.0: exactly when, for all versions.
 */
module Agreement {
  import opened Wrappers
  import opened Stamps
  import opened Versions
  import opened SemVer

  // ---- The condition ----

  /**
    Two identifiers that compare the wrong way round. A word is always compared
    as text, and a number is where it does not fit 64 bits or build metadata
    follows it; that goes wrong where text and precedence differ.
   */
  predicate Misread(x: Identifier, xBuild: bool, y: Identifier, yBuild: bool) {
    match (x, y)
    case (Numeric(n), Numeric(m)) =>
      && (xBuild || yBuild || n >= TWO_64 || m >= TWO_64)
      && (Before(Decimal(n), Decimal(m)) != (n < m))
    case (Numeric(n), Word(text)) => Before(text, Decimal(n))
    case (Word(text), Numeric(n)) => Before(text, Decimal(n))
    case (Word(_), Word(_)) => false
  }

  /** Build metadata that is read as the same: but for the first part, numbers are compared as such. */
  predicate SameRead(s: seq<string>, t: seq<string>) {
    |s| == |t| && forall i :: 0 <= i < |s| ==> SamePart(s[i], t[i])
  }

  predicate SamePart(s: string, t: string) {
    s == t || (ParseU64(s).Some? && ParseU64(s) == ParseU64(t))
  }

  predicate SameBuild(b: seq<string>, c: seq<string>) {
    if b == [] || c == [] then b == c else b[0] == c[0] && SameRead(b[1..], c[1..])
  }

  /**
    Where two pre-releases first differ, nothing is misread; where they do not,
    or one goes on, the build metadata behind the shorter makes no difference.
   */
  predicate DecidedRight(p: seq<Identifier>, b: seq<string>, q: seq<Identifier>, c: seq<string>)
    requires p != [] && q != []
  {
    if p[0] != q[0] then !Misread(p[0], |p| == 1 && b != [], q[0], |q| == 1 && c != [])
    else if |p| > 1 && |q| > 1 then DecidedRight(p[1..], b, q[1..], c)
    else if |p| > 1 then c == []
    else if |q| > 1 then b == []
    else SameBuild(b, c)
  }

  predicate SameCore(a: Version, b: Version) {
    a.major == b.major && a.minor == b.minor && a.patch == b.patch
  }

  /** Whether the comparison of two versions comes out as their precedence. */
  predicate ComparedRight(a: Version, b: Version) {
    if !Readable(a) || !Readable(b) then SameCore(a, b) && a.pre == b.pre
    else SameCore(a, b) && a.pre != [] && b.pre != [] ==> DecidedRight(a.pre, a.build, b.pre, b.build)
  }

  // ---- Identifiers ----

  /** A tail that a plus begins, or none. */
  predicate IsTail(s: string) {
    s != [] ==> s[0] == '+'
  }

  /** Every character of an identifier sorts after the plus, so what a plus begins does not matter. */
  lemma {:induction false} TailsDecideNothing(s: string, t: string, sTail: string, tTail: string)
    requires OfIdentifierChars(s) && OfIdentifierChars(t) && s != t && IsTail(sTail) && IsTail(tTail)
    ensures Before(s + sTail, t + tTail) <==> Before(s, t)
    ensures s + sTail != t + tTail
  {
    var x, y := s + sTail, t + tTail;
    if s == [] {
      assert x == sTail && y[0] == t[0];
    } else if t == [] {
      assert y == tTail && x[0] == s[0];
    } else {
      assert x[0] == s[0] && y[0] == t[0] && x[1..] == s[1..] + sTail && y[1..] == t[1..] + tTail;
      if s[0] == t[0] {
        assert s == [s[0]] + s[1..] && t == [t[0]] + t[1..];
        TailsDecideNothing(s[1..], t[1..], sTail, tTail);
      }
    }
  }

  function Tail(build: seq<string>): string {
    if build == [] then "" else "+" + build[0]
  }

  lemma LastReadIs(x: Identifier, build: seq<string>)
    requires ValidIdentifier(x)
    ensures LastRead(x, build) == x.Text() + Tail(build) && IsTail(Tail(build))
    ensures ParseU64(LastRead(x, build)) ==
      if build == [] && x.Numeric? && x.n < TWO_64 then Some(x.n) else None
  {
    assert x.Text() + "" == x.Text();
    TextIsOf(x);
    if build != [] {
      PlusInside(x.Text(), build[0]);
    } else if x.Numeric? {
      DecimalIsRead(x.n);
    } else {
      WordIsNoNumber(x);
    }
  }

  lemma OneTextPerIdentifier(x: Identifier, y: Identifier)
    requires ValidIdentifier(x) && ValidIdentifier(y) && x != y
    ensures x.Text() != y.Text()
  {
    if x.Numeric? {
      NumberOfDecimal(x.n);
    }
    if y.Numeric? {
      NumberOfDecimal(y.n);
    }
  }

  /** Two identifiers that differ, each with build metadata behind it or not. */
  lemma IdentifiersAgree(x: Identifier, b: seq<string>, y: Identifier, c: seq<string>)
    requires ValidIdentifier(x) && ValidIdentifier(y) && x != y
    ensures CompareIdentifiers(LastRead(x, b), LastRead(y, c)) != Equal
    ensures CompareIdentifiers(LastRead(x, b), LastRead(y, c)) == IdentifierPrecedence(x, y)
      <==> !Misread(x, b != [], y, c != [])
  {
    LastReadIs(x, b);
    LastReadIs(y, c);
    TextIsOf(x);
    TextIsOf(y);
    OneTextPerIdentifier(x, y);
    TailsDecideNothing(x.Text(), y.Text(), Tail(b), Tail(c));
    BeforeIsAnOrder(x.Text(), y.Text());
  }

  lemma PartsAgree(s: string, t: string)
    ensures CompareIdentifiers(s, t) == Equal <==> SamePart(s, t)
  {
    BeforeIsAnOrder(s, t);
  }

  /** One identifier, with and without build metadata behind it. */
  lemma SameIdentifierWithBuild(x: Identifier, b: seq<string>, c: seq<string>)
    requires ValidIdentifier(x)
    ensures b == [] && c == [] ==> CompareIdentifiers(LastRead(x, b), LastRead(x, c)) == Equal
    ensures b != [] && c == [] ==> CompareIdentifiers(LastRead(x, b), LastRead(x, c)) == Greater
    ensures b == [] && c != [] ==> CompareIdentifiers(LastRead(x, b), LastRead(x, c)) == Less
    ensures b != [] && c != [] ==> (CompareIdentifiers(LastRead(x, b), LastRead(x, c)) == Equal <==> b[0] == c[0])
  {
    LastReadIs(x, b);
    LastReadIs(x, c);
    var text := x.Text();
    PartsAgree(LastRead(x, b), LastRead(x, c));
    BeforeByParts(text, text, Tail(b), Tail(c));
    BeforeIsAnOrder(text, text);
    SameByParts(text, text, Tail(b), Tail(c));
    if b != [] && c != [] {
      assert Tail(b)[1..] == b[0] && Tail(c)[1..] == c[0];
    }
  }

  lemma {:induction false} EqualPres(s: seq<string>, t: seq<string>)
    ensures ComparePre(s, t) == Equal <==> SameRead(s, t)
  {
    if s != [] && t != [] {
      PartsAgree(s[0], t[0]);
      EqualPres(s[1..], t[1..]);
      if SameRead(s[1..], t[1..]) && SamePart(s[0], t[0]) {
        forall i | 0 <= i < |s|
          ensures SamePart(s[i], t[i])
        {
          assert i > 0 ==> s[1..][i - 1] == s[i] && t[1..][i - 1] == t[i];
        }
      }
      if SameRead(s, t) {
        assert forall i :: 0 <= i < |s[1..]| ==> SamePart(s[1..][i], t[1..][i]);
      }
    }
  }

  // ---- Pre-releases ----

  /** The first identifier read, and what follows it. */
  lemma ReadFirst(p: seq<Identifier>, b: seq<string>)
    requires p != []
    ensures ReadAs(p, b)[0] == LastRead(p[0], if |p| == 1 then b else [])
    ensures ReadAs(p, b)[1..] == if |p| > 1 then ReadAs(p[1..], b) else if b == [] then [] else b[1..]
  {
  }

  lemma BothEnd(p: seq<Identifier>, b: seq<string>, q: seq<Identifier>, c: seq<string>)
    requires |p| == 1 && |q| == 1 && p[0] == q[0] && ValidIdentifier(p[0])
    ensures ComparePre(ReadAs(p, b), ReadAs(q, c)) == Equal <==> SameBuild(b, c)
  {
    ReadFirst(p, b);
    ReadFirst(q, c);
    SameIdentifierWithBuild(p[0], b, c);
    if b != [] && c != [] {
      EqualPres(b[1..], c[1..]);
    }
  }

  lemma OneEnds(p: seq<Identifier>, b: seq<string>, q: seq<Identifier>, c: seq<string>)
    requires |p| == 1 && |q| > 1 && p[0] == q[0] && ValidIdentifier(p[0])
    ensures ComparePre(ReadAs(p, b), ReadAs(q, c)) == (if b == [] then Less else Greater)
    ensures ComparePre(ReadAs(q, c), ReadAs(p, b)) == (if b == [] then Greater else Less)
  {
    ReadFirst(p, b);
    ReadFirst(q, c);
    SameIdentifierWithBuild(p[0], b, []);
    PreFlips(ReadAs(p, b), ReadAs(q, c));
  }

  lemma {:induction false} PresAgree(p: seq<Identifier>, b: seq<string>, q: seq<Identifier>, c: seq<string>)
    requires p != [] && q != [] && AllValid(p) && AllValid(q)
    ensures ComparePre(ReadAs(p, b), ReadAs(q, c)) == PrePrecedence(p, q) <==> DecidedRight(p, b, q, c)
  {
    var bHere, cHere := if |p| == 1 then b else [], if |q| == 1 then c else [];
    ReadFirst(p, b);
    ReadFirst(q, c);
    if p[0] != q[0] {
      IdentifiersAgree(p[0], bHere, q[0], cHere);
    } else if |p| > 1 && |q| > 1 {
      SameIdentifierWithBuild(p[0], [], []);
      PresAgree(p[1..], b, q[1..], c);
    } else if |p| > 1 {
      OneEnds(q, c, p, b);
    } else if |q| > 1 {
      OneEnds(p, b, q, c);
    } else {
      BothEnd(p, b, q, c);
    }
  }

  // ---- Versions ----

  lemma CoresAgree(a: Version, b: Version)
    ensures CompareCores([a.major, a.minor, a.patch], [b.major, b.minor, b.patch]) ==
      if a.major != b.major then CompareNumbers(a.major, b.major)
      else if a.minor != b.minor then CompareNumbers(a.minor, b.minor)
      else CompareNumbers(a.patch, b.patch)
  {
    assert [a.major, a.minor, a.patch][1..] == [a.minor, a.patch] && [a.minor, a.patch][1..] == [a.patch];
    assert [b.major, b.minor, b.patch][1..] == [b.minor, b.patch] && [b.minor, b.patch][1..] == [b.patch];
    assert CompareCores([a.patch], [b.patch]) == CompareNumbers(a.patch, b.patch) by {
      assert [a.patch][1..] == [] && [b.patch][1..] == [];
    }
    assert CompareCores([a.minor, a.patch], [b.minor, b.patch]) ==
      if a.minor != b.minor then CompareNumbers(a.minor, b.minor) else CompareNumbers(a.patch, b.patch);
  }

  lemma {:induction false} EqualPrecedence(p: seq<Identifier>, q: seq<Identifier>)
    ensures PrePrecedence(p, q) == Equal <==> p == q
  {
    if p != [] && q != [] {
      if p[0] == q[0] {
        EqualPrecedence(p[1..], q[1..]);
        assert p == [p[0]] + p[1..] && q == [q[0]] + q[1..];
      } else if p[0].Word? && q[0].Word? {
        BeforeIsAnOrder(p[0].text, q[0].text);
      }
    }
  }

  lemma KeysAgree(a: Version, b: Version)
    requires Valid(a) && Valid(b) && Readable(a) && Readable(b)
    ensures CompareKeys(KeyOf(a).value, KeyOf(b).value) == Precedence(a, b) <==> ComparedRight(a, b)
  {
    CoresAgree(a, b);
    if a.pre != [] && b.pre != [] {
      PresAgree(a.pre, a.build, b.pre, b.build);
    }
  }

  /**
    For any two versions there are, their texts behind any number of `v`s: the
    comparison is the precedence just when, if a key is read from both, their
    pre-releases are decided right, and else, if the precedence is the same.
   */
  lemma AgreesExactlyWhen(a: Version, b: Version, vsA: string, vsB: string)
    requires Valid(a) && forall i :: 0 <= i < |vsA| ==> vsA[i] == 'v'
    requires Valid(b) && forall i :: 0 <= i < |vsB| ==> vsB[i] == 'v'
    ensures CompareVersions(vsA + Render(a), vsB + Render(b)) == Precedence(a, b) <==> ComparedRight(a, b)
  {
    RenderIsRead(a, vsA);
    RenderIsRead(b, vsB);
    if Readable(a) && Readable(b) {
      KeysAgree(a, b);
    } else {
      EqualPrecedence(a.pre, b.pre);
    }
  }

  // ---- Where all is well ----

  /** No build metadata, numbers that fit, and words that begin with a letter. */
  predicate Ordinary(v: Version) {
    && v.build == [] && v.major < TWO_64 && v.minor < TWO_64 && v.patch < TWO_64
    && forall i :: 0 <= i < |v.pre| ==> OrdinaryIdentifier(v.pre[i])
  }

  predicate OrdinaryIdentifier(x: Identifier) {
    match x
    case Numeric(n) => n < TWO_64
    case Word(text) => text != [] && IsLetter(text[0])
  }

  lemma NothingOrdinaryIsMisread(x: Identifier, y: Identifier)
    requires OrdinaryIdentifier(x) && OrdinaryIdentifier(y)
    ensures !Misread(x, false, y, false)
  {
    if x.Numeric? {
      NumberOfDecimal(x.n);
      assert IsDigit(Decimal(x.n)[0]);
    }
    if y.Numeric? {
      NumberOfDecimal(y.n);
      assert IsDigit(Decimal(y.n)[0]);
    }
  }

  lemma {:induction false} OrdinaryIsDecidedRight(p: seq<Identifier>, q: seq<Identifier>)
    requires p != [] && q != []
    requires forall i :: 0 <= i < |p| ==> OrdinaryIdentifier(p[i])
    requires forall i :: 0 <= i < |q| ==> OrdinaryIdentifier(q[i])
    ensures DecidedRight(p, [], q, [])
  {
    NothingOrdinaryIsMisread(p[0], q[0]);
    if |p| > 1 && |q| > 1 {
      OrdinaryIsDecidedRight(p[1..], q[1..]);
    }
  }

  /** `beta.10`, `rc.1`: on ordinary versions the standard's order is what comes out. */
  lemma ComparesLikeSemVer(a: Version, b: Version, vsA: string, vsB: string)
    requires Valid(a) && Ordinary(a) && forall i :: 0 <= i < |vsA| ==> vsA[i] == 'v'
    requires Valid(b) && Ordinary(b) && forall i :: 0 <= i < |vsB| ==> vsB[i] == 'v'
    ensures CompareVersions(vsA + Render(a), vsB + Render(b)) == Precedence(a, b)
  {
    if a.pre != [] && b.pre != [] {
      OrdinaryIsDecidedRight(a.pre, b.pre);
    }
    AgreesExactlyWhen(a, b, vsA, vsB);
  }

  // ---- Where it is not ----

  /**
    A release with build metadata, or one whose numbers do not fit, is as new as
    anything: it is never offered as newer, and nothing is offered as newer than it.
   */
  lemma UnreadIsNeverNewer(v: Version, vs: string, r: Release, current: string, channel: Channel)
    requires Valid(v) && forall i :: 0 <= i < |vs| ==> vs[i] == 'v'
    requires !Readable(v)
    ensures VersionKey(vs + Render(v)).None?
    ensures CompareVersions(vs + Render(v), current) == Equal == CompareVersions(current, vs + Render(v))
    ensures r.tagName == vs + Render(v) ==> !Eligible(r, current, channel)
    ensures !Eligible(r, vs + Render(v), channel)
  {
    RenderIsRead(v, vs);
  }

  /** Pre-releases of one version that differ in one misread identifier at their end compare the wrong way round. */
  lemma {:induction false} MisreadIsWrong(
    shared: seq<Identifier>, x: Identifier, b: seq<string>, y: Identifier, c: seq<string>)
    requires AllValid(shared) && ValidIdentifier(x) && ValidIdentifier(y) && x != y
    requires Misread(x, b != [], y, c != [])
    ensures ComparePre(ReadAs(shared + [x], b), ReadAs(shared + [y], c))
         == PrePrecedence(shared + [x], shared + [y]).Flip()
    ensures PrePrecedence(shared + [x], shared + [y]) == IdentifierPrecedence(x, y) != Equal
  {
    var p, q := shared + [x], shared + [y];
    ReadFirst(p, b);
    ReadFirst(q, c);
    if shared == [] {
      IdentifiersAgree(x, b, y, c);
      EqualPrecedence([x], [y]);
    } else {
      SameIdentifierWithBuild(p[0], [], []);
      assert p[1..] == shared[1..] + [x] && q[1..] == shared[1..] + [y];
      MisreadIsWrong(shared[1..], x, b, y, c);
    }
  }

  /** The same for the texts of versions. */
  lemma MisreadVersionsAreWrong(
    a: Version, b: Version, shared: seq<Identifier>, x: Identifier, y: Identifier)
    requires Valid(a) && Valid(b) && Readable(a) && Readable(b) && SameCore(a, b)
    requires a.pre == shared + [x] && b.pre == shared + [y] && x != y
    requires Misread(x, a.build != [], y, b.build != [])
    ensures CompareVersions(Render(a), Render(b)) == Precedence(a, b).Flip() != Precedence(a, b)
    ensures Precedence(a, b) == IdentifierPrecedence(x, y)
  {
    var empty := "";
    assert empty + Render(a) == Render(a) && empty + Render(b) == Render(b);
    assert shared == a.pre[..|shared|] && x == a.pre[|shared|] && y == b.pre[|shared|];
    RenderIsRead(a, empty);
    RenderIsRead(b, empty);
    CoresAgree(a, b);
    MisreadIsWrong(shared, x, a.build, y, b.build);
  }

  /** 1.0.0 with this after its dash. */
  function PreOfOne(pre: seq<Identifier>, build: seq<string>): Version {
    Version(1, 0, 0, pre, build)
  }

  lemma RenderPreOfOne(pre: seq<Identifier>, build: seq<string>)
    requires pre != []
    ensures Render(PreOfOne(pre, build)) == "1.0.0-" + (Dotted(Texts(pre)) + Plussed(build))
  {
    var v := PreOfOne(pre, build);
    CoreIs(v);
    assert Decimal(1) == "1" && Decimal(0) == "0";
    assert Core(v) == "1.0.0";
  }

  lemma RenderOne(x: Identifier)
    ensures Render(PreOfOne([x], [])) == "1.0.0-" + x.Text()
  {
    RenderPreOfOne([x], []);
    assert Texts([x]) == [x.Text()] && x.Text() + "" == x.Text();
  }

  lemma DottedTwo(x: Identifier, y: Identifier)
    ensures Dotted(Texts([x, y])) == x.Text() + ("." + y.Text())
  {
    assert Texts([x, y]) == [x.Text(), y.Text()] && Texts([x, y])[1..] == [y.Text()];
    assert Dotted([y.Text()]) == y.Text();
  }

  lemma Regrouped(a: string, b: string, c: string, d: string, e: string)
    ensures a + ((b + (c + d)) + e) == (a + b + c) + (d + e)
  {
  }

  lemma RenderRc(x: Identifier, build: seq<string>)
    ensures Render(PreOfOne([Word("rc"), x], build)) == ("1.0.0-" + "rc" + ".") + (x.Text() + Plussed(build))
  {
    RenderPreOfOne([Word("rc"), x], build);
    DottedTwo(Word("rc"), x);
    Regrouped("1.0.0-", "rc", ".", x.Text(), Plussed(build));
  }

  /** Build metadata that sticks to a number makes it text: rc.10 comes before rc.9. */
  lemma BuildMisleads()
    ensures CompareVersions("1.0.0-rc.10+5", "1.0.0-rc.9") == Less
    ensures Precedence(PreOfOne([Word("rc"), Numeric(10)], ["5"]), PreOfOne([Word("rc"), Numeric(9)], [])) == Greater
  {
    var rc, ten, nine := Word("rc"), Numeric(10), Numeric(9);
    var a, b := PreOfOne([rc, ten], ["5"]), PreOfOne([rc, nine], []);
    TextsOfRc();
    RcIsAWord();
    TenBeforeNine();
    assert a.pre == [rc] + [ten] && b.pre == [rc] + [nine];
    MisreadVersionsAreWrong(a, b, [rc], ten, nine);
  }

  lemma TextsOfRc()
    ensures Render(PreOfOne([Word("rc"), Numeric(10)], ["5"])) == "1.0.0-rc.10+5"
    ensures Render(PreOfOne([Word("rc"), Numeric(9)], [])) == "1.0.0-rc.9"
  {
    RenderRc(Numeric(10), ["5"]);
    RenderRc(Numeric(9), []);
    SmallDecimals();
    assert "1.0.0-" + "rc" + "." == "1.0.0-rc.";
    assert Plussed(["5"]) == "+5" && "10" + "+5" == "10+5" && "9" + "" == "9";
  }

  lemma RcIsAWord()
    ensures ValidIdentifier(Word("rc"))
  {
    assert !IsDigit("rc"[0]);
  }

  lemma TenBeforeNine()
    ensures Before(Decimal(10), Decimal(9))
  {
    SmallDecimals();
  }

  lemma SmallDecimals()
    ensures Decimal(9) == "9" && Decimal(10) == "10"
  {
    assert Decimal(1) == "1";
  }

  /** And without a pre-release it makes a newer release as new as any other. */
  lemma BuildHides()
    ensures CompareVersions("1.0.1+5", "1.0.0") == Equal
    ensures Precedence(Version(1, 0, 1, [], ["5"]), Version(1, 0, 0, [], [])) == Greater
  {
    var a := Version(1, 0, 1, [], ["5"]);
    CoreIs(a);
    assert Decimal(1) == "1" && Decimal(0) == "0";
    assert Core(a) == "1.0.1" && Render(a) == "1.0.1+5" && "" + Render(a) == Render(a);
    RenderIsRead(a, "");
  }

  lemma {:induction false} PowerOfSum(a: nat, b: nat)
    ensures Power(a + b) == Power(a) * Power(b)
  {
    if a > 0 {
      PowerOfSum(a - 1, b);
    }
  }

  lemma {:induction false} BeginsWithOne(n: nat, width: nat)
    requires Power(width) <= n < 2 * Power(width)
    ensures Decimal(n) != [] && Decimal(n)[0] == '1'
  {
    if width > 0 {
      BeginsWithOne(n / 10, width - 1);
    }
  }

  /** A number that does not fit 64 bits is text as well: the first such comes before 9. */
  lemma TooLargeMisleads()
    ensures CompareVersions(Render(PreOfOne([Numeric(TWO_64)], [])), Render(PreOfOne([Numeric(9)], []))) == Less
    ensures Precedence(PreOfOne([Numeric(TWO_64)], []), PreOfOne([Numeric(9)], [])) == Greater
  {
    var x, y := Numeric(TWO_64), Numeric(9);
    PowerOfSum(4, 5);
    PowerOfSum(9, 10);
    PowerOfSum(5, 5);
    PowerOfSum(4, 1);
    Powers();
    BeginsWithOne(TWO_64, 19);
    SmallDecimals();
    assert Before(Decimal(TWO_64), Decimal(9));
    assert [x] == [] + [x] && [y] == [] + [y];
    MisreadVersionsAreWrong(PreOfOne([x], []), PreOfOne([y], []), [], x, y);
  }

  /** A word that begins with digits comes before numbers the standard puts it after. */
  lemma DigitsMislead()
    ensures CompareVersions("1.0.0-9", "1.0.0-10a") == Greater
    ensures Precedence(PreOfOne([Numeric(9)], []), PreOfOne([Word("10a")], [])) == Less
  {
    var x, y := Numeric(9), Word("10a");
    assert !IsDigit("10a"[2]);
    SmallDecimals();
    RenderOne(x);
    RenderOne(y);
    assert Render(PreOfOne([x], [])) == "1.0.0-9" && Render(PreOfOne([y], [])) == "1.0.0-10a";
    assert Before("10a", Decimal(9));
    assert [x] == [] + [x] && [y] == [] + [y];
    MisreadVersionsAreWrong(PreOfOne([x], []), PreOfOne([y], []), [], x, y);
  }

  /** Of these three versions each is newer than the one before, all round. */
  lemma VersionsGoRound()
    ensures CompareVersions("1.0.0-9", "1.0.0-10") == Less
    ensures CompareVersions("1.0.0-10", "1.0.0-10a") == Less
    ensures CompareVersions("1.0.0-10a", "1.0.0-9") == Less
  {
    NineThenTen();
    TenThenTenA();
    TenAThenNine();
  }

  lemma NineThenTen()
    ensures CompareVersions("1.0.0-9", "1.0.0-10") == Less
  {
    SmallDecimals();
    OneDecides(Numeric(9), Numeric(10), "1.0.0-9", "1.0.0-10");
  }

  lemma TenThenTenA()
    ensures CompareVersions("1.0.0-10", "1.0.0-10a") == Less
  {
    SmallDecimals();
    assert !IsDigit("10a"[2]);
    assert !Before("10a", "10") by {
      assert "10"[1..] == "0" && "10a"[1..] == "0a" && "0"[1..] == "" && "0a"[1..] == "a";
    }
    OneDecides(Numeric(10), Word("10a"), "1.0.0-10", "1.0.0-10a");
  }

  lemma TenAThenNine()
    ensures CompareVersions("1.0.0-10a", "1.0.0-9") == Less
  {
    DigitsMislead();
    VersionsFlip("1.0.0-9", "1.0.0-10a");
  }

  lemma OneDecides(x: Identifier, y: Identifier, s: string, t: string)
    requires ValidIdentifier(x) && ValidIdentifier(y) && x != y && !Misread(x, false, y, false)
    requires s == "1.0.0-" + x.Text() && t == "1.0.0-" + y.Text()
    ensures CompareVersions(s, t) == IdentifierPrecedence(x, y)
  {
    var a, b, empty := PreOfOne([x], []), PreOfOne([y], []), "";
    RenderOne(x);
    RenderOne(y);
    assert empty + Render(a) == s && empty + Render(b) == t;
    AgreesExactlyWhen(a, b, empty, empty);
  }
}
