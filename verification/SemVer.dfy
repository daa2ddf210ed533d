/**
  Versions as Semantic Versioning 2.0.0 has them, build metadata and numbers of
  any size included, and what is read from their texts.
 */
module SemVer {
  import opened Basics
  import opened Wrappers
  import opened Stamps
  import opened Versions

  datatype Identifier = Numeric(n: nat) | Word(text: string) {
    function Text(): string {
      if Numeric? then Decimal(n) else text
    }
  }

  datatype Version = Version(major: nat, minor: nat, patch: nat, pre: seq<Identifier>, build: seq<string>)

  // ---- The grammar ----

  predicate IsIdentifierChar(c: char) {
    IsDigit(c) || IsLetter(c) || c == '-'
  }

  predicate OfIdentifierChars(s: string) {
    forall i :: 0 <= i < |s| ==> IsIdentifierChar(s[i])
  }

  predicate ValidIdentifier(x: Identifier) {
    x.Word? ==> x.text != [] && OfIdentifierChars(x.text) && !AllDigits(x.text)
  }

  predicate AllValid(pre: seq<Identifier>) {
    forall i :: 0 <= i < |pre| ==> ValidIdentifier(pre[i])
  }

  predicate ValidBuild(build: seq<string>) {
    forall i :: 0 <= i < |build| ==> build[i] != [] && OfIdentifierChars(build[i])
  }

  /** As sections 2, 9 and 10 have it. */
  predicate Valid(v: Version) {
    AllValid(v.pre) && ValidBuild(v.build)
  }

  function Dotted(parts: seq<string>): string
    requires parts != []
  {
    if |parts| == 1 then parts[0] else parts[0] + ("." + Dotted(parts[1..]))
  }

  function Texts(pre: seq<Identifier>): (texts: seq<string>)
    ensures |texts| == |pre|
  {
    seq(|pre|, i requires 0 <= i < |pre| => pre[i].Text())
  }

  function Core(v: Version): string {
    Dotted([Decimal(v.major), Decimal(v.minor), Decimal(v.patch)])
  }

  function Dashed(pre: seq<Identifier>): string {
    if pre == [] then "" else "-" + Dotted(Texts(pre))
  }

  function Plussed(build: seq<string>): string {
    if build == [] then "" else "+" + Dotted(build)
  }

  function Render(v: Version): string {
    Core(v) + (Dashed(v.pre) + Plussed(v.build))
  }

  // ---- Precedence, section 11: build metadata has no part in it ----

  function IdentifierPrecedence(a: Identifier, b: Identifier): Order {
    if a.Numeric? && b.Numeric? then CompareNumbers(a.n, b.n)
    else if a.Numeric? then Less
    else if b.Numeric? then Greater
    else CompareText(a.text, b.text)
  }

  function PrePrecedence(a: seq<Identifier>, b: seq<Identifier>): Order {
    if a == [] && b == [] then Equal
    else if a == [] then Less
    else if b == [] then Greater
    else if a[0] == b[0] then PrePrecedence(a[1..], b[1..])
    else IdentifierPrecedence(a[0], b[0])
  }

  function Precedence(a: Version, b: Version): Order {
    if a.major != b.major then CompareNumbers(a.major, b.major)
    else if a.minor != b.minor then CompareNumbers(a.minor, b.minor)
    else if a.patch != b.patch then CompareNumbers(a.patch, b.patch)
    else if a.pre == [] && b.pre == [] then Equal
    else if a.pre == [] then Greater
    else if b.pre == [] then Less
    else PrePrecedence(a.pre, b.pre)
  }

  // ---- What of a text is read ----

  /** The last identifier of a pre-release, as it is read: the first of the build metadata sticks to it. */
  function LastRead(x: Identifier, build: seq<string>): string {
    if build == [] then x.Text() else x.Text() + ("+" + build[0])
  }

  /** The identifiers read after the dash. */
  function ReadAs(pre: seq<Identifier>, build: seq<string>): (texts: seq<string>)
    requires pre != []
    ensures texts != []
  {
    if |pre| == 1 then [LastRead(pre[0], build)] + (if build == [] then [] else build[1..])
    else [pre[0].Text()] + ReadAs(pre[1..], build)
  }

  /** Versions a key is read from: their numbers fit, and no build metadata follows the numbers. */
  predicate Readable(v: Version) {
    v.major < TWO_64 && v.minor < TWO_64 && v.patch < TWO_64 && (v.pre == [] ==> v.build == [])
  }

  function KeyOf(v: Version): Option<Key> {
    if Readable(v)
    then Some(Key([v.major, v.minor, v.patch], if v.pre == [] then None else Some(ReadAs(v.pre, v.build))))
    else None
  }

  // ---- Numbers and words ----

  lemma {:induction false} NumberOfDecimal(n: nat)
    ensures Decimal(n) != [] && AllDigits(Decimal(n)) && Number(Decimal(n)) == n
  {
    var text := Decimal(n);
    if n < 10 {
      assert text[..0] == [];
    } else {
      NumberOfDecimal(n / 10);
      assert text[..|text| - 1] == Decimal(n / 10);
      assert text[|text| - 1] == Digit(n % 10);
    }
  }

  lemma DecimalIsRead(n: nat)
    ensures ParseU64(Decimal(n)) == if n < TWO_64 then Some(n) else None
  {
    NumberOfDecimal(n);
    assert IsDigit(Decimal(n)[0]);
  }

  lemma WordIsNoNumber(x: Identifier)
    requires ValidIdentifier(x) && x.Word?
    ensures ParseU64(x.text).None?
  {
    assert IsIdentifierChar(x.text[0]);
  }

  lemma TextIsOf(x: Identifier)
    requires ValidIdentifier(x)
    ensures x.Text() != [] && OfIdentifierChars(x.Text())
  {
    if x.Numeric? {
      NumberOfDecimal(x.n);
    }
  }

  /** Something with a plus after its first character is no number. */
  lemma PlusInside(head: string, rest: string)
    requires head != [] && head[0] != '+'
    ensures ParseU64(head + ("+" + rest)).None?
  {
    var s := head + ("+" + rest);
    assert s[0] == head[0] && s[|head|] == '+';
    assert !AllDigits(s);
  }

  // ---- Splitting ----

  predicate Lacks(s: string, c: char) {
    forall i :: 0 <= i < |s| ==> s[i] != c
  }

  /** What stands before the first `c` only makes the first part longer. */
  lemma {:induction false} SplitHead(head: string, rest: string, c: char)
    requires Lacks(head, c)
    ensures Split(head + rest, c) == [head + Split(rest, c)[0]] + Split(rest, c)[1..]
  {
    var s := head + rest;
    if head == [] {
      var parts := Split(rest, c);
      assert s == rest && "" + parts[0] == parts[0];
      assert parts == [parts[0]] + parts[1..];
    } else {
      assert s[1..] == head[1..] + rest;
      SplitHead(head[1..], rest, c);
      assert [head[0]] + (head[1..] + Split(rest, c)[0]) == head + Split(rest, c)[0];
    }
  }

  lemma SplitFirst(part: string, c: char, rest: string)
    requires Lacks(part, c)
    ensures Split(part + ([c] + rest), c) == [part] + Split(rest, c)
  {
    SplitHead(part, [c] + rest, c);
    assert ([c] + rest)[1..] == rest;
    assert Split([c] + rest, c) == [""] + Split(rest, c);
    assert part + "" == part;
  }

  lemma SplitOne(part: string, c: char)
    requires Lacks(part, c)
    ensures Split(part, c) == [part]
  {
    SplitHead(part, "", c);
    assert part + "" == part;
  }

  lemma {:induction false} SplitDotted(parts: seq<string>)
    requires parts != [] && forall i :: 0 <= i < |parts| ==> Lacks(parts[i], '.')
    ensures Split(Dotted(parts), '.') == parts
  {
    if |parts| == 1 {
      SplitOne(parts[0], '.');
    } else {
      SplitFirst(parts[0], '.', Dotted(parts[1..]));
      SplitDotted(parts[1..]);
    }
  }

  /** The dash looked for lies past what has none. */
  lemma {:induction false} SplitOncePast(head: string, rest: string)
    requires Lacks(head, '-')
    ensures SplitOnce(head + rest, '-') ==
      if SplitOnce(rest, '-').None? then None
      else Some((head + SplitOnce(rest, '-').value.0, SplitOnce(rest, '-').value.1))
  {
    var s := head + rest;
    if head == [] {
      assert s == rest;
      assert SplitOnce(rest, '-').Some? ==> head + SplitOnce(rest, '-').value.0 == SplitOnce(rest, '-').value.0;
    } else {
      assert s[1..] == head[1..] + rest;
      SplitOncePast(head[1..], rest);
      assert SplitOnce(rest, '-').Some? ==>
        [head[0]] + (head[1..] + SplitOnce(rest, '-').value.0) == head + SplitOnce(rest, '-').value.0;
    }
  }

  // ---- The numbers before the dash ----

  lemma CoreIs(v: Version)
    ensures Core(v) == Decimal(v.major) + ("." + (Decimal(v.minor) + ("." + Decimal(v.patch))))
  {
    var a, b, c := Decimal(v.major), Decimal(v.minor), Decimal(v.patch);
    assert [a, b, c][1..] == [b, c] && [b, c][1..] == [c];
    assert Dotted([c]) == c && Dotted([b, c]) == b + ("." + c);
  }

  lemma CoreIsPlain(v: Version)
    ensures Lacks(Core(v), '-') && OfText(Core(v)) && Core(v) != [] && IsDigit(Core(v)[0])
  {
    NumberOfDecimal(v.major);
    NumberOfDecimal(v.minor);
    NumberOfDecimal(v.patch);
    CoreIs(v);
  }

  lemma ThreeSplit(a: string, b: string, c: string, tail: string)
    requires Lacks(a, '.') && Lacks(b, '.') && Lacks(c, '.')
    ensures Split(a + ("." + (b + ("." + (c + tail)))), '.') ==
      [a, b, c + Split(tail, '.')[0]] + Split(tail, '.')[1..]
  {
    SplitFirst(a, '.', b + ("." + (c + tail)));
    SplitFirst(b, '.', c + tail);
    SplitHead(c, tail, '.');
  }

  lemma CoreSplits(v: Version, tail: string)
    ensures Split(Core(v) + tail, '.') ==
      [Decimal(v.major), Decimal(v.minor), Decimal(v.patch) + Split(tail, '.')[0]] + Split(tail, '.')[1..]
  {
    var a, b, c := Decimal(v.major), Decimal(v.minor), Decimal(v.patch);
    NumberOfDecimal(v.major);
    NumberOfDecimal(v.minor);
    NumberOfDecimal(v.patch);
    CoreIs(v);
    ThreeSplit(a, b, c, tail);
    assert (b + ("." + c)) + tail == b + ("." + (c + tail));
    assert (a + ("." + (b + ("." + c)))) + tail == a + ("." + ((b + ("." + c)) + tail));
  }

  lemma ParseOneMore(first: string, rest: seq<string>)
    ensures ParseAll([first] + rest) ==
      if ParseU64(first).Some? && ParseAll(rest).Some?
      then Some([ParseU64(first).value] + ParseAll(rest).value) else None
  {
    assert ([first] + rest)[1..] == rest;
  }

  lemma ThirdStops(a: string, b: string, c: string, rest: seq<string>)
    requires ParseU64(c).None?
    ensures ParseAll([a, b, c] + rest).None?
  {
    ParseOneMore(c, rest);
    ParseOneMore(b, [c] + rest);
    ParseOneMore(a, [b] + ([c] + rest));
    assert [a, b, c] + rest == [a] + ([b] + ([c] + rest));
  }

  lemma ParseThree(a: string, b: string, c: string)
    ensures ParseAll([a, b, c]) ==
      if ParseU64(a).Some? && ParseU64(b).Some? && ParseU64(c).Some?
      then Some([ParseU64(a).value, ParseU64(b).value, ParseU64(c).value]) else None
  {
    ParseOneMore(c, []);
    ParseOneMore(b, [c]);
    ParseOneMore(a, [b, c]);
    assert [c] + [] == [c] && [b] + [c] == [b, c] && [a] + [b, c] == [a, b, c];
    if ParseU64(a).Some? && ParseU64(b).Some? && ParseU64(c).Some? {
      var x, y, z := ParseU64(a).value, ParseU64(b).value, ParseU64(c).value;
      assert [z] + [] == [z] && [y] + [z] == [y, z] && [x] + [y, z] == [x, y, z];
    }
  }

  lemma CoreIsRead(v: Version)
    ensures ParseAll(Split(Core(v), '.')) ==
      if v.major < TWO_64 && v.minor < TWO_64 && v.patch < TWO_64 then Some([v.major, v.minor, v.patch]) else None
  {
    var a, b, c := Decimal(v.major), Decimal(v.minor), Decimal(v.patch);
    CoreSplits(v, "");
    assert Core(v) + "" == Core(v) && c + "" == c;
    assert [a, b, c] + [] == [a, b, c];
    DecimalIsRead(v.major);
    DecimalIsRead(v.minor);
    DecimalIsRead(v.patch);
    ParseThree(a, b, c);
  }

  /** With build metadata behind them, the numbers are not read at all. */
  lemma CoreWithBuildIsNot(v: Version, tail: string)
    ensures ParseAll(Split(Core(v) + ("+" + tail), '.')).None?
  {
    var c, parts := Decimal(v.patch), Split("+" + tail, '.');
    CoreSplits(v, "+" + tail);
    SplitHead("+", tail, '.');
    NumberOfDecimal(v.patch);
    PlusInside(c, Split(tail, '.')[0]);
    assert c + parts[0] == c + ("+" + Split(tail, '.')[0]);
    ThirdStops(Decimal(v.major), Decimal(v.minor), c + parts[0], parts[1..]);
  }

  // ---- The identifiers after it ----

  lemma BuildSplits(build: seq<string>)
    requires ValidBuild(build) && build != []
    ensures Split(Plussed(build), '.') == ["+" + build[0]] + build[1..]
  {
    SplitHead("+", Dotted(build), '.');
    SplitDotted(build);
  }

  lemma {:induction false} PreSplits(pre: seq<Identifier>, build: seq<string>)
    requires pre != [] && AllValid(pre) && ValidBuild(build)
    ensures Split(Dotted(Texts(pre)) + Plussed(build), '.') == ReadAs(pre, build)
  {
    var text, tail := pre[0].Text(), Plussed(build);
    TextIsOf(pre[0]);
    TextsRest(pre);
    if |pre| == 1 {
      SplitHead(text, tail, '.');
      if build != [] {
        BuildSplits(build);
      } else {
        assert text + "" == text && [text] + [] == [text];
      }
    } else {
      PreSplits(pre[1..], build);
      var rest := Dotted(Texts(pre[1..]));
      assert Dotted(Texts(pre)) + tail == text + ("." + (rest + tail));
      SplitFirst(text, '.', rest + tail);
    }
  }

  lemma TextsRest(pre: seq<Identifier>)
    requires pre != []
    ensures Texts(pre)[0] == pre[0].Text() && Texts(pre)[1..] == Texts(pre[1..])
  {
  }

  // ---- The whole text ----

  predicate OfText(s: string) {
    forall i :: 0 <= i < |s| ==> IsIdentifierChar(s[i]) || s[i] == '.' || s[i] == '+'
  }

  lemma {:induction false} DottedIsOf(parts: seq<string>)
    requires parts != [] && forall i :: 0 <= i < |parts| ==> OfIdentifierChars(parts[i])
    ensures OfText(Dotted(parts))
  {
    if |parts| > 1 {
      DottedIsOf(parts[1..]);
    }
  }

  lemma RenderIsPlainText(v: Version)
    requires Valid(v)
    ensures Render(v) != [] && IsDigit(Render(v)[0]) && OfText(Render(v))
  {
    CoreIsPlain(v);
    if v.pre != [] {
      forall i | 0 <= i < |v.pre|
        ensures OfIdentifierChars(Texts(v.pre)[i])
      {
        TextIsOf(v.pre[i]);
      }
      DottedIsOf(Texts(v.pre));
    }
    if v.build != [] {
      DottedIsOf(v.build);
    }
  }

  /** Letters `v` before a text are taken off it. */
  lemma {:induction false} VsAreDropped(vs: string, s: string)
    requires forall i :: 0 <= i < |vs| ==> vs[i] == 'v'
    requires s != [] && s[0] != 'v'
    ensures DropLeading(vs + s, 'v') == s
  {
    if vs == [] {
      assert vs + s == s;
    } else {
      assert (vs + s)[1..] == vs[1..] + s;
      VsAreDropped(vs[1..], s);
    }
  }

  lemma TextIsLeftAsItIs(v: Version, vs: string)
    requires Valid(v) && forall i :: 0 <= i < |vs| ==> vs[i] == 'v'
    ensures DropLeading(Trim(vs + Render(v)), 'v') == Render(v)
  {
    var text := vs + Render(v);
    RenderIsPlainText(v);
    assert !IsSpace(text[0]) && !IsSpace(text[|text| - 1]);
    assert TrimStart(text) == text && TrimEnd(text) == text;
    VsAreDropped(vs, Render(v));
  }

  /** What halves a version's text falls into. */
  lemma Halves(v: Version)
    requires Valid(v)
    ensures v.pre != [] ==> SplitOnce(Render(v), '-') == Some((Core(v), Dotted(Texts(v.pre)) + Plussed(v.build)))
    ensures v.pre == [] && v.build == [] ==> SplitOnce(Render(v), '-').None? && Render(v) == Core(v)
  {
    CoreIsPlain(v);
    if v.pre != [] {
      var rest := Dotted(Texts(v.pre)) + Plussed(v.build);
      assert Dashed(v.pre) + Plussed(v.build) == "-" + rest;
      SplitOncePast(Core(v), "-" + rest);
      assert ("-" + rest)[1..] == rest && SplitOnce("-" + rest, '-') == Some(("", rest));
      assert Core(v) + "" == Core(v);
    } else if v.build == [] {
      assert "" + "" == "" && Core(v) + "" == Core(v);
      SplitOncePast(Core(v), "");
    }
  }

  /** Where a dash is found in build metadata, the numbers before it still have their plus. */
  lemma BuildAloneIsNotRead(v: Version)
    requires Valid(v) && v.pre == [] && v.build != []
    ensures
      var halves := SplitOnce(Render(v), '-');
      ParseAll(Split(if halves.Some? then halves.value.0 else Render(v), '.')).None?
  {
    var tail := Dotted(v.build);
    CoreIsPlain(v);
    assert Render(v) == (Core(v) + "+") + tail;
    SplitOncePast(Core(v) + "+", tail);
    if SplitOnce(tail, '-').Some? {
      var t := SplitOnce(tail, '-').value.0;
      assert (Core(v) + "+") + t == Core(v) + ("+" + t);
      CoreWithBuildIsNot(v, t);
    } else {
      assert Render(v) == Core(v) + ("+" + tail);
      CoreWithBuildIsNot(v, tail);
    }
  }

  /** What is read from the text of any version, however many times `v` stands before it. */
  lemma RenderIsRead(v: Version, vs: string)
    requires Valid(v) && forall i :: 0 <= i < |vs| ==> vs[i] == 'v'
    ensures VersionKey(vs + Render(v)) == KeyOf(v)
  {
    TextIsLeftAsItIs(v, vs);
    Halves(v);
    CoreIsRead(v);
    if v.pre != [] {
      PreSplits(v.pre, v.build);
    } else if v.build != [] {
      BuildAloneIsNotRead(v);
    }
  }
}
