/**
  The directory of backups: which files in it are backups, and which of them
  go when only so many are to stay.
 */
module Backups {
  import opened Wrappers
  import opened Stamps

  const PREFIX := "uwusync-"
  const OLD_PREFIX := "uwussh-"
  const SUFFIX := ".db"

  function StripPrefix(name: string, prefix: string): Option<string> {
    if prefix <= name then Some(name[|prefix|..]) else None
  }

  function StripSuffix(name: string, suffix: string): Option<string> {
    if |suffix| <= |name| && name[|name| - |suffix|..] == suffix then Some(name[..|name| - |suffix|]) else None
  }

  /** When a backup was written, from its name; nothing for a file that is none. */
  function BackupStamp(name: string): Option<string> {
    var rest := if StripPrefix(name, PREFIX).Some? then StripPrefix(name, PREFIX) else StripPrefix(name, OLD_PREFIX);
    if rest.None? then None else StripSuffix(rest.value, SUFFIX)
  }

  predicate HasExtension(name: string) {
    |name| > |SUFFIX| && StripSuffix(name, SUFFIX).Some?
  }

  predicate IsBackup(name: string) {
    HasExtension(name) && BackupStamp(name).Some?
  }

  /** Where a backup written at `ms` goes, now or before the server changed its name. */
  function BackupName(ms: nat, former: bool): string {
    (if former then OLD_PREFIX else PREFIX) + (Stamp(ms) + SUFFIX)
  }

  lemma StampOfBackupName(ms: nat, former: bool)
    ensures IsBackup(BackupName(ms, former)) && BackupStamp(BackupName(ms, former)) == Some(Stamp(ms))
  {
    NameOfStamp(Stamp(ms), former);
  }

  lemma NameOfStamp(stamp: string, former: bool)
    ensures
      var name := (if former then OLD_PREFIX else PREFIX) + (stamp + SUFFIX);
      IsBackup(name) && BackupStamp(name) == Some(stamp)
  {
    var prefix := if former then OLD_PREFIX else PREFIX;
    var name := prefix + (stamp + SUFFIX);
    assert name[|prefix|..] == stamp + SUFFIX;
    assert (stamp + SUFFIX)[..|stamp|] == stamp;
    assert (stamp + SUFFIX)[|stamp|..] == SUFFIX;
    assert name[|name| - 3..] == SUFFIX;
    if former {
      assert name[4] == 's' && PREFIX[4] == 'y';
      assert name[4] != PREFIX[4];
    }
  }

  /** Two files of one stamp are the old name and the new one of one second. */
  lemma OneStampTwoNames(a: string, b: string)
    requires IsBackup(a) && IsBackup(b) && BackupStamp(a) == BackupStamp(b) && a != b
    ensures (PREFIX <= a && OLD_PREFIX <= b) || (OLD_PREFIX <= a && PREFIX <= b)
  {
    NameByParts(a);
    NameByParts(b);
  }

  lemma NameByParts(name: string)
    requires IsBackup(name)
    ensures (PREFIX <= name && name == PREFIX + BackupStamp(name).value + SUFFIX)
      || (OLD_PREFIX <= name && name == OLD_PREFIX + BackupStamp(name).value + SUFFIX)
  {
    var prefix := if StripPrefix(name, PREFIX).Some? then PREFIX else OLD_PREFIX;
    var rest := name[|prefix|..];
    assert name == prefix + rest;
    assert rest == rest[..|rest| - 3] + SUFFIX;
    assert BackupStamp(name).value == rest[..|rest| - 3];
    assert name == prefix + BackupStamp(name).value + SUFFIX;
  }

  predicate NamedSo(name: string, stamp: string) {
    name == "uwusync-" + (stamp + ".db") || name == "uwussh-" + (stamp + ".db")
  }

  lemma EndsTogether(a: string, b: string, c: string)
    ensures a + b + c == a + (b + c)
  {
  }

  lemma NamedByParts(name: string, stamp: string)
    requires name == PREFIX + stamp + SUFFIX || name == OLD_PREFIX + stamp + SUFFIX
    ensures NamedSo(name, stamp)
  {
    EndsTogether(PREFIX, stamp, SUFFIX);
    EndsTogether(OLD_PREFIX, stamp, SUFFIX);
  }

  /** What counts as a backup: either prefix, anything, and the suffix. */
  lemma BackupsAreNamedSo(name: string)
    ensures IsBackup(name) <==> exists stamp :: NamedSo(name, stamp)
  {
    if IsBackup(name) {
      NameByParts(name);
      NamedByParts(name, BackupStamp(name).value);
    }
    if stamp :| NamedSo(name, stamp) {
      NameOfStamp(stamp, name == OLD_PREFIX + (stamp + SUFFIX));
    }
  }

  // ---- In the order of their stamps ----

  predicate Newer(a: string, b: string)
    requires IsBackup(a) && IsBackup(b)
  {
    Before(BackupStamp(b).value, BackupStamp(a).value)
  }

  predicate AllBackups(files: seq<string>) {
    forall i :: 0 <= i < |files| ==> IsBackup(files[i])
  }

  function BackupsIn(entries: seq<string>): (files: seq<string>)
    ensures AllBackups(files)
  {
    if entries == [] then []
    else if IsBackup(entries[0]) then [entries[0]] + BackupsIn(entries[1..])
    else BackupsIn(entries[1..])
  }

  /** The library's sort keeps files of one stamp in the order they came. */
  function SortByStamp(files: seq<string>): (sorted: seq<string>)
    requires AllBackups(files)
    ensures AllBackups(sorted)
  {
    if files == [] then [] else Insert(files[0], SortByStamp(files[1..]))
  }

  function Insert(file: string, sorted: seq<string>): (r: seq<string>)
    requires IsBackup(file) && AllBackups(sorted)
    ensures AllBackups(r)
  {
    if sorted == [] || !Newer(file, sorted[0]) then [file] + sorted
    else [sorted[0]] + Insert(file, sorted[1..])
  }

  ghost predicate OldestFirst(files: seq<string>)
    requires AllBackups(files)
  {
    forall i, j :: 0 <= i < j < |files| ==> !Newer(files[i], files[j])
  }

  ghost predicate NoneTwice(files: seq<string>) {
    forall i, j :: 0 <= i < j < |files| ==> files[i] != files[j]
  }

  lemma {:induction false} InsertAddsOne(file: string, sorted: seq<string>)
    requires IsBackup(file) && AllBackups(sorted)
    ensures multiset(Insert(file, sorted)) == multiset(sorted) + multiset{file}
  {
    if sorted != [] && Newer(file, sorted[0]) {
      InsertAddsOne(file, sorted[1..]);
      assert sorted == [sorted[0]] + sorted[1..];
    }
  }

  lemma AsNewAs(a: string, b: string, c: string)
    requires IsBackup(a) && IsBackup(b) && IsBackup(c) && !Newer(a, b) && !Newer(b, c)
    ensures !Newer(a, c)
  {
    BeforeGoesOn(BackupStamp(a).value, BackupStamp(b).value, BackupStamp(c).value);
  }

  lemma OneBefore(file: string, rest: seq<string>)
    requires IsBackup(file) && AllBackups(rest) && OldestFirst(rest)
    requires forall j :: 0 <= j < |rest| ==> !Newer(file, rest[j])
    ensures OldestFirst([file] + rest)
  {
  }

  lemma {:induction false} InsertSorts(file: string, sorted: seq<string>)
    requires IsBackup(file) && AllBackups(sorted) && OldestFirst(sorted)
    ensures OldestFirst(Insert(file, sorted))
  {
    if sorted == [] {
    } else if !Newer(file, sorted[0]) {
      forall j | 0 <= j < |sorted|
        ensures !Newer(file, sorted[j])
      {
        if j > 0 {
          AsNewAs(file, sorted[0], sorted[j]);
        }
      }
      OneBefore(file, sorted);
    } else {
      var rest := sorted[1..];
      var r := Insert(file, rest);
      InsertSorts(file, rest);
      InsertAddsOne(file, rest);
      BeforeIsAnOrder(BackupStamp(file).value, BackupStamp(sorted[0]).value);
      forall j | 0 <= j < |r|
        ensures !Newer(sorted[0], r[j])
      {
        assert r[j] in multiset(rest) + multiset{file};
        assert r[j] == file || r[j] in rest;
      }
      OneBefore(sorted[0], r);
    }
  }

  /** What is sorted is the same files, oldest first. */
  lemma {:induction false} SortSorts(files: seq<string>)
    requires AllBackups(files)
    ensures OldestFirst(SortByStamp(files)) && multiset(SortByStamp(files)) == multiset(files)
  {
    if files != [] {
      SortSorts(files[1..]);
      InsertSorts(files[0], SortByStamp(files[1..]));
      InsertAddsOne(files[0], SortByStamp(files[1..]));
      assert files == [files[0]] + files[1..];
    }
  }

  lemma {:induction false} BackupsAreOnes(entries: seq<string>, name: string)
    ensures multiset(BackupsIn(entries))[name] == if IsBackup(name) then multiset(entries)[name] else 0
  {
    if entries != [] {
      BackupsAreOnes(entries[1..], name);
      assert entries == [entries[0]] + entries[1..];
    }
  }

  lemma {:induction false} NoneTwiceByCount(files: seq<string>)
    ensures NoneTwice(files) <==> forall f :: multiset(files)[f] <= 1
  {
    if files != [] {
      NoneTwiceByCount(files[1..]);
      assert files == [files[0]] + files[1..];
      assert multiset(files)[files[0]] == 1 + multiset(files[1..])[files[0]];
      if NoneTwice(files) {
        assert NoneTwice(files[1..]);
        assert files[0] !in files[1..];
      } else if NoneTwice(files[1..]) {
        assert exists j :: 0 < j < |files| && files[j] == files[0];
        assert files[0] in files[1..];
      } else {
        var f :| multiset(files[1..])[f] > 1;
        assert multiset(files)[f] > 1;
      }
    }
  }

  // ---- The directory ----

  function Sorted(entries: seq<string>): (files: seq<string>)
    ensures AllBackups(files)
  {
    SortByStamp(BackupsIn(entries))
  }

  function SetOf(files: seq<string>): set<string> {
    set f | f in files
  }

  function Removed(entries: seq<string>, keep: nat): set<string> {
    var files := Sorted(entries);
    SetOf(files[..|files| - if keep <= |files| then keep else |files|])
  }

  /** Whether a directory was read as it is: every file once, in whatever order. */
  ghost predicate Lists(entries: seq<string>, names: set<string>) {
    NoneTwice(entries) && SetOf(entries) == names
  }

  class Directory {
    var names: set<string>

    constructor (names: set<string>)
      ensures this.names == names
    {
      this.names := names;
    }

    /** Sort the backups, and remove from the newest but `keep` on back to the oldest. */
    method KeepNewest(entries: seq<string>, keep: nat)
      requires Lists(entries, names)
      modifies this
      ensures names == old(names) - Removed(entries, keep)
    {
      var files := SortByStamp(BackupsIn(entries));
      var cut := if keep <= |files| then |files| - keep else 0;
      var i := cut;
      while i > 0
        invariant 0 <= i <= cut
        invariant names == old(names) - SetOf(files[i..cut])
      {
        i := i - 1;
        OneMore(files, i, cut);
        names := names - {files[i]};
      }
      assert files[0..cut] == files[..cut];
    }
  }

  lemma OneMore(files: seq<string>, i: nat, cut: nat)
    requires i < cut <= |files|
    ensures SetOf(files[i..cut]) == {files[i]} + SetOf(files[i + 1..cut])
  {
    assert files[i..cut] == [files[i]] + files[i + 1..cut];
  }

  lemma SortedLists(entries: seq<string>)
    requires NoneTwice(entries)
    ensures OldestFirst(Sorted(entries)) && NoneTwice(Sorted(entries))
    ensures forall name :: name in Sorted(entries) <==> name in entries && IsBackup(name)
  {
    var files := Sorted(entries);
    SortSorts(BackupsIn(entries));
    NoneTwiceByCount(entries);
    forall name
      ensures multiset(files)[name] == if IsBackup(name) then multiset(entries)[name] else 0
    {
      BackupsAreOnes(entries, name);
    }
    NoneTwiceByCount(files);
    forall name
      ensures name in files <==> name in entries && IsBackup(name)
    {
      assert name in files <==> multiset(files)[name] > 0;
      assert name in entries <==> multiset(entries)[name] > 0;
    }
  }

  lemma {:induction false} SizeOfList(files: seq<string>)
    requires NoneTwice(files)
    ensures |SetOf(files)| == |files|
  {
    if files != [] {
      SizeOfList(files[1..]);
      assert files == [files[0]] + files[1..];
      assert SetOf(files) == {files[0]} + SetOf(files[1..]);
      assert files[0] !in SetOf(files[1..]);
    } else {
      assert SetOf(files) == {};
    }
  }

  function BackupsOf(names: set<string>): set<string> {
    set name | name in names && IsBackup(name)
  }

  lemma SplitAt(files: seq<string>, cut: nat)
    requires NoneTwice(files) && cut <= |files|
    ensures SetOf(files[cut..]) == SetOf(files) - SetOf(files[..cut])
    ensures NoneTwice(files[cut..]) && |SetOf(files[cut..])| == |files| - cut
  {
    SizeOfList(files[cut..]);
    assert files == files[..cut] + files[cut..];
    assert forall name :: name in files <==> name in files[..cut] || name in files[cut..];
  }

  lemma EarlierIsOlder(files: seq<string>, cut: nat, gone: string, kept: string)
    requires AllBackups(files) && OldestFirst(files) && cut <= |files|
    requires gone in files[..cut] && kept in files[cut..]
    ensures !Newer(gone, kept)
  {
    var i :| 0 <= i < cut && files[i] == gone;
    var j :| cut <= j < |files| && files[j] == kept;
  }

  lemma StayAndGo(entries: seq<string>, names: set<string>, keep: nat) returns (cut: nat)
    requires Lists(entries, names)
    ensures cut <= |Sorted(entries)|
    ensures Removed(entries, keep) == SetOf(Sorted(entries)[..cut]) <= BackupsOf(names)
    ensures BackupsOf(names) - Removed(entries, keep) == SetOf(Sorted(entries)[cut..])
    ensures |SetOf(Sorted(entries)[cut..])| == if keep <= |BackupsOf(names)| then keep else |BackupsOf(names)|
  {
    var files := Sorted(entries);
    SortedLists(entries);
    SizeOfList(files);
    assert forall name :: name in entries <==> name in SetOf(entries);
    assert SetOf(files) == BackupsOf(names);
    cut := |files| - if keep <= |files| then keep else |files|;
    SplitAt(files, cut);
  }

  lemma OlderGoes(entries: seq<string>, names: set<string>, keep: nat, gone: string, kept: string)
    requires Lists(entries, names)
    requires gone in Removed(entries, keep) && kept in BackupsOf(names) - Removed(entries, keep)
    ensures IsBackup(gone) && IsBackup(kept) && !Newer(gone, kept)
  {
    var cut := StayAndGo(entries, names, keep);
    SortedLists(entries);
    EarlierIsOlder(Sorted(entries), cut, gone, kept);
  }

  /**
    Nothing but backups goes, `keep` of them stay (all, if there are no more),
    and none that goes has a later stamp than one that stays.
   */
  lemma KeepsTheNewest(entries: seq<string>, names: set<string>, keep: nat)
    requires Lists(entries, names)
    ensures Removed(entries, keep) <= BackupsOf(names)
    ensures |BackupsOf(names) - Removed(entries, keep)|
         == if keep <= |BackupsOf(names)| then keep else |BackupsOf(names)|
    ensures forall gone, kept :: gone in Removed(entries, keep) && kept in BackupsOf(names) - Removed(entries, keep) ==>
      IsBackup(gone) && IsBackup(kept) && !Newer(gone, kept)
  {
    var cut := StayAndGo(entries, names, keep);
    forall gone, kept | gone in Removed(entries, keep) && kept in BackupsOf(names) - Removed(entries, keep)
      ensures IsBackup(gone) && IsBackup(kept) && !Newer(gone, kept)
    {
      OlderGoes(entries, names, keep, gone, kept);
    }
  }

  // ---- Whatever order a directory is read in ----

  ghost predicate StampsDiffer(names: set<string>) {
    forall a, b :: a in names && b in names && IsBackup(a) && IsBackup(b) && a != b ==> BackupStamp(a) != BackupStamp(b)
  }

  ghost predicate Rising(files: seq<string>)
    requires AllBackups(files)
  {
    forall i, j :: 0 <= i < j < |files| ==> Newer(files[j], files[i])
  }

  lemma {:induction false} OneRisingOrder(a: seq<string>, b: seq<string>)
    requires AllBackups(a) && AllBackups(b) && Rising(a) && Rising(b)
    requires forall name :: name in a <==> name in b
    ensures a == b
  {
    if a == [] {
      if b != [] {
        HasOne(b);
      }
    } else {
      assert a[0] in b && b != [];
      FirstIsOldest(a, b);
      FirstIsOldest(b, a);
      if a[0] != b[0] {
        BeforeIsAnOrder(BackupStamp(a[0]).value, BackupStamp(b[0]).value);
        assert false;
      }
      forall name
        ensures name in a[1..] <==> name in b[1..]
      {
        RestOf(a, name);
        RestOf(b, name);
      }
      OneRisingOrder(a[1..], b[1..]);
      assert a == [a[0]] + a[1..] && b == [b[0]] + b[1..];
    }
  }

  lemma HasOne(files: seq<string>)
    requires files != []
    ensures exists name :: name in files
  {
    assert files[0] in files;
  }

  lemma FirstIsOldest(a: seq<string>, b: seq<string>)
    requires AllBackups(a) && AllBackups(b) && Rising(a) && a != [] && b != [] && b[0] in a
    ensures a[0] == b[0] || Newer(b[0], a[0])
  {
    var i :| 0 <= i < |a| && a[i] == b[0];
  }

  lemma RestOf(a: seq<string>, name: string)
    requires AllBackups(a) && Rising(a) && a != []
    ensures name in a[1..] <==> name in a && name != a[0]
  {
    if name in a[1..] {
      var i :| 1 <= i < |a| && a[i] == name;
      assert Newer(a[i], a[0]);
      BeforeIsAnOrder(BackupStamp(name).value, BackupStamp(name).value);
    }
  }

  lemma SortedRises(entries: seq<string>, names: set<string>)
    requires Lists(entries, names) && StampsDiffer(names)
    ensures Rising(Sorted(entries))
  {
    SortedLists(entries);
    var files := Sorted(entries);
    forall i, j | 0 <= i < j < |files|
      ensures Newer(files[j], files[i])
    {
      assert files[i] in entries && files[j] in entries;
      BeforeIsAnOrder(BackupStamp(files[i]).value, BackupStamp(files[j]).value);
    }
  }

  /** While no second has two backups, what goes does not hang on the order the directory is read in. */
  lemma ReadInAnyOrder(one: seq<string>, other: seq<string>, names: set<string>, keep: nat)
    requires Lists(one, names) && Lists(other, names) && StampsDiffer(names)
    ensures Removed(one, keep) == Removed(other, keep)
  {
    SortedRises(one, names);
    SortedRises(other, names);
    SortedLists(one);
    SortedLists(other);
    forall name
      ensures name in Sorted(one) <==> name in Sorted(other)
    {
      assert name in one <==> name in SetOf(one);
      assert name in other <==> name in SetOf(other);
    }
    OneRisingOrder(Sorted(one), Sorted(other));
  }

  // ---- In real time ----

  /** When each backup was written; its name says so, under the old prefix or the new one. */
  ghost predicate WrittenAt(names: set<string>, written: map<string, nat>) {
    forall name :: name in BackupsOf(names) ==>
      name in written && written[name] < YEAR_10000_MS
      && (name == BackupName(written[name], false) || name == BackupName(written[name], true))
  }

  /** Before the year 10000, no backup that goes was written in a later second than one that stays. */
  lemma KeepsTheLatest(
    entries: seq<string>, names: set<string>, keep: nat, written: map<string, nat>, gone: string, kept: string)
    requires Lists(entries, names) && WrittenAt(names, written)
    requires gone in Removed(entries, keep) && kept in BackupsOf(names) - Removed(entries, keep)
    ensures gone in written && kept in written && written[gone] / 1000 <= written[kept] / 1000
  {
    var _ := StayAndGo(entries, names, keep);
    OlderGoes(entries, names, keep, gone, kept);
    WrittenIsStamped(names, written, gone);
    WrittenIsStamped(names, written, kept);
    StampKeepsOrder(written[kept], written[gone]);
  }

  lemma WrittenIsStamped(names: set<string>, written: map<string, nat>, name: string)
    requires WrittenAt(names, written) && name in BackupsOf(names)
    ensures BackupStamp(name) == Some(Stamp(written[name]))
  {
    StampOfBackupName(written[name], false);
    StampOfBackupName(written[name], true);
  }
}
