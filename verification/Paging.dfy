/**
  Pull: everything after a cursor, in sequence order, a page at a time.

  `After` says which rows the query yields and in which order; `Page` is the
  page made of them. `Database.Pull` is the loop of the source, proved equal.
 */
module Paging {
  import opened Basics
  import opened Wrappers
  import opened Mailbox
  import opened Pushing

  datatype PullResponse = PullResponse(envelopes: seq<Envelope>, cursor: nat, hasMore: bool)

  // ---- The rows past a cursor ----

  ghost function Past(records: Records, since: nat): set<RecordId> {
    set id | id in records && records[id].seqNo > since
  }

  ghost predicate IsFirst(records: Records, since: nat, id: RecordId) {
    && id in Past(records, since)
    && forall other :: other in Past(records, since) ==> records[id].seqNo <= records[other].seqNo
  }

  lemma {:induction false} SomeRowIsFirst(records: Records, ids: set<RecordId>)
    requires ids != {} && ids <= records.Keys
    ensures exists id :: id in ids && forall other :: other in ids ==> records[id].seqNo <= records[other].seqNo
  {
    var id :| id in ids;
    if ids != {id} {
      SomeRowIsFirst(records, ids - {id});
      var best :| best in ids - {id}
        && forall other :: other in ids - {id} ==> records[best].seqNo <= records[other].seqNo;
      var least := if records[id].seqNo <= records[best].seqNo then id else best;
      assert forall other :: other in ids ==> other == id || other in ids - {id};
      assert forall other :: other in ids ==> records[least].seqNo <= records[other].seqNo;
    } else {
      assert forall other :: other in ids ==> records[id].seqNo <= records[other].seqNo;
    }
  }

  ghost function First(records: Records, since: nat): (id: RecordId)
    requires Past(records, since) != {}
    ensures IsFirst(records, since, id)
  {
    SomeRowIsFirst(records, Past(records, since));
    assert exists id :: IsFirst(records, since, id) by {
      var least :| least in Past(records, since)
        && forall other :: other in Past(records, since) ==> records[least].seqNo <= records[other].seqNo;
      assert IsFirst(records, since, least);
    }
    var id :| IsFirst(records, since, id);
    id
  }

  /** `WHERE seq > since ORDER BY seq`. */
  ghost function After(records: Records, since: nat): seq<RecordId>
    decreases |Past(records, since)|
  {
    if Past(records, since) == {} then [] else
    var id := First(records, since);
    assert Past(records, records[id].seqNo) < Past(records, since) by {
      assert id in Past(records, since) && id !in Past(records, records[id].seqNo);
    }
    PartIsSmaller(Past(records, records[id].seqNo), Past(records, since));
    [id] + After(records, records[id].seqNo)
  }

  /** Rising in number, past the cursor, and nothing past it missing. */
  ghost predicate Lists(ids: seq<RecordId>, records: Records, since: nat) {
    && (forall i :: 0 <= i < |ids| ==> ids[i] in records && records[ids[i]].seqNo > since)
    && (forall i, j :: 0 <= i < j < |ids| ==> records[ids[i]].seqNo < records[ids[j]].seqNo)
    && (forall id :: id in records && records[id].seqNo > since ==> id in ids)
  }

  lemma FirstGoesFirst(records: Records, since: nat, id: RecordId, rest: seq<RecordId>)
    requires DistinctNumbers(records)
    requires IsFirst(records, since, id)
    requires Lists(rest, records, records[id].seqNo)
    ensures Lists([id] + rest, records, since)
  {
    var ids := [id] + rest;
    forall i, j | 0 <= i < j < |ids|
      ensures records[ids[i]].seqNo < records[ids[j]].seqNo
    {
      assert ids[j] == rest[j - 1];
      if i > 0 { assert ids[i] == rest[i - 1]; }
    }
    forall other | other in records && records[other].seqNo > since
      ensures other in ids
    {
      assert other in Past(records, since);
      if other != id {
        assert !Clash(records, id, other);
        assert other in rest;
      }
    }
  }

  lemma {:induction false} AfterLists(records: Records, since: nat)
    requires DistinctNumbers(records)
    ensures Lists(After(records, since), records, since)
    decreases |Past(records, since)|
  {
    if Past(records, since) == {} {
      forall id | id in records
        ensures records[id].seqNo <= since
      {
        assert id !in Past(records, since);
      }
    } else {
      var id := First(records, since);
      assert id in Past(records, since) && id !in Past(records, records[id].seqNo);
      PartIsSmaller(Past(records, records[id].seqNo), Past(records, since));
      AfterLists(records, records[id].seqNo);
      FirstGoesFirst(records, since, id, After(records, records[id].seqNo));
    }
  }

  ghost function CursorAt(records: Records, ids: seq<RecordId>, since: nat, k: nat): nat
    requires k <= |ids|
  {
    if k == 0 || ids[k - 1] !in records then since else records[ids[k - 1]].seqNo
  }

  lemma CursorAtShifts(records: Records, id: RecordId, rest: seq<RecordId>, since: nat, k: nat)
    requires 0 < k <= |rest| + 1
    requires id in records && forall i :: 0 <= i < |rest| ==> rest[i] in records
    ensures CursorAt(records, [id] + rest, since, k) == CursorAt(records, rest, records[id].seqNo, k - 1)
    ensures ([id] + rest)[k..] == rest[k - 1..]
  {
    if k > 1 {
      assert ([id] + rest)[k - 1] == rest[k - 2];
    }
  }

  /** The query from where a reader stopped yields the rest of the rows. */
  lemma {:induction false} AfterContinues(records: Records, since: nat, k: nat)
    requires DistinctNumbers(records)
    requires k <= |After(records, since)|
    ensures
      var ids := After(records, since);
      After(records, CursorAt(records, ids, since, k)) == ids[k..]
    decreases k
  {
    if k > 0 {
      var id := First(records, since);
      var rest := After(records, records[id].seqNo);
      AfterLists(records, records[id].seqNo);
      CursorAtShifts(records, id, rest, since, k);
      AfterContinues(records, records[id].seqNo, k - 1);
    }
  }

  /** The rows as they are handed out. */
  ghost function Rows(vault: VaultId, records: Records, since: nat): seq<Envelope>
    requires DistinctNumbers(records)
  {
    AfterLists(records, since);
    HandOut(vault, records, After(records, since))
  }

  ghost function HandOut(vault: VaultId, records: Records, ids: seq<RecordId>): (rows: seq<Envelope>)
    requires forall i :: 0 <= i < |ids| ==> ids[i] in records
    ensures |rows| == |ids|
    ensures forall i :: 0 <= i < |ids| ==> rows[i] == ToEnvelope(vault, ids[i], records[ids[i]])
  {
    if ids == [] then [] else [ToEnvelope(vault, ids[0], records[ids[0]])] + HandOut(vault, records, ids[1..])
  }

  lemma {:induction false} HandOutRest(vault: VaultId, records: Records, ids: seq<RecordId>, k: nat)
    requires forall i :: 0 <= i < |ids| ==> ids[i] in records
    requires k <= |ids|
    ensures HandOut(vault, records, ids[k..]) == HandOut(vault, records, ids)[k..]
  {
    if k > 0 {
      HandOutRest(vault, records, ids[1..], k - 1);
      assert ids[1..][k - 1..] == ids[k..];
    } else {
      assert ids[k..] == ids;
    }
  }

  /** The first row, and the query from it on. */
  lemma RowsUnfold(vault: VaultId, records: Records, since: nat)
    requires DistinctNumbers(records)
    ensures
      if Past(records, since) == {} then Rows(vault, records, since) == [] else
      var id := First(records, since);
      && id in records
      && |Past(records, records[id].seqNo)| < |Past(records, since)|
      && Rows(vault, records, since) == [ToEnvelope(vault, id, records[id])] + Rows(vault, records, records[id].seqNo)
  {
    AfterLists(records, since);
    if Past(records, since) != {} {
      var id := First(records, since);
      assert id in Past(records, since) && id !in Past(records, records[id].seqNo);
      PartIsSmaller(Past(records, records[id].seqNo), Past(records, since));
      AfterLists(records, records[id].seqNo);
      assert After(records, since)[1..] == After(records, records[id].seqNo);
    }
  }

  /** The rows found so far, and one more. */
  lemma SelectOneMore(vault: VaultId, records: Records, since: nat, rows: seq<Envelope>, at: nat)
    requires DistinctNumbers(records)
    requires Rows(vault, records, since) == rows + Rows(vault, records, at)
    requires Past(records, at) != {}
    ensures
      var id := First(records, at);
      && id in records
      && |Past(records, records[id].seqNo)| < |Past(records, at)|
      && Rows(vault, records, since)
         == rows + [ToEnvelope(vault, id, records[id])] + Rows(vault, records, records[id].seqNo)
  {
    RowsUnfold(vault, records, at);
  }

  // ---- One page ----

  predicate Shown(manifests: bool, e: Envelope) {
    manifests || !e.kind.Manifest?
  }

  /** The rows a device sees; one that does not read manifests is passed over them. */
  function Visible(manifests: bool, rows: seq<Envelope>): seq<Envelope> {
    if rows == [] then []
    else if Shown(manifests, rows[0]) then [rows[0]] + Visible(manifests, rows[1..])
    else Visible(manifests, rows[1..])
  }

  /**
    Where reading stops: the first row, from `i` on, that the page has no room
    for, `count` records of `bytes` being in it already.
   */
  function Read(
    limits: Limits, manifests: bool, limit: nat, rows: seq<Envelope>, i: nat, count: nat, bytes: nat): (n: nat)
    requires i <= |rows|
    ensures i <= n <= |rows|
    decreases |rows| - i
  {
    if i == |rows| then i
    else if !Shown(manifests, rows[i]) then Read(limits, manifests, limit, rows, i + 1, count, bytes)
    else if count == limit || (count > 0 && bytes + |rows[i].blob| > limits.maxBatchBytes) then i
    else Read(limits, manifests, limit, rows, i + 1, count + 1, bytes + |rows[i].blob|)
  }

  function Clamp(limits: Limits, limit: nat): nat {
    if limit < 1 then 1 else if limit > limits.maxBatch then limits.maxBatch else limit
  }

  ghost function PageOf(limits: Limits, rows: seq<Envelope>, since: nat, limit: nat, manifests: bool): PullResponse {
    var n := Read(limits, manifests, Clamp(limits, limit), rows, 0, 0, 0);
    PullResponse(
      Visible(manifests, rows[..n]),
      if n == 0 then since else rows[n - 1].baseSeq,
      n < |rows|)
  }

  ghost function Page(
    limits: Limits, vault: VaultId, records: Records, since: nat, limit: nat, manifests: bool): PullResponse
    requires DistinctNumbers(records)
  {
    PageOf(limits, Rows(vault, records, since), since, limit, manifests)
  }

  /** What a page may hold. */
  ghost predicate Fits(limits: Limits, limit: nat, visible: seq<Envelope>, k: nat)
    requires k <= |visible|
  {
    k <= Clamp(limits, limit) && (k <= 1 || SealedBytes(visible[..k]) <= limits.maxBatchBytes)
  }

  lemma {:induction false} VisibleSplits(manifests: bool, first: seq<Envelope>, second: seq<Envelope>)
    ensures Visible(manifests, first + second) == Visible(manifests, first) + Visible(manifests, second)
  {
    if first == [] {
      assert first + second == second;
    } else {
      assert (first + second)[1..] == first[1..] + second;
      VisibleSplits(manifests, first[1..], second);
    }
  }

  lemma SeenOneMore(manifests: bool, rows: seq<Envelope>, i: nat)
    requires i < |rows|
    ensures Visible(manifests, rows[..i + 1])
         == Visible(manifests, rows[..i]) + (if Shown(manifests, rows[i]) then [rows[i]] else [])
  {
    assert rows[..i + 1] == rows[..i] + [rows[i]];
    VisibleSplits(manifests, rows[..i], [rows[i]]);
  }

  lemma SealedOneMore(envelopes: seq<Envelope>, e: Envelope)
    ensures SealedBytes(envelopes + [e]) == SealedBytes(envelopes) + |e.blob|
  {
    assert (envelopes + [e])[..|envelopes|] == envelopes;
  }

  lemma {:induction false} SealedSplits(first: seq<Envelope>, second: seq<Envelope>)
    ensures SealedBytes(first + second) == SealedBytes(first) + SealedBytes(second)
  {
    if second == [] {
      assert first + second == first;
    } else {
      var n := |second| - 1;
      assert (first + second)[..|first + second| - 1] == first + second[..n];
      SealedSplits(first, second[..n]);
    }
  }

  lemma SealedPrefix(visible: seq<Envelope>, k: nat, n: nat)
    requires k <= n <= |visible|
    ensures SealedBytes(visible[..k]) <= SealedBytes(visible[..n])
  {
    assert visible[..n] == visible[..k] + visible[k..n];
    SealedSplits(visible[..k], visible[k..n]);
  }

  /** Why reading stops there: what was read since row `i` fits, and the row it stopped at does not. */
  lemma {:induction false} ReadStops(
    limits: Limits, manifests: bool, limit: nat, rows: seq<Envelope>, i: nat, count: nat, bytes: nat)
    requires i <= |rows| && count <= limit
    ensures
      var n := Read(limits, manifests, limit, rows, i, count, bytes);
      var page := Visible(manifests, rows[i..n]);
      && count + |page| <= limit
      && (page == [] || (count == 0 && |page| == 1) || bytes + SealedBytes(page) <= limits.maxBatchBytes)
      && (n < |rows| ==>
            && Shown(manifests, rows[n])
            && (|| count + |page| == limit
                || (count + |page| > 0 && bytes + SealedBytes(page) + |rows[n].blob| > limits.maxBatchBytes)))
    decreases |rows| - i
  {
    var n := Read(limits, manifests, limit, rows, i, count, bytes);
    if n > i {
      var shown := Shown(manifests, rows[i]);
      var count', bytes' := if shown then count + 1 else count, if shown then bytes + |rows[i].blob| else bytes;
      ReadStops(limits, manifests, limit, rows, i + 1, count', bytes');
      assert rows[i..n] == [rows[i]] + rows[i + 1..n];
      if shown {
        SealedOneLess(rows[i], Visible(manifests, rows[i + 1..n]));
      }
    }
  }

  lemma SealedOneLess(e: Envelope, rest: seq<Envelope>)
    ensures SealedBytes([e] + rest) == |e.blob| + SealedBytes(rest)
  {
    SealedSplits([e], rest);
    SealedOneMore([], e);
    assert [] + [e] == [e];
  }

  /** What is visible of the first `n` rows, and of the row after them. */
  lemma VisibleCut(manifests: bool, rows: seq<Envelope>, n: nat)
    requires n <= |rows|
    ensures
      var page, visible := Visible(manifests, rows[..n]), Visible(manifests, rows);
      && page <= visible
      && (n == |rows| ==> page == visible)
      && (n < |rows| && Shown(manifests, rows[n]) ==> |page| < |visible| && visible[|page|] == rows[n])
  {
    assert rows == rows[..n] + rows[n..];
    VisibleSplits(manifests, rows[..n], rows[n..]);
    if n == |rows| {
      assert rows[..n] == rows;
    }
  }

  lemma MoreDoesNotFit(limits: Limits, limit: nat, visible: seq<Envelope>, m: nat, k: nat)
    requires m < k <= |visible|
    requires
      || m == Clamp(limits, limit)
      || (m > 0 && SealedBytes(visible[..m]) + |visible[m].blob| > limits.maxBatchBytes)
    ensures !Fits(limits, limit, visible, k)
  {
    if m > 0 {
      assert visible[..m + 1][..m] == visible[..m];
      SealedPrefix(visible, m + 1, k);
    }
  }

  /**
    A page is the longest run of visible rows that fits: those and only those
    first `k` fit that are no more than the page. `hasMore` says whether any
    visible row was left out.
   */
  lemma PageIsLongestThatFits(limits: Limits, rows: seq<Envelope>, since: nat, limit: nat, manifests: bool)
    ensures
      var page := PageOf(limits, rows, since, limit, manifests);
      var visible := Visible(manifests, rows);
      && page.envelopes <= visible
      && (forall k :: 0 <= k <= |visible| ==> (Fits(limits, limit, visible, k) <==> k <= |page.envelopes|))
      && (page.hasMore <==> |page.envelopes| < |visible|)
  {
    var n := Read(limits, manifests, Clamp(limits, limit), rows, 0, 0, 0);
    var page, visible := Visible(manifests, rows[..n]), Visible(manifests, rows);
    ReadStops(limits, manifests, Clamp(limits, limit), rows, 0, 0, 0);
    assert rows[0..n] == rows[..n];
    VisibleCut(manifests, rows, n);
    var m := |page|;
    assert visible[..m] == page;
    forall k | 0 <= k <= |visible|
      ensures Fits(limits, limit, visible, k) <==> k <= m
    {
      if k <= m {
        SealedPrefix(visible, k, m);
      } else {
        MoreDoesNotFit(limits, limit, visible, m, k);
      }
    }
  }

  lemma {:induction false} VisibleHas(manifests: bool, rows: seq<Envelope>, e: Envelope)
    ensures e in Visible(manifests, rows) <==> e in rows && Shown(manifests, e)
  {
    if rows != [] {
      assert rows == [rows[0]] + rows[1..];
      VisibleHas(manifests, rows[1..], e);
    }
  }

  /** What a query hands out: each record past the cursor, once, as it is held. */
  lemma RowsHave(vault: VaultId, records: Records, since: nat, e: Envelope)
    requires DistinctNumbers(records)
    ensures e in Rows(vault, records, since) <==>
            e.id in records && records[e.id].seqNo > since && e == ToEnvelope(vault, e.id, records[e.id])
  {
    AfterLists(records, since);
    var ids, rows := After(records, since), Rows(vault, records, since);
    if e in rows {
      var i :| 0 <= i < |rows| && rows[i] == e;
      assert e.id == ids[i];
    }
    if e.id in records && records[e.id].seqNo > since && e == ToEnvelope(vault, e.id, records[e.id]) {
      var i :| 0 <= i < |ids| && ids[i] == e.id;
      assert rows[i] == e;
    }
  }

  /** Rows come in rising order, numbered past the cursor asked from. */
  lemma RowsRise(vault: VaultId, records: Records, since: nat)
    requires DistinctNumbers(records)
    ensures
      var rows := Rows(vault, records, since);
      && (forall i :: 0 <= i < |rows| ==> rows[i].seqNo == Some(rows[i].baseSeq) && rows[i].baseSeq > since)
      && (forall i, j :: 0 <= i < j < |rows| ==> rows[i].baseSeq < rows[j].baseSeq)
  {
    AfterLists(records, since);
    var ids, rows := After(records, since), Rows(vault, records, since);
    forall i | 0 <= i < |rows|
      ensures rows[i].baseSeq == records[ids[i]].seqNo
    {
    }
  }

  /** The query from a page's cursor yields exactly the rows the page did not read. */
  lemma PageLeavesTheRest(
    limits: Limits, vault: VaultId, records: Records, since: nat, limit: nat, manifests: bool)
    requires DistinctNumbers(records)
    ensures
      var rows := Rows(vault, records, since);
      var page := Page(limits, vault, records, since, limit, manifests);
      var n := Read(limits, manifests, Clamp(limits, limit), rows, 0, 0, 0);
      && Rows(vault, records, page.cursor) == rows[n..]
      && Visible(manifests, rows) == page.envelopes + Visible(manifests, Rows(vault, records, page.cursor))
  {
    var rows := Rows(vault, records, since);
    var n := Read(limits, manifests, Clamp(limits, limit), rows, 0, 0, 0);
    CursorAfter(vault, records, since, n);
    assert rows == rows[..n] + rows[n..];
    VisibleSplits(manifests, rows[..n], rows[n..]);
  }

  /** A page's cursor is where it was asked from, or the number of a record held. */
  lemma PageCursor(limits: Limits, vault: VaultId, records: Records, since: nat, limit: nat, manifests: bool)
    requires DistinctNumbers(records)
    ensures
      var cursor := Page(limits, vault, records, since, limit, manifests).cursor;
      && since <= cursor
      && (cursor == since || exists id :: id in records && records[id].seqNo == cursor)
  {
    var rows := Rows(vault, records, since);
    var n := Read(limits, manifests, Clamp(limits, limit), rows, 0, 0, 0);
    if n > 0 {
      RowsHave(vault, records, since, rows[n - 1]);
      assert records[rows[n - 1].id].seqNo == rows[n - 1].baseSeq;
    }
  }

  lemma CursorAfter(vault: VaultId, records: Records, since: nat, n: nat)
    requires DistinctNumbers(records)
    requires n <= |Rows(vault, records, since)|
    ensures
      var rows := Rows(vault, records, since);
      var ids := After(records, since);
      var cursor := if n == 0 then since else rows[n - 1].baseSeq;
      && |ids| == |rows|
      && Rows(vault, records, cursor) == rows[n..]
  {
    AfterLists(records, since);
    AfterContinues(records, since, n);
    HandOutRest(vault, records, After(records, since), n);
  }

  ghost predicate Waiting(records: Records, manifests: bool, cursor: nat, id: RecordId) {
    && id in records
    && records[id].seqNo > cursor
    && (manifests || !records[id].kind.Manifest?)
  }

  lemma WaitingIsVisible(vault: VaultId, records: Records, manifests: bool, cursor: nat)
    requires DistinctNumbers(records)
    ensures Visible(manifests, Rows(vault, records, cursor)) != []
            <==> exists id :: Waiting(records, manifests, cursor, id)
  {
    var visible := Visible(manifests, Rows(vault, records, cursor));
    if visible != [] {
      VisibleHas(manifests, Rows(vault, records, cursor), visible[0]);
      RowsHave(vault, records, cursor, visible[0]);
      assert Waiting(records, manifests, cursor, visible[0].id);
    }
    if id :| Waiting(records, manifests, cursor, id) {
      var e := ToEnvelope(vault, id, records[id]);
      RowsHave(vault, records, cursor, e);
      VisibleHas(manifests, Rows(vault, records, cursor), e);
    }
  }

  lemma OneRecordFits(limits: Limits, a: AccountRow, since: nat, manifests: bool, page: seq<Envelope>)
    requires AccountOk(limits, a)
    requires |page| == 1 && page <= Visible(manifests, Rows(a.vault, a.records, since))
    ensures SealedBytes(page) <= limits.maxBatchBytes
  {
    var e := page[0];
    assert e == Visible(manifests, Rows(a.vault, a.records, since))[0];
    VisibleHas(manifests, Rows(a.vault, a.records, since), e);
    RowsHave(a.vault, a.records, since, e);
    assert SealedBytes(page) == SealedBytes(page[..0]) + |e.blob|;
  }

  /**
    The shape of a page: it holds something whenever something is waiting, it
    never exceeds the byte budget - not even when its first record stands
    alone - and `hasMore` is honest about what waits past the cursor returned.
   */
  lemma PageShape(limits: Limits, a: AccountRow, since: nat, limit: nat, manifests: bool)
    requires AccountOk(limits, a)
    ensures
      var page := Page(limits, a.vault, a.records, since, limit, manifests);
      && |page.envelopes| <= Clamp(limits, limit)
      && SealedBytes(page.envelopes) <= limits.maxBatchBytes
      && (page.envelopes != [] <==> exists id :: Waiting(a.records, manifests, since, id))
      && (page.hasMore <==> exists id :: Waiting(a.records, manifests, page.cursor, id))
  {
    var visible := Visible(manifests, Rows(a.vault, a.records, since));
    var page := Page(limits, a.vault, a.records, since, limit, manifests);
    PageIsLongestThatFits(limits, Rows(a.vault, a.records, since), since, limit, manifests);
    var m := |page.envelopes|;
    assert Fits(limits, limit, visible, m);
    assert visible[..m] == page.envelopes;
    assert visible != [] ==> Fits(limits, limit, visible, 1);
    if m == 1 {
      OneRecordFits(limits, a, since, manifests, page.envelopes);
    }
    HasMoreIsHonest(limits, a, since, limit, manifests);
    WaitingIsVisible(a.vault, a.records, manifests, since);
  }

  /**
    What a limit means: 0 is taken for 1, and anything past the largest batch
    for that. So many visible records make a page, or all there are, unless
    their bytes are too many; then it is the most of them that are not.
   */
  lemma PageHoldsWhatIsAsked(limits: Limits, a: AccountRow, since: nat, limit: nat, manifests: bool)
    requires AccountOk(limits, a)
    ensures
      var page := Page(limits, a.vault, a.records, since, limit, manifests);
      var visible := Visible(manifests, Rows(a.vault, a.records, since));
      var bound := if limit == 0 then 1 else if limit > limits.maxBatch then limits.maxBatch else limit;
      var most := if |visible| < bound then |visible| else bound;
      && page.envelopes <= visible && |page.envelopes| <= bound
      && (SealedBytes(visible[..most]) <= limits.maxBatchBytes ==> |page.envelopes| == most)
      && (forall k :: 0 <= k <= |visible| ==>
            (k <= |page.envelopes| <==>
               k <= bound && (k <= 1 || SealedBytes(visible[..k]) <= limits.maxBatchBytes)))
      && (page.hasMore <==> |page.envelopes| < |visible|)
  {
    var rows := Rows(a.vault, a.records, since);
    var visible := Visible(manifests, rows);
    var m := |Page(limits, a.vault, a.records, since, limit, manifests).envelopes|;
    PageIsLongestThatFits(limits, rows, since, limit, manifests);
    assert Fits(limits, limit, visible, m);
    var bound := if limit == 0 then 1 else if limit > limits.maxBatch then limits.maxBatch else limit;
    var most := if |visible| < bound then |visible| else bound;
    assert SealedBytes(visible[..most]) <= limits.maxBatchBytes ==> Fits(limits, limit, visible, most);
    forall k | 0 <= k <= |visible|
      ensures k <= m <==> k <= bound && (k <= 1 || SealedBytes(visible[..k]) <= limits.maxBatchBytes)
    {
      assert Fits(limits, limit, visible, k) <==> k <= m;
    }
  }

  lemma HasMoreIsHonest(limits: Limits, a: AccountRow, since: nat, limit: nat, manifests: bool)
    requires AccountOk(limits, a)
    ensures
      var page := Page(limits, a.vault, a.records, since, limit, manifests);
      page.hasMore <==> exists id :: Waiting(a.records, manifests, page.cursor, id)
  {
    var page := Page(limits, a.vault, a.records, since, limit, manifests);
    PageIsLongestThatFits(limits, Rows(a.vault, a.records, since), since, limit, manifests);
    PageLeavesTheRest(limits, a.vault, a.records, since, limit, manifests);
    WaitingIsVisible(a.vault, a.records, manifests, page.cursor);
  }

  lemma FirstOfRisingRows(rows: seq<Envelope>, n: nat, cursor: nat, e: Envelope)
    requires n <= |rows|
    requires forall i, j :: 0 <= i < j < |rows| ==> rows[i].baseSeq < rows[j].baseSeq
    requires if n == 0 then forall i :: 0 <= i < |rows| ==> rows[i].baseSeq > cursor else cursor == rows[n - 1].baseSeq
    ensures e in rows[..n] <==> e in rows && e.baseSeq <= cursor
  {
    if e in rows {
      var i :| 0 <= i < |rows| && rows[i] == e;
      assert i < n ==> rows[..n][i] == e;
    }
  }

  /** The rows read for a page are those up to its cursor. */
  lemma ReadsUpToCursor(
    limits: Limits, vault: VaultId, records: Records, since: nat, limit: nat, manifests: bool, e: Envelope)
    requires DistinctNumbers(records)
    ensures
      var rows := Rows(vault, records, since);
      var n := Read(limits, manifests, Clamp(limits, limit), rows, 0, 0, 0);
      var cursor := Page(limits, vault, records, since, limit, manifests).cursor;
      e in rows[..n] <==> e in rows && e.baseSeq <= cursor
  {
    RowsRise(vault, records, since);
    var rows := Rows(vault, records, since);
    var n := Read(limits, manifests, Clamp(limits, limit), rows, 0, 0, 0);
    FirstOfRisingRows(rows, n, Page(limits, vault, records, since, limit, manifests).cursor, e);
  }

  /** While there is more, each page leaves fewer records waiting than the one before. */
  lemma FewerWait(limits: Limits, vault: VaultId, records: Records, since: nat, limit: nat, manifests: bool)
    requires DistinctNumbers(records)
    ensures
      var page := Page(limits, vault, records, since, limit, manifests);
      page.hasMore ==>
        |Visible(manifests, Rows(vault, records, page.cursor))| < |Visible(manifests, Rows(vault, records, since))|
  {
    var page := Page(limits, vault, records, since, limit, manifests);
    var visible := Visible(manifests, Rows(vault, records, since));
    PageIsLongestThatFits(limits, Rows(vault, records, since), since, limit, manifests);
    PageLeavesTheRest(limits, vault, records, since, limit, manifests);
    assert page.hasMore ==> Fits(limits, limit, visible, 1);
  }

  /** A page that says there is no more has read past every record there is. */
  lemma NoMoreReadsAll(
    limits: Limits, vault: VaultId, records: Records, since: nat, limit: nat, manifests: bool, id: RecordId)
    requires DistinctNumbers(records) && id in records
    requires !Page(limits, vault, records, since, limit, manifests).hasMore
    ensures records[id].seqNo <= Page(limits, vault, records, since, limit, manifests).cursor
  {
    var cursor := Page(limits, vault, records, since, limit, manifests).cursor;
    PageLeavesTheRest(limits, vault, records, since, limit, manifests);
    RowsHave(vault, records, cursor, ToEnvelope(vault, id, records[id]));
  }

  /**
    What a page means for the reader: of the records past `since` that it can
    see, the page holds those up to the cursor returned, as they are held, and
    no others.
   */
  lemma PageDelivers(
    limits: Limits, vault: VaultId, records: Records, since: nat, limit: nat, manifests: bool, e: Envelope)
    requires DistinctNumbers(records)
    ensures
      var page := Page(limits, vault, records, since, limit, manifests);
      e in page.envelopes <==>
        && Waiting(records, manifests, since, e.id)
        && records[e.id].seqNo <= page.cursor
        && e == ToEnvelope(vault, e.id, records[e.id])
  {
    var rows := Rows(vault, records, since);
    var n := Read(limits, manifests, Clamp(limits, limit), rows, 0, 0, 0);
    VisibleHas(manifests, rows[..n], e);
    RowsHave(vault, records, since, e);
    ReadsUpToCursor(limits, vault, records, since, limit, manifests, e);
  }

  /**
    Pulling from where the last page ended, for as long as there is more, each
    page with whatever limit the device asks for.
   */
  ghost function PullAll(
    limits: Limits, vault: VaultId, records: Records, since: nat, limitAt: nat -> nat, manifests: bool): seq<Envelope>
    requires DistinctNumbers(records)
    decreases |Visible(manifests, Rows(vault, records, since))|
  {
    var page := Page(limits, vault, records, since, limitAt(since), manifests);
    PageIsLongestThatFits(limits, Rows(vault, records, since), since, limitAt(since), manifests);
    PageLeavesTheRest(limits, vault, records, since, limitAt(since), manifests);
    assert page.hasMore ==> Fits(limits, limitAt(since), Visible(manifests, Rows(vault, records, since)), 1);
    if page.hasMore
    then page.envelopes + PullAll(limits, vault, records, page.cursor, limitAt, manifests)
    else page.envelopes
  }

  /**
    Paging is complete: however large the pages, they add up to every visible
    record past the start, once each, in rising order.
   */
  lemma {:induction false} PagingIsComplete(
    limits: Limits, vault: VaultId, records: Records, since: nat, limitAt: nat -> nat, manifests: bool)
    requires DistinctNumbers(records)
    ensures PullAll(limits, vault, records, since, limitAt, manifests)
         == Visible(manifests, Rows(vault, records, since))
    decreases |Visible(manifests, Rows(vault, records, since))|
  {
    var rows := Rows(vault, records, since);
    var page := Page(limits, vault, records, since, limitAt(since), manifests);
    PageIsLongestThatFits(limits, rows, since, limitAt(since), manifests);
    PageLeavesTheRest(limits, vault, records, since, limitAt(since), manifests);
    if page.hasMore {
      assert Fits(limits, limitAt(since), Visible(manifests, rows), 1);
      PagingIsComplete(limits, vault, records, page.cursor, limitAt, manifests);
    } else {
      assert page.envelopes == Visible(manifests, rows);
    }
  }

  /** Which records those are, and that they come in rising order without repeats. */
  lemma {:induction false} PulledInOrder(vault: VaultId, records: Records, since: nat, manifests: bool)
    requires DistinctNumbers(records)
    ensures
      var pulled := Visible(manifests, Rows(vault, records, since));
      && (forall e :: e in pulled <==>
            Waiting(records, manifests, since, e.id) && e == ToEnvelope(vault, e.id, records[e.id]))
      && (forall i, j :: 0 <= i < j < |pulled| ==> pulled[i].baseSeq < pulled[j].baseSeq)
  {
    var rows := Rows(vault, records, since);
    RowsRise(vault, records, since);
    forall e
      ensures e in Visible(manifests, rows) <==>
              Waiting(records, manifests, since, e.id) && e == ToEnvelope(vault, e.id, records[e.id])
    {
      VisibleHas(manifests, rows, e);
      RowsHave(vault, records, since, e);
    }
    VisibleRises(manifests, rows);
  }

  lemma {:induction false} VisibleRises(manifests: bool, rows: seq<Envelope>)
    requires forall i, j :: 0 <= i < j < |rows| ==> rows[i].baseSeq < rows[j].baseSeq
    ensures
      var visible := Visible(manifests, rows);
      forall i, j :: 0 <= i < j < |visible| ==> visible[i].baseSeq < visible[j].baseSeq
  {
    if rows != [] {
      VisibleRises(manifests, rows[1..]);
      var rest := Visible(manifests, rows[1..]);
      forall j | 0 <= j < |rest|
        ensures rows[0].baseSeq < rest[j].baseSeq
      {
        VisibleHas(manifests, rows[1..], rest[j]);
        var k :| 0 <= k < |rows[1..]| && rows[1..][k] == rest[j];
        assert rows[k + 1] == rest[j];
      }
    }
  }
}
