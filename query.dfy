/**
 * The query side, `getRanking` (services.js:99-211): a player's personal view
 * of their own best scores, or a ten-row page of the global leaderboard of a
 * mode with a tier class per row and the requester's row highlighted.
 */
module Query {
  import opened Model
  import opened Sorting

  /** Rows per page of the global leaderboard. */
  const PageSize: nat := 10

  /** `parseInt(mode) + 1`: modes "0", "1", "2" become 1, 2, 3. */
  function ModeInt(mode: nat): nat { mode + 1 }

  /** The seventh field of a row: `0` in a personal row, `<modeInt>0<rankClass>` in a global one. */
  datatype Code = Zero | ModeClass(modeInt: nat, rankClass: nat)

  /**
   * One leaderboard row, its ten fields in wire order: page index, record id,
   * player id, score, a constant 0, level, mode/class code, time, jewel, highlight.
   */
  datatype Row = Row(page: int, recordRef: nat, playerId: string, score: nat, fifth: nat,
                     level: nat, code: Code, time: nat, jewel: nat, lit: nat)

  /** The query parameters: `id` ("" when absent), `mode`, `view` (-1 is the "my page" sentinel). */
  datatype Request = Request(id: string, mode: nat, view: int)

  /** Rows to be joined by '.', an empty reply, or the failure on an unknown player. */
  datatype Response = Rows(rows: seq<Row>) | NoBody | UnknownPlayer

  // ---------------------------------------------------------------- rank class

  /** `rank / r.length >= 0.3`, decided exactly on integers. */
  predicate InTop30(rank: int, n: nat) { 10 * rank >= 3 * n }

  /** The tier shown beside a global row: 1 top, 2 notable, 0 none (the `switch (mode_int)`). */
  function RankClass(modeInt: int, rank: int, score: nat, n: nat): (c: nat)
    ensures c <= 2
    ensures c == 1 ==> rank == 1
    ensures !(1 <= modeInt <= 3) ==> c == 0
  {
    if modeInt == 1 then
      if rank == 1 then
        if score >= 5 * 1000000 then 1
        else if score >= 5 * 1000000 then 2
        else 0
      else if InTop30(rank, n) then
        if score >= 1 * 1000000 then 2 else 0
      else 0
    else if modeInt == 2 then
      if rank == 1 then
        if score >= 10 * 1000000 then 1
        else if score >= 5 * 1000000 then 2
        else 0
      else if InTop30(rank, n) then
        if score >= 10 * 1000000 then 2 else 0
      else 0
    else if modeInt == 3 then
      if rank == 1 then
        if score >= 50 * 1000000 then 1
        else if score >= 10 * 1000000 then 2
        else 0
      else if InTop30(rank, n) then
        if score >= 10 * 1000000 then 2 else 0
      else 0
    else 0
  }

  /** A mode's thresholds: top score at rank 1, notable score at rank 1, notable score in the top 30%. */
  datatype Thresholds = Thresholds(top: nat, topNotable: nat, top30: nat)

  /** The threshold table the three `case` arms encode, or None for an unknown mode. */
  function ThresholdsOf(modeInt: int): Option<Thresholds>
  {
    if modeInt == 1 then Some(Thresholds(5000000, 5000000, 1000000))
    else if modeInt == 2 then Some(Thresholds(10000000, 5000000, 10000000))
    else if modeInt == 3 then Some(Thresholds(50000000, 10000000, 10000000))
    else None
  }

  /** The one generic formula, applied to a mode's thresholds. */
  function ClassFromTable(t: Option<Thresholds>, rank: int, score: nat, n: nat): nat
  {
    match t
    case None => 0
    case Some(th) =>
      if rank == 1 then
        (if score >= th.top then 1 else if score >= th.topNotable then 2 else 0)
      else if InTop30(rank, n) && score >= th.top30 then 2
      else 0
  }

  /** The per-mode `switch` is the table-driven formula over the threshold table. */
  lemma RankClassIsTable(modeInt: int, rank: int, score: nat, n: nat)
    ensures RankClass(modeInt, rank, score, n) == ClassFromTable(ThresholdsOf(modeInt), rank, score, n)
  {
  }

  /** Mode "0" repeats its top test, so a rank-1 row there is class 1 or 0, never 2. */
  lemma ModeZeroTopNeverNotable(score: nat, n: nat)
    ensures RankClass(ModeInt(0), 1, score, n) == (if score >= 5000000 then 1 else 0)
  {
  }

  /** A rank-1 row is judged only by the rank-1 thresholds, never by the 30% test. */
  lemma RankOneIgnoresTop30(modeInt: int, score: nat, n: nat, n': nat)
    ensures RankClass(modeInt, 1, score, n) == RankClass(modeInt, 1, score, n')
  {
  }

  /** Below rank 1, a row outside the top 30% of the mode has no class. */
  lemma OutsideTop30NoClass(modeInt: int, rank: int, score: nat, n: nat)
    requires rank != 1 && !InTop30(rank, n)
    ensures RankClass(modeInt, rank, score, n) == 0
  {
  }

  // ---------------------------------------------------------------- global view

  /** `Ranking.find({ mode }).sort({ score: -1 })`: the mode's records, best first, ties in store order. */
  function ModeRecords(records: seq<Record>, mode: nat): (r: seq<Record>)
    ensures Ordered(RecordScore, true, r)
    ensures multiset(r) == multiset(RecordsOfMode(records, mode))
    ensures forall v :: Filter(RecordScore, v, r) == Filter(RecordScore, v, RecordsOfMode(records, mode))
  {
    SortCorrect(RecordScore, true, RecordsOfMode(records, mode));
    assert forall v :: Filter(RecordScore, v, Sort(RecordScore, true, RecordsOfMode(records, mode))) ==
                       Filter(RecordScore, v, RecordsOfMode(records, mode)) by {
      forall v {
        SortStable(RecordScore, true, RecordsOfMode(records, mode), v);
      }
    }
    Sort(RecordScore, true, RecordsOfMode(records, mode))
  }

  /** `r.findIndex((v) => v.id == id)`: the first position holding the player, or -1. */
  function FindPlayer(r: seq<Record>, id: string): (f: int)
    ensures -1 <= f < |r|
    ensures f >= 0 ==> r[f].entry.playerId == id
    ensures forall j :: 0 <= j < |r| && (f == -1 || j < f) ==> r[j].entry.playerId != id
  {
    if r == [] then -1
    else if r[0].entry.playerId == id then 0
    else
      var g := FindPlayer(r[1..], id);
      if g == -1 then -1 else g + 1
  }

  /** `f`: the requester's position, or -1 when no id was given or it has no record. */
  function RequesterPos(r: seq<Record>, id: string): (f: int)
    ensures -1 <= f < |r|
  {
    if id == "" then -1 else FindPlayer(r, id)
  }

  /**
   * The page shown: the requester's own page when found, else `view`, with the
   * sentinel -1 meaning page 0.
   */
  function SelectPage(view: int, f: int): (page: int)
    ensures f >= 0 ==> 0 <= page && page * PageSize <= f < page * PageSize + PageSize
    ensures f < 0 ==> page == (if view == -1 then 0 else view)
  {
    if f >= 0 then f / PageSize
    else if view == -1 then 0
    else view
  }

  /** `(i + 1) * (index + 1)`: the rank the class is computed from (not the true rank past page 0). */
  function Rank(i: nat, page: int): int
  {
    (i + 1) * (page + 1)
  }

  /** The row built for the record at absolute position `i`. */
  function GlobalRow(r: seq<Record>, mode: nat, page: int, i: nat, f: int): (row: Row)
    requires i < |r|
    ensures row.page == page && row.recordRef == r[i].recordId && row.fifth == 0
    ensures var e := r[i].entry;
            row.playerId == e.playerId && row.score == e.score &&
            row.level == e.payload.level && row.time == e.payload.time && row.jewel == e.payload.jewel
    ensures row.code.ModeClass? && row.code.modeInt == mode + 1 && row.code.rankClass <= 2
    ensures row.lit <= 1 && (row.lit == 1 <==> i == f)
  {
    var e := r[i].entry;
    Row(page, r[i].recordId, e.playerId, e.score, 0, e.payload.level,
        ModeClass(ModeInt(mode), RankClass(ModeInt(mode), Rank(i, page), e.score, |r|)),
        e.payload.time, e.payload.jewel, if i == f then 1 else 0)
  }

  /** How many rows page `page` of `n` records shows: the loop stops at the end or after ten. */
  function WindowLen(n: nat, page: int): (len: nat)
    ensures len <= PageSize
    ensures len > 0 ==> page >= 0 && page * PageSize + len <= n
    ensures page >= 0 && page * PageSize < n ==> len == (if n - page * PageSize < PageSize then n - page * PageSize else PageSize)
  {
    if page < 0 || page * PageSize >= n then 0
    else if n - page * PageSize < PageSize then n - page * PageSize
    else PageSize
  }

  /** The rows of page `page`: the records at `page*10 ..`, in order, at most ten. */
  function PageRows(r: seq<Record>, mode: nat, page: int, f: int): (rows: seq<Row>)
    ensures |rows| == WindowLen(|r|, page)
    ensures forall k :: 0 <= k < |rows| ==>
              page * PageSize + k < |r| &&
              rows[k].page == page && rows[k].recordRef == r[page * PageSize + k].recordId &&
              rows[k].playerId == r[page * PageSize + k].entry.playerId &&
              rows[k].score == r[page * PageSize + k].entry.score && rows[k].fifth == 0 &&
              rows[k].level == r[page * PageSize + k].entry.payload.level &&
              rows[k].time == r[page * PageSize + k].entry.payload.time &&
              rows[k].jewel == r[page * PageSize + k].entry.payload.jewel
  {
    var rows := seq(WindowLen(|r|, page), k requires 0 <= k < WindowLen(|r|, page) =>
                      GlobalRow(r, mode, page, page * PageSize + k, f));
    assert forall k :: 0 <= k < |rows| ==> rows[k] == GlobalRow(r, mode, page, page * PageSize + k, f);
    rows
  }

  /** The `for` loop over `i` with its early `break` (services.js:136-205). */
  method BuildPage(r: seq<Record>, mode: nat, page: int, f: int) returns (rows: seq<Row>)
    ensures rows == PageRows(r, mode, page, f)
  {
    rows := [];
    var i := page * PageSize;
    while i < page * PageSize + PageSize
      invariant page * PageSize <= i <= page * PageSize + PageSize
      invariant i > page * PageSize ==> 0 <= page * PageSize && i <= |r|
      invariant |rows| == i - page * PageSize
      invariant forall k :: 0 <= k < |rows| ==> rows[k] == GlobalRow(r, mode, page, page * PageSize + k, f)
    {
      if i < 0 || i >= |r| {
        break;
      }
      rows := rows + [GlobalRow(r, mode, page, i, f)];
      i := i + 1;
    }
  }

  /**
   * A requester found at position f lands on page f/10 whatever `view` says,
   * and its row is the only highlighted one.
   */
  lemma RequesterLit(r: seq<Record>, mode: nat, id: string, view: int)
    requires RequesterPos(r, id) >= 0
    ensures var f := RequesterPos(r, id);
            var page := SelectPage(view, f);
            var rows := PageRows(r, mode, page, f);
            page == f / PageSize &&
            0 <= f - page * PageSize < |rows| &&
            rows[f - page * PageSize].lit == 1 && rows[f - page * PageSize].playerId == id &&
            forall k :: 0 <= k < |rows| && k != f - page * PageSize ==> rows[k].lit == 0
  {
    var f := RequesterPos(r, id);
    var page := SelectPage(view, f);
    var rows := PageRows(r, mode, page, f);
    assert WindowLen(|r|, page) > f - page * PageSize;
    forall k | 0 <= k < |rows| ensures rows[k].lit == (if k == f - page * PageSize then 1 else 0) {
      assert rows[k] == GlobalRow(r, mode, page, page * PageSize + k, f);
    }
  }

  /** Without a found requester the page is `view` (-1 meaning 0) and nothing is highlighted. */
  lemma NoRequesterNoLit(r: seq<Record>, mode: nat, id: string, view: int)
    requires RequesterPos(r, id) == -1
    ensures var page := SelectPage(view, -1);
            page == (if view == -1 then 0 else view) &&
            forall k :: 0 <= k < |PageRows(r, mode, page, -1)| ==> PageRows(r, mode, page, -1)[k].lit == 0
  {
    var page := SelectPage(view, -1);
    var rows := PageRows(r, mode, page, -1);
    forall k | 0 <= k < |rows| ensures rows[k].lit == 0 {
      assert rows[k] == GlobalRow(r, mode, page, page * PageSize + k, -1);
    }
  }

  /** Each row carries the rank `(i + 1) * (page + 1)` of its absolute position and that rank's class. */
  lemma PageRowClass(r: seq<Record>, mode: nat, page: int, f: int, k: nat)
    requires k < |PageRows(r, mode, page, f)|
    ensures var i := page * PageSize + k;
            0 <= i < |r| &&
            PageRows(r, mode, page, f)[k].code ==
              ModeClass(mode + 1, RankClass(mode + 1, (i + 1) * (page + 1), r[i].entry.score, |r|)) &&
            (i + 1) * (page + 1) >= 1
  {
    var i := page * PageSize + k;
    assert PageRows(r, mode, page, f)[k] == GlobalRow(r, mode, page, i, f);
    assert page >= 0;
  }

  /** Reaching a page by its number or by landing on it as the requester shows the same rows but for the highlight. */
  lemma SamePageSameRows(r: seq<Record>, mode: nat, id: string, view: int)
    requires RequesterPos(r, id) >= 0
    ensures var f := RequesterPos(r, id);
            var byId := PageRows(r, mode, SelectPage(view, f), f);
            var byView := PageRows(r, mode, SelectPage(f / PageSize, -1), -1);
            |byId| == |byView| &&
            forall k :: 0 <= k < |byId| ==> byId[k].(lit := 0) == byView[k]
  {
    var f := RequesterPos(r, id);
    var page := f / PageSize;
    var byId := PageRows(r, mode, SelectPage(view, f), f);
    var byView := PageRows(r, mode, SelectPage(page, -1), -1);
    forall k | 0 <= k < |byId| ensures byId[k].(lit := 0) == byView[k] {
      assert byId[k] == GlobalRow(r, mode, page, page * PageSize + k, f);
      assert byView[k] == GlobalRow(r, mode, page, page * PageSize + k, -1);
    }
  }

  /**
   * The rank as services.js:145 computes it. When no requester was found and
   * `view` is not the sentinel, `index` still holds the query string, so
   * `index + 1` appends the digit 1 ("1" + 1 is "11") and the product reads
   * that as the decimal number 10 * page + 1.
   */
  function RankAsWritten(i: nat, page: nat, pageIsViewString: bool): (rank: nat)
    ensures !pageIsViewString ==> rank == Rank(i, page)
    ensures pageIsViewString ==> rank >= Rank(i, page)
    ensures pageIsViewString && page > 0 ==> rank > Rank(i, page)
  {
    (i + 1) * (if pageIsViewString then 10 * page + 1 else page + 1)
  }

  /**
   * The same record on the same page gets a different rank, and a different
   * class, depending on whether the page came from `view` or from the
   * requester's position: 100 records of mode "1", position 10, page 1.
   */
  lemma RankAsWrittenDependsOnOrigin()
    ensures RankAsWritten(10, 1, true) == 121 && RankAsWritten(10, 1, false) == 22
    ensures RankClass(ModeInt(1), RankAsWritten(10, 1, true), 10000000, 100) == 2
    ensures RankClass(ModeInt(1), RankAsWritten(10, 1, false), 10000000, 100) == 0
  {
  }

  // ---------------------------------------------------------------- personal view

  /** A personal row: page, record id, the fifth field and the code are the constant 0; nothing is highlighted. */
  function PersonalRow(s: Entry): (row: Row)
    ensures row.page == 0 && row.recordRef == 0 && row.fifth == 0 && row.code == Zero && row.lit == 0
    ensures row.playerId == s.playerId && row.score == s.score &&
            row.level == s.payload.level && row.time == s.payload.time && row.jewel == s.payload.jewel
  {
    Row(0, 0, s.playerId, s.score, 0, s.payload.level, Zero, s.payload.time, s.payload.jewel, 0)
  }

  /** The player's slots of `mode`, best first, ties in list order (sort, then filter). */
  function PersonalSlots(slots: seq<Entry>, mode: nat): (chosen: seq<Entry>)
    ensures Ordered(SlotScore, true, chosen)
    ensures multiset(chosen) == multiset(SlotsOfMode(slots, mode))
    ensures |chosen| == CountOfMode(slots, mode)
    ensures forall v :: Filter(SlotScore, v, chosen) == Filter(SlotScore, v, SlotsOfMode(slots, mode))
  {
    var sorted := Sort(SlotScore, true, slots);
    SortCorrect(SlotScore, true, slots);
    FilterOrdered(SlotScore, true, EntryMode, mode, sorted);
    FilterSameMultiset(EntryMode, mode, sorted, slots);
    assert forall v :: Filter(SlotScore, v, SlotsOfMode(sorted, mode)) == Filter(SlotScore, v, SlotsOfMode(slots, mode)) by {
      forall v {
        SortStableWithin(SlotScore, true, EntryMode, mode, slots, v);
      }
    }
    SlotsOfMode(sorted, mode)
  }

  /** The personal view: one row per slot of the mode, scores never increasing. */
  function PersonalView(slots: seq<Entry>, mode: nat): (rows: seq<Row>)
    ensures |rows| == CountOfMode(slots, mode)
    ensures forall k, k' :: 0 <= k < k' < |rows| ==> rows[k].score >= rows[k'].score
    ensures forall k :: 0 <= k < |rows| ==>
              rows[k].page == 0 && rows[k].recordRef == 0 && rows[k].fifth == 0 &&
              rows[k].code == Zero && rows[k].lit == 0
  {
    var chosen := PersonalSlots(slots, mode);
    seq(|chosen|, k requires 0 <= k < |chosen| => PersonalRow(chosen[k]))
  }

  /** Every row of the personal view is a slot of the requested mode, and every such slot has its row. */
  lemma PersonalViewRows(slots: seq<Entry>, mode: nat)
    ensures var chosen := PersonalSlots(slots, mode);
            PersonalView(slots, mode) == seq(|chosen|, k requires 0 <= k < |chosen| => PersonalRow(chosen[k])) &&
            (forall x :: x in chosen ==> x in slots && x.mode == mode) &&
            (forall x :: x in slots && x.mode == mode ==> x in chosen)
  {
    var chosen := PersonalSlots(slots, mode);
    forall x | x in slots && x.mode == mode ensures x in chosen {
      FilterMultiset(EntryMode, mode, slots, x);
      assert x in multiset(SlotsOfMode(slots, mode));
      assert x in multiset(chosen);
    }
    forall x | x in chosen ensures x in slots && x.mode == mode {
      assert x in multiset(chosen);
      FilterMultiset(EntryMode, mode, slots, x);
      assert x in multiset(SlotsOfMode(slots, mode));
    }
  }

  // ---------------------------------------------------------------- the handler

  /**
   * `getRanking`, given the players' lists and the global records. The
   * personal view is chosen when an id is given and `view` is 0.
   */
  method GetRanking(req: Request, users: map<string, seq<Entry>>, records: seq<Record>) returns (resp: Response)
    ensures req.id != "" && req.view == 0 ==>
              resp == if req.id in users then Rows(PersonalView(users[req.id], req.mode)) else UnknownPlayer
    ensures !(req.id != "" && req.view == 0) && RecordsOfMode(records, req.mode) == [] ==> resp == NoBody
    ensures !(req.id != "" && req.view == 0) && RecordsOfMode(records, req.mode) != [] ==>
              var r := ModeRecords(records, req.mode);
              var f := RequesterPos(r, req.id);
              resp == Rows(PageRows(r, req.mode, SelectPage(req.view, f), f)) && |resp.rows| <= PageSize
  {
    if req.id != "" && req.view == 0 {
      if req.id !in users {
        return UnknownPlayer;
      }
      return Rows(PersonalView(users[req.id], req.mode));
    }
    var r := ModeRecords(records, req.mode);
    if |r| == 0 {
      assert |multiset(RecordsOfMode(records, req.mode))| == 0;
      return NoBody;
    }
    assert |multiset(RecordsOfMode(records, req.mode))| == |r|;
    var f := RequesterPos(r, req.id);
    var page := SelectPage(req.view, f);
    var rows := BuildPage(r, req.mode, page, f);
    return Rows(rows);
  }

  // ---------------------------------------------------------------- a worked example

  /** Three records of mode "1" scored 12M, 9M and 1M, page 0, no requester: classes 1, 0, 0. */
  lemma ExampleModeOne()
    ensures var e := (s: nat) => Entry("p", 1, s, Payload(0, 0, 0, 0));
            var r := [Record(1, e(12000000)), Record(2, e(9000000)), Record(3, e(1000000))];
            var rows := PageRows(r, 1, SelectPage(0, RequesterPos(r, "")), RequesterPos(r, ""));
            |rows| == 3 && rows[0].code == ModeClass(2, 1) && rows[1].code == ModeClass(2, 0) &&
            rows[2].code == ModeClass(2, 0)
  {
    var e := (s: nat) => Entry("p", 1, s, Payload(0, 0, 0, 0));
    var r := [Record(1, e(12000000)), Record(2, e(9000000)), Record(3, e(1000000))];
    assert RequesterPos(r, "") == -1;
    var rows := PageRows(r, 1, 0, -1);
    assert WindowLen(3, 0) == 3;
    assert rows[0] == GlobalRow(r, 1, 0, 0, -1);
    assert rows[1] == GlobalRow(r, 1, 0, 1, -1);
    assert rows[2] == GlobalRow(r, 1, 0, 2, -1);
  }
}
