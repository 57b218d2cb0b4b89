/**
 * The submission side, `scoreEntry` (services.js:221-292), as functions of
 * the stores it reads: which global record it writes, which calls it issues
 * on the replay directory, and what becomes of the player's personal list.
 */
module Submission {
  import opened Model
  import opened Sorting
  import opened Replays

  /** Whether a record belongs to player `id` in mode `mode`. */
  predicate SameKey(r: Record, id: string, mode: nat)
  {
    r.entry.playerId == id && r.entry.mode == mode
  }

  /** `Ranking.findOne({ id, mode })`: the first record of the player in the mode, if any. */
  function FindRecord(records: seq<Record>, id: string, mode: nat): (k: Option<nat>)
    ensures k.Some? ==> k.value < |records| && SameKey(records[k.value], id, mode)
    ensures forall j :: 0 <= j < |records| && (k.None? || j < k.value) ==> !SameKey(records[j], id, mode)
  {
    if records == [] then None
    else if SameKey(records[0], id, mode) then Some(0)
    else
      match FindRecord(records[1..], id, mode)
      case None => None
      case Some(k) => Some(k + 1)
  }

  // ---------------------------------------------------------------- global record and replay

  /** The global store after a submission and the file-system calls it issues, in order. */
  datatype GlobalStep = GlobalStep(records: seq<Record>, nextId: nat, ops: seq<Op>)

  /**
   * The global half of `scoreEntry`. `nextId` stands for the identity the
   * store generates for a new record.
   */
  function SubmitGlobal(cfg: Config, records: seq<Record>, nextId: nat, e: Entry): (g: GlobalStep)
    ensures TempDisposals(g.ops) == 1
    ensures cfg.noScores ==> g.records == records && g.nextId == nextId && g.ops == [Unlink(Temp)]
    ensures g.nextId == nextId || g.nextId == nextId + 1
  {
    if cfg.noScores then GlobalStep(records, nextId, [Unlink(Temp)])
    else
      var found := FindRecord(records, e.playerId, e.mode);
      if found.Some? && !cfg.multiScores then
        var id := records[found.value].recordId;
        if e.score > records[found.value].entry.score then
          GlobalStep(records[found.value := Record(id, e)], nextId, [Unlink(Rep(id)), Rename(Temp, Rep(id))])
        else
          GlobalStep(records, nextId, [Unlink(Temp)])
      else
        GlobalStep(records + [Record(nextId, e)], nextId + 1, [Rename(Temp, Rep(nextId))])
  }

  /**
   * A strictly higher score overwrites the player's record in place, keeping
   * its id; the replay under that id becomes the uploaded one and `temp` is gone.
   */
  lemma HigherScoreReplaces(cfg: Config, records: seq<Record>, nextId: nat, e: Entry, d: Dir)
    requires !cfg.noScores && !cfg.multiScores
    requires FindRecord(records, e.playerId, e.mode).Some?
    requires e.score > records[FindRecord(records, e.playerId, e.mode).value].entry.score
    requires Temp in d
    ensures var k := FindRecord(records, e.playerId, e.mode).value;
            var id := records[k].recordId;
            var g := SubmitGlobal(cfg, records, nextId, e);
            var d' := ApplyOps(d, g.ops).dir;
            g.records == records[k := Record(id, e)] && g.nextId == nextId &&
            Temp !in d' && Rep(id) in d' && d'[Rep(id)] == d[Temp] &&
            forall n :: n != Temp && n != Rep(id) ==> (n in d' <==> n in d) && (n in d ==> d'[n] == d[n])
  {
    var k := FindRecord(records, e.playerId, e.mode).value;
    var id := records[k].recordId;
    ApplyTwo(d, Unlink(Rep(id)), Rename(Temp, Rep(id)));
  }

  /** A score that is not strictly higher changes no record and only removes `temp`. */
  lemma NotHigherDiscards(cfg: Config, records: seq<Record>, nextId: nat, e: Entry, d: Dir)
    requires !cfg.noScores && !cfg.multiScores
    requires FindRecord(records, e.playerId, e.mode).Some?
    requires e.score <= records[FindRecord(records, e.playerId, e.mode).value].entry.score
    ensures var g := SubmitGlobal(cfg, records, nextId, e);
            g.records == records && g.nextId == nextId &&
            ApplyOps(d, g.ops).dir == d - {Temp}
  {
    ApplyTwo(d, Unlink(Temp), Unlink(Temp));
  }

  /**
   * Without a record for (player, mode), or with multiple scores allowed, a new
   * record is appended under a fresh id and `temp` is renamed to that id;
   * nothing else changes.
   */
  lemma NewRecordInserted(cfg: Config, records: seq<Record>, nextId: nat, e: Entry, d: Dir)
    requires !cfg.noScores
    requires FindRecord(records, e.playerId, e.mode).None? || cfg.multiScores
    requires Temp in d && Rep(nextId) !in d
    ensures var g := SubmitGlobal(cfg, records, nextId, e);
            g.records == records + [Record(nextId, e)] && g.nextId == nextId + 1 &&
            ApplyOps(d, g.ops).dir == (d - {Temp})[Rep(nextId) := d[Temp]]
  {
    ApplyTwo(d, Rename(Temp, Rep(nextId)), Rename(Temp, Rep(nextId)));
  }

  /**
   * Every path disposes of `temp` by exactly one call, and afterwards no file
   * is named `temp`, whether or not the upload was there.
   */
  lemma TempDisposedOnce(cfg: Config, records: seq<Record>, nextId: nat, e: Entry, d: Dir)
    ensures var g := SubmitGlobal(cfg, records, nextId, e);
            TempDisposals(g.ops) == 1 && Temp !in ApplyOps(d, g.ops).dir
  {
    var g := SubmitGlobal(cfg, records, nextId, e);
    if |g.ops| == 1 {
      ApplyTwo(d, g.ops[0], g.ops[0]);
      assert g.ops == [g.ops[0]];
    } else {
      ApplyTwo(d, g.ops[0], g.ops[1]);
      assert g.ops == [g.ops[0], g.ops[1]];
    }
  }

  /** Replay names never run ahead of the id generator. */
  ghost predicate NamesBelow(d: Dir, nextId: nat)
  {
    forall n :: n in d && n.Rep? ==> n.recordId < nextId
  }

  /** Replays are only ever named after ids that exist, so names stay below the generator. */
  lemma SubmitKeepsNamesBelow(cfg: Config, records: seq<Record>, nextId: nat, e: Entry, d: Dir)
    requires IdsFresh(records, nextId) && NamesBelow(d, nextId)
    ensures var g := SubmitGlobal(cfg, records, nextId, e);
            NamesBelow(ApplyOps(d, g.ops).dir, g.nextId)
  {
    var g := SubmitGlobal(cfg, records, nextId, e);
    if |g.ops| == 1 {
      ApplyTwo(d, g.ops[0], g.ops[0]);
      assert g.ops == [g.ops[0]];
    } else {
      ApplyTwo(d, g.ops[0], g.ops[1]);
      assert g.ops == [g.ops[0], g.ops[1]];
    }
  }

  /** Every kept replay belongs to a live record: there is no orphan `<n>.rep`. */
  ghost predicate NamesLive(d: Dir, records: seq<Record>)
  {
    forall n :: n in d && n.Rep? ==> exists i :: 0 <= i < |records| && records[i].recordId == n.recordId
  }

  /**
   * A submission leaves no orphan replay: an overwrite renames onto the id of
   * the record it keeps, and an insert renames onto the id of the record it
   * appends.
   */
  lemma SubmitKeepsNamesLive(cfg: Config, records: seq<Record>, nextId: nat, e: Entry, d: Dir)
    requires NamesLive(d, records)
    ensures var g := SubmitGlobal(cfg, records, nextId, e);
            NamesLive(ApplyOps(d, g.ops).dir, g.records)
  {
    var g := SubmitGlobal(cfg, records, nextId, e);
    var d' := ApplyOps(d, g.ops).dir;
    var found := FindRecord(records, e.playerId, e.mode);
    if g.ops == [Unlink(Temp)] {
      ApplyTwo(d, Unlink(Temp), Unlink(Temp));
      assert g.records == records;
    } else if found.Some? && !cfg.multiScores {
      var k := found.value;
      var id := records[k].recordId;
      ApplyTwo(d, Unlink(Rep(id)), Rename(Temp, Rep(id)));
      forall n | n in d' && n.Rep? ensures exists i :: 0 <= i < |g.records| && g.records[i].recordId == n.recordId {
        if n == Rep(id) {
          assert g.records[k].recordId == id;
        } else {
          var i :| 0 <= i < |records| && records[i].recordId == n.recordId;
          assert g.records[i].recordId == records[i].recordId;
        }
      }
    } else {
      ApplyTwo(d, Rename(Temp, Rep(nextId)), Rename(Temp, Rep(nextId)));
      forall n | n in d' && n.Rep? ensures exists i :: 0 <= i < |g.records| && g.records[i].recordId == n.recordId {
        if n == Rep(nextId) {
          assert g.records[|records|].recordId == nextId;
        } else {
          var i :| 0 <= i < |records| && records[i].recordId == n.recordId;
          assert g.records[i] == records[i];
        }
      }
    }
  }

  /** At most one record per (player, mode). */
  ghost predicate UniqueKeys(records: seq<Record>)
  {
    forall i, j :: 0 <= i < j < |records| ==>
      !SameKey(records[j], records[i].entry.playerId, records[i].entry.mode)
  }

  /** Record ids are distinct and all below the next id to be generated. */
  ghost predicate IdsFresh(records: seq<Record>, nextId: nat)
  {
    (forall i :: 0 <= i < |records| ==> records[i].recordId < nextId) &&
    (forall i, j :: 0 <= i < j < |records| ==> records[i].recordId != records[j].recordId)
  }

  /** With a single score per player and mode, a submission never creates a second one. */
  lemma SingleScoreKeepsKeysUnique(cfg: Config, records: seq<Record>, nextId: nat, e: Entry)
    requires !cfg.multiScores && UniqueKeys(records)
    ensures UniqueKeys(SubmitGlobal(cfg, records, nextId, e).records)
  {
    var g := SubmitGlobal(cfg, records, nextId, e);
    var found := FindRecord(records, e.playerId, e.mode);
    if !cfg.noScores && found.Some? && e.score > records[found.value].entry.score {
      var k := found.value;
      forall i, j | 0 <= i < j < |g.records|
        ensures !SameKey(g.records[j], g.records[i].entry.playerId, g.records[i].entry.mode)
      {
        assert SameKey(g.records[i], records[i].entry.playerId, records[i].entry.mode);
        assert SameKey(g.records[j], records[j].entry.playerId, records[j].entry.mode);
      }
    }
  }

  /** Generated ids stay distinct and below the generator. */
  lemma SubmitKeepsIdsFresh(cfg: Config, records: seq<Record>, nextId: nat, e: Entry)
    requires IdsFresh(records, nextId)
    ensures var g := SubmitGlobal(cfg, records, nextId, e);
            IdsFresh(g.records, g.nextId)
  {
    var g := SubmitGlobal(cfg, records, nextId, e);
    var found := FindRecord(records, e.playerId, e.mode);
    if !cfg.noScores && found.Some? && !cfg.multiScores && e.score > records[found.value].entry.score {
      var k := found.value;
      assert forall i :: 0 <= i < |g.records| ==> g.records[i].recordId == records[i].recordId;
    }
  }

  // ---------------------------------------------------------------- personal list

  /** Slots a player keeps per mode. */
  const Cap: nat := 10

  /** `rankings.findIndex((r) => r.mode == mode)`: the first slot of the mode, or -1. */
  function FirstOfMode(s: seq<Entry>, m: nat): (k: int)
    ensures -1 <= k < |s|
    ensures k >= 0 ==> s[k].mode == m
    ensures forall j :: 0 <= j < |s| && (k == -1 || j < k) ==> s[j].mode != m
  {
    if s == [] then -1
    else if s[0].mode == m then 0
    else
      var g := FirstOfMode(s[1..], m);
      if g == -1 then -1 else g + 1
  }

  /** A list holding a slot of the mode has a first such slot. */
  lemma FirstOfModeFound(s: seq<Entry>, m: nat)
    requires CountOfMode(s, m) > 0
    ensures FirstOfMode(s, m) >= 0
  {
    var x := SlotsOfMode(s, m)[0];
    assert x in SlotsOfMode(s, m);
  }

  /**
   * The personal half of `scoreEntry`: the list to persist, or None when the
   * list is full for the mode and the score does not beat its lowest slot. A
   * full list is sorted ascending (stably) before its first slot of the mode
   * is replaced, and is persisted in that order.
   */
  function PersonalUpdate(slots: seq<Entry>, e: Entry): (r: Option<seq<Entry>>)
    ensures r.Some? ==> e in r.value && |r.value| == |slots| + (if CountOfMode(slots, e.mode) == Cap then 0 else 1)
    ensures CountOfMode(slots, e.mode) != Cap ==> r == Some(slots + [e])
  {
    if CountOfMode(slots, e.mode) == Cap then
      var sorted := Sort(SlotScore, false, slots);
      SortCorrect(SlotScore, false, slots);
      FilterSameMultiset(EntryMode, e.mode, sorted, slots);
      FirstOfModeFound(sorted, e.mode);
      var k := FirstOfMode(sorted, e.mode);
      if e.score > sorted[k].score then
        assert sorted[k := e][k] == e;
        Some(sorted[k := e])
      else None
    else
      Some(slots + [e])
  }

  /** The list a player has after a submission: the persisted one, or the old one. */
  function PersonalAfter(slots: seq<Entry>, e: Entry): seq<Entry>
  {
    match PersonalUpdate(slots, e)
    case Some(s) => s
    case None => slots
  }

  /** `x` is a lowest-scoring slot of mode `m` in `s`. */
  ghost predicate IsMinOfMode(s: seq<Entry>, x: Entry, m: nat)
  {
    x in s && x.mode == m && forall y :: y in s && y.mode == m ==> x.score <= y.score
  }

  lemma UpdatePermutes(s: seq<Entry>, k: nat, x: Entry)
    requires k < |s|
    ensures multiset(s[k := x]) == multiset(s) - multiset{s[k]} + multiset{x}
  {
    assert s == s[..k] + [s[k]] + s[k + 1..];
    assert s[k := x] == s[..k] + [x] + s[k + 1..];
  }

  /** Exchanging one slot for another of the same mode leaves every mode's slots but that one alone. */
  lemma {:induction false} ExchangeKeepsModes(s: seq<Entry>, t: seq<Entry>, victim: Entry, e: Entry, m: nat)
    requires victim in s && victim.mode == e.mode
    requires multiset(t) == multiset(s) - multiset{victim} + multiset{e}
    ensures CountOfMode(t, m) == CountOfMode(s, m)
    ensures m != e.mode ==> multiset(SlotsOfMode(t, m)) == multiset(SlotsOfMode(s, m))
  {
    if m == e.mode {
      FilterExchangeSameKey(EntryMode, s, t, victim, e);
    } else {
      FilterExchangeOtherKey(EntryMode, m, s, t, victim, e);
      assert |multiset(SlotsOfMode(t, m))| == |multiset(SlotsOfMode(s, m))|;
    }
  }

  /**
   * A lowest slot of mode `m` that comes first among the slots of the mode
   * with its score is the first lowest slot of the mode in the list.
   */
  lemma {:induction false} FirstOfItsScore(slots: seq<Entry>, m: nat, victim: Entry, q: nat) returns (j: nat)
    requires IsMinOfMode(slots, victim, m)
    requires q < |Filter(EntryMode, m, slots)| && Filter(EntryMode, m, slots)[q] == victim
    requires forall t :: 0 <= t < q ==> Filter(EntryMode, m, slots)[t].score != victim.score
    ensures j < |slots| && slots[j] == victim
    ensures forall i :: 0 <= i < j && slots[i].mode == m ==> slots[i].score > victim.score
  {
    var inSlots := Filter(EntryMode, m, slots);
    j := FilterIndex(EntryMode, m, slots, q);
    forall i | 0 <= i < j && slots[i].mode == m ensures slots[i].score > victim.score {
      assert slots[i] in inSlots[..q];
      var t :| 0 <= t < q && inSlots[t] == slots[i];
      assert slots[i] in slots;
    }
  }

  /**
   * The first slot of mode `m` in the stable ascending sort, when it is a
   * lowest one, is also the first lowest slot of the mode in list order:
   * among the slots of the mode it is the first with its score, in the
   * sorted list and so, by stability, in the list itself.
   */
  lemma {:induction false} FirstLowestOfMode(slots: seq<Entry>, m: nat, k: nat) returns (j: nat)
    requires k == FirstOfMode(Sort(SlotScore, false, slots), m) >= 0
    requires IsMinOfMode(slots, Sort(SlotScore, false, slots)[k], m)
    ensures j < |slots| && slots[j] == Sort(SlotScore, false, slots)[k]
    ensures forall i :: 0 <= i < j && slots[i].mode == m ==> slots[i].score > slots[j].score
  {
    var sorted := Sort(SlotScore, false, slots);
    var v := sorted[k].score;
    var inSlots := Filter(EntryMode, m, slots);
    assert Filter(SlotScore, v, inSlots) != [] && Filter(SlotScore, v, inSlots)[0] == sorted[k] by {
      var inSorted := Filter(EntryMode, m, sorted);
      FilterHead(EntryMode, m, sorted, k);
      FilterHead(SlotScore, v, inSorted, 0);
      SortStableWithin(SlotScore, false, EntryMode, m, slots, v);
    }
    var q := FirstWithKey(SlotScore, v, inSlots);
    j := FirstOfItsScore(slots, m, sorted[k], q);
  }

  /**
   * At the cap, the submission is kept if and only if it beats the lowest slot
   * of its mode. The slot it replaces is the first lowest one in list order
   * (`victim`, at `j`), since the stable ascending sort keeps tied slots in
   * list order and `findIndex` takes the first of the mode. The persisted list
   * is the old list sorted ascending with the entry in that slot's place (`k`).
   */
  lemma {:induction false} PersonalAtCap(slots: seq<Entry>, e: Entry) returns (victim: Entry, j: nat, k: nat)
    requires CountOfMode(slots, e.mode) == Cap
    ensures IsMinOfMode(slots, victim, e.mode)
    ensures j < |slots| && slots[j] == victim
    ensures forall i :: 0 <= i < j && slots[i].mode == e.mode ==> slots[i].score > victim.score
    ensures k == FirstOfMode(Sort(SlotScore, false, slots), e.mode) && Sort(SlotScore, false, slots)[k] == victim
    ensures PersonalUpdate(slots, e).Some? <==> e.score > victim.score
    ensures PersonalUpdate(slots, e).Some? ==> PersonalUpdate(slots, e).value == Sort(SlotScore, false, slots)[k := e]
    ensures PersonalUpdate(slots, e).Some? ==>
              multiset(PersonalUpdate(slots, e).value) == multiset(slots) - multiset{victim} + multiset{e}
  {
    var m := e.mode;
    var sorted := Sort(SlotScore, false, slots);
    SortCorrect(SlotScore, false, slots);
    FilterSameMultiset(EntryMode, m, sorted, slots);
    FirstOfModeFound(sorted, m);
    k := FirstOfMode(sorted, m);
    victim := sorted[k];
    assert victim in multiset(sorted);
    forall y | y in slots && y.mode == m ensures victim.score <= y.score {
      assert y in multiset(sorted);
      var j :| 0 <= j < |sorted| && sorted[j] == y;
      if j != k {
        assert Stays(SlotScore, false, sorted[k], sorted[j]);
      }
    }
    j := FirstLowestOfMode(slots, m, k);
    if e.score > victim.score {
      UpdatePermutes(sorted, k, e);
    }
  }

  /** Below the cap (or above it) the entry is appended and its mode gains one slot. */
  lemma PersonalBelowCap(slots: seq<Entry>, e: Entry)
    requires CountOfMode(slots, e.mode) != Cap
    ensures PersonalUpdate(slots, e) == Some(slots + [e])
    ensures CountOfMode(slots + [e], e.mode) == CountOfMode(slots, e.mode) + 1
  {
    FilterAppend(EntryMode, e.mode, slots, [e]);
    assert SlotsOfMode([e], e.mode) == [e];
  }

  /**
   * A list holding at most ten slots of each mode still does after any
   * submission, and the slots of the other modes are the same slots.
   */
  lemma PersonalKeepsCap(slots: seq<Entry>, e: Entry, m: nat)
    requires CountOfMode(slots, m) <= Cap
    ensures CountOfMode(PersonalAfter(slots, e), m) <= Cap
    ensures m != e.mode ==> multiset(SlotsOfMode(PersonalAfter(slots, e), m)) == multiset(SlotsOfMode(slots, m))
  {
    if CountOfMode(slots, e.mode) == Cap {
      var victim, _, _ := PersonalAtCap(slots, e);
      if PersonalUpdate(slots, e).Some? {
        ExchangeKeepsModes(slots, PersonalAfter(slots, e), victim, e, m);
      }
    } else {
      FilterAppend(EntryMode, m, slots, [e]);
      if m == e.mode {
        PersonalBelowCap(slots, e);
      } else {
        assert SlotsOfMode([e], m) == [];
      }
    }
  }

  /** No player holds more than ten slots of any mode. */
  ghost predicate WithinCap(users: map<string, seq<Entry>>)
  {
    forall p, m :: p in users ==> CountOfMode(users[p], m) <= Cap
  }

  /** A submission keeps every player within the cap. */
  lemma SubmitKeepsWithinCap(users: map<string, seq<Entry>>, e: Entry)
    requires WithinCap(users) && e.playerId in users
    ensures WithinCap(users[e.playerId := PersonalAfter(users[e.playerId], e)])
  {
    var users' := users[e.playerId := PersonalAfter(users[e.playerId], e)];
    forall p, m | p in users' ensures CountOfMode(users'[p], m) <= Cap {
      if p == e.playerId {
        PersonalKeepsCap(users[p], e, m);
      }
    }
  }
}
