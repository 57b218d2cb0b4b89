/**
 * The service's state and `scoreEntry` as it runs: the global ranking store,
 * the player store, the replay directory and the id generator are fields a
 * submission updates step by step.
 */
module Server {
  import opened Model
  import opened Sorting
  import opened Replays
  import opened Submission

  /** What a submission did to the player's personal list. */
  datatype Personal = Skipped | PlayerMissing | Kept | Persisted

  /** The calls a submission issued on `rep/`, those that failed, and the personal-list result. */
  datatype Outcome = Outcome(issued: seq<Op>, failed: seq<Op>, personal: Personal)

  /**
   * One pass of insertion sort: the element at `i` moves left past every
   * element of the sorted prefix with a strictly higher score.
   */
  method InsertAt(a: array<Entry>, i: nat)
    requires i < a.Length
    modifies a
    ensures a[..i + 1] == Insert(SlotScore, false, old(a[..i]), old(a[i]))
    ensures forall k :: i < k < a.Length ==> a[k] == old(a[k])
  {
    ghost var prev := a[..i];
    var x := a[i];
    var j := i;
    while j > 0 && a[j - 1].score > x.score
      invariant 0 <= j <= i
      invariant forall k :: 0 <= k < j ==> a[k] == prev[k]
      invariant forall k :: j < k <= i ==> a[k] == prev[k - 1]
      invariant forall k :: i < k < a.Length ==> a[k] == old(a[k])
      invariant forall k :: j <= k < i ==> prev[k].score > x.score
    {
      a[j] := a[j - 1];
      j := j - 1;
    }
    a[j] := x;
    InsertPosition(SlotScore, false, prev, j, x);
    assert a[..i + 1] == prev[..j] + [x] + prev[j..];
  }

  /**
   * `u.rankings.sort((a, b) => a.score - b.score)` on the loaded list: a stable
   * ascending insertion sort in place.
   */
  method SortAscending(a: array<Entry>)
    modifies a
    ensures a[..] == Sort(SlotScore, false, old(a[..]))
  {
    ghost var s := a[..];
    var i := 0;
    while i < a.Length
      invariant 0 <= i <= a.Length
      invariant a[..i] == Sort(SlotScore, false, s[..i])
      invariant forall k :: i <= k < a.Length ==> a[k] == s[k]
    {
      SortSnoc(SlotScore, false, s, i);
      InsertAt(a, i);
      i := i + 1;
    }
    assert a[..] == a[..a.Length] && s == s[..a.Length];
  }

  /**
   * A full list (ten slots of the entry's mode) loaded into memory, sorted
   * ascending in place, with its first slot of the mode overwritten when the
   * entry scores strictly higher: whether that happened, and the list then.
   */
  method ReplaceLowest(slots: seq<Entry>, e: Entry) returns (replaced: bool, list: seq<Entry>)
    requires CountOfMode(slots, e.mode) == Cap
    ensures replaced <==> PersonalUpdate(slots, e).Some?
    ensures replaced ==> list == PersonalUpdate(slots, e).value
  {
    var a := new Entry[|slots|](i requires 0 <= i < |slots| => slots[i]);
    assert a[..] == slots;
    SortAscending(a);
    ghost var victim, j, k0 := PersonalAtCap(slots, e);
    var k := FirstOfMode(a[..], e.mode);
    assert k == k0;
    replaced := e.score > a[k].score;
    if replaced {
      a[k] := e;
    }
    list := a[..];
  }

  class Leaderboard {
    const config: Config
    /** The global ranking store, in store (insertion) order. */
    var records: seq<Record>
    /** The id the ranking store gives the next record it creates. */
    var nextId: nat
    /** The player store: each player's personal ranking list. */
    var users: map<string, seq<Entry>>
    /** The replay directory `rep/`. */
    var replays: Dir

    /**
     * Ids are fresh and distinct, a single-score store has one record per
     * (player, mode), every replay belongs to a live record and is named below
     * the id generator, and no player holds more than ten slots of a mode.
     */
    ghost predicate Valid()
      reads this
    {
      IdsFresh(records, nextId) &&
      (!config.multiScores ==> UniqueKeys(records)) &&
      NamesBelow(replays, nextId) && NamesLive(replays, records) &&
      WithinCap(users)
    }

    /** A fresh service with empty stores and an empty replay directory. */
    constructor (config: Config)
      ensures Valid()
      ensures this.config == config && records == [] && users == map[] && replays == map[]
    {
      this.config := config;
      records := [];
      nextId := 0;
      users := map[];
      replays := map[];
    }

    /**
     * Login of an unknown id: with registration on and a non-empty id, a new
     * player starts with an empty personal list; otherwise, or when the id is
     * taken, the request is refused and nothing changes.
     */
    method RegisterPlayer(id: string) returns (refused: bool)
      requires Valid()
      modifies this`users
      ensures Valid()
      ensures refused <==> !(config.register && |id| > 0 && id !in old(users))
      ensures users == if refused then old(users) else old(users)[id := []]
    {
      refused := !(config.register && |id| > 0 && id !in users);
      if !refused {
        users := users[id := []];
        assert forall m :: CountOfMode([], m) == 0;
        assert WithinCap(users);
      }
    }

    /** The upload of a replay is stored as `rep/temp`, replacing any earlier one. */
    method StageUpload(blob: Blob)
      requires Valid()
      modifies this`replays
      ensures Valid()
      ensures replays == old(replays)[Temp := blob]
    {
      replays := replays[Temp := blob];
    }

    /** `fs.unlink` on `rep/`. */
    method UnlinkFile(n: Name) returns (ok: bool)
      modifies this`replays
      ensures Step(replays, ok) == ApplyOp(old(replays), Unlink(n))
    {
      ok := n in replays;
      if ok {
        replays := replays - {n};
      }
    }

    /** `fs.rename` on `rep/`: the target is replaced. */
    method RenameFile(src: Name, dst: Name) returns (ok: bool)
      modifies this`replays
      ensures Step(replays, ok) == ApplyOp(old(replays), Rename(src, dst))
    {
      ok := src in replays;
      if ok && src != dst {
        replays := (replays - {src})[dst := replays[src]];
      }
    }

    /**
     * The personal half of `scoreEntry`: append below ten slots of the mode;
     * at ten, sort the list ascending and overwrite its first slot of the mode
     * when the new score is strictly higher, persisting the sorted list.
     */
    method UpdatePersonal(e: Entry) returns (p: Personal)
      requires WithinCap(users)
      modifies this`users
      ensures WithinCap(users)
      ensures e.playerId !in old(users) ==> users == old(users) && p == PlayerMissing
      ensures e.playerId in old(users) ==>
                users == old(users)[e.playerId := PersonalAfter(old(users)[e.playerId], e)] &&
                p == (if PersonalUpdate(old(users)[e.playerId], e).Some? then Persisted else Kept)
    {
      if e.playerId !in users {
        return PlayerMissing;
      }
      var slots := users[e.playerId];
      SubmitKeepsWithinCap(users, e);
      if CountOfMode(slots, e.mode) == Cap {
        var replaced, list := ReplaceLowest(slots, e);
        if replaced {
          users := users[e.playerId := list];
          p := Persisted;
        } else {
          p := Kept;
        }
      } else {
        users := users[e.playerId := slots + [e]];
        p := Persisted;
      }
    }

    /**
     * The global half of `scoreEntry` once `noScores` is off: overwrite the
     * player's record on a strictly higher score, or insert a new record, and
     * rename or discard the upload accordingly.
     */
    method UpdateGlobal(e: Entry) returns (issued: seq<Op>, failed: seq<Op>)
      requires !config.noScores
      modifies this`records, this`nextId, this`replays
      ensures var g := SubmitGlobal(config, old(records), old(nextId), e);
              records == g.records && nextId == g.nextId && issued == g.ops &&
              ApplyOps(old(replays), g.ops) == Run(replays, failed)
    {
      ghost var d := replays;
      var found := FindRecord(records, e.playerId, e.mode);
      if found.Some? && !config.multiScores {
        var id := records[found.value].recordId;
        if e.score > records[found.value].entry.score {
          records := records[found.value := Record(id, e)];
          var unlinked := UnlinkFile(Rep(id));
          var renamed := RenameFile(Temp, Rep(id));
          issued := [Unlink(Rep(id)), Rename(Temp, Rep(id))];
          failed := (if unlinked then [] else [Unlink(Rep(id))]) + (if renamed then [] else [Rename(Temp, Rep(id))]);
          ApplyTwo(d, Unlink(Rep(id)), Rename(Temp, Rep(id)));
        } else {
          var unlinked := UnlinkFile(Temp);
          issued := [Unlink(Temp)];
          failed := if unlinked then [] else [Unlink(Temp)];
          ApplyTwo(d, Unlink(Temp), Unlink(Temp));
        }
      } else {
        var id := nextId;
        records := records + [Record(id, e)];
        nextId := nextId + 1;
        var renamed := RenameFile(Temp, Rep(id));
        issued := [Rename(Temp, Rep(id))];
        failed := if renamed then [] else [Rename(Temp, Rep(id))];
        ApplyTwo(d, Rename(Temp, Rep(id)), Rename(Temp, Rep(id)));
      }
    }

    /**
     * `scoreEntry`: with `noScores` only `temp` is unlinked; otherwise the
     * global record is written and the replay renamed or discarded as
     * `SubmitGlobal` says, and then the personal list is updated.
     */
    method SubmitScore(e: Entry) returns (out: Outcome)
      requires Valid()
      modifies this
      ensures Valid()
      ensures var g := SubmitGlobal(config, old(records), old(nextId), e);
              records == g.records && nextId == g.nextId && out.issued == g.ops &&
              ApplyOps(old(replays), g.ops) == Run(replays, out.failed)
      ensures config.noScores ==> users == old(users) && out.personal == Skipped
      ensures !config.noScores && e.playerId !in old(users) ==> users == old(users) && out.personal == PlayerMissing
      ensures !config.noScores && e.playerId in old(users) ==>
                users == old(users)[e.playerId := PersonalAfter(old(users)[e.playerId], e)] &&
                out.personal == (if PersonalUpdate(old(users)[e.playerId], e).Some? then Persisted else Kept)
      ensures Temp !in replays
    {
      ghost var g := SubmitGlobal(config, records, nextId, e);
      ghost var d := replays;
      TempDisposedOnce(config, records, nextId, e, replays);
      SubmitKeepsIdsFresh(config, records, nextId, e);
      SubmitKeepsNamesLive(config, records, nextId, e, replays);
      if !config.multiScores {
        SingleScoreKeepsKeysUnique(config, records, nextId, e);
      }
      if config.noScores {
        var ok := UnlinkFile(Temp);
        ApplyTwo(d, Unlink(Temp), Unlink(Temp));
        return Outcome([Unlink(Temp)], if ok then [] else [Unlink(Temp)], Skipped);
      }
      SubmitKeepsNamesBelow(config, records, nextId, e, replays);
      var issued, failed := UpdateGlobal(e);
      var personal := UpdatePersonal(e);
      out := Outcome(issued, failed, personal);
    }
  }
}
