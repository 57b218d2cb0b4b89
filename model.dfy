/** Values shared by the query and submission sides of the leaderboard engine. */
module Model {
  import opened Sorting

  datatype Option<+T> = None | Some(value: T)

  /** The three recognised switches of the service (services.js `options`). */
  datatype Config = Config(
    register: bool,     // let unknown players register at login
    multiScores: bool,  // keep one global record per submission instead of one per (player, mode)
    noScores: bool      // drop every submission and its replay
  )

  /** The game-specific fields a score carries besides its value; opaque to the engine. */
  datatype Payload = Payload(jewel: nat, level: nat, cls: nat, time: nat)

  /**
   * A submitted score: the `entry` object of `scoreEntry`. A personal ranking
   * slot is exactly such an entry, stored in the player's list.
   */
  datatype Entry = Entry(playerId: string, mode: nat, score: nat, payload: Payload)

  /** A global ranking record: an entry under a store-generated identity. */
  datatype Record = Record(recordId: nat, entry: Entry)

  function SlotScore(e: Entry): nat { e.score }

  function RecordScore(r: Record): nat { r.entry.score }

  function EntryMode(e: Entry): nat { e.mode }

  function RecordMode(r: Record): nat { r.entry.mode }

  /** The slots of `s` whose mode is `m`, in their order (`filter((r) => r.mode == mode)`). */
  function SlotsOfMode(s: seq<Entry>, m: nat): (r: seq<Entry>)
    ensures |r| <= |s|
    ensures forall x :: x in r <==> x in s && x.mode == m
  {
    assert forall x :: x in s && x.mode == m ==> x in Filter(EntryMode, m, s) by {
      forall x | x in s && x.mode == m {
        FilterKeeps(EntryMode, m, s, x);
      }
    }
    Filter(EntryMode, m, s)
  }

  /** How many slots of mode `m` a personal list holds. */
  function CountOfMode(s: seq<Entry>, m: nat): nat
  {
    |SlotsOfMode(s, m)|
  }

  /** The records of `s` whose mode is `m`, in store order (`Ranking.find({ mode })`). */
  function RecordsOfMode(s: seq<Record>, m: nat): (r: seq<Record>)
    ensures |r| <= |s|
    ensures forall x :: x in r <==> x in s && x.entry.mode == m
  {
    assert forall x :: x in s && x.entry.mode == m ==> x in Filter(RecordMode, m, s) by {
      forall x | x in s && x.entry.mode == m {
        FilterKeeps(RecordMode, m, s, x);
      }
    }
    Filter(RecordMode, m, s)
  }
}
