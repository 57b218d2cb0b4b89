/**
 * The replay directory `rep/`: the upload lands under the fixed name `temp`
 * (routes.js names every upload so) and a kept replay is named after the id
 * of the ranking record it belongs to (`<recordId>.rep`).
 */
module Replays {

  /** A file name in `rep/`. */
  datatype Name = Temp | Rep(recordId: nat)

  type Blob = seq<bv8>

  type Dir = map<Name, Blob>

  /** A file-system call the engine issues. */
  datatype Op = Unlink(name: Name) | Rename(src: Name, dst: Name)

  /** The directory after one call, and whether the call succeeded. */
  datatype Step = Step(dir: Dir, ok: bool)

  /**
   * `fs.unlink` fails when the file is missing; `fs.rename` fails when the
   * source is missing and otherwise replaces whatever the target held.
   */
  function ApplyOp(d: Dir, op: Op): (s: Step)
    ensures s.ok <==> (match op case Unlink(n) => n in d case Rename(src, _) => src in d)
    ensures !s.ok ==> s.dir == d
    ensures op.Unlink? && s.ok ==> s.dir.Keys == d.Keys - {op.name}
    ensures op.Rename? && s.ok && op.src != op.dst ==>
              s.dir.Keys == d.Keys - {op.src} + {op.dst} && s.dir[op.dst] == d[op.src]
  {
    match op
    case Unlink(n) =>
      if n in d then Step(d - {n}, true) else Step(d, false)
    case Rename(src, dst) =>
      if src !in d then Step(d, false)
      else if src == dst then Step(d, true)
      else Step((d - {src})[dst := d[src]], true)
  }

  /** The result of issuing several calls in order. */
  datatype Run = Run(dir: Dir, failed: seq<Op>)

  /** Apply the calls in order; a failing call leaves the directory as it was. */
  function ApplyOps(d: Dir, ops: seq<Op>): (r: Run)
    ensures forall op :: op in r.failed ==> op in ops
    decreases |ops|
  {
    if ops == [] then Run(d, [])
    else
      var s := ApplyOp(d, ops[0]);
      var rest := ApplyOps(s.dir, ops[1..]);
      Run(rest.dir, (if s.ok then [] else [ops[0]]) + rest.failed)
  }

  /** Issuing one call, then another. */
  lemma ApplyTwo(d: Dir, a: Op, b: Op)
    ensures var s := ApplyOp(d, a);
            ApplyOps(d, [a]) == Run(s.dir, if s.ok then [] else [a])
    ensures var s := ApplyOp(d, a);
            var t := ApplyOp(s.dir, b);
            ApplyOps(d, [a, b]) == Run(t.dir, (if s.ok then [] else [a]) + (if t.ok then [] else [b]))
  {
    assert [a][1..] == [];
    assert [a, b][1..] == [b];
    var s := ApplyOp(d, a);
    assert [b][1..] == [];
    assert ApplyOps(s.dir, [b]) == Run(ApplyOp(s.dir, b).dir, if ApplyOp(s.dir, b).ok then [] else [b]);
  }

  /** Whether a call disposes of the staged upload, by renaming or by unlinking it. */
  predicate DisposesTemp(op: Op)
  {
    match op
    case Unlink(n) => n == Temp
    case Rename(src, _) => src == Temp
  }

  /** How many calls dispose of the staged upload. */
  function TempDisposals(ops: seq<Op>): (k: nat)
    ensures k <= |ops|
    ensures k == 0 <==> forall i :: 0 <= i < |ops| ==> !DisposesTemp(ops[i])
  {
    if ops == [] then 0
    else (if DisposesTemp(ops[0]) then 1 else 0) + TempDisposals(ops[1..])
  }
}
