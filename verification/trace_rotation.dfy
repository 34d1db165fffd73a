/** The rotating trace log (src/trade_trace/dispatch_trace.py).

    File 0 is the live log and file `i` the `i`-th rotated one.  Any file operation of a rotation
    may raise `OSError`, which abandons the rest of it; `budget` counts the operations that
    succeed first. */
module TraceRotation {
  import opened Outcomes

  type Files = map<nat, seq<string>>

  datatype Limits = Limits(maxBytes: nat, maxFiles: nat)

  ghost predicate ValidLimits(l: Limits) {
    l.maxBytes > 0 && l.maxFiles > 0
  }

  function Size(lines: seq<string>): nat {
    if lines == [] then 0 else |lines[0]| + Size(lines[1..])
  }

  // ---- one rotation ----

  /** Move files `idx`, `idx - 1`, ..., 0 up by one. */
  function ShiftUp(files: Files, idx: nat, budget: nat): Files
    decreases idx
  {
    if idx !in files then if idx == 0 then files else ShiftUp(files, idx - 1, budget)
    else if budget == 0 then files
    else
      var moved := (files - {idx})[idx + 1 := files[idx]];
      if idx == 0 then moved else ShiftUp(moved, idx - 1, budget - 1)
  }

  predicate Due(files: Files, l: Limits) {
    0 in files && Size(files[0]) >= l.maxBytes
  }

  function Rotated(files: Files, l: Limits, budget: nat): Files
    requires l.maxFiles > 0
  {
    if !Due(files, l) || budget == 0 then files
    else ShiftUp(files - {l.maxFiles}, l.maxFiles - 1, budget - 1)
  }

  /** A rotation that may fail, then an append that may fail. */
  datatype Emission = Emission(line: string, budget: nat, written: bool)

  function Emitted(files: Files, l: Limits, e: Emission): Files
    requires l.maxFiles > 0
  {
    var rotated := Rotated(files, l, e.budget);
    if !e.written then rotated
    else rotated[0 := (if 0 in rotated then rotated[0] else []) + [e.line]]
  }

  class TraceLog {
    const limits: Limits
    var files: Files

    constructor (limits: Limits)
      ensures this.limits == limits && files == map[]
    {
      this.limits, files := limits, map[];
    }

    /** `_rotate`. */
    method Rotate(budget: nat)
      requires ValidLimits(limits)
      modifies this`files
      ensures files == Rotated(old(files), limits, budget)
    {
      if 0 !in files || Size(files[0]) < limits.maxBytes {
        return;
      }
      if budget == 0 {
        return;
      }
      files := files - {limits.maxFiles};
      ghost var start := files;
      var left, idx := budget - 1, limits.maxFiles - 1;
      while idx > 0
        invariant 0 <= idx < limits.maxFiles && left >= 0
        invariant ShiftUp(files, idx, left) == ShiftUp(start, limits.maxFiles - 1, budget - 1)
        invariant 0 in files
      {
        if idx in files {
          if left == 0 {
            return;
          }
          files := (files - {idx})[idx + 1 := files[idx]];
          left := left - 1;
        }
        idx := idx - 1;
      }
      if left > 0 {
        files := (files - {0})[1 := files[0]];
      }
    }

    /** `emit`, from the rotation on. */
    method Emit(e: Emission)
      requires ValidLimits(limits)
      modifies this`files
      ensures files == Emitted(old(files), limits, e)
    {
      Rotate(e.budget);
      if !e.written {
        return;
      }
      if 0 in files {
        files := files[0 := files[0] + [e.line]];
      } else {
        assert [] + [e.line] == [e.line];
        files := files[0 := [e.line]];
      }
    }
  }

  // ---- what the files hold ----

  function Get(files: Files, i: nat): seq<string> {
    if i in files then files[i] else []
  }

  /** Files `n`, `n - 1`, ..., 0: oldest line first. */
  function Contents(files: Files, n: nat): seq<string> {
    if n == 0 then Get(files, 0) else Get(files, n) + Contents(files, n - 1)
  }

  ghost predicate Bounded(files: Files, l: Limits) {
    forall i :: i in files ==> i <= l.maxFiles
  }

  lemma {:induction false} ContentsCongruent(a: Files, b: Files, n: nat)
    requires forall i :: 0 <= i <= n ==> Get(a, i) == Get(b, i)
    ensures Contents(a, n) == Contents(b, n)
  {
    if n > 0 {
      ContentsCongruent(a, b, n - 1);
    }
  }

  lemma {:induction false} MoveKeepsContents(files: Files, idx: nat, n: nat)
    requires idx in files && idx + 1 !in files && idx + 1 <= n
    ensures Contents((files - {idx})[idx + 1 := files[idx]], n) == Contents(files, n)
  {
    var moved := (files - {idx})[idx + 1 := files[idx]];
    if n > idx + 1 {
      assert Get(moved, n) == Get(files, n);
      MoveKeepsContents(files, idx, n - 1);
    } else {
      assert Get(moved, n) == files[idx] && Get(files, n) == [];
      assert Contents(moved, n) == files[idx] + Contents(moved, idx);
      if idx == 0 {
        assert Contents(moved, 0) == [];
      } else {
        assert Get(moved, idx) == [];
        ContentsCongruent(moved, files, idx - 1);
      }
    }
  }

  lemma {:induction false} ShiftKeepsContents(files: Files, idx: nat, budget: nat, l: Limits)
    requires idx < l.maxFiles && idx + 1 !in files && Bounded(files, l)
    ensures Contents(ShiftUp(files, idx, budget), l.maxFiles) == Contents(files, l.maxFiles)
    ensures Bounded(ShiftUp(files, idx, budget), l)
    decreases idx
  {
    if idx in files && budget > 0 {
      var moved := (files - {idx})[idx + 1 := files[idx]];
      MoveKeepsContents(files, idx, l.maxFiles);
      if idx > 0 {
        ShiftKeepsContents(moved, idx - 1, budget - 1, l);
      }
    } else if idx !in files && idx > 0 {
      ShiftKeepsContents(files, idx - 1, budget, l);
    }
  }

  /** A rotation forgets at most the oldest file and keeps the rest in order, however far it
      gets. */
  lemma RotationForgetsOldest(files: Files, l: Limits, budget: nat)
    requires ValidLimits(l) && Bounded(files, l)
    ensures Bounded(Rotated(files, l, budget), l)
    ensures var after := Contents(Rotated(files, l, budget), l.maxFiles);
            after == Contents(files, l.maxFiles) || Get(files, l.maxFiles) + after == Contents(files, l.maxFiles)
  {
    if Due(files, l) && budget > 0 {
      var kept := files - {l.maxFiles};
      ShiftKeepsContents(kept, l.maxFiles - 1, budget - 1, l);
      ContentsCongruent(kept, files, l.maxFiles - 1);
      assert Get(kept, l.maxFiles) == [];
    }
  }

  /** Every completed rotation frees the live file and moves each rotated file up one. */
  lemma {:induction false} ShiftMovesEach(files: Files, idx: nat, budget: nat, i: nat)
    requires idx + 1 !in files && budget > idx
    ensures i <= idx ==> (i + 1 in ShiftUp(files, idx, budget) <==> i in files)
    ensures i <= idx && i in files ==> ShiftUp(files, idx, budget)[i + 1] == files[i]
    ensures 0 !in ShiftUp(files, idx, budget)
    ensures i > idx + 1 ==> (i in ShiftUp(files, idx, budget) <==> i in files) && (i in files ==> ShiftUp(files, idx, budget)[i] == files[i])
    decreases idx
  {
    var moved := if idx in files then (files - {idx})[idx + 1 := files[idx]] else files;
    if idx > 0 {
      var left := if idx in files then budget - 1 else budget;
      ShiftMovesEach(moved, idx - 1, left, i);
      ShiftMovesEach(moved, idx - 1, left, idx + 1);
    }
  }

  /** The log is rotated exactly when the live file has reached its limit: then, if nothing fails,
      every file moves up by one, the oldest is gone and the live one is free; otherwise nothing
      moves. */
  lemma RotatesWhenFull(files: Files, l: Limits, budget: nat, i: nat)
    requires ValidLimits(l) && budget > l.maxFiles
    ensures 0 !in files || Size(files[0]) < l.maxBytes ==> Rotated(files, l, budget) == files
    ensures 0 in files && Size(files[0]) >= l.maxBytes ==>
              var after := Rotated(files, l, budget);
              && 0 !in after
              && (i < l.maxFiles ==> (i + 1 in after <==> i in files) && (i in files ==> after[i + 1] == files[i]))
  {
    if 0 in files && Size(files[0]) >= l.maxBytes {
      ShiftMovesEach(files - {l.maxFiles}, l.maxFiles - 1, budget - 1, i);
    }
  }

  /** So in a run in which every rotation completes, the live file was below its limit before its
      last line. */
  lemma {:induction false} LiveFileIsBounded(l: Limits, run: seq<Emission>)
    requires ValidLimits(l) && forall e :: e in run ==> e.budget > l.maxFiles
    ensures var files := After(l, run);
            0 in files ==> files[0] != [] && Size(files[0][..|files[0]| - 1]) < l.maxBytes
    decreases |run|
  {
    if run != [] {
      var before, e := run[..|run| - 1], run[|run| - 1];
      assert e in run;
      LiveFileIsBounded(l, before);
      RotatesWhenFull(After(l, before), l, e.budget, 0);
      var rotated, files := Rotated(After(l, before), l, e.budget), After(l, run);
      if e.written {
        var live := if 0 in rotated then rotated[0] else [];
        assert files[0] == live + [e.line] && files[0][..|files[0]| - 1] == live;
      }
    }
  }

  lemma AppendExtends(files: Files, line: string, n: nat)
    ensures Contents(files[0 := Get(files, 0) + [line]], n) == Contents(files, n) + [line]
  {
    var after := files[0 := Get(files, 0) + [line]];
    if n > 0 {
      AppendExtends(files, line, n - 1);
      assert Get(after, n) == Get(files, n);
    }
  }

  // ---- runs ----

  ghost predicate IsSuffix(a: seq<string>, b: seq<string>) {
    |a| <= |b| && b[|b| - |a|..] == a
  }

  lemma SuffixOfRest(front: seq<string>, a: seq<string>, b: seq<string>)
    requires IsSuffix(front + a, b)
    ensures IsSuffix(a, b)
  {
    assert b[|b| - |a|..] == b[|b| - |front + a|..][|front|..];
  }

  lemma SuffixExtends(a: seq<string>, b: seq<string>, line: string)
    requires IsSuffix(a, b)
    ensures IsSuffix(a + [line], b + [line])
  {
    assert (b + [line])[|b| - |a|..] == b[|b| - |a|..] + [line];
  }

  function After(l: Limits, run: seq<Emission>): Files
    requires l.maxFiles > 0
  {
    if run == [] then map[] else Emitted(After(l, run[..|run| - 1]), l, run[|run| - 1])
  }

  function WrittenLines(run: seq<Emission>): seq<string> {
    if run == [] then []
    else WrittenLines(run[..|run| - 1]) + if run[|run| - 1].written then [run[|run| - 1].line] else []
  }

  lemma EmissionStep(files: Files, l: Limits, e: Emission, lines: seq<string>)
    requires ValidLimits(l) && Bounded(files, l) && IsSuffix(Contents(files, l.maxFiles), lines)
    ensures Bounded(Emitted(files, l, e), l)
    ensures IsSuffix(Contents(Emitted(files, l, e), l.maxFiles), lines + if e.written then [e.line] else [])
  {
    var rotated := Rotated(files, l, e.budget);
    RotationForgetsOldest(files, l, e.budget);
    var kept := Contents(rotated, l.maxFiles);
    if kept != Contents(files, l.maxFiles) {
      SuffixOfRest(Get(files, l.maxFiles), kept, lines);
    }
    if e.written {
      AppendExtends(rotated, e.line, l.maxFiles);
      SuffixExtends(kept, lines, e.line);
    } else {
      assert lines + [] == lines;
    }
  }

  /** From a fresh start, whatever fails: the rotated files, oldest first, and the live file are
      together always a suffix of the lines written - none reordered, repeated or missing in
      between - and there are at most `maxFiles` rotated files. */
  lemma {:induction false} LogIsSuffix(l: Limits, run: seq<Emission>)
    requires ValidLimits(l)
    ensures Bounded(After(l, run), l)
    ensures IsSuffix(Contents(After(l, run), l.maxFiles), WrittenLines(run))
    decreases |run|
  {
    if run == [] {
      EmptyContents(l.maxFiles);
    } else {
      var before := run[..|run| - 1];
      LogIsSuffix(l, before);
      EmissionStep(After(l, before), l, run[|run| - 1], WrittenLines(before));
    }
  }

  lemma {:induction false} EmptyContents(n: nat)
    ensures Contents(map[], n) == []
  {
    if n > 0 {
      EmptyContents(n - 1);
    }
  }
}
