/** The copy loop of 14.advio/05_rot13.c and the kernel that serves its requests, as a
    state machine.  The program passes over its slots again and again; between any two
    of its steps the kernel may complete any pending request. */
module AioCopy {
  import opened Sequences

  const BSZ := 4096
  const NBUF := 8
  const INT_MAX := 0x7FFF_FFFF

  datatype Op = Unused | ReadPending | WritePending

  /** A struct aio_wrap with its aiocb.  `done` and `result` are what aio_error and
      aio_return will report; `listed` says that aio_list points to this request. */
  datatype Slot = Slot(op: Op, last: bool, offset: nat, nbytes: nat, data: seq<Byte>,
                       listed: bool, done: bool, result: nat)

  datatype Status = Running | Exited | Failed

  /** `at` is the index of the for loop, `passes` how many passes have begun. */
  datatype State = State(slots: seq<Slot>, offset: nat, pending: int, output: seq<Byte>,
                         at: nat, passes: nat, status: Status)

  function Zeros(n: nat): (z: seq<Byte>)
    ensures |z| == n
  {
    seq(n, _ => 0)
  }

  function Init(): State {
    State(seq(NBUF, _ => Slot(Unused, false, 0, 0, Zeros(BSZ), false, false, 0)), 0, 0, [], 0, 1, Running)
  }

  // ----- the kernel -----

  /** How many bytes a read of `nbytes` at `offset` returns. */
  function ReadCount(size: nat, offset: nat, nbytes: nat): nat {
    if size <= offset then 0 else if size - offset < nbytes then size - offset else nbytes
  }

  /** A file after a write: a gap before `offset` reads as zeros. */
  function WriteAt(file: seq<Byte>, offset: nat, bytes: seq<Byte>): (r: seq<Byte>) {
    var padded := if |file| < offset then file + Zeros(offset - |file|) else file;
    padded[..offset] + bytes + (if offset + |bytes| <= |padded| then padded[offset + |bytes|..] else [])
  }

  predicate Servable(s: State, j: nat) {
    j < |s.slots| && s.slots[j].op != Unused && !s.slots[j].done
  }

  /** The kernel completes the request of slot `j`. */
  function Serve(input: seq<Byte>, s: State, j: nat): State
    requires Servable(s, j)
  {
    var w := s.slots[j];
    if w.op.ReadPending? then
      var n := ReadCount(|input|, w.offset, w.nbytes);
      var chunk := if n == 0 then [] else input[w.offset..w.offset + n];
      var rest := if n <= |w.data| then w.data[n..] else [];
      s.(slots := s.slots[j := w.(data := chunk + rest, done := true, result := n)])
    else
      var n := if w.nbytes <= |w.data| then w.nbytes else |w.data|;
      s.(slots := s.slots[j := w.(done := true, result := n)], output := WriteAt(s.output, w.offset, w.data[..n]))
  }

  // ----- the program -----

  /** The switch on the slot at the loop index. */
  function Examine(size: nat, s: State): State
    requires s.at < |s.slots|
  {
    var i, w := s.at, s.slots[s.at];
    var s := s.(at := s.at + 1);
    match w.op
    case Unused =>
      if s.offset >= size then s
      else
        var next := s.offset + BSZ;
        var w' := w.(op := ReadPending, offset := s.offset, last := w.last || next >= size,
                     nbytes := BSZ, listed := true, done := false);
        s.(slots := s.slots[i := w'], offset := next, pending := s.pending + 1)
    case ReadPending =>
      if !w.done then s
      else if w.result != BSZ && !w.last then s.(status := Failed)
      else s.(slots := s.slots[i := w.(op := WritePending, nbytes := w.result, done := false)])
    case WritePending =>
      if !w.done then s
      else if w.result != w.nbytes then s.(status := Failed)
      else s.(slots := s.slots[i := w.(op := Unused, listed := false, done := false)], pending := s.pending - 1)
  }

  /** aio_suspend returns: some listed request has completed. */
  predicate Wakes(s: State) {
    exists j :: 0 <= j < |s.slots| && s.slots[j].listed && s.slots[j].done
  }

  /** The program can take its next step; only aio_suspend makes it wait. */
  predicate Proceeds(size: nat, s: State) {
    && s.status.Running? && |s.slots| == NBUF
    && (s.at < NBUF || s.pending == 0 || Wakes(s))
  }

  /** One slot, or what follows the pass. */
  function Proceed(size: nat, s: State): State
    requires Proceeds(size, s)
  {
    if s.at < NBUF then Examine(size, s)
    else if s.pending == 0 && s.offset >= size then s.(status := Exited)
    else s.(at := 0, passes := s.passes + 1)
  }

  // ----- blocks -----

  function Min(a: nat, b: nat): nat {
    if a < b then a else b
  }

  function Blocks(size: nat): nat {
    (size + BSZ - 1) / BSZ
  }

  /** The block that starts at `k` is in the output. */
  ghost predicate Landed(input: seq<Byte>, output: seq<Byte>, k: nat) {
    var end := Min(k + BSZ, |input|);
    k <= end <= |output| && output[k..end] == input[k..end]
  }

  lemma WriteAtReads(file: seq<Byte>, offset: nat, bytes: seq<Byte>)
    ensures var r := WriteAt(file, offset, bytes);
            && |r| == (if |file| < offset + |bytes| then offset + |bytes| else |file|)
            && (forall x :: 0 <= x < |file| && !(offset <= x < offset + |bytes|) ==> r[x] == file[x])
            && r[offset..offset + |bytes|] == bytes
            && (forall x :: |file| <= x < offset ==> r[x] == 0)
  {
  }

  lemma WriteLandsOnlyItsBlock(input: seq<Byte>, output: seq<Byte>, k: nat, bytes: seq<Byte>)
    requires k % BSZ == 0 && k < |input| && |output| <= |input|
    requires bytes == input[k..Min(k + BSZ, |input|)]
    ensures Landed(input, WriteAt(output, k, bytes), k)
    ensures |WriteAt(output, k, bytes)| <= |input|
    ensures forall b: nat :: b % BSZ == 0 && Landed(input, output, b) ==> Landed(input, WriteAt(output, k, bytes), b)
  {
    hide WriteAt;
    WriteAtReads(output, k, bytes);
    var r := WriteAt(output, k, bytes);
    var end := Min(k + BSZ, |input|);
    assert r[k..end] == bytes;
    forall b: nat | b % BSZ == 0 && Landed(input, output, b)
      ensures Landed(input, r, b)
    {
      var e := Min(b + BSZ, |input|);
      if b != k {
        assert e <= k || end <= b || b == e;
        assert forall x :: b <= x < e ==> r[x] == output[x];
        assert r[b..e] == output[b..e];
      }
    }
  }

  // ----- what every step keeps -----

  /** Slot `w` is idle, or owns the block at its offset and has it in the right stage. */
  ghost predicate SlotInv(input: seq<Byte>, offset: nat, output: seq<Byte>, w: Slot) {
    && |w.data| == BSZ
    && (w.listed <==> w.op != Unused)
    && (w.op == Unused ==> !w.done && (w.last ==> offset >= |input|))
    && (w.op != Unused ==>
          && w.offset % BSZ == 0 && w.offset < offset && w.offset < |input|
          && (w.last <==> w.offset + BSZ >= |input|)
          && StageInv(input, output, w, Min(BSZ, |input| - w.offset)))
  }

  ghost predicate StageInv(input: seq<Byte>, output: seq<Byte>, w: Slot, n: nat)
    requires w.offset + n <= |input| && |w.data| == BSZ >= n
  {
    && (w.op == ReadPending ==> w.nbytes == BSZ)
    && (w.op == WritePending ==> w.nbytes == n)
    && (w.op == WritePending || w.done ==> w.data[..n] == input[w.offset..w.offset + n])
    && (w.done ==> w.result == n)
    && (w.done && w.op == WritePending ==> Landed(input, output, w.offset))
  }

  predicate Owns(slots: seq<Slot>, i: nat, k: nat) {
    i < |slots| && slots[i].op != Unused && slots[i].offset == k
  }

  ghost predicate Distinct(slots: seq<Slot>) {
    forall i, j, k :: Owns(slots, i, k) && Owns(slots, j, k) ==> i == j
  }

  /** Each block below `offset` is in the output or owned by a slot. */
  ghost predicate Accounted(input: seq<Byte>, slots: seq<Slot>, offset: nat, output: seq<Byte>) {
    forall k: nat :: k < offset && k % BSZ == 0 ==> Landed(input, output, k) || exists i :: Owns(slots, i, k)
  }

  ghost predicate SlotsInv(input: seq<Byte>, slots: seq<Slot>, offset: nat, output: seq<Byte>) {
    && |slots| == NBUF
    && offset % BSZ == 0 && offset <= Blocks(|input|) * BSZ
    && |output| <= |input|
    && (forall i :: 0 <= i < NBUF ==> SlotInv(input, offset, output, slots[i]))
    && Distinct(slots)
    && Accounted(input, slots, offset, output)
  }

  /** The sum over the slots of a weight for their state. */
  function Total(slots: seq<Slot>, weight: Slot -> nat): nat {
    if slots == [] then 0 else weight(slots[0]) + Total(slots[1..], weight)
  }

  function Busy(w: Slot): nat {
    if w.op.Unused? then 0 else 1
  }

  /** How often a slot still advances before it is idle again. */
  function Stages(w: Slot): nat {
    match w.op
    case Unused => 0
    case ReadPending => 2
    case WritePending => 1
  }

  /** How many completions a slot still needs before it is idle again. */
  function Requests(w: Slot): nat {
    if w.op.Unused? || w.done then Stages(w) - Busy(w) else Stages(w)
  }

  ghost predicate Inv(input: seq<Byte>, s: State) {
    && SlotsInv(input, s.slots, s.offset, s.output)
    && s.at <= NBUF
    && s.pending == Total(s.slots, Busy)
    && !s.status.Failed?
    && (s.status.Exited? ==> s.pending == 0 && s.offset >= |input|)
  }

  // ----- the three ways in which a slot changes -----

  ghost predicate KeepsLanded(input: seq<Byte>, before: seq<Byte>, after: seq<Byte>) {
    && |after| <= |input|
    && forall k: nat :: k % BSZ == 0 && Landed(input, before, k) ==> Landed(input, after, k)
  }

  lemma SlotStays(input: seq<Byte>, offset: nat, output: seq<Byte>, offset': nat, output': seq<Byte>, w: Slot)
    requires SlotInv(input, offset, output, w) && offset <= offset' && KeepsLanded(input, output, output')
    ensures SlotInv(input, offset', output', w)
  {
  }

  lemma OthersStay(input: seq<Byte>, slots: seq<Slot>, offset: nat, output: seq<Byte>,
                   i: nat, slots': seq<Slot>, offset': nat, output': seq<Byte>)
    requires SlotsInv(input, slots, offset, output) && i < NBUF == |slots'| && slots' == slots[i := slots'[i]]
    requires offset <= offset' && KeepsLanded(input, output, output') && SlotInv(input, offset', output', slots'[i])
    ensures forall j :: 0 <= j < NBUF ==> SlotInv(input, offset', output', slots'[j])
    ensures forall j: nat, k: nat :: j != i ==> (Owns(slots', j, k) <==> Owns(slots, j, k))
  {
    hide SlotInv;
    forall j | 0 <= j < NBUF
      ensures SlotInv(input, offset', output', slots'[j])
    {
      if j != i {
        assert slots'[j] == slots[j];
        SlotStays(input, offset, output, offset', output', slots[j]);
      }
    }
  }

  lemma StageKeeps(input: seq<Byte>, slots: seq<Slot>, offset: nat, output: seq<Byte>,
                   i: nat, slots': seq<Slot>, output': seq<Byte>)
    requires SlotsInv(input, slots, offset, output) && i < NBUF == |slots'| && slots' == slots[i := slots'[i]]
    requires KeepsLanded(input, output, output') && SlotInv(input, offset, output', slots'[i])
    requires slots[i].op != Unused && slots'[i].op != Unused && slots'[i].offset == slots[i].offset
    ensures SlotsInv(input, slots', offset, output')
  {
    hide SlotInv, Landed;
    OthersStay(input, slots, offset, output, i, slots', offset, output');
    assert forall j: nat, k: nat :: Owns(slots', j, k) <==> Owns(slots, j, k);
    forall k: nat | k < offset && k % BSZ == 0 && !Landed(input, output', k)
      ensures exists j :: Owns(slots', j, k)
    {
      var j :| Owns(slots, j, k);
      assert Owns(slots', j, k);
    }
  }

  lemma StartKeeps(input: seq<Byte>, slots: seq<Slot>, offset: nat, output: seq<Byte>, i: nat, slots': seq<Slot>)
    requires SlotsInv(input, slots, offset, output) && i < NBUF == |slots'| && slots' == slots[i := slots'[i]]
    requires offset < |input| && SlotInv(input, offset + BSZ, output, slots'[i])
    requires slots[i].op == Unused && slots'[i].op != Unused && slots'[i].offset == offset
    ensures SlotsInv(input, slots', offset + BSZ, output)
  {
    OthersStay(input, slots, offset, output, i, slots', offset + BSZ, output);
    assert forall j: nat, k: nat :: Owns(slots, j, k) ==> k < offset;
    hide SlotInv, Landed;
    assert Owns(slots', i, offset);
    forall k: nat | k < offset + BSZ && k % BSZ == 0 && !Landed(input, output, k)
      ensures exists j :: Owns(slots', j, k)
    {
      if k < offset {
        var j :| Owns(slots, j, k);
        assert Owns(slots', j, k);
      }
    }
  }

  lemma FinishKeeps(input: seq<Byte>, slots: seq<Slot>, offset: nat, output: seq<Byte>, i: nat, slots': seq<Slot>)
    requires SlotsInv(input, slots, offset, output) && i < NBUF == |slots'| && slots' == slots[i := slots'[i]]
    requires SlotInv(input, offset, output, slots'[i])
    requires Landed(input, output, slots[i].offset) && slots'[i].op == Unused
    ensures SlotsInv(input, slots', offset, output)
  {
    hide SlotInv, Landed;
    OthersStay(input, slots, offset, output, i, slots', offset, output);
    forall k: nat | k < offset && k % BSZ == 0 && !Landed(input, output, k)
      ensures exists j :: Owns(slots', j, k)
    {
      var j :| Owns(slots, j, k);
      assert Owns(slots', j, k);
    }
  }

  // ----- what every step keeps, proved -----

  lemma {:induction false} TotalUpdate(slots: seq<Slot>, weight: Slot -> nat, i: nat, w: Slot)
    requires i < |slots|
    ensures Total(slots[i := w], weight) == Total(slots, weight) - weight(slots[i]) + weight(w)
  {
    if i == 0 {
      assert slots[i := w][1..] == slots[1..];
    } else {
      assert slots[i := w][1..] == slots[1..][i - 1 := w];
      TotalUpdate(slots[1..], weight, i - 1, w);
    }
  }

  lemma {:induction false} TotalZero(slots: seq<Slot>, weight: Slot -> nat)
    ensures Total(slots, weight) == 0 <==> forall i :: 0 <= i < |slots| ==> weight(slots[i]) == 0
  {
    if slots == [] {
    } else {
      TotalZero(slots[1..], weight);
      assert forall i :: 1 <= i < |slots| ==> slots[i] == slots[1..][i - 1];
    }
  }

  lemma InitInv(input: seq<Byte>)
    ensures Inv(input, Init())
  {
    TotalZero(Init().slots, Busy);
  }

  lemma ServedSlot(input: seq<Byte>, s: State, j: nat)
    requires Inv(input, s) && Servable(s, j)
    ensures var s' := Serve(input, s, j);
            KeepsLanded(input, s.output, s'.output) && SlotInv(input, s.offset, s'.output, s'.slots[j])
  {
    hide Accounted, Distinct, WriteAt, Landed;
    var s', w := Serve(input, s, j), s.slots[j];
    var n := Min(BSZ, |input| - w.offset);
    assert SlotInv(input, s.offset, s.output, w);
    if w.op == WritePending {
      WriteLandsOnlyItsBlock(input, s.output, w.offset, w.data[..n]);
    } else {
      assert s'.slots[j].data[..n] == input[w.offset..w.offset + n];
    }
  }

  lemma ServeKeepsInv(input: seq<Byte>, s: State, j: nat)
    requires Inv(input, s) && Servable(s, j)
    ensures Inv(input, Serve(input, s, j))
  {
    hide SlotInv, Accounted, Distinct, WriteAt, KeepsLanded;
    var s' := Serve(input, s, j);
    ServedSlot(input, s, j);
    StageKeeps(input, s.slots, s.offset, s.output, j, s'.slots, s'.output);
    TotalUpdate(s.slots, Busy, j, s'.slots[j]);
  }

  lemma ExamineKeepsInv(input: seq<Byte>, s: State)
    requires Inv(input, s) && s.status.Running? && s.at < NBUF
    ensures Inv(input, Examine(|input|, s)) && !Examine(|input|, s).status.Failed?
  {
    hide Accounted, Distinct, Landed;
    var s', w := Examine(|input|, s), s.slots[s.at];
    var w' := s'.slots[s.at];
    assert SlotInv(input, s.offset, s.output, w);
    TotalUpdate(s.slots, Busy, s.at, w');
    if s'.slots == s.slots {
    } else if w.op == Unused {
      StartKeeps(input, s.slots, s.offset, s.output, s.at, s'.slots);
    } else if w.op == ReadPending {
      StageKeeps(input, s.slots, s.offset, s.output, s.at, s'.slots, s.output);
    } else {
      FinishKeeps(input, s.slots, s.offset, s.output, s.at, s'.slots);
    }
  }

  // ----- how many passes it takes -----

  /** How often slots still advance: three times for each block. */
  function Left(size: nat, slots: seq<Slot>, offset: nat): int {
    3 * (Blocks(size) - offset / BSZ) + Total(slots, Stages)
  }

  /** Slot `j` will advance when the loop comes to it. */
  predicate Ready(size: nat, s: State, j: nat) {
    j < |s.slots| && if s.slots[j].op.Unused? then s.offset < size else s.slots[j].done
  }

  /** Each pass over a non-empty file has advanced a slot, or will before it ends. */
  ghost predicate Pace(size: nat, s: State) {
    && s.passes >= 1
    && (size == 0 ==> s.passes == 1)
    && (size > 0 ==> s.passes - 1 + Left(size, s.slots, s.offset) <= 3 * Blocks(size))
    && (size > 0 && s.passes + Left(size, s.slots, s.offset) > 3 * Blocks(size) ==>
          exists j :: s.at <= j && Ready(size, s, j))
  }

  lemma InitPace(size: nat)
    ensures Pace(size, Init())
  {
    TotalZero(Init().slots, Stages);
    assert size > 0 ==> Ready(size, Init(), 0);
  }

  lemma ServeKeepsPace(input: seq<Byte>, s: State, j: nat)
    requires Inv(input, s) && Pace(|input|, s) && Servable(s, j)
    ensures Pace(|input|, Serve(input, s, j))
  {
    var s' := Serve(input, s, j);
    TotalUpdate(s.slots, Stages, j, s'.slots[j]);
    assert forall i :: Ready(|input|, s, i) ==> Ready(|input|, s', i);
  }

  lemma ExamineAdvances(input: seq<Byte>, s: State)
    requires Inv(input, s) && s.status.Running? && s.at < NBUF
    ensures var s' := Examine(|input|, s);
            if Ready(|input|, s, s.at)
            then Left(|input|, s'.slots, s'.offset) == Left(|input|, s.slots, s.offset) - 1
            else s' == s.(at := s.at + 1)
  {
    hide SlotInv, Landed, Accounted, Distinct;
    var s' := Examine(|input|, s);
    ExamineKeepsInv(input, s);
    TotalUpdate(s.slots, Stages, s.at, s'.slots[s.at]);
  }

  lemma ProceedKeepsPace(input: seq<Byte>, s: State)
    requires Inv(input, s) && Pace(|input|, s) && Proceeds(|input|, s)
    ensures Pace(|input|, Proceed(|input|, s))
  {
    hide SlotInv, Landed, Accounted, Distinct, Examine, Left;
    var s' := Proceed(|input|, s);
    if s.at < NBUF {
      ExamineAdvances(input, s);
      ExamineSameLoop(|input|, s);
      if !Ready(|input|, s, s.at) {
        assert forall j :: j >= s.at + 1 && Ready(|input|, s, j) ==> Ready(|input|, s', j);
      }
    } else if s'.status.Running? && s.pending == 0 {
      TotalZero(s.slots, Busy);
      assert Ready(|input|, s', 0);
    } else if s'.status.Running? {
      if input == [] {
        NothingPendingIfEmpty(input, s);
      }
      var j :| 0 <= j < |s.slots| && s.slots[j].listed && s.slots[j].done;
      assert SlotInv(input, s.offset, s.output, s.slots[j]);
      ListedIsBusy(input, s, j);
      assert Ready(|input|, s', j);
    }
  }

  lemma ExamineSameLoop(size: nat, s: State)
    requires s.at < |s.slots|
    ensures var s' := Examine(size, s);
            s'.at == s.at + 1 && s'.passes == s.passes && |s'.slots| == |s.slots|
  {
  }

  lemma ListedIsBusy(input: seq<Byte>, s: State, j: nat)
    requires Inv(input, s) && j < NBUF
    ensures s.slots[j].listed <==> s.slots[j].op != Unused
  {
    assert SlotInv(input, s.offset, s.output, s.slots[j]);
  }

  lemma NothingPendingIfEmpty(input: seq<Byte>, s: State)
    requires Inv(input, s) && input == []
    ensures s.pending == 0 && s.offset == 0
  {
    forall i | 0 <= i < NBUF
      ensures Busy(s.slots[i]) == 0
    {
      assert SlotInv(input, s.offset, s.output, s.slots[i]);
    }
    TotalZero(s.slots, Busy);
  }

  /** The outer loop makes at most max(1, 3 * ceil(size / BSZ)) passes. */
  lemma PaceBounds(input: seq<Byte>, s: State)
    requires Inv(input, s) && Pace(|input|, s)
    ensures s.passes <= if |input| == 0 then 1 else 3 * Blocks(|input|)
  {
    if |input| > 0 && s.passes + Left(|input|, s.slots, s.offset) > 3 * Blocks(|input|) {
      var j :| s.at <= j && Ready(|input|, s, j);
      TotalZero(s.slots, Stages);
    }
  }

  // ----- runs -----

  datatype Action = KernelCompletes(j: nat) | ProgramProceeds

  predicate Enabled(input: seq<Byte>, s: State, a: Action) {
    if a.KernelCompletes? then Servable(s, a.j) else Proceeds(|input|, s)
  }

  function Step(input: seq<Byte>, s: State, a: Action): State
    requires Enabled(input, s, a)
  {
    if a.KernelCompletes? then Serve(input, s, a.j) else Proceed(|input|, s)
  }

  predicate Runs(input: seq<Byte>, s: State, run: seq<Action>)
    decreases |run|
  {
    run == [] || (Enabled(input, s, run[0]) && Runs(input, Step(input, s, run[0]), run[1..]))
  }

  function After(input: seq<Byte>, s: State, run: seq<Action>): State
    requires Runs(input, s, run)
    decreases |run|
  {
    if run == [] then s else After(input, Step(input, s, run[0]), run[1..])
  }

  lemma StepKeeps(input: seq<Byte>, s: State, a: Action)
    requires Inv(input, s) && Pace(|input|, s) && Enabled(input, s, a)
    ensures Inv(input, Step(input, s, a)) && Pace(|input|, Step(input, s, a))
  {
    hide SlotsInv, Pace, Examine, Serve;
    if a.KernelCompletes? {
      ServeKeepsInv(input, s, a.j);
      ServeKeepsPace(input, s, a.j);
    } else {
      ProceedKeepsPace(input, s);
      if s.at < NBUF {
        ExamineKeepsInv(input, s);
      }
    }
  }

  lemma {:induction false} RunKeeps(input: seq<Byte>, s: State, run: seq<Action>)
    requires Inv(input, s) && Pace(|input|, s) && Runs(input, s, run)
    ensures Inv(input, After(input, s, run)) && Pace(|input|, After(input, s, run))
    decreases |run|
  {
    hide Inv, Pace;
    if run == [] {
    } else {
      StepKeeps(input, s, run[0]);
      RunKeeps(input, Step(input, s, run[0]), run[1..]);
    }
  }

  lemma ExitedMeansCopied(input: seq<Byte>, s: State)
    requires Inv(input, s) && s.status.Exited?
    ensures s.output == input && s.offset == Blocks(|input|) * BSZ
  {
    TotalZero(s.slots, Busy);
    forall k: nat | k < s.offset && k % BSZ == 0
      ensures Landed(input, s.output, k)
    {
      assert forall i :: !Owns(s.slots, i, k);
    }
    if |input| > 0 {
      var k := (|input| - 1) / BSZ * BSZ;
      assert k % BSZ == 0 && k < |input| <= k + BSZ;
      assert Landed(input, s.output, k);
    }
    forall p | 0 <= p < |input|
      ensures s.output[p] == input[p]
    {
      var k := p / BSZ * BSZ;
      assert k % BSZ == 0;
      assert Landed(input, s.output, k);
      var end := Min(k + BSZ, |input|);
      assert s.output[p] == s.output[k..end][p - k] && input[p] == input[k..end][p - k];
    }
  }

  /** In every run, whatever the size and the order of completions: no error exit is
      taken; the program can go on or waits for a request that the kernel can complete;
      and when the loop ends the output is the input. */
  lemma EveryRunCopies(input: seq<Byte>, run: seq<Action>)
    requires Runs(input, Init(), run)
    ensures var s := After(input, Init(), run);
            && !s.status.Failed?
            && (s.status.Running? ==> exists a :: Enabled(input, s, a))
            && (s.status.Exited? ==> s.output == input && s.offset == Blocks(|input|) * BSZ)
            && s.passes <= (if |input| == 0 then 1 else 3 * Blocks(|input|))
            && s.offset <= Blocks(|input|) * BSZ
  {
    var s := After(input, Init(), run);
    InitInv(input);
    InitPace(|input|);
    RunKeeps(input, Init(), run);
    PaceBounds(input, s);
    if s.status.Exited? {
      ExitedMeansCopied(input, s);
    } else {
      SomethingIsEnabled(input, s);
    }
  }

  /** In every run each block below `offset` is in the output or owned by exactly one
      busy slot; `pending` counts the busy slots; and aio_list names exactly those, so
      that aio_suspend, which is called only if `pending` is not 0, has one to wait for. */
  lemma EveryBlockHasOneOwner(input: seq<Byte>, run: seq<Action>, k: nat, i: nat, j: nat)
    requires Runs(input, Init(), run)
    requires k % BSZ == 0 && k < After(input, Init(), run).offset && i < NBUF && j < NBUF
    ensures var s := After(input, Init(), run);
            && |s.slots| == NBUF && s.offset % BSZ == 0
            && (Landed(input, s.output, k) || exists m :: Owns(s.slots, m, k))
            && (Owns(s.slots, i, k) && Owns(s.slots, j, k) ==> i == j)
            && s.pending == Total(s.slots, Busy)
            && (s.slots[i].listed <==> s.slots[i].op != Unused)
            && (s.pending != 0 ==> exists m :: 0 <= m < NBUF && s.slots[m].listed)
  {
    InitInv(input);
    InitPace(|input|);
    RunKeeps(input, Init(), run);
    var s := After(input, Init(), run);
    ListedIsBusy(input, s, i);
    if s.pending != 0 {
      var m := SomeSlotIsBusy(input, s);
    }
  }

  /** In every run a busy slot is marked as the last exactly if its block reaches the end of
      the input. */
  lemma LastIsTheLastBlock(input: seq<Byte>, run: seq<Action>, i: nat)
    requires Runs(input, Init(), run) && i < |After(input, Init(), run).slots|
    requires After(input, Init(), run).slots[i].op != Unused
    ensures var w := After(input, Init(), run).slots[i];
            w.last <==> w.offset + BSZ >= |input|
  {
    InitInv(input);
    InitPace(|input|);
    RunKeeps(input, Init(), run);
    assert SlotInv(input, After(input, Init(), run).offset, After(input, Init(), run).output,
                   After(input, Init(), run).slots[i]);
  }

  /** `last` is set when a slot starts the last block, and nothing ever clears it. */
  lemma LastIsNeverCleared(input: seq<Byte>, s: State, a: Action, i: nat)
    requires Enabled(input, s, a) && |s.slots| == NBUF && i < NBUF
    ensures |Step(input, s, a).slots| == NBUF
    ensures s.slots[i].last ==> Step(input, s, a).slots[i].last
    ensures !s.slots[i].last && Step(input, s, a).slots[i].last ==>
              a.ProgramProceeds? && s.at == i && s.slots[i].op.Unused? && s.offset < |input| <= s.offset + BSZ
  {
    hide WriteAt, ReadCount;
  }

  /** If the kernel reported another count `n` for the request that is looked at, in any
      state that a run reaches, the program would take its error exit exactly if a read of
      a block that is not the last was not full, or a write not complete.  A short read
      of the last block goes unnoticed. */
  lemma WrongCountsAreNoticed(input: seq<Byte>, run: seq<Action>, n: nat)
    requires Runs(input, Init(), run)
    requires var s := After(input, Init(), run);
             s.status.Running? && s.at < |s.slots| && s.slots[s.at].done
    ensures var s := After(input, Init(), run);
            var w := s.slots[s.at];
            var z := s.(slots := s.slots[s.at := w.(result := n)]);
            Examine(|input|, z).status.Failed? <==>
            if w.op.ReadPending? then n != BSZ && w.offset + BSZ < |input|
            else n != if w.offset + BSZ <= |input| then BSZ else |input| - w.offset
  {
    InitInv(input);
    InitPace(|input|);
    RunKeeps(input, Init(), run);
    var s := After(input, Init(), run);
    assert SlotInv(input, s.offset, s.output, s.slots[s.at]);
  }

  /** The kernel may complete any pending request next, whatever else is pending; the
      program waits only at the end of a pass, while requests are pending and no listed
      one has been completed. */
  lemma OnlySuspendWaits(input: seq<Byte>, run: seq<Action>, j: nat)
    requires Runs(input, Init(), run) && j < NBUF
    ensures var s := After(input, Init(), run);
            && |s.slots| == NBUF
            && (Enabled(input, s, KernelCompletes(j)) <==> s.slots[j].listed && !s.slots[j].done)
            && (s.status.Running? && s.at < NBUF ==> Enabled(input, s, ProgramProceeds))
            && (s.status.Running? && s.at == NBUF ==>
                  (Enabled(input, s, ProgramProceeds) <==>
                     (exists k :: 0 <= k < NBUF && s.slots[k].listed && s.slots[k].done)
                     || forall k :: 0 <= k < NBUF ==> !s.slots[k].listed))
  {
    InitInv(input);
    InitPace(|input|);
    RunKeeps(input, Init(), run);
    var s := After(input, Init(), run);
    ListedIsBusy(input, s, j);
    forall k | 0 <= k < NBUF
      ensures s.slots[k].listed <==> s.slots[k].op != Unused
    {
      ListedIsBusy(input, s, k);
    }
    TotalZero(s.slots, Busy);
    hide SlotsInv, Pace, Runs, After;
  }

  lemma SomethingIsEnabled(input: seq<Byte>, s: State)
    requires Inv(input, s) && s.status.Running?
    ensures exists a :: Enabled(input, s, a)
  {
    if Proceeds(|input|, s) {
      assert Enabled(input, s, ProgramProceeds);
    } else {
      var j := SomeSlotIsBusy(input, s);
      assert Enabled(input, s, KernelCompletes(j));
    }
  }

  lemma SomeSlotIsBusy(input: seq<Byte>, s: State) returns (j: nat)
    requires Inv(input, s) && s.pending != 0
    ensures j < NBUF && s.slots[j].op != Unused && s.slots[j].listed
  {
    TotalZero(s.slots, Busy);
    j :| 0 <= j < NBUF && Busy(s.slots[j]) != 0;
    ListedIsBusy(input, s, j);
  }

  // ----- how long a run can be -----

  /** The largest size for which `offset` stays within a C int. */
  const MAX_SIZE := INT_MAX - (BSZ - 1)

  /** `offset` fits a C int in every run for sizes up to INT_MAX - (BSZ - 1), and in no
      run that ends for larger ones. */
  lemma OffsetFitsExactly(input: seq<Byte>, run: seq<Action>)
    requires Runs(input, Init(), run)
    ensures var s := After(input, Init(), run);
            && (|input| <= MAX_SIZE ==> s.offset <= INT_MAX)
            && (s.status.Exited? ==> (s.offset <= INT_MAX <==> |input| <= MAX_SIZE))
  {
    hide Runs, After, Init;
    EveryRunCopies(input, run);
  }

  /** The program's steps so far: each pass examines the slots and ends with one more. */
  function Steps(s: State): int {
    (NBUF + 1) * (s.passes - 1) + s.at + (if s.status.Exited? then 1 else 0)
  }

  /** The completions that are still to come: two for each block. */
  function RequestsLeft(size: nat, s: State): int {
    2 * (Blocks(size) - s.offset / BSZ) + Total(s.slots, Requests)
  }

  lemma StepCounts(input: seq<Byte>, s: State, a: Action)
    requires Inv(input, s) && Enabled(input, s, a)
    ensures var s' := Step(input, s, a);
            if a.KernelCompletes?
            then Steps(s') == Steps(s) && RequestsLeft(|input|, s') == RequestsLeft(|input|, s) - 1
            else Steps(s') == Steps(s) + 1 && RequestsLeft(|input|, s') == RequestsLeft(|input|, s)
  {
    hide SlotInv, Landed, Accounted, Distinct;
    var s' := Step(input, s, a);
    if a.KernelCompletes? {
      TotalUpdate(s.slots, Requests, a.j, s'.slots[a.j]);
    } else if s.at < NBUF {
      ExamineKeepsInv(input, s);
      ListedIsBusy(input, s, s.at);
      TotalUpdate(s.slots, Requests, s.at, s'.slots[s.at]);
    }
  }

  lemma {:induction false} RunCounts(input: seq<Byte>, s: State, run: seq<Action>)
    requires Inv(input, s) && Pace(|input|, s) && Runs(input, s, run)
    ensures var s' := After(input, s, run);
            |run| == Steps(s') - Steps(s) + RequestsLeft(|input|, s) - RequestsLeft(|input|, s')
    decreases |run|
  {
    hide Inv, Pace, Steps, RequestsLeft, Step;
    if run == [] {
    } else {
      StepKeeps(input, s, run[0]);
      StepCounts(input, s, run[0]);
      RunCounts(input, Step(input, s, run[0]), run[1..]);
    }
  }

  /** A run has at most one step for each slot and one more in each pass, and two
      completions for each block. */
  lemma RunsAreBounded(input: seq<Byte>, run: seq<Action>)
    requires Runs(input, Init(), run)
    ensures |run| <= (NBUF + 1) * (if |input| == 0 then 1 else 3 * Blocks(|input|)) + 2 * Blocks(|input|)
  {
    var s := After(input, Init(), run);
    InitInv(input);
    InitPace(|input|);
    RunKeeps(input, Init(), run);
    RunCounts(input, Init(), run);
    PaceBounds(input, s);
    TotalZero(Init().slots, Requests);
    assert s.offset / BSZ <= Blocks(|input|);
  }

  lemma {:induction false} RunGoesOn(input: seq<Byte>, s: State, run: seq<Action>, a: Action)
    requires Runs(input, s, run) && Enabled(input, After(input, s, run), a)
    ensures Runs(input, s, run + [a])
    decreases |run|
  {
    hide Enabled, Step;
    if run == [] {
      assert [a][1..] == [];
    } else {
      assert (run + [a])[1..] == run[1..] + [a];
      RunGoesOn(input, Step(input, s, run[0]), run[1..], a);
    }
  }

  lemma NothingAfterExit(input: seq<Byte>, run: seq<Action>)
    requires Runs(input, Init(), run) && After(input, Init(), run).status.Exited?
    ensures forall a :: !Enabled(input, After(input, Init(), run), a)
  {
    InitInv(input);
    InitPace(|input|);
    RunKeeps(input, Init(), run);
    TotalZero(After(input, Init(), run).slots, Busy);
  }

  /** However a run begins it can be completed, and it is complete, with nothing more
      that can happen, exactly when the loop has ended. */
  lemma {:induction false} EveryRunCanExit(input: seq<Byte>, run: seq<Action>) returns (more: seq<Action>)
    requires Runs(input, Init(), run)
    ensures Runs(input, Init(), run + more) && After(input, Init(), run + more).status.Exited?
    ensures (exists a :: Enabled(input, After(input, Init(), run), a))
       <==> !After(input, Init(), run).status.Exited?
    decreases (NBUF + 1) * (1 + 3 * Blocks(|input|)) + 2 * Blocks(|input|) - |run|
  {
    hide Enabled, Init;
    var s := After(input, Init(), run);
    EveryRunCopies(input, run);
    if s.status.Exited? {
      assert run + [] == run;
      NothingAfterExit(input, run);
      more := [];
    } else {
      var a :| Enabled(input, s, a);
      RunGoesOn(input, Init(), run, a);
      RunsAreBounded(input, run + [a]);
      more := EveryRunCanExit(input, run + [a]);
      assert run + [a] + more == run + ([a] + more);
      more := [a] + more;
    }
  }
}
