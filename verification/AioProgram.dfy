/** main of 14.advio/05_rot13.c from line 34 on, as a program over its variables.  Between
    any two of its steps the kernel may complete any of the pending requests. */
module AioProgram {
  import opened Sequences
  import opened AioCopy

  /** The first `n` slots after the kernel has completed the chosen ones of their pending
      requests, and the others as they were. */
  ghost predicate Completed(before: seq<Slot>, after: seq<Slot>, chosen: set<nat>, n: nat) {
    && |after| == |before|
    && (forall k :: 0 <= k < |before| && k < n ==>
          && after[k].op == before[k].op
          && (after[k].done <==> before[k].done || (before[k].op != Unused && k in chosen)))
    && forall k :: n <= k < |before| ==> after[k] == before[k]
  }

  lemma NoneCompleted(slots: seq<Slot>, chosen: set<nat>)
    ensures Completed(slots, slots, chosen, 0)
  {
  }

  lemma OneMore(first: seq<Slot>, before: seq<Slot>, after: seq<Slot>, chosen: set<nat>, j: nat)
    requires Completed(first, before, chosen, j) && j < |after| == |before| && after == before[j := after[j]]
    requires if before[j].op != Unused && !before[j].done && j in chosen
             then after[j].op == before[j].op && after[j].done else after[j] == before[j]
    ensures Completed(first, after, chosen, j + 1)
  {
  }

  lemma ServedOnly(input: seq<Byte>, s: State, j: nat)
    requires Servable(s, j)
    ensures var s' := Serve(input, s, j);
            && |s'.slots| == |s.slots| && s'.slots == s.slots[j := s'.slots[j]]
            && s'.slots[j].op == s.slots[j].op && s'.slots[j].done
  {
  }

  class Program {
    const input: seq<Byte>
    const slots: array<Slot>
    var offset: nat
    var pending: int
    var output: seq<Byte>
    /** How often the kernel has had the opportunity to complete requests, and which ones it
        completes each time. */
    var moment: nat
    const kernel: nat -> set<nat>

    constructor (input: seq<Byte>, kernel: nat -> set<nat>)
      ensures this.input == input && this.kernel == kernel && fresh(slots)
      ensures Now(0, 1) == Init()
    {
      this.input, this.kernel, moment := input, kernel, 0;
      slots := new Slot[NBUF](_ => Slot(Unused, false, 0, 0, Zeros(BSZ), false, false, 0));
      offset, pending, output := 0, 0, [];
      new;
      assert slots[..] == Init().slots;
    }

    /** The state at position `i` of the loop in the given pass. */
    ghost function Now(i: nat, pass: nat): State
      reads this, slots
    {
      State(slots[..], offset, pending, output, i, pass, Running)
    }

    ghost predicate Good(i: nat, pass: nat)
      reads this, slots
    {
      Inv(input, Now(i, pass)) && Pace(|input|, Now(i, pass))
    }

    lemma NextPass(pass: nat)
      requires Good(NBUF, pass) && if pending == 0 then offset < |input| else Awake()
      ensures Good(0, pass + 1)
    {
      ProceedKeepsPace(input, Now(NBUF, pass));
    }

    lemma LoopIsDone(pass: nat)
      requires Good(NBUF, pass) && pending == 0 && offset >= |input|
      ensures output == input && offset == Blocks(|input|) * BSZ
    {
      ExitedMeansCopied(input, Now(NBUF, pass).(status := Exited));
    }

    lemma PassesAreBounded(i: nat, pass: nat)
      requires Good(i, pass)
      ensures pass <= if |input| == 0 then 1 else 3 * Blocks(|input|)
    {
      PaceBounds(input, Now(i, pass));
    }

    lemma IsNBuf(i: nat, pass: nat)
      requires Good(i, pass)
      ensures slots.Length == NBUF
    {
    }

    /** aio_suspend would return now. */
    ghost predicate Awake()
      reads this, slots
    {
      Wakes(Now(0, 0))
    }

    /** The kernel completes the request of slot `j`. */
    method Complete(j: nat, ghost i: nat, ghost pass: nat)
      requires Good(i, pass) && Servable(Now(i, pass), j)
      modifies this`output, slots
      ensures Now(i, pass) == Serve(input, old(Now(i, pass)), j) && Good(i, pass) && Awake()
    {
      ListedIsBusy(input, Now(i, pass), j);
      ServeKeepsInv(input, Now(i, pass), j);
      ServeKeepsPace(input, Now(i, pass), j);
      var w := slots[j];
      if w.op.ReadPending? {
        var n := ReadCount(|input|, w.offset, w.nbytes);
        var chunk := if n == 0 then [] else input[w.offset..w.offset + n];
        var rest := if n <= |w.data| then w.data[n..] else [];
        slots[j] := w.(data := chunk + rest, done := true, result := n);
      } else {
        var n := if w.nbytes <= |w.data| then w.nbytes else |w.data|;
        slots[j] := w.(done := true, result := n);
        output := WriteAt(output, w.offset, w.data[..n]);
      }
    }

    /** The kernel completes those of the pending requests that it chooses, and no others. */
    method CompleteSome(ghost i: nat, ghost pass: nat)
      requires Good(i, pass)
      modifies this`output, this`moment, slots
      ensures Good(i, pass) && (old(Awake()) ==> Awake()) && moment == old(moment) + 1
      ensures Completed(old(slots[..]), slots[..], kernel(old(moment)), NBUF)
    {
      hide Inv, Pace, Wakes, Serve;
      IsNBuf(i, pass);
      NoneCompleted(slots[..], kernel(moment));
      for j := 0 to NBUF
        invariant Good(i, pass) && (old(Awake()) ==> Awake()) && moment == old(moment)
        invariant Completed(old(slots[..]), slots[..], kernel(moment), j)
      {
        ghost var before, state := slots[..], Now(i, pass);
        if slots[j].op != Unused && !slots[j].done && j in kernel(moment) {
          ServedOnly(input, state, j);
          Complete(j, i, pass);
        }
        OneMore(old(slots[..]), before, slots[..], kernel(moment), j);
      }
      moment := moment + 1;
    }

    /** aio_suspend: it returns once some listed request has completed. */
    method Suspend(ghost pass: nat)
      requires Good(NBUF, pass) && pending != 0
      modifies this`output, this`moment, slots
      ensures Good(NBUF, pass) && Awake()
    {
      CompleteSome(NBUF, pass);
      if forall j :: 0 <= j < slots.Length && slots[j].listed ==> !slots[j].done {
        ghost var k := SomeSlotIsBusy(input, Now(NBUF, pass));
        assert slots[..][k] == slots[k];
        var j :| 0 <= j < slots.Length && slots[j].op != Unused && !slots[j].done;
        Complete(j, NBUF, pass);
      }
      CompleteSome(NBUF, pass);
    }

    /** The switch on slot `i`, whatever the kernel has reported.  `ok` is false on the exits
        after a bad byte count, which are not taken in a good state. */
    method Examine(i: nat, ghost pass: nat) returns (ok: bool)
      requires i < slots.Length
      modifies this`offset, this`pending, slots
      ensures Now(i + 1, pass).(status := if ok then Running else Failed) ==
              AioCopy.Examine(|input|, old(Now(i, pass)))
      ensures old(Good(i, pass)) ==> ok && Good(i + 1, pass)
    {
      ghost var before := Now(i, pass);
      if Good(i, pass) {
        ExamineKeepsInv(input, before);
        ProceedKeepsPace(input, before);
      }
      ok := true;
      var w := slots[i];
      match w.op {
        case Unused =>
          if offset < |input| {
            slots[i] := w.(op := ReadPending, offset := offset, nbytes := BSZ, listed := true, done := false);
            offset := offset + BSZ;
            if offset >= |input| {
              slots[i] := slots[i].(last := true);
            }
            pending := pending + 1;
          }
        case ReadPending =>
          if w.done {
            if w.result != BSZ && !w.last {
              ok := false;
            } else {
              slots[i] := w.(op := WritePending, nbytes := w.result, done := false);
            }
          }
        case WritePending =>
          if w.done {
            if w.result != w.nbytes {
              ok := false;
            } else {
              slots[i] := w.(op := Unused, listed := false, done := false);
              pending := pending - 1;
            }
          }
      }
      assert Now(i + 1, pass).slots == AioCopy.Examine(|input|, before).slots;
    }

    /** The whole loop.  Whatever the kernel does it ends, after the given number of
        passes, with the input copied. */
    method Copy() returns (ok: bool, passes: nat)
      requires Now(0, 1) == Init()
      modifies this, slots
      ensures ok && output == input
      ensures passes <= if |input| == 0 then 1 else 3 * Blocks(|input|)
      ensures offset == Blocks(|input|) * BSZ
      ensures offset <= INT_MAX <==> |input| <= MAX_SIZE
    {
      hide Inv, Pace, Init, Wakes;
      InitInv(input);
      InitPace(|input|);
      passes := 1;
      while true
        invariant Good(0, passes)
        decreases 3 * Blocks(|input|) + 2 - passes
      {
        PassesAreBounded(0, passes);
        for i := 0 to NBUF
          invariant Good(i, passes)
        {
          CompleteSome(i, passes);
          ok := Examine(i, passes);
          if !ok {
            return;
          }
        }
        if pending == 0 {
          if offset >= |input| {
            break;
          }
        } else {
          Suspend(passes);
        }
        NextPass(passes);
        passes := passes + 1;
      }
      PassesAreBounded(NBUF, passes);
      LoopIsDone(passes);
      ok := true;
    }
  }
}
