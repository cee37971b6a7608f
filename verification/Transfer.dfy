/** readn and writen of 14.advio/06_readn.c on a byte channel whose read and write may
    fail, stop or transfer less than they were asked to, in any pattern. */
module Transfer {
  import opened Sequences

  /** One call of read or write: how many bytes it was asked to transfer, and what it
      returned. */
  datatype Call = Call(asked: nat, result: int)

  function Limit(r: int, n: nat): int {
    if r > n then n else r
  }

  class Channel {
    var content: seq<Byte>
    /** The calls that have been made. */
    var calls: seq<Call>
    /** What each call returns, counted from 0, if no more than that can be transferred:
        any pattern of failures, stops and short counts. */
    const answers: nat -> int

    constructor (content: seq<Byte>, answers: nat -> int)
      ensures this.content == content && this.answers == answers && calls == []
    {
      this.content, this.answers, calls := content, answers, [];
    }

    /** read(2): negative for an error, else how many bytes it moved to the buffer. */
    method Read(buf: array<Byte>, at: nat, n: nat) returns (r: int)
      requires at + n <= buf.Length
      modifies this, buf
      ensures r == Limit(Limit(answers(|old(calls)|), n), |old(content)|) && calls == old(calls) + [Call(n, r)]
      ensures var moved := if r < 0 then 0 else r;
              && content == old(content)[moved..]
              && buf[..] == old(buf[..at] + content[..moved] + buf[at + moved..])
    {
      r := Limit(Limit(answers(|calls|), n), |content|);
      var moved := if r < 0 then 0 else r;
      for k := 0 to moved
        invariant content == old(content) && calls == old(calls)
        invariant buf[..] == old(buf[..at] + content[..k] + buf[at + k..])
      {
        buf[at + k] := content[k];
      }
      content := content[moved..];
      calls := calls + [Call(n, r)];
    }

    /** write(2): negative for an error, else how many bytes of the buffer it took. */
    method Write(buf: array<Byte>, at: nat, n: nat) returns (r: int)
      requires at + n <= buf.Length
      modifies this
      ensures r == Limit(answers(|old(calls)|), n) && calls == old(calls) + [Call(n, r)]
      ensures content == old(content) + (if r < 0 then [] else buf[at..at + r])
    {
      r := Limit(answers(|calls|), n);
      if r >= 0 {
        content := content + buf[at..at + r];
      }
      calls := calls + [Call(n, r)];
    }
  }

  ghost function Total(calls: seq<Call>): int {
    if calls == [] then 0
    else Total(calls[..|calls| - 1]) + (if calls[|calls| - 1].result < 0 then 0 else calls[|calls| - 1].result)
  }

  /** Each call so far was asked for all that was left. */
  ghost predicate AskedForAll(calls: seq<Call>, n: nat) {
    forall k :: 0 <= k < |calls| ==> calls[k].asked == n - Total(calls[..k])
  }

  /** The outcome of a loop of calls that was to transfer `n` bytes: -1 exactly if the
      first call failed, else what the calls transferred; less than `n` only if the last
      call failed or transferred nothing.  Each call was asked for all that was left, and
      no call followed one that failed or transferred nothing. */
  ghost predicate Outcome(calls: seq<Call>, n: nat, res: int) {
    && (res == -1 <==> n > 0 && calls != [] && calls[0].result < 0)
    && (res != -1 ==> 0 <= res <= n && res == Total(calls))
    && (0 <= res < n ==> calls != [] && calls[|calls| - 1].result <= 0)
    && (n == 0 ==> calls == [])
    && AskedForAll(calls, n)
    && (forall k :: 0 <= k < |calls| - 1 ==> calls[k].result > 0)
  }

  lemma TotalSnoc(calls: seq<Call>, c: Call)
    ensures Total(calls + [c]) == Total(calls) + (if c.result < 0 then 0 else c.result)
  {
    assert (calls + [c])[..|calls|] == calls;
  }

  lemma AskedAgain(calls: seq<Call>, n: nat, c: Call)
    requires AskedForAll(calls, n) && c.asked == n - Total(calls)
    ensures AskedForAll(calls + [c], n)
  {
    hide Total;
    forall k | 0 <= k < |calls + [c]|
      ensures (calls + [c])[k].asked == n - Total((calls + [c])[..k])
    {
      assert (calls + [c])[..k] == calls[..k];
      assert calls[..|calls|] == calls;
    }
  }

  /** The loop has made these calls, all of which transferred something, `at` bytes in all. */
  ghost predicate UnderWay(calls: seq<Call>, n: nat, at: nat) {
    && at == Total(calls) && at <= n && (at == 0 <==> calls == [])
    && AskedForAll(calls, n)
    && forall k :: 0 <= k < |calls| ==> calls[k].result > 0
  }

  lemma NoCallsYet(n: nat)
    ensures UnderWay([], n, 0)
  {
  }

  /** The loop goes on after a call that transferred something. */
  lemma GoesOn(calls: seq<Call>, n: nat, at: nat, count: int)
    requires UnderWay(calls, n, at) && 0 < count <= n - at
    ensures UnderWay(calls + [Call(n - at, count)], n, at + count)
  {
    hide Total, AskedForAll;
    TotalSnoc(calls, Call(n - at, count));
    AskedAgain(calls, n, Call(n - at, count));
  }

  /** It ends after a call that failed or transferred nothing. */
  lemma EndsEarly(calls: seq<Call>, n: nat, at: nat, count: int)
    requires UnderWay(calls, n, at) && at < n && count <= 0
    ensures Outcome(calls + [Call(n - at, count)], n, if count < 0 && at == 0 then -1 else at)
  {
    hide Total, AskedForAll;
    TotalSnoc(calls, Call(n - at, count));
    AskedAgain(calls, n, Call(n - at, count));
  }

  lemma EndsComplete(calls: seq<Call>, n: nat)
    requires UnderWay(calls, n, n)
    ensures Outcome(calls, n, n)
  {
  }

  lemma WriteMore(buf: seq<Byte>, at: nat, r: nat)
    requires at + r <= |buf|
    ensures buf[..at] + buf[at..at + r] == buf[..at + r]
  {
  }

  /** A buffer that holds the first `at` bytes of `source` gets the next `r` of them. */
  lemma ReadMore(source: seq<Byte>, buf: seq<Byte>, at: nat, r: nat)
    requires at + r <= |source| && at + r <= |buf|
    ensures var now := source[..at] + buf[at..];
            now[..at] + source[at..][..r] + now[at + r..] == source[..at + r] + buf[at + r..]
    ensures source[at..][r..] == source[at + r..]
  {
  }

  /** No call fails or transfers nothing of its own accord, however short it is. */
  ghost predicate NeverStops(ch: Channel) {
    forall k :: ch.answers(k) > 0
  }

  method Readn(ch: Channel, buf: array<Byte>, n: nat) returns (res: int)
    requires n <= buf.Length
    modifies ch, buf
    ensures old(ch.calls) <= ch.calls && Outcome(ch.calls[|old(ch.calls)|..], n, res)
    ensures var moved := if res < 0 then 0 else res;
            && moved <= |old(ch.content)|
            && ch.content == old(ch.content)[moved..]
            && buf[..] == old(ch.content)[..moved] + old(buf[..])[moved..]
    ensures NeverStops(ch) && n <= |old(ch.content)| ==> res == n
  {
    hide UnderWay, Outcome;
    var left: nat := n;
    var at: nat := 0;
    ghost var calls: seq<Call> := [];
    NoCallsYet(n);
    while left > 0
      invariant at + left == n && ch.calls == old(ch.calls) + calls
      invariant UnderWay(calls, n, at) && at <= |old(ch.content)|
      invariant ch.content == old(ch.content)[at..]
      invariant buf[..] == old(ch.content)[..at] + old(buf[..])[at..]
      decreases left
    {
      ghost var source, before := ch.content, buf[..];
      var count := ch.Read(buf, at, left);
      ghost var r := if count < 0 then 0 else count;
      assert buf[..] == before[..at] + source[..r] + before[at + r..];
      ReadMore(old(ch.content), old(buf[..]), at, r);
      ghost var made := calls;
      calls := calls + [Call(left, count)];
      assert ch.calls[|old(ch.calls)|..] == calls;
      if count <= 0 {
        EndsEarly(made, n, at, count);
      } else {
        GoesOn(made, n, at, count);
      }
      if count < 0 {
        if left == n {
          return -1;
        } else {
          break;
        }
      } else if count == 0 {
        break;
      }
      left := left - count;
      at := at + count;
    }
    assert ch.calls[|old(ch.calls)|..] == calls;
    if left == 0 {
      EndsComplete(calls, n);
    }
    return n - left;
  }

  method Writen(ch: Channel, buf: array<Byte>, n: nat) returns (res: int)
    requires n <= buf.Length
    modifies ch
    ensures old(ch.calls) <= ch.calls && Outcome(ch.calls[|old(ch.calls)|..], n, res)
    ensures ch.content == old(ch.content) + buf[..if res < 0 then 0 else res]
    ensures NeverStops(ch) ==> res == n
  {
    hide UnderWay, Outcome;
    var left: nat := n;
    var at: nat := 0;
    ghost var calls: seq<Call> := [];
    NoCallsYet(n);
    while left > 0
      invariant at + left == n && ch.calls == old(ch.calls) + calls
      invariant UnderWay(calls, n, at)
      invariant ch.content == old(ch.content) + buf[..at]
      decreases left
    {
      var count := ch.Write(buf, at, left);
      WriteMore(buf[..], at, if count < 0 then 0 else count);
      ghost var made := calls;
      calls := calls + [Call(left, count)];
      assert ch.calls[|old(ch.calls)|..] == calls;
      if count <= 0 {
        EndsEarly(made, n, at, count);
      } else {
        GoesOn(made, n, at, count);
      }
      if count < 0 {
        if left == n {
          return -1;
        } else {
          break;
        }
      } else if count == 0 {
        break;
      }
      left := left - count;
      at := at + count;
    }
    assert ch.calls[|old(ch.calls)|..] == calls;
    if left == 0 {
      EndsComplete(calls, n);
    }
    return n - left;
  }

  /** What writen puts into an empty channel readn takes out again: all of it when
      neither stops early, and a prefix of it in any case. */
  method WriteThenRead(ch: Channel, source: array<Byte>, target: array<Byte>, n: nat) returns (w: int, r: int)
    requires ch.content == [] && source != target && n <= source.Length && n <= target.Length
    modifies ch, target
    ensures w <= n && r <= n
    ensures NeverStops(ch) ==> w == n && r == n
    ensures w == n && r == n ==> target[..n] == source[..n] && ch.content == []
    ensures r >= 0 && w >= 0 ==> r <= w && target[..r] == source[..r] && ch.content == source[r..w]
    ensures r >= 0 && w < 0 ==> r == 0
  {
    w := Writen(ch, source, n);
    r := Readn(ch, target, n);
    if r >= 0 {
      assert target[..r] == target[..][..r];
    }
  }
}
