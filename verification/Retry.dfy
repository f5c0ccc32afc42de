// Retry.Do of internal/http/retry.go. What the network, the clock and the random numbers do is given
// by the World; its fields record what Do did. Durations are int64 nanoseconds.
module HttpRetry {
  import opened Wrappers
  import opened KeyTypes

  const MICROSECOND: int := 1_000
  const MILLISECOND: int := 1_000_000
  const INT64_MAX: int := 0x7FFF_FFFF_FFFF_FFFF

  datatype Response = Response(status: int, content: Bytes)

  // An error of http.Client.Do, of body.Seek or of the request's context.
  datatype NetError = NetError(isNet: bool, timeout: bool, eof: bool, text: string)

  datatype Answer = Answer(resp: Option<Response>, err: Option<NetError>)

  datatype DoError = NotSeekable | Temporary(cause: NetError) | Context(cause: NetError) | Other(cause: NetError)

  // Panicked: rand.Int63n was called with a number that is not positive.
  datatype Result = Returned(resp: Option<Response>, err: Option<DoError>) | Panicked

  predicate IsTemporary(err: Option<NetError>) {
    err.Some? && err.value.isNet && (err.value.timeout || err.value.eof)
  }

  predicate Retryable(a: Answer) {
    IsTemporary(a.err) || (a.resp.Some? && a.resp.value.status >= 500)
  }

  // ---------- the wait before a retry ----------

  function Unit(jitter: int): (u: int)
    ensures u >= 1
  {
    if jitter < MICROSECOND then 1 else if jitter < MILLISECOND then MICROSECOND else MILLISECOND
  }

  // The argument of rand.Int63n.
  function Choices(jitter: int): int
    requires jitter > 0
  {
    jitter / Unit(jitter)
  }

  function Wrap64(x: int): int { (x + INT64_MAX + 1) % 0x1_0000_0000_0000_0000 - INT64_MAX - 1 }

  function Wait(delay: int, jitter: int, draw: nat): int
    requires jitter > 0
  {
    Wrap64(delay + draw * Unit(jitter))
  }

  // A timer that Do starts; raw is what the random source offers, reduced to one of the choices.
  datatype Timer = Timer(delay: int, jitter: int, raw: nat)

  function Duration(t: Timer): int
    requires t.jitter > 0
  {
    SomeChoice(t.jitter);
    Wait(t.delay, t.jitter, t.raw % Choices(t.jitter))
  }

  lemma SomeChoice(jitter: int)
    requires jitter > 0
    ensures Choices(jitter) >= 1 && (Choices(jitter) - 1) * Unit(jitter) < Choices(jitter) * Unit(jitter) <= jitter
  {}

  lemma DrawBound(draw: nat, n: nat, u: nat)
    requires draw < n
    ensures 0 <= draw * u <= (n - 1) * u
  {}

  // No wait reaches Delay+Jitter; one falls short of Delay exactly when it overflows, and then it is
  // negative.
  lemma ShortWaitExactly(delay: int, jitter: int, draw: nat)
    requires -INT64_MAX - 1 <= delay <= INT64_MAX && 0 < jitter <= INT64_MAX && draw < Choices(jitter)
    ensures Wait(delay, jitter, draw) < delay + jitter
    ensures delay <= Wait(delay, jitter, draw) <==> delay + draw * Unit(jitter) <= INT64_MAX
    ensures delay + draw * Unit(jitter) > INT64_MAX ==> Wait(delay, jitter, draw) < 0
  {
    SomeChoice(jitter);
    DrawBound(draw, Choices(jitter), Unit(jitter));
  }

  // For example.
  lemma WaitOverflows()
    ensures Choices(2 * MILLISECOND) == 2 && Wait(INT64_MAX, 2 * MILLISECOND, 1) < 0
  {}

  // Every wait lies in [Delay, Delay+Jitter) exactly when the longest one does not overflow.
  lemma WaitBoundsExactly(delay: int, jitter: int)
    requires -INT64_MAX - 1 <= delay <= INT64_MAX && 0 < jitter <= INT64_MAX
    ensures (forall draw: nat :: draw < Choices(jitter) ==> delay <= Wait(delay, jitter, draw) < delay + jitter)
      <==> delay + (Choices(jitter) - 1) * Unit(jitter) <= INT64_MAX
  {
    SomeChoice(jitter);
    var u, n := Unit(jitter), Choices(jitter);
    ShortWaitExactly(delay, jitter, n - 1);
    if delay + (n - 1) * u <= INT64_MAX {
      forall draw: nat | draw < n ensures delay <= Wait(delay, jitter, draw) < delay + jitter {
        DrawBound(draw, n, u);
        ShortWaitExactly(delay, jitter, draw);
      }
    }
  }

  // ---------- the loop ----------

  class Body {
    const data: Bytes
    const seekable: bool
    var pos: nat

    constructor (data: Bytes, seekable: bool)
      ensures this.data == data && this.seekable == seekable && pos == 0
    {
      this.data, this.seekable, pos := data, seekable, 0;
    }

    function Rest(): Bytes
      reads this
    {
      if pos <= |data| then data[pos..] else []
    }

    // Seek(0, io.SeekStart).
    method Rewind(failure: Option<NetError>) returns (err: Option<NetError>)
      modifies this
      ensures err == failure && pos == (if failure.None? then 0 else old(pos))
    {
      err := failure;
      if failure.None? {
        pos := 0;
      }
    }
  }

  // What the world does around one sending: its answer, how much of the body it consumes, and, if a
  // retry follows, the random number, the context's error if it ends the wait, and the error of the
  // rewind.
  datatype Attempt =
    Attempt(answer: Answer, taken: nat, draw: nat, cancelled: Option<NetError>, seek: Option<NetError>)

  class World {
    const script: seq<Attempt>

    var sent: seq<Bytes>        // the body as each sending found it
    var waits: seq<Timer>         // the timers started
    var drained: seq<Response>  // the responses drained and closed

    constructor (script: seq<Attempt>)
      ensures this.script == script && sent == [] && waits == [] && drained == []
    {
      this.script, sent, waits, drained := script, [], [], [];
    }

    method Send(body: Body?) returns (a: Answer)
      requires |sent| < |script|
      modifies this`sent, body
      ensures a == script[old(|sent|)].answer
      ensures sent == old(sent) + [if body == null then [] else old(body.Rest())]
    {
      var attempt := script[|sent|];
      a := attempt.answer;
      sent := sent + [if body == null then [] else body.Rest()];
      if body != null {
        body.pos := body.pos + attempt.taken;
      }
    }

    method Drain(resp: Option<Response>)
      modifies this`drained
      ensures drained == old(drained) + Opened(resp)
    {
      if resp.Some? {
        drained := drained + [resp.value];
      }
    }
  }

  // The first sending finds `first`, every later one the whole body.
  ghost predicate Whole(sent: seq<Bytes>, first: Bytes, data: Bytes) {
    && |sent| > 0 && sent[0] == first
    && forall i :: 0 < i < |sent| ==> sent[i] == data
  }

  function Opened(resp: Option<Response>): seq<Response> {
    if resp.Some? then [resp.value] else []
  }

  // The responses among the first n answers.
  function Responses(script: seq<Attempt>, n: nat): seq<Response>
    requires n <= |script|
  {
    if n == 0 then [] else Responses(script, n - 1) + Opened(script[n - 1].answer.resp)
  }

  class Retry {
    const N: nat
    const Delay: int
    const Jitter: int

    constructor (n: nat, delay: int, jitter: int)
      ensures N == n && Delay == delay && Jitter == jitter
    {
      N, Delay, Jitter := n, delay, jitter;
    }

    function Retries(): nat { if N == 0 then 2 else N }
    function MinWait(): int { if Delay == 0 then 200 * MILLISECOND else Delay }
    function MaxJitter(): int { if Jitter == 0 then 800 * MILLISECOND else Jitter }

    // The first n waits; none when the random source panics.
    function Timers(script: seq<Attempt>, n: nat): seq<Timer>
      requires n <= |script|
    {
      if n == 0 || MaxJitter() < 0 then []
      else Timers(script, n - 1) + [Timer(MinWait(), MaxJitter(), script[n - 1].draw)]
    }

    lemma {:induction false} TimersInBounds(script: seq<Attempt>, n: nat)
      requires n <= |script| && 0 < MaxJitter() <= INT64_MAX && -INT64_MAX - 1 <= MinWait() <= INT64_MAX
      requires MinWait() + (Choices(MaxJitter()) - 1) * Unit(MaxJitter()) <= INT64_MAX
      ensures |Timers(script, n)| == n
      ensures forall t :: t in Timers(script, n) ==>
        t.jitter > 0 && MinWait() <= Duration(t) < MinWait() + MaxJitter()
    {
      if n > 0 {
        TimersInBounds(script, n - 1);
        SomeChoice(MaxJitter());
        WaitBoundsExactly(MinWait(), MaxJitter());
      }
    }

    // What ends Do between the i-th answer and the next sending, if anything does.
    function Interruption(at: Attempt, hasBody: bool): Option<Result> {
      if MaxJitter() < 0 then Some(Panicked)
      else if at.cancelled.Some? then Some(Returned(None, Some(Context(at.cancelled.value))))
      else if hasBody && at.seek.Some? then Some(Returned(None, Some(Other(at.seek.value))))
      else None
    }

    // The attempt is followed by another one, if retries are left.
    predicate GoesOn(at: Attempt, hasBody: bool) {
      Retryable(at.answer) && Interruption(at, hasBody).None?
    }

    // The last attempt made, when there are `left` retries left after the i-th one.
    function LastAttempt(script: seq<Attempt>, i: nat, left: nat, hasBody: bool): nat
      requires i + left < |script|
      decreases left
    {
      if left > 0 && GoesOn(script[i], hasBody) then LastAttempt(script, i + 1, left - 1, hasBody) else i
    }

    // It is the first one that is not followed by another, or the one after the last retry.
    lemma {:induction false} LastAttemptIsFirstStop(script: seq<Attempt>, i: nat, left: nat, hasBody: bool)
      requires i + left < |script|
      ensures var k := LastAttempt(script, i, left, hasBody);
        && i <= k <= i + left
        && (forall j :: i <= j < k ==> GoesOn(script[j], hasBody))
        && (k == i + left || !GoesOn(script[k], hasBody))
      decreases left
    {
      if left > 0 && GoesOn(script[i], hasBody) {
        LastAttemptIsFirstStop(script, i + 1, left - 1, hasBody);
      }
    }

    // The number of retries begun when there were n sendings.
    function Retried(script: seq<Attempt>, n: nat): nat
      requires n <= |script|
    {
      if n == 0 then 0 else if n <= Retries() && Retryable(script[n - 1].answer) then n else n - 1
    }

    // What Do returns when the attempt was the last, with or without retries left.
    function Final(at: Attempt, hasBody: bool, left: bool): Result {
      if left && Retryable(at.answer) && Interruption(at, hasBody).Some? then Interruption(at, hasBody).value
      else Concluded(at.answer)
    }

    static function Concluded(a: Answer): Result {
      if IsTemporary(a.err) then Returned(None, Some(Temporary(a.err.value)))
      else Returned(a.resp, if a.err.Some? then Some(Other(a.err.value)) else None)
    }

    static method Finish(a: Answer, w: World) returns (r: Result)
      modifies w`drained
      ensures r == Concluded(a)
      ensures w.drained + Opened(r.resp) == old(w.drained) + Opened(a.resp)
    {
      if IsTemporary(a.err) {
        w.Drain(a.resp);
        return Returned(None, Some(Temporary(a.err.value)));
      }
      return Returned(a.resp, if a.err.Some? then Some(Other(a.err.value)) else None);
    }

    // Waits and rewinds the body.
    method Prepare(body: Body?, w: World, at: Attempt) returns (stop: Option<Result>)
      modifies w`waits, body
      ensures stop == Interruption(at, body != null)
      ensures w.waits == old(w.waits) + (if MaxJitter() < 0 then [] else [Timer(MinWait(), MaxJitter(), at.draw)])
      ensures stop.None? && body != null ==> body.Rest() == body.data
    {
      if MaxJitter() < 0 {
        return Some(Panicked);
      }
      w.waits := w.waits + [Timer(MinWait(), MaxJitter(), at.draw)];
      if at.cancelled.Some? {
        return Some(Returned(None, Some(Context(at.cancelled.value))));
      }
      if body != null {
        var failed := body.Rewind(at.seek);
        if failed.Some? {
          return Some(Returned(None, Some(Other(failed.value))));
        }
      }
      return None;
    }

    // One iteration: drains the response, waits, rewinds and sends again.
    method TryAgain(body: Body?, w: World, last: Answer) returns (stop: Option<Result>, next: Answer)
      requires 0 < |w.sent| < |w.script| && last == w.script[|w.sent| - 1].answer
      modifies w`sent, w`waits, w`drained, body
      ensures var at := w.script[old(|w.sent|) - 1];
        && stop == Interruption(at, body != null)
        && w.drained == old(w.drained) + Opened(at.answer.resp)
        && w.waits == old(w.waits) + (if MaxJitter() < 0 then [] else [Timer(MinWait(), MaxJitter(), at.draw)])
        && w.sent == old(w.sent) + (if stop.Some? then [] else [if body == null then [] else body.data])
      ensures stop.None? ==> next == w.script[|w.sent| - 1].answer
    {
      var at := w.script[|w.sent| - 1];
      w.Drain(last.resp);
      next := last;
      stop := Prepare(body, w, at);
      if stop.None? {
        next := w.Send(body);
      }
    }

    // The loop, after the first sending.
    method Repeat(body: Body?, w: World, answer: Answer, ghost first: Bytes) returns (stop: Option<Result>, a: Answer)
      requires |w.sent| == 1 && w.waits == [] && w.drained == [] && |w.script| > Retries()
      requires answer == w.script[0].answer && (body != null ==> w.sent[0] == first)
      modifies w`sent, w`waits, w`drained, body
      ensures |w.sent| == LastAttempt(w.script, 0, Retries(), body != null) + 1 <= Retries() + 1
      ensures body != null ==> Whole(w.sent, first, body.data)
      ensures a == w.script[|w.sent| - 1].answer || stop.Some?
      ensures stop.Some? ==> |w.sent| <= Retries() && Retryable(w.script[|w.sent| - 1].answer)
                             && stop == Interruption(w.script[|w.sent| - 1], body != null)
      ensures stop.None? ==> |w.sent| == Retries() + 1 || !Retryable(a)
      ensures w.waits == Timers(w.script, |w.sent| - (if stop.Some? then 0 else 1))
      ensures w.drained == Responses(w.script, |w.sent| - (if stop.Some? then 0 else 1))
    {
      stop, a := None, answer;
      var n := Retries();
      while n > 0 && Retryable(a)
        invariant 0 <= n <= Retries() && |w.sent| == Retries() - n + 1
        invariant a == w.script[|w.sent| - 1].answer && stop.None?
        invariant LastAttempt(w.script, |w.sent| - 1, n, body != null) ==
            LastAttempt(w.script, 0, Retries(), body != null)
        invariant body != null ==> Whole(w.sent, first, body.data)
        invariant w.waits == Timers(w.script, |w.sent| - 1)
        invariant |w.sent| == 1 || MaxJitter() > 0
        invariant w.drained == Responses(w.script, |w.sent| - 1)
      {
        ghost var k := |w.sent|;
        n := n - 1;
        stop, a := TryAgain(body, w, a);
        assert w.drained == Responses(w.script, k) && w.waits == Timers(w.script, k);
        if stop.Some? {
          return;
        }
      }
    }

    // A body that cannot be rewound is refused before anything is sent. Otherwise Do sends at most
    // N+1 times, and again only after an answer that asks for it; every sending after the first
    // finds the body whole; one wait comes before each retry; and every response that is not
    // returned is drained, each once.
    method Do(body: Body?, w: World) returns (r: Result)
      requires w.sent == [] && w.waits == [] && w.drained == [] && |w.script| > Retries()
      modifies w`sent, w`waits, w`drained, body
      ensures body != null && !body.seekable ==> r == Returned(None, Some(NotSeekable)) && w.sent == []
      ensures |w.sent| <= Retries() + 1
      ensures body == null || body.seekable ==>
        && |w.sent| == LastAttempt(w.script, 0, Retries(), body != null) + 1
        && r == Final(w.script[|w.sent| - 1], body != null, |w.sent| <= Retries())
      ensures body != null && body.seekable ==> Whole(w.sent, old(body.Rest()), body.data)
      ensures w.waits == Timers(w.script, Retried(w.script, |w.sent|))
      ensures r.Returned? ==> w.drained + Opened(r.resp) == Responses(w.script, |w.sent|)
    {
      if body != null && !body.seekable {
        return Returned(None, Some(NotSeekable));
      }
      var stop;
      var a := w.Send(body);
      stop, a := Repeat(body, w, a, w.sent[0]);
      if stop.Some? {
        assert w.drained + [] == w.drained;
        return stop.value;
      }
      r := Finish(a, w);
    }
  }
}
