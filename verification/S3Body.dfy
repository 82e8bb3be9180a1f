/** Who closes an S3 streaming body, and which failure of a download escapes
    (http_file_config.py). */
module S3Body {
  import opened Outcomes
  import opened ShieldedAwait
  import opened LocalFiles
  import opened StreamCommit

  /** What the body's `close` does when called: returns, raises, or hands back
      something to await. */
  datatype Close = Plain | Throws(error: Error) | Awaitable(ended: Child<()>, schedule: Schedule)

  /** What iterating the body does. */
  datatype Reading = NoIterator | NotAsync | Yields(chunks: seq<Item>, fault: Option<Error>)

  class Body {
    const closable: bool
    const canIterate: bool
    const close: Close
    const reading: Reading
    var closes: nat

    constructor (closable: bool, canIterate: bool, close: Close, reading: Reading)
      ensures this.closable == closable && this.canIterate == canIterate
      ensures this.close == close && this.reading == reading
      ensures closes == 0
    {
      this.closable, this.canIterate, this.close, this.reading := closable, canIterate, close, reading;
      closes := 0;
    }
  }

  /** Cancellation passes; every other exception becomes a transport error. */
  function Mapped(error: Error): Error {
    if error.Cancelled? then error else TransportFailed
  }

  function MappedOutcome(r: Outcome<()>): Outcome<()> {
    if r.Raise? then Raise(Mapped(r.error)) else r
  }

  /** What closing answers. */
  function Closed(closable: bool, close: Close): Outcome<()> {
    if !closable then Raise(Serialization)
    else
      match close
      case Plain => Ok(())
      case Throws(error) => Raise(Mapped(error))
      case Awaitable(ended, schedule) => MappedOutcome(Shielded(schedule, ended, false))
  }

  /** Closing goes well exactly when the body can be closed and its `close`
      returned plainly, or returned something whose awaited result came back
      without the caller being cancelled. */
  lemma ClosedExactly(closable: bool, close: Close)
    ensures Closed(closable, close).Ok? <==> closable && match close
      case Plain => true
      case Throws(_) => false
      case Awaitable(ended, schedule) => ended.Returned? && FirstOfCaller(schedule, false) == None
    ensures !closable ==> Closed(closable, close) == Raise(Serialization)
    ensures closable && Closed(closable, close).Raise? ==>
      Closed(closable, close).error.Cancelled? || Closed(closable, close) == Raise(TransportFailed)
  {}

  /** `_close_s3_body` */
  method CloseBody(body: Body) returns (r: Outcome<()>)
    modifies body
    ensures body.closes == old(body.closes) + (if body.closable then 1 else 0)
    ensures r == Closed(body.closable, body.close)
  {
    if !body.closable {
      return Raise(Serialization);
    }
    body.closes := body.closes + 1;
    match body.close {
      case Plain =>
        return Ok(());
      case Throws(error) =>
        return if error.Cancelled? then Raise(error) else Raise(TransportFailed);
      case Awaitable(ended, schedule) =>
        r := AwaitShielded(schedule, ended, false);
        if r.Raise? && !r.error.Cancelled? {
          r := Raise(TransportFailed);
        }
    }
  }

  class Closer {
    const body: Body
    var closed: bool

    constructor (body: Body)
      ensures this.body == body && !closed
    {
      this.body, closed := body, false;
    }

    /** `_S3BodyCloser.close`: the second call is a no-op. */
    method Close() returns (r: Outcome<()>)
      modifies this, body
      ensures closed
      ensures body.closes == old(body.closes) + (if body.closable && !old(closed) then 1 else 0)
      ensures r == if old(closed) then Ok(()) else Closed(body.closable, body.close)
    {
      if closed {
        return Ok(());
      }
      closed := true;
      r := CloseBody(body);
    }
  }

  // ----- The generator over the body -----

  /** What `_s3_body_chunks` yields to a consumer that keeps asking: the
      provider's chunks, then the first failure there is: of the iteration, or,
      when that ended well, of the close. */
  function Yielded(reading: Reading, closed: Outcome<()>): seq<Item> {
    match reading
    case NoIterator => [Breaks(Serialization)]
    case NotAsync => [Breaks(Serialization)]
    case Yields(chunks, fault) =>
      if fault.Some? then chunks + [Breaks(Mapped(fault.value))]
      else if closed.Raise? then chunks + [Breaks(closed.error)]
      else chunks
  }

  /** `ContentLength` as the response declares it. */
  datatype Length = Missing | Declared(size: nat) | Malformed

  function Advertised(length: Length): Option<nat> {
    if length.Declared? then Some(length.size) else None
  }

  /** `_s3_response_parts` */
  predicate WellFormed(body: Body, length: Length) {
    body.closable && body.canIterate && !length.Malformed?
  }

  /** A body that yields nothing but chunks was read to its end, and closing it
      did not fail. */
  lemma OnlyChunksExactly(reading: Reading, closed: Outcome<()>)
    ensures AllChunks(Yielded(reading, closed))
       <==> reading.Yields? && AllChunks(reading.chunks) && reading.fault == None && closed.Ok?
  {
    var items := Yielded(reading, closed);
    if reading.Yields? {
      if |items| > |reading.chunks| {
        assert !items[|reading.chunks|].Chunk?;
      }
    } else {
      assert !items[0].Chunk?;
    }
  }

  /** The first failure of reading the body, whatever closing it does. */
  function ReadingFailure(reading: Reading, limit: Option<nat>): Option<Error> {
    match reading
    case NoIterator => Some(Serialization)
    case NotAsync => Some(Serialization)
    case Yields(chunks, fault) =>
      var early := FirstFailure(chunks, limit);
      if early.Some? then early
      else if fault.Some? then Some(Mapped(fault.value))
      else None
  }

  function Size(reading: Reading): nat {
    if reading.Yields? then |Content(reading.chunks)| else 0
  }

  /** How a download ends when only the body can fail: the reading's failure
      before the close's. */
  function DownloadEnds(body: Body, limit: Option<nat>): Outcome<nat> {
    Ending(ReadingFailure(body.reading, limit), Closed(body.closable, body.close), Size(body.reading))
  }

  /** The generator hands on the reading's failure, and the close's only when
      there is none. */
  lemma {:induction false} YieldedFailure(reading: Reading, closed: Outcome<()>, limit: Option<nat>)
    ensures FirstFailure(Yielded(reading, closed), limit) ==
      if ReadingFailure(reading, limit).Some? then ReadingFailure(reading, limit)
      else if closed.Raise? then Some(closed.error)
      else None
    ensures ReadingFailure(reading, limit) == None && closed.Ok? ==> Yielded(reading, closed) == reading.chunks
  {}

  /** The first failure of reading and closing the body. */
  function BodyFailure(body: Body, limit: Option<nat>): Option<Error> {
    FirstFailure(Yielded(body.reading, Closed(true, body.close)), limit)
  }

  /** What can be raised in every environment: the body's own failure, and
      otherwise a refusal from before the body was touched, or what the
      environment dealt out in this span of calls and awaits. A return means
      that the body has no failure. */
  ghost predicate EndsAs(env: Environment, r: Outcome<nat>, body: Body, limit: Option<nat>, refusals: set<Error>,
                         calls: int, nowCalls: int, awaits: int, nowAwaits: int) {
    && (r.Ok? ==> BodyFailure(body, limit) == None)
    && (r.Raise? ==>
      || Some(r.error) == BodyFailure(body, limit)
      || r.error in refusals
      || Met(env, r.error, calls, nowCalls, awaits, nowAwaits))
  }

  lemma EscapesEndsAs(env: Environment, copied: Option<Error>, r: Outcome<nat>, body: Body, limit: Option<nat>,
                      began: bool, refusals: set<Error>, calls: int, nowCalls: int, awaits: int, nowAwaits: int)
    requires var items := Yielded(body.reading, Closed(true, body.close));
      && Escapes(copied, r, items, Closing(Returned(())), limit, began, refusals)
      && (r.Raise? ==> Honest(env, r.error, items, Closing(Returned(())), limit, calls, nowCalls, awaits, nowAwaits))
    ensures EndsAs(env, r, body, limit, refusals, calls, nowCalls, awaits, nowAwaits)
  {}

  /** The stream over the generator, and the close inside it. */
  method StreamBody(k: Kernel, target: string, closer: Closer, length: Length, overwrite: bool, limit: Option<nat>)
    returns (r: Outcome<nat>, residue: Option<string>)
    requires k.Valid() && !closer.closed && WellFormed(closer.body, length)
    modifies k, closer, closer.body
    ensures k.Valid()
    ensures closer.body.closes == old(closer.body.closes) + (if closer.closed then 1 else 0)
    ensures var items := Yielded(closer.body.reading, Closed(true, closer.body.close));
      if overwrite
      then Overwrites(old(k.Now()), k.Now(), r, residue, target, items, limit)
      else Creates(old(k.Now()), k.Now(), r, residue.Some?, target, items, limit)
    ensures EndsAs(k.env, r, closer.body, limit,
                   Refusals(k, target, overwrite, Advertised(length), limit, old(k.calls), old(k.entries)),
                   old(k.calls), k.calls, old(k.awaits), k.awaits)
    ensures r.Ok? ==> Uncancelled(k.env, old(k.awaits), if overwrite then k.awaits - 2 else k.awaits)
    ensures Calm(k.env) && (if overwrite then k.env.names(old(k.calls) + 1) else target) !in old(k.entries) ==>
      r == if length.Declared? && !Within(limit, length.size) then Raise(TooLarge)
           else Expected(Yielded(closer.body.reading, Closed(true, closer.body.close)), Closing(Returned(())), limit)
  {
    var body := closer.body;
    var items := Yielded(body.reading, Closed(true, body.close));
    var remote := new Remote(items, Closing(Returned(())));
    ghost var copied;
    r, residue, copied := StreamToPath(k, target, remote, overwrite, limit, Advertised(length));
    EscapesEndsAs(k.env, copied, r, body, limit, remote.started,
                  Refusals(k, target, overwrite, Advertised(length), limit, old(k.calls), old(k.entries)),
                  old(k.calls), k.calls, old(k.awaits), k.awaits);
    if remote.started {
      // the generator's own `finally`, at its end or at its `aclose`
      var closing := closer.Close();
    }
  }

  lemma CommittedBody(was: View, now: View, r: Outcome<nat>, residue: Option<string>, target: string, overwrite: bool,
                      body: Body, limit: Option<nat>)
    requires var items := Yielded(body.reading, Closed(true, body.close));
      if overwrite then Overwrites(was, now, r, residue, target, items, limit)
      else Creates(was, now, r, residue.Some?, target, items, limit)
    ensures r.Ok? ==>
      && body.reading.Yields? && body.reading.fault == None && Closed(true, body.close).Ok?
      && Committed(was, now, target, body.reading.chunks, limit)
  {
    OnlyChunksExactly(body.reading, Closed(true, body.close));
  }

  /** `stream_s3_download`, from the extracted body. A body that can be closed
      is closed exactly once on every path; the stream's own failure is the one
      that escapes, whatever closing does; and success means the whole body was
      read, closed without a fault and committed. */
  method StreamS3Download(k: Kernel, target: string, body: Body, length: Length, overwrite: bool, limit: Option<nat>)
    returns (r: Outcome<nat>, residue: Option<string>)
    requires k.Valid() && body.closes == 0
    modifies k, body
    ensures k.Valid()
    ensures body.closes == if body.closable then 1 else 0
    ensures !WellFormed(body, length) ==> r == Raise(Serialization) && k.Now() == old(k.Now())
    ensures WellFormed(body, length) ==>
      var items := Yielded(body.reading, Closed(true, body.close));
      if overwrite
      then Overwrites(old(k.Now()), k.Now(), r, residue, target, items, limit)
      else Creates(old(k.Now()), k.Now(), r, residue.Some?, target, items, limit)
    ensures r.Ok? ==>
      && body.reading.Yields? && body.reading.fault == None && Closed(true, body.close).Ok?
      && Committed(old(k.Now()), k.Now(), target, body.reading.chunks, limit)
    ensures WellFormed(body, length) ==>
      EndsAs(k.env, r, body, limit,
             Refusals(k, target, overwrite, Advertised(length), limit, old(k.calls), old(k.entries)),
             old(k.calls), k.calls, old(k.awaits), k.awaits)
    ensures r.Ok? ==> Uncancelled(k.env, old(k.awaits), if overwrite then k.awaits - 2 else k.awaits)
    ensures Calm(k.env) && WellFormed(body, length) ==>
      (if overwrite then k.env.names(old(k.calls) + 1) else target) !in old(k.entries) ==>
      r == if length.Declared? && !Within(limit, length.size) then Raise(TooLarge) else DownloadEnds(body, limit)
  {
    var closer := new Closer(body);
    var closing;
    if !WellFormed(body, length) {
      closing := closer.Close();
      return Raise(Serialization), None;
    }
    ghost var was := k.Now();
    YieldedFailure(body.reading, Closed(true, body.close), limit);
    r, residue := StreamBody(k, target, closer, length, overwrite, limit);
    CommittedBody(was, k.Now(), r, residue, target, overwrite, body, limit);
    closing := closer.Close();
    if r.Ok? && closing.Raise? {
      // a stream that succeeded has already closed its body without a fault
      assert false;
    }
  }

  /** So the reading's failure is never replaced by the close's: where reading
      fails, closing has no say in what the body's failure is. */
  lemma ReadingComesFirst(body: Body, limit: Option<nat>)
    ensures ReadingFailure(body.reading, limit).Some? ==>
      BodyFailure(body, limit) == ReadingFailure(body.reading, limit)
    ensures ReadingFailure(body.reading, limit) == None ==>
      BodyFailure(body, limit) == match Closed(true, body.close) case Ok(_) => None case Raise(error) => Some(error)
  {
    YieldedFailure(body.reading, Closed(true, body.close), limit);
  }
}
