/** The generation-pinned ranged download: sequential inclusive ranges of one
    frozen generation, streamed into an atomically replaced target, retried
    under one pin (gcs_client.py). */
module GcsDownload {
  import opened Outcomes
  import opened LocalFiles
  import ShieldedAwait
  import opened StreamCommit
  import Lease = GcsLease
  import Capacity = GcsCapacity

  const CHUNK: nat := 65536

  // ----- The remote object -----

  /** What the provider answers one call with: a prefix of what was asked for,
      something that is not bytes, or a failure. */
  datatype Reply = Served(most: nat) | Odd | Refuses(error: Error)

  /** The generations of one object, each immutable, and the metadata and the
      replies the provider will give, by the number of the call. Which
      generation is live may change between any two calls. */
  datatype Store = Store(
    contents: map<nat, Bytes>,
    live: nat -> nat,
    pins: nat -> Outcome<Pin>,
    replies: nat -> Reply,
    plans: nat -> Lease.Plan)

  datatype Pin = Pin(generation: nat, size: nat)

  function Clip(n: nat, most: nat): nat {
    if n < most then n else most
  }

  /** `download_as_bytes`: bytes `first` to `last` inclusive of the generation
      asked for, and of no other. */
  function DownloadAsBytes(store: Store, at: nat, first: nat, last: nat, generation: nat): Outcome<Option<Bytes>>
    requires first <= last
  {
    if store.replies(at).Refuses? then Raise(store.replies(at).error)
    else if store.live(at) != generation || generation !in store.contents then Raise(PreconditionFailed)
    else if store.replies(at).Odd? then Ok(None)
    else
      var whole := store.contents[generation];
      var from := Clip(first, |whole|);
      var to := Clip(from + store.replies(at).most, Clip(last + 1, |whole|));
      Ok(Some(whole[from..if from <= to then to else from]))
  }

  /** The errors a provider call may have of its own. */
  ghost predicate MayRefuse(store: Store, at: nat, error: Error) {
    || error == BadGateway || error == PreconditionFailed
    || store.pins(at) == Raise(error) || store.replies(at) == Refuses(error)
  }

  /** What a `run` of provider call `at` may raise. */
  ghost predicate RaisedAt(store: Store, at: nat, error: Error) {
    || MayRefuse(store, at, error)
    || store.plans(at).payload == Lease.ProviderError(error)
    || Lease.LateOrCancelled(store.plans(at), error)
  }

  /** Some provider call from number `from` on raised the error. */
  ghost predicate ProviderRaised(store: Store, from: nat, error: Error) {
    exists at: nat :: at >= from && RaisedAt(store, at, error)
  }

  /** Why an attempt fails: a provider call, an object over the limit, no free
      temporary name, or what the local environment dealt out. */
  ghost predicate Blamed(store: Store, env: Environment, pin: Option<Pin>, limit: nat, error: Error, from: nat,
                         calls: int, nowCalls: int, awaits: int, nowAwaits: int) {
    || ProviderRaised(store, from, error)
    || (error == TooLarge && pin.Some? && pin.value.size > limit)
    || error == Configuration
    || Met(env, error, calls, nowCalls, awaits, nowAwaits)
  }

  /** `_download_blob_range`: exactly the bytes asked for, or a failure. */
  method DownloadBlobRange(store: Store, at: nat, first: nat, last: nat, generation: nat) returns (r: Outcome<Bytes>)
    requires first <= last
    ensures r.Ok? ==> generation in store.contents && last < |store.contents[generation]|
    ensures r.Ok? ==> r.value == store.contents[generation][first..last + 1]
    ensures r.Raise? ==> MayRefuse(store, at, r.error)
    ensures Willing(store, generation, at) && last < |store.contents[generation]| && last < first + CHUNK ==> r.Ok?
  {
    assert Willing(store, generation, at) ==> WillingAt(store, generation, at);
    var data := DownloadAsBytes(store, at, first, last, generation);
    if data.Raise? {
      return Raise(data.error);
    }
    if data.value == None || |data.value.value| != last - first + 1 {
      return Raise(BadGateway);
    }
    return Ok(data.value.value);
  }

  /** Nothing goes wrong on the provider's side from call `from` on: generation
      `g` stays live, its metadata is right, it is served in full and every call
      is accepted. */
  ghost predicate Willing(store: Store, g: nat, from: nat) {
    && g in store.contents
    && forall n: nat :: n >= from ==> WillingAt(store, g, n)
  }

  ghost predicate WillingAt(store: Store, g: nat, n: nat)
    requires g in store.contents
  {
    && store.live(n) == g && store.pins(n) == Ok(Pin(g, |store.contents[g]|))
    && store.replies(n).Served? && store.replies(n).most >= CHUNK
    && Lease.Accepted(store.plans(n))
  }

  // ----- The ranges -----

  datatype Range = Range(first: nat, last: nat)

  function RangeAt(size: nat, k: nat): Range
    requires CHUNK * k < size
  {
    Range(CHUNK * k, Clip(CHUNK * (k + 1), size) - 1)
  }

  /** How many ranges an object takes. */
  function Count(size: nat): nat {
    (size + CHUNK - 1) / CHUNK
  }

  /** Every byte of the object is in exactly one range, and that is the one its
      position names; no range is over 64 KiB or past the end. */
  lemma RangesPartition(size: nat, b: nat, k: nat)
    requires b < size && k < Count(size)
    ensures CHUNK * k < size
    ensures b / CHUNK < Count(size)
    ensures RangeAt(size, k).first <= b <= RangeAt(size, k).last <==> k == b / CHUNK
    ensures 1 <= RangeAt(size, k).last - RangeAt(size, k).first + 1 <= CHUNK
    ensures RangeAt(size, k).last < size
  {}

  /** Ranges follow one another without gap or overlap. */
  lemma RangesInOrder(size: nat, k: nat)
    requires k + 1 < Count(size)
    ensures CHUNK * (k + 1) < size
    ensures RangeAt(size, k + 1).first == RangeAt(size, k).last + 1
  {}

  /** The request a range call sends. */
  datatype Request = Request(generation: nat, range: Range)

  /** `requests` asks for the first ranges of one generation, in order. */
  ghost predicate Asks(requests: seq<Request>, pin: Pin) {
    && |requests| <= Count(pin.size)
    && forall k :: 0 <= k < |requests| ==> AsksAt(requests[k], pin, k)
  }

  ghost predicate AsksAt(request: Request, pin: Pin, k: nat) {
    CHUNK * k < pin.size && request == Request(pin.generation, RangeAt(pin.size, k))
  }

  /** The first `n` bytes of the pinned object. */
  ghost predicate Holds(store: Store, pin: Pin, n: nat, body: Bytes) {
    && pin.generation in store.contents && n <= |store.contents[pin.generation]|
    && body == store.contents[pin.generation][..n]
  }

  /** The items so far are the object's bytes in front of `offset`; nothing has
      to exist for an empty object. */
  ghost predicate Copied(store: Store, pin: Pin, items: seq<Item>, offset: nat) {
    AllChunks(items) && (if offset == 0 then Content(items) == [] else Holds(store, pin, offset, Content(items)))
  }

  lemma {:induction false} CopiedMore(store: Store, pin: Pin, items: seq<Item>, offset: nat, end: nat, chunk: Bytes)
    requires Copied(store, pin, items, offset) && offset < end && pin.generation in store.contents
    requires end <= |store.contents[pin.generation]| && chunk == store.contents[pin.generation][offset..end]
    ensures Copied(store, pin, items + [Chunk(chunk)], end)
  {
    var more := items + [Chunk(chunk)];
    assert more[..|more| - 1] == items;
    var whole := store.contents[pin.generation];
    assert whole[..offset] + whole[offset..end] == whole[..end];
  }

  /** The next range starts where the last one ended. */
  lemma AsksMore(requests: seq<Request>, pin: Pin, offset: nat, end: nat)
    requires Asks(requests, pin) && offset == Clip(CHUNK * |requests|, pin.size) < pin.size
    requires end == Clip(offset + CHUNK, pin.size) - 1
    ensures Asks(requests + [Request(pin.generation, Range(offset, end))], pin)
    ensures end + 1 == Clip(CHUNK * (|requests| + 1), pin.size)
  {}

  /** One range, as one provider call under the lease. */
  method FetchRange(p: Lease.Provider, store: Store, pin: Pin, at: nat, range: Range) returns (r: Outcome<Bytes>)
    requires p.Valid() && range.first <= range.last
    modifies p
    ensures p.Valid() && p.lease == old(p.lease) && p.running == old(p.running) && p.closes == old(p.closes)
    ensures r.Ok? ==> pin.generation in store.contents && range.last < |store.contents[pin.generation]|
    ensures r.Ok? ==> r.value == store.contents[pin.generation][range.first..range.last + 1]
    ensures r.Raise? ==> ProviderRaised(store, at, r.error)
    ensures range.last < range.first + CHUNK ==>
      Willing(store, pin.generation, at) && range.last < |store.contents[pin.generation]| ==> r.Ok?
  {
    r := DownloadBlobRange(store, at, range.first, range.last, pin.generation);
    var plan := store.plans(at).(payload := if r.Ok? then Lease.Success else Lease.ProviderError(r.error));
    assert Willing(store, pin.generation, at) ==> WillingAt(store, pin.generation, at);
    ghost var now := p.closes;
    var ran;
    ghost var id;
    ran, id := Lease.Run(p, Lease.Plain, false, plan);
    Lease.RunSettles(now, Lease.Plain, false, plan, id);
    if ran.Raise? {
      Lease.RaisesOnly(plan, false, id);
      assert RaisedAt(store, at, ran.error);
      r := Raise(ran.error);
    }
  }

  ghost predicate ChunkOrRaised(store: Store, from: nat, item: Item) {
    item.Chunk? || (item.Breaks? && ProviderRaised(store, from, item.error))
  }

  lemma RaisedSince(store: Store, from: nat, at: nat, error: Error)
    requires from <= at && ProviderRaised(store, at, error)
    ensures ProviderRaised(store, from, error)
  {
    var call: nat :| call >= at && RaisedAt(store, call, error);
    assert call >= from;
  }

  lemma {:induction false} CopiedSize(store: Store, pin: Pin, items: seq<Item>, offset: nat, last: Error)
    requires Copied(store, pin, items, offset)
    ensures |Content(items)| == offset && Content(items + [Breaks(last)]) == Content(items)
  {
    assert (items + [Breaks(last)])[..|items|] == items;
  }

  /** `_download_chunks`: what its iteration yields. Each range is one provider
      call under the lease; the first that fails ends the iteration. */
  method DownloadChunks(p: Lease.Provider, store: Store, pin: Pin, from: nat)
    returns (items: seq<Item>, next: nat, requests: seq<Request>)
    requires p.Valid()
    modifies p
    ensures p.Valid() && p.lease == old(p.lease) && p.running == old(p.running) && p.closes == old(p.closes)
    ensures Asks(requests, pin)
    ensures AllChunks(items) ==> Copied(store, pin, items, pin.size) && |requests| == Count(pin.size)
    ensures |Content(items)| <= pin.size && forall i :: 0 <= i < |items| ==> ChunkOrRaised(store, from, items[i])
    ensures Willing(store, pin.generation, from) && pin.size <= |store.contents[pin.generation]| ==> AllChunks(items)
    ensures next >= from
  {
    items, next, requests := [], from, [];
    var offset := 0;
    while offset < pin.size
      invariant offset == Clip(CHUNK * |requests|, pin.size) && next >= from
      invariant p.Valid() && p.lease == old(p.lease) && p.running == old(p.running) && p.closes == old(p.closes)
      invariant Asks(requests, pin) && Copied(store, pin, items, offset)
    {
      var end := Clip(offset + CHUNK, pin.size) - 1;
      AsksMore(requests, pin, offset, end);
      requests := requests + [Request(pin.generation, Range(offset, end))];
      var got := FetchRange(p, store, pin, next, Range(offset, end));
      next := next + 1;
      if got.Raise? {
        CopiedSize(store, pin, items, offset, got.error);
        RaisedSince(store, from, next - 1, got.error);
        items := items + [Breaks(got.error)];
        assert !items[|items| - 1].Chunk?;
        return;
      }
      CopiedMore(store, pin, items, offset, end + 1, got.value);
      items := items + [Chunk(got.value)];
      offset := end + 1;
    }
  }

  // ----- One attempt -----

  /** What one request keeps across its attempts. */
  class Download {
    const target: string
    const limit: nat
    /** the caller's `if_generation_match` */
    const expected: Option<nat>
    var pin: Option<Pin>
    /** every range request sent so far */
    var requests: seq<Request>

    constructor (target: string, limit: nat, expected: Option<nat>)
      ensures this.target == target && this.limit == limit && this.expected == expected
      ensures pin == None && requests == [] && Valid()
    {
      this.target, this.limit, this.expected, pin, requests := target, limit, expected, None, [];
    }

    /** One generation, the caller's own if the caller named one. */
    ghost predicate Valid()
      reads this
    {
      && (requests != [] ==> pin.Some?)
      && (forall i :: 0 <= i < |requests| ==> requests[i].generation == pin.value.generation)
      && (pin.Some? && expected.Some? ==> pin.value.generation == expected.value)
    }

    /** A range is requested when the stream asks for it, and not after it has
        failed: the first `n` of them. */
    method Log(requests: seq<Request>, n: nat)
      requires Valid() && pin.Some? && Asks(requests, pin.value)
      modifies `requests
      ensures Valid()
      ensures this.requests == old(this.requests) + requests[..Clip(n, |requests|)]
    {
      assert forall i :: 0 <= i < |requests| ==> AsksAt(requests[i], pin.value, i);
      this.requests := this.requests + requests[..Clip(n, |requests|)];
    }
  }

  /** The pinned object, whole. */
  ghost predicate Whole(store: Store, pin: Option<Pin>, body: Bytes) {
    pin.Some? && |body| == pin.value.size && (pin.value.size > 0 ==> Holds(store, pin.value, pin.value.size, body))
  }

  ghost predicate Stored(view: View, target: string, store: Store, pin: Option<Pin>) {
    target in view.entries && view.entries[target] in view.data && Whole(store, pin, view.data[view.entries[target]])
  }

  ghost predicate Durable(view: View, target: string) {
    && target in view.entries && view.entries[target] in view.data && view.entries[target] in view.synced
    && view.synced[view.entries[target]] == view.data[view.entries[target]]
  }

  /** One transfer either replaced the target by the pinned object or changed
      no name, save a temporary it could not remove. */
  ghost predicate Transferred(was: View, now: View, stored: bool, residue: Option<string>, target: string,
                              store: Store, pin: Option<Pin>) {
    && now.held == was.held && Kept(was.data, now.data)
    && (stored ==> Stored(now, target, store, pin) && Durable(now, target))
    && (stored ==> now.entries == was.entries[target := now.entries[target]])
    && (!stored ==> Left(was.entries, now.entries, residue))
  }

  /** A pin stays, and a new one is what some metadata call answered. */
  ghost predicate Pinned(store: Store, before: Option<Pin>, after: Option<Pin>) {
    after == before || (before == None && exists at: nat :: AnsweredBy(store, at, after))
  }

  ghost predicate AnsweredBy(store: Store, at: nat, pin: Option<Pin>) {
    pin.Some? && store.pins(at) == Ok(pin.value)
  }

  /** `_reload_download_pin`, run under the lease by the first attempt that
      gets this far. */
  method Reload(p: Lease.Provider, store: Store, d: Download, at: nat) returns (failure: Option<Error>)
    requires p.Valid() && d.Valid() && d.pin == None
    modifies p, d`pin
    ensures p.Valid() && p.lease == old(p.lease) && p.running == old(p.running) && p.closes == old(p.closes)
    ensures d.Valid() && (failure == None <==> d.pin.Some?)
    ensures forall g :: Willing(store, g, at) && (d.expected.Some? ==> d.expected.value == g) ==>
      d.pin == Some(Pin(g, |store.contents[g]|))
    ensures Pinned(store, None, d.pin)
    ensures failure.Some? ==> ProviderRaised(store, at, failure.value)
  {
    assert forall g :: Willing(store, g, at) ==> WillingAt(store, g, at);
    var snapshot := store.pins(at);
    if snapshot.Ok? && d.expected.Some? && snapshot.value.generation != d.expected.value {
      snapshot := Raise(BadGateway);
    }
    var payload := if snapshot.Ok? then Lease.Success else Lease.ProviderError(snapshot.error);
    var plan := store.plans(at).(payload := payload);
    ghost var now := p.closes;
    var ran;
    ghost var id;
    ran, id := Lease.Run(p, Lease.Plain, false, plan);
    Lease.RunSettles(now, Lease.Plain, false, plan, id);
    if ran.Raise? {
      Lease.RaisesOnly(plan, false, id);
      assert RaisedAt(store, at, ran.error);
      return Some(ran.error);
    }
    d.pin := Some(snapshot.value);
    assert AnsweredBy(store, at, d.pin);
    return None;
  }

  /** Everything a download needs to succeed: a provider that is willing from call
      `from` on, whose object is within the limit and is the generation the
      caller asked for, a calm local environment and temporary names that are
      free. */
  ghost predicate Favourable(view: View, env: Environment, store: Store, limit: nat, expected: Option<nat>,
                             pin: Option<Pin>, g: nat, from: nat) {
    && Willing(store, g, from) && (expected.Some? ==> expected.value == g) && |store.contents[g]| <= limit
    && (pin.Some? ==> pin.value == Pin(g, |store.contents[g]|))
    && Calm(env) && (forall n: nat :: env.names(n) !in view.entries)
  }

  /** Whatever generation makes the circumstances favourable, it went well. */
  ghost predicate WentWell(view: View, env: Environment, store: Store, limit: nat, expected: Option<nat>,
                           pin: Option<Pin>, from: nat, ok: bool) {
    forall g :: Favourable(view, env, store, limit, expected, pin, g, from) ==> ok
  }

  /** A stream of the pinned object, whether it returned or raised, is a
      transfer. */
  lemma StreamTransfers(was: View, now: View, r: Outcome<nat>, residue: Option<string>, target: string,
                        items: seq<Item>, limit: nat, store: Store, pin: Pin)
    requires Overwrites(was, now, r, residue, target, items, Some(limit))
    requires AllChunks(items) ==> Copied(store, pin, items, pin.size)
    ensures Transferred(was, now, r.Ok?, residue, target, store, Some(pin))
    ensures r.Ok? ==> r.value == pin.size <= limit
  {}

  lemma {:induction false} RangesAreExpected(items: seq<Item>, limit: nat, store: Store, pin: Pin)
    requires AllChunks(items) ==> Copied(store, pin, items, pin.size)
    ensures AllChunks(items) && pin.size <= limit ==>
      Expected(items, Closing(ShieldedAwait.Returned(())), Some(limit)).Ok?
  {
    FailsExactly(items, Some(limit));
  }

  /** A stream of a pinned object within the limit fails by a range, by the lack of
      a name, or by the local environment. */
  lemma StreamBlamed(store: Store, k: Kernel, pin: Pin, limit: nat, items: seq<Item>, copied: Option<Error>,
                     r: Outcome<nat>, began: bool, refusals: set<Error>, from: nat,
                     calls: int, nowCalls: int, awaits: int, nowAwaits: int)
    requires forall i :: 0 <= i < |items| ==> ChunkOrRaised(store, from, items[i])
    requires |Content(items)| <= pin.size <= limit && r.Raise? && refusals <= {Configuration}
    requires Escapes(copied, r, items, Closing(ShieldedAwait.Returned(())), Some(limit), began, refusals)
    requires Honest(k.env, r.error, items, Closing(ShieldedAwait.Returned(())), Some(limit),
                    calls, nowCalls, awaits, nowAwaits)
    ensures Blamed(store, k.env, Some(pin), limit, r.error, from, calls, nowCalls, awaits, nowAwaits)
  {
    if Some(r.error) == FirstFailure(items, Some(limit)) {
      FailureIsFound(items, Some(limit));
      forall i | 0 <= i < |items| ensures !items[i].NotBytes? {
        assert ChunkOrRaised(store, from, items[i]);
      }
      var i :| 0 <= i < |items| && items[i] == Breaks(r.error);
      assert ChunkOrRaised(store, from, items[i]);
    }
  }

  /** The ranges streamed into the target; `asked` is how many items the stream
      has asked for. */
  method StreamRanges(k: Kernel, target: string, limit: nat, store: Store, pin: Pin, items: seq<Item>, ghost from: nat)
    returns (r: Outcome<nat>, residue: Option<string>, asked: nat)
    requires |Content(items)| <= pin.size <= limit
    requires forall i :: 0 <= i < |items| ==> ChunkOrRaised(store, from, items[i])
    requires k.Valid() && (AllChunks(items) ==> Copied(store, pin, items, pin.size))
    modifies k
    ensures k.Valid() && k.calls >= old(k.calls) && k.awaits >= old(k.awaits)
    ensures Transferred(old(k.Now()), k.Now(), r.Ok?, residue, target, store, Some(pin))
    ensures r.Ok? ==> r.value == pin.size <= limit
    ensures Calm(k.env) && k.env.names(old(k.calls) + 1) !in old(k.entries) ==>
      AllChunks(items) && pin.size <= limit ==> r.Ok?
    ensures r.Raise? ==>
      Blamed(store, k.env, Some(pin), limit, r.error, from, old(k.calls), k.calls, old(k.awaits), k.awaits)
    ensures residue.Some? ==> exists n: nat :: residue.value == k.env.names(n)
    ensures Calm(k.env) ==> residue == None
  {
    ghost var was := k.Now();
    var remote := new Remote(items, Closing(ShieldedAwait.Returned(())));
    RangesAreExpected(items, limit, store, pin);
    ghost var copied;
    r, residue, copied := StreamToPath(k, target, remote, true, Some(limit), Some(pin.size));
    if r.Raise? {
      StreamBlamed(store, k, pin, limit, items, copied, r, remote.started,
                   Refusals(k, target, true, Some(pin.size), Some(limit), old(k.calls), old(k.entries)), from,
                   old(k.calls), k.calls, old(k.awaits), k.awaits);
    }
    StreamTransfers(was, k.Now(), r, residue, target, items, limit, store, pin);
    asked := remote.next;
    if r.Ok? && r.value != pin.size {
      // the code's own check of `bytes_written` can never fire
      assert false;
    }
  }

  /** The transfer of one attempt, once the pin is known. */
  method Transfer(k: Kernel, p: Lease.Provider, store: Store, d: Download, from: nat)
    returns (r: Outcome<nat>, residue: Option<string>, next: nat)
    requires k.Valid() && p.Valid() && d.Valid() && d.pin.Some?
    modifies k, p, d`requests
    ensures k.Valid() && p.Valid() && d.Valid() && k.calls >= old(k.calls) && k.awaits >= old(k.awaits)
    ensures p.lease == old(p.lease) && p.running == old(p.running) && p.closes == old(p.closes)
    ensures next >= from
    ensures Transferred(old(k.Now()), k.Now(), r.Ok?, residue, d.target, store, d.pin)
    ensures r.Ok? ==> r.value == d.pin.value.size <= d.limit
    ensures WentWell(old(k.Now()), k.env, store, d.limit, d.expected, old(d.pin), from, r.Ok?)
    ensures r.Raise? ==> Blamed(store, k.env, d.pin, d.limit, r.error, from,
                              old(k.calls), k.calls, old(k.awaits), k.awaits)
    ensures residue.Some? ==> exists n: nat :: residue.value == k.env.names(n)
    ensures Calm(k.env) ==> residue == None
  {
    var pin := d.pin.value;
    if pin.size > d.limit {
      return Raise(TooLarge), None, from;
    }
    var items, requests, asked;
    items, next, requests := DownloadChunks(p, store, pin, from);
    r, residue, asked := StreamRanges(k, d.target, d.limit, store, pin, items, from);
    d.Log(requests, asked);
  }

  /** The body of one attempt between the first provider calls and the close. */
  method PinAndTransfer(k: Kernel, p: Lease.Provider, store: Store, d: Download, from: nat)
    returns (r: Outcome<nat>, residue: Option<string>, next: nat)
    requires k.Valid() && p.Valid() && d.Valid()
    modifies k, p, d
    ensures k.Valid() && p.Valid() && d.Valid() && k.calls >= old(k.calls) && k.awaits >= old(k.awaits)
    ensures p.lease == old(p.lease) && p.running == old(p.running) && p.closes == old(p.closes)
    ensures Pinned(store, old(d.pin), d.pin)
    ensures next >= from
    ensures Transferred(old(k.Now()), k.Now(), r.Ok?, residue, d.target, store, d.pin)
    ensures r.Ok? ==> d.pin.Some? && r.value == d.pin.value.size <= d.limit
    ensures WentWell(old(k.Now()), k.env, store, d.limit, d.expected, old(d.pin), from, r.Ok?)
    ensures r.Raise? ==> Blamed(store, k.env, d.pin, d.limit, r.error, from,
                              old(k.calls), k.calls, old(k.awaits), k.awaits)
    ensures residue.Some? ==> exists n: nat :: residue.value == k.env.names(n)
    ensures Calm(k.env) ==> residue == None
  {
    next := from;
    ghost var was, pin := k.Now(), d.pin;
    if d.pin == None {
      var failure := Reload(p, store, d, next);
      next := next + 1;
      if failure.Some? {
        return Raise(failure.value), None, next;
      }
    }
    assert forall g :: Favourable(was, k.env, store, d.limit, d.expected, pin, g, from) ==>
      Favourable(k.Now(), k.env, store, d.limit, d.expected, d.pin, g, next);
    r, residue, next := Transfer(k, p, store, d, next);
  }

  lemma FavourableAccepts(view: View, env: Environment, store: Store, d: Download, plans: nat -> Lease.Plan, from: nat)
    requires forall i: nat :: plans(i) == store.plans(from + i)
    ensures forall g, pin :: Favourable(view, env, store, d.limit, d.expected, pin, g, from) ==>
      Lease.AllAccepted(plans, 0, 5) && forall at: nat :: at >= from ==> Lease.Accepted(store.plans(at))
  {
    forall g, pin | Favourable(view, env, store, d.limit, d.expected, pin, g, from)
      ensures Lease.AllAccepted(plans, 0, 5) && forall at: nat :: at >= from ==> Lease.Accepted(store.plans(at))
    {
      forall at: nat | at >= from ensures Lease.Accepted(store.plans(at)) {
        assert WillingAt(store, g, at);
      }
    }
  }

  /** Favourable from one call on is so from a later one on, and nothing was
      favourable if one of the first calls was not accepted. */
  lemma BodyWell(view: View, env: Environment, store: Store, d: Download, pin: Option<Pin>, plans: nat -> Lease.Plan,
                 from: nat, accepted: bool, ok: bool)
    requires forall i: nat :: plans(i) == store.plans(from + i)
    requires if accepted then WentWell(view, env, store, d.limit, d.expected, pin, from + 5, ok)
             else !Lease.AllAccepted(plans, 0, 5)
    ensures WentWell(view, env, store, d.limit, d.expected, pin, from, ok)
  {
    FavourableAccepts(view, env, store, d, plans, from);
    assert forall g :: Favourable(view, env, store, d.limit, d.expected, pin, g, from) ==>
      Favourable(view, env, store, d.limit, d.expected, pin, g, from + 5);
  }

  lemma BlamedSince(store: Store, env: Environment, pin: Option<Pin>, limit: nat, error: Error, from: nat, at: nat,
                    calls: int, nowCalls: int, awaits: int, nowAwaits: int)
    requires from <= at && Blamed(store, env, pin, limit, error, at, calls, nowCalls, awaits, nowAwaits)
    ensures Blamed(store, env, pin, limit, error, from, calls, nowCalls, awaits, nowAwaits)
  {
    if ProviderRaised(store, at, error) { RaisedSince(store, from, at, error); }
  }

  lemma FirstCallsRaised(store: Store, plans: nat -> Lease.Plan, from: nat, i: nat, error: Error)
    requires (forall n: nat :: plans(n) == store.plans(from + n)) && Lease.FailsAt(plans, 0, 5, i, error)
    ensures ProviderRaised(store, from, error)
  {
    Lease.RaisesOnly(store.plans(from + i), i == 2, 0);
    assert RaisedAt(store, from + i, error);
  }

  /** The close of the client escapes only when the body went well. */
  lemma CloseBlamed(store: Store, env: Environment, pin: Option<Pin>, limit: nat, body: Outcome<nat>,
                    ended: Outcome<()>, from: nat, at: nat, calls: int, nowCalls: int, awaits: int, nowAwaits: int)
    requires body.Raise? ==>
      ended == Raise(body.error)
      && Blamed(store, env, pin, limit, body.error, from, calls, nowCalls, awaits, nowAwaits)
    requires body.Ok? && ended.Raise? ==> from <= at && Lease.Answer(store.plans(at), false, 0) == Raise(ended.error)
    ensures ended.Raise? ==> Blamed(store, env, pin, limit, ended.error, from, calls, nowCalls, awaits, nowAwaits)
  {
    if body.Ok? && ended.Raise? {
      Lease.RaisesOnly(store.plans(at), false, 0);
      assert RaisedAt(store, at, ended.error);
    }
  }

  /** The body of `_download_attempt`: the first provider calls, then the pinned
      transfer. The client it leaves open is the caller's to close. */
  method AttemptBody(k: Kernel, p: Lease.Provider, store: Store, d: Download, from: nat, plans: nat -> Lease.Plan)
    returns (r: Outcome<nat>, client: Option<Lease.ClientId>, residue: Option<string>, next: nat)
    requires k.Valid() && p.Valid() && d.Valid() && forall i: nat :: plans(i) == store.plans(from + i)
    modifies k, p, d
    ensures k.Valid() && p.Valid() && d.Valid() && k.calls >= old(k.calls) && k.awaits >= old(k.awaits)
    ensures p.lease == old(p.lease) && p.running == old(p.running) && Lease.Owning(old(p.closes), p.closes, client)
    ensures Pinned(store, old(d.pin), d.pin) && next >= from
    ensures Transferred(old(k.Now()), k.Now(), r.Ok?, residue, d.target, store, d.pin)
    ensures r.Ok? ==> d.pin.Some? && r.value == d.pin.value.size <= d.limit
    ensures WentWell(old(k.Now()), k.env, store, d.limit, d.expected, old(d.pin), from, r.Ok?)
    ensures r.Raise? ==> Blamed(store, k.env, d.pin, d.limit, r.error, from,
                              old(k.calls), k.calls, old(k.awaits), k.awaits)
    ensures residue.Some? ==> exists n: nat :: residue.value == k.env.names(n)
    ensures Calm(k.env) ==> residue == None
  {
    ghost var before, was, pin := p.closes, k.Now(), d.pin;
    var failure;
    failure, client := Lease.CallProvider(p, plans, 0, 5, None, before);
    if failure.Some? {
      ghost var i :| Lease.FailsAt(plans, 0, 5, i, failure.value);
      FirstCallsRaised(store, plans, from, i, failure.value);
      r, residue, next := Raise(failure.value), None, from + 5;
    } else {
      ghost var calls, awaits := k.calls, k.awaits;
      r, residue, next := PinAndTransfer(k, p, store, d, from + 5);
      if r.Raise? {
        BlamedSince(store, k.env, d.pin, d.limit, r.error, from, from + 5, calls, k.calls, awaits, k.awaits);
      }
    }
    BodyWell(was, k.env, store, d, pin, plans, from, failure == None, r.Ok?);
  }

  /** Nothing was favourable if the closing call was not accepted. */
  lemma ClosedWell(view: View, env: Environment, store: Store, d: Download, pin: Option<Pin>, from: nat, next: nat,
                   filled: bool, ok: bool)
    requires from <= next && WentWell(view, env, store, d.limit, d.expected, pin, from, filled)
    requires filled && !ok ==> !Lease.Accepted(store.plans(next))
    ensures WentWell(view, env, store, d.limit, d.expected, pin, from, ok)
  {
    FavourableAccepts(view, env, store, d, (i: nat) => store.plans(from + i), from);
  }

  /** `_download_attempt`. Its failure may come after the target was replaced,
      when only closing the client fails; `stored` tells the two apart. */
  method Attempt(k: Kernel, p: Lease.Provider, store: Store, d: Download, from: nat)
    returns (r: Outcome<nat>, stored: bool, residue: Option<string>, next: nat)
    requires k.Valid() && p.Valid() && d.Valid()
    modifies k, p, d
    ensures k.Valid() && p.Valid() && d.Valid() && k.calls >= old(k.calls) && k.awaits >= old(k.awaits)
    ensures p.lease == old(p.lease) && p.running == old(p.running) && Lease.Settled(old(p.closes), p.closes)
    ensures Pinned(store, old(d.pin), d.pin) && next > from
    ensures Transferred(old(k.Now()), k.Now(), stored, residue, d.target, store, d.pin)
    ensures r.Ok? ==> stored && d.pin.Some? && r.value == d.pin.value.size <= d.limit
    ensures WentWell(old(k.Now()), k.env, store, d.limit, d.expected, old(d.pin), from, r.Ok?)
    ensures r.Raise? ==> Blamed(store, k.env, d.pin, d.limit, r.error, from,
                              old(k.calls), k.calls, old(k.awaits), k.awaits)
    ensures residue.Some? ==> exists n: nat :: residue.value == k.env.names(n)
    ensures Calm(k.env) ==> residue == None
  {
    ghost var before, was, pin := p.closes, k.Now(), d.pin;
    var plans := (i: nat) => store.plans(from + i);
    var client;
    r, client, residue, next := AttemptBody(k, p, store, d, from, plans);
    stored := r.Ok?;
    var ended := Lease.Conclude(p, client, if r.Raise? then Some(r.error) else None, store.plans(next), before);
    ClosedWell(was, k.env, store, d, pin, from, next, stored, ended.Ok?);
    CloseBlamed(store, k.env, d.pin, d.limit, r, ended, from, next, old(k.calls), k.calls, old(k.awaits), k.awaits);
    next := next + 1;
    if ended.Raise? {
      r := Raise(ended.error);
    }
  }

  // ----- The whole request -----

  ghost predicate Untouched(was: View, now: View, name: string) {
    if name in was.entries then name in now.entries && now.entries[name] == was.entries[name] else name !in now.entries
  }

  /** Whatever happened so far, every older file has its bytes and every other
      name its file, and the target is what it was or the pinned object whole:
      never a part of it, never two generations mixed. */
  ghost predicate Safe(was: View, now: View, target: string, store: Store, pin: Option<Pin>) {
    && now.held == was.held && Kept(was.data, now.data)
    && (forall n :: n in was.entries && n != target ==> Untouched(was, now, n))
    && (Untouched(was, now, target) || Stored(now, target, store, pin))
  }

  /** No temporary is ever given the target's name. */
  ghost predicate Apart(env: Environment, target: string) {
    forall n: nat :: env.names(n) != target
  }

  lemma SafeAgain(was: View, mid: View, now: View, stored: bool, residue: Option<string>, target: string,
                  store: Store, old_: Option<Pin>, pin: Option<Pin>)
    requires Safe(was, mid, target, store, old_) && (old_.Some? ==> pin == old_)
    requires Transferred(mid, now, stored, residue, target, store, pin)
    requires residue != Some(target)
    ensures Safe(was, now, target, store, pin)
  {}

  /** The target is that generation byte for byte, when its metadata tells its
      size right. */
  ghost predicate ByteForByte(view: View, target: string, store: Store, pin: Option<Pin>) {
    && target in view.entries && view.entries[target] in view.data && pin.Some?
    && (pin.value.generation in store.contents && pin.value.size == |store.contents[pin.value.generation]| ==>
         view.data[view.entries[target]] == store.contents[pin.value.generation])
  }

  lemma StoredIsByteForByte(view: View, target: string, store: Store, pin: Option<Pin>)
    requires Stored(view, target, store, pin)
    ensures ByteForByte(view, target, store, pin)
  {}

  /** The provider comes round at its call number `from`: it is willing from then
      on, and its metadata was right whenever it answered; the rest is
      favourable throughout. */
  ghost predicate ComesRound(was: View, env: Environment, store: Store, limit: nat, expected: Option<nat>,
                             target: string, g: nat, from: nat) {
    && Willing(store, g, from) && (expected.Some? ==> expected.value == g) && |store.contents[g]| <= limit
    && (forall at: nat :: store.pins(at).Ok? ==> store.pins(at).value == Pin(g, |store.contents[g]|))
    && Calm(env) && Apart(env, target) && forall n: nat :: env.names(n) !in was.entries
  }

  ghost predicate Fresh(now: View, env: Environment, store: Store, pin: Option<Pin>, g: nat)
    requires g in store.contents
  {
    (pin.Some? ==> pin.value == Pin(g, |store.contents[g]|)) && forall n: nat :: env.names(n) !in now.entries
  }

  /** After `n` attempts that all failed, the provider has not come round before
      its call number `n`, and the next attempt finds nothing in its way. */
  ghost predicate Waiting(was: View, now: View, env: Environment, store: Store, d: Download, pin: Option<Pin>, n: nat,
                          failed: bool) {
    forall g: nat, from: nat :: ComesRound(was, env, store, d.limit, d.expected, d.target, g, from) ==>
      Fresh(now, env, store, pin, g) && (failed ==> n <= from)
  }

  /** If the provider comes round at a call no later than the attempts are many,
      it goes well. */
  ghost predicate GetsThrough(was: View, env: Environment, store: Store, d: Download, attempts: nat, ok: bool) {
    forall g: nat, from: nat :: from < attempts ==>
      ComesRound(was, env, store, d.limit, d.expected, d.target, g, from) ==> ok
  }

  /** The error is the open circuit's when no attempt was made, and otherwise what
      the last one is to be blamed for, over its own span of the request's calls
      and awaits. */
  ghost predicate LastBlamed(store: Store, env: Environment, pin: Option<Pin>, limit: nat, attempts: nat, error: Error,
                             calls: int, nowCalls: int, awaits: int, nowAwaits: int) {
    if attempts == 0 then error == CircuitOpen
    else exists c, a :: c >= calls && a >= awaits && Blamed(store, env, pin, limit, error, 0, c, nowCalls, a, nowAwaits)
  }

  lemma WaitingOn(was: View, mid: View, now: View, env: Environment, store: Store, d: Download, before: Option<Pin>,
                  pin: Option<Pin>, n: nat, at: nat, stored: bool, residue: Option<string>, ok: bool)
    requires Waiting(was, mid, env, store, d, before, n, true) && at >= n
    requires Transferred(mid, now, stored, residue, d.target, store, pin) && Pinned(store, before, pin)
    requires Calm(env) ==> residue == None
    requires WentWell(mid, env, store, d.limit, d.expected, before, at, ok)
    ensures Waiting(was, now, env, store, d, pin, n + 1, !ok)
  {
    forall g: nat, from: nat | ComesRound(was, env, store, d.limit, d.expected, d.target, g, from)
      ensures Fresh(now, env, store, pin, g) && (!ok ==> n + 1 <= from)
    {
      assert Fresh(mid, env, store, before, g);
      if from <= n {
        assert Favourable(mid, env, store, d.limit, d.expected, before, g, at);
      }
    }
  }

  /** `_handle_download`: attempts up to the first success, under one pin. Each
      failed attempt is followed by the next, so the request gets through if the
      provider comes round at a call no later than the attempts are many. */
  method Attempts(k: Kernel, p: Lease.Provider, store: Store, d: Download, attempts: nat) returns (r: Outcome<nat>)
    requires k.Valid() && p.Valid() && d.Valid() && d.pin == None && d.requests == []
    modifies k, p, d
    ensures k.Valid() && p.Valid() && d.Valid()
    ensures p.lease == old(p.lease) && p.running == old(p.running) && Lease.Settled(old(p.closes), p.closes)
    ensures Apart(k.env, d.target) ==> Safe(old(k.Now()), k.Now(), d.target, store, d.pin)
    ensures r.Ok? ==> Stored(k.Now(), d.target, store, d.pin) && Durable(k.Now(), d.target)
    ensures r.Ok? ==> d.pin.Some? && r.value == d.pin.value.size <= d.limit
    ensures GetsThrough(old(k.Now()), k.env, store, d, attempts, r.Ok?)
    ensures attempts == 0 ==> k.Now() == old(k.Now())
    ensures r.Raise? ==>
      LastBlamed(store, k.env, d.pin, d.limit, attempts, r.error, old(k.calls), k.calls, old(k.awaits), k.awaits)
    ensures attempts > 0 ==>
      WentWell(old(k.Now()), k.env, store, d.limit, d.expected, None, 0, r.Ok?)
  {
    ghost var was, before := k.Now(), p.closes;
    r := Raise(CircuitOpen);
    var n, at := 0, 0;
    while n < attempts && r.Raise?
      invariant n <= attempts && k.Valid() && p.Valid() && d.Valid()
      invariant p.lease == old(p.lease) && p.running == old(p.running) && Lease.Settled(before, p.closes)
      invariant Apart(k.env, d.target) ==> Safe(was, k.Now(), d.target, store, d.pin)
      invariant r.Ok? ==> Stored(k.Now(), d.target, store, d.pin) && Durable(k.Now(), d.target)
      invariant r.Ok? ==> d.pin.Some? && r.value == d.pin.value.size <= d.limit
      invariant k.calls >= old(k.calls) && k.awaits >= old(k.awaits)
      invariant r.Raise? ==>
        LastBlamed(store, k.env, d.pin, d.limit, n, r.error, old(k.calls), k.calls, old(k.awaits), k.awaits)
      invariant n == 0 ==> r == Raise(CircuitOpen) && k.Now() == was && d.pin == None && at == 0
      invariant at >= n && Waiting(was, k.Now(), k.env, store, d, d.pin, n, r.Raise?)
      invariant n > 0 ==> WentWell(was, k.env, store, d.limit, d.expected, None, 0, r.Ok?)
      decreases attempts - n
    {
      ghost var closes, mid, pin := p.closes, k.Now(), d.pin;
      ghost var first, calls, awaits := at, k.calls, k.awaits;
      var stored, residue;
      r, stored, residue, at := Attempt(k, p, store, d, at);
      WaitingOn(was, mid, k.Now(), k.env, store, d, pin, d.pin, n, first, stored, residue, r.Ok?);
      Lease.SettledTwice(before, closes, p.closes);
      if Apart(k.env, d.target) {
        SafeAgain(was, mid, k.Now(), stored, residue, d.target, store, pin, d.pin);
      }
      if r.Raise? {
        BlamedSince(store, k.env, d.pin, d.limit, r.error, 0, first, calls, k.calls, awaits, k.awaits);
      }
      n := n + 1;
    }
  }

  /** `handle_request` of a download: one lease around as many attempts as the
      breaker makes. A request is refused exactly when admission is closing or
      every lease is out, and then touches nothing. One that ran leaves no call
      running, no client open, no descriptor held and its lease given back,
      whatever others did between its steps; all its range requests named one
      generation; on success the target is, durably, that generation byte for
      byte. */
  method HandleDownload(k: Kernel, p: Lease.Provider, store: Store, d: Download, attempts: nat)
    returns (r: Outcome<nat>, shutDown: bool)
    requires k.Valid() && p.Ready() && d.Valid() && d.pin == None && d.requests == []
    modifies k, p, d
    ensures k.Valid() && p.Ready() && d.Valid()
    ensures p.running == old(p.running) && Lease.Settled(old(p.closes), p.closes)
    ensures if Capacity.TurnsAway(old(p.shared))
      then r == Raise(NoCapacity) && !shutDown && p.shared == old(p.shared) && k.Now() == old(k.Now())
      else p.lease == |old(p.shared).leases| && Capacity.In(p.shared, p.lease, Capacity.GivenBack)
    ensures r.Raise? && !Capacity.TurnsAway(old(p.shared)) ==>
      LastBlamed(store, k.env, d.pin, d.limit, attempts, r.error, old(k.calls), k.calls, old(k.awaits), k.awaits)
    ensures Apart(k.env, d.target) ==> Safe(old(k.Now()), k.Now(), d.target, store, d.pin)
    ensures r.Ok? ==> Stored(k.Now(), d.target, store, d.pin) && Durable(k.Now(), d.target)
    ensures r.Ok? ==> d.pin.Some? && r.value == d.pin.value.size <= d.limit
    ensures r.Ok? ==> ByteForByte(k.Now(), d.target, store, d.pin)
    ensures !Capacity.TurnsAway(old(p.shared)) ==>
      (shutDown <==> p.shared.capacity.closing && Capacity.Out(p.shared.leases) == 0)
    ensures !Capacity.TurnsAway(old(p.shared)) ==>
      GetsThrough(old(k.Now()), k.env, store, d, attempts, r.Ok?)
    ensures !Capacity.TurnsAway(old(p.shared)) ==>
      attempts > 0 ==> WentWell(old(k.Now()), k.env, store, d.limit, d.expected, None, 0, r.Ok?)
  {
    shutDown := false;
    var granted := p.TakeLease();
    if !granted {
      return Raise(NoCapacity), false;
    }
    r := Attempts(k, p, store, d, attempts);
    if r.Ok? {
      StoredIsByteForByte(k.Now(), d.target, store, d.pin);
    }
    shutDown := p.GiveBack();
  }
}
