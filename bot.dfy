/**
  The bot object of pixels.py (class JavaScriptator2000): its token list,
  pattern and offset, the work queue it replaces on every canvas refresh and
  that its workers pop from, and the flag of the asyncio event that wakes the
  workers. One call of RefreshQueue is one pass of the queuer loop; one call of
  WorkerIteration is one pass of a worker loop.
 */
module Bot {
  import opened Wrappers
  import opened Canvas
  import opened PixelRecord
  import opened DiffEngine

  /** The value of the Authorization header carried by a header map, if it is a bearer token. */
  function BearerToken(headers: map<string, string>): Option<string>
  {
    if "Authorization" in headers && |headers["Authorization"]| >= 7 && headers["Authorization"][..7] == "Bearer "
    then Some(headers["Authorization"][7..])
    else None
  }

  /**
    The worker's cooldown rule (pixels.py lines 91-98): after a write it sleeps
    for requests-reset seconds exactly when requests-remaining is zero or less,
    and does not sleep otherwise.
   */
  function Cooldown(requestsRemaining: int, requestsReset: int): (sleep: Option<int>)
    ensures sleep.Some? <==> requestsRemaining <= 0
    ensures sleep.Some? ==> sleep.value == requestsReset
  {
    if requestsRemaining <= 0 then Some(requestsReset) else None
  }

  /** What one pass of a worker loop did. */
  datatype WorkerStep =
    | Waiting                       // the queue event is not set: the worker stays blocked
    | FoundEmpty                    // the event was set but the queue was empty: the event is cleared
    | Sent(pixel: Pixel, body: map<string, Json>, auth: map<string, string>, sleep: Option<int>)

  class JavaScriptator2000 {
    const tokens: seq<string>
    const pattern: Pattern
    const offset: Offset
    /** The work queue, popped from its end. */
    var queue: seq<Pixel>
    /** Whether the queue event is set. */
    var queueEventSet: bool

    /** Every queued pixel is one cell of the pattern, and no coordinate is queued twice. */
    ghost predicate Valid()
      reads this
    {
      (forall i :: 0 <= i < |queue| ==> FromPattern(pattern, offset, queue[i])) &&
      DistinctCoordinates(queue)
    }

    constructor (tokens: seq<string>, pattern: Pattern, offset: Offset)
      ensures Valid()
      ensures this.tokens == tokens && this.pattern == pattern && this.offset == offset
      ensures queue == [] && !queueEventSet
    {
      this.tokens := tokens;
      this.pattern := pattern;
      this.offset := offset;
      queue := [];
      queueEventSet := false;
    }

    /** get_auth: the Authorization header for a token. */
    static function GetAuth(token: string): (headers: map<string, string>)
      ensures headers.Keys == {"Authorization"}
      ensures BearerToken(headers) == Some(token)
    {
      var h := map["Authorization" := "Bearer " + token];
      assert h["Authorization"][..7] == "Bearer ";
      assert h["Authorization"][7..] == token;
      h
    }

    /**
      random_auth: the header of some token of the list, random.choice standing
      as a nondeterministic pick; an empty list makes random.choice raise.
     */
    method RandomAuth() returns (r: Result<map<string, string>, Fault>)
      ensures r.Failure? <==> tokens == []
      ensures r.Failure? ==> r.error == EmptyTokenList
      ensures r.Success? ==> exists i :: 0 <= i < |tokens| && r.value == GetAuth(tokens[i])
    {
      if tokens == [] {
        return Failure(EmptyTokenList);
      }
      var i :| 0 <= i < |tokens|;
      return Success(GetAuth(tokens[i]));
    }

    /**
      One pass of queuer (pixels.py lines 50-70): pick a token for the
      get_pixels request, decode the returned bytes, diff the pattern against
      them, shuffle the diff and install it as the queue, and set the event when
      the new queue is non-empty. Each raising step leaves the queue and the
      event as they were.
     */
    method RefreshQueue(data: seq<byte>) returns (r: Result<map<string, string>, Fault>)
      requires Valid()
      modifies this
      ensures Valid()
      ensures r == Failure(EmptyTokenList) <==> tokens == []
      ensures r == Failure(NotEnoughImageData) <==> tokens != [] && |data| < ByteCount
      ensures r == Failure(ImageIndexOutOfRange) <==> tokens != [] && |data| >= ByteCount && !Fits(pattern, offset)
      ensures r.Failure? ==> queue == old(queue) && queueEventSet == old(queueEventSet)
      ensures r.Success? ==> exists i :: 0 <= i < |tokens| && r.value == GetAuth(tokens[i])
      ensures r.Success? ==> |data| >= ByteCount
      ensures r.Success? ==> multiset(queue) == multiset(DiffOf(data[..ByteCount], pattern, offset))
      ensures r.Success? ==> (queue == [] <==> AllMatch(CanvasView(data[..ByteCount]), pattern, offset))
      ensures r.Success? ==> queueEventSet == (old(queueEventSet) || queue != [])
    {
      var auth := RandomAuth();
      if auth.Failure? {
        return Failure(auth.error);
      }
      var image := Decode(data);
      if image.Failure? {
        return Failure(image.error);
      }
      var diff := BuildDiff(image.value, pattern, offset);
      if diff.Failure? {
        return Failure(diff.error);
      }
      DiffShape(CanvasView(image.value), pattern, offset);
      var shuffled := Shuffle(diff.value);
      ReorderedDiff(image.value, pattern, offset, shuffled);
      queue := shuffled;
      if queue != [] {
        queueEventSet := true;
      }
      return Success(auth.value);
    }

    /** list.pop() on the queue: removes and returns its last pixel. */
    method Pop() returns (p: Pixel)
      requires Valid() && queue != []
      modifies this`queue
      ensures Valid()
      ensures p == old(queue)[|old(queue)| - 1]
      ensures queue == old(queue)[..|old(queue)| - 1]
    {
      p := queue[|queue| - 1];
      queue := queue[..|queue| - 1];
    }

    /**
      One pass of worker (pixels.py lines 76-98) for the worker owning `token`,
      given the two rate-limit headers of the set_pixel response: blocked while
      the event is clear; with an empty queue, the event is cleared; otherwise
      the last queued pixel is popped and sent as its dict with the token's
      header, and the cooldown rule decides the sleep.
     */
    method WorkerIteration(token: string, requestsRemaining: int, requestsReset: int) returns (step: WorkerStep)
      requires Valid()
      modifies this
      ensures Valid()
      ensures !old(queueEventSet) ==> step == Waiting && queue == old(queue) && !queueEventSet
      ensures old(queueEventSet) && old(queue) == [] ==> step == FoundEmpty && queue == [] && !queueEventSet
      ensures old(queueEventSet) && old(queue) != [] ==>
        var p := old(queue)[|old(queue)| - 1];
        step == Sent(p, ToDict(p), GetAuth(token), Cooldown(requestsRemaining, requestsReset)) &&
        queue == old(queue)[..|old(queue)| - 1] && queueEventSet
    {
      if !queueEventSet {
        return Waiting;
      }
      if queue == [] {
        queueEventSet := false;
        return FoundEmpty;
      }
      var pixel := Pop();
      step := Sent(pixel, ToDict(pixel), GetAuth(token), Cooldown(requestsRemaining, requestsReset));
    }
  }

  /** The header carries the whole token: reading it back gives that token. */
  lemma AuthRoundTrip(token: string)
    ensures BearerToken(JavaScriptator2000.GetAuth(token)) == Some(token)
  {
  }

  /** Distinct tokens never produce the same header. */
  lemma AuthInjective(t1: string, t2: string)
    requires JavaScriptator2000.GetAuth(t1) == JavaScriptator2000.GetAuth(t2)
    ensures t1 == t2
  {
    AuthRoundTrip(t1);
    AuthRoundTrip(t2);
  }
}
