/**
 * The producer and the consumer of the streaming pipeline on runs without shutdown. They share a bounded queue; the
 * consumer numbers the chunks and hands each to an upload task once a semaphore admits it.
 */
module Pipeline {
  import opened Common

  const PIPELINE_QUEUE_MAXSIZE: nat := 1
  const MAX_CONCURRENT_UPLOADS: nat := 1

  /** `hand` is what the producer has chunked but not enqueued, `taken` what the consumer waits to upload. */
  datatype Pipe<C> = Pipe(
    source: seq<C>,
    hand: Option<C>,
    sentinelPut: bool,
    queue: seq<Option<C>>,
    taken: Option<C>,
    drained: bool,
    started: seq<C>,
    running: set<nat>)

  /** One atomic step between two awaits; `Finish` names the sequence number of the upload that ends. */
  datatype Event = Produce | Put | PutSentinel | Get | Start | Finish(seqNo: nat)

  function Initial<C>(chunks: seq<C>): Pipe<C> {
    Pipe(chunks, None, false, [], None, false, [], {})
  }

  predicate Enabled<C>(q: nat, s: nat, p: Pipe<C>, e: Event) {
    match e
    case Produce => p.source != [] && p.hand.None?
    case Put => p.hand.Some? && |p.queue| < q
    case PutSentinel => p.source == [] && p.hand.None? && !p.sentinelPut && |p.queue| < q
    case Get => !p.drained && p.taken.None? && p.queue != []
    case Start => p.taken.Some? && |p.running| < s
    case Finish(i) => i in p.running
  }

  /** The upload that starts is given the number of uploads started before it. */
  function Next<C>(q: nat, s: nat, p: Pipe<C>, e: Event): Pipe<C>
    requires Enabled(q, s, p, e)
  {
    match e
    case Produce => p.(source := p.source[1..], hand := Some(p.source[0]))
    case Put => p.(hand := None, queue := p.queue + [p.hand])
    case PutSentinel => p.(sentinelPut := true, queue := p.queue + [None])
    case Get =>
      if p.queue[0].None? then p.(queue := p.queue[1..], drained := true)
      else p.(queue := p.queue[1..], taken := p.queue[0])
    case Start => p.(taken := None, started := p.started + [p.taken.value], running := p.running + {|p.started|})
    case Finish(i) => p.(running := p.running - {i})
  }

  ghost predicate Possible<C>(q: nat, s: nat, p: Pipe<C>, run: seq<Event>)
    decreases |run|
  {
    run == [] || (Enabled(q, s, p, run[0]) && Possible(q, s, Next(q, s, p, run[0]), run[1..]))
  }

  function After<C>(q: nat, s: nat, p: Pipe<C>, run: seq<Event>): Pipe<C>
    requires Possible(q, s, p, run)
    decreases |run|
  {
    if run == [] then p else After(q, s, Next(q, s, p, run[0]), run[1..])
  }

  // ---------- nothing lost, doubled or reordered ----------

  function AsSeq<C>(o: Option<C>): seq<C> {
    if o.Some? then [o.value] else []
  }

  /** The chunks among the queue's entries. */
  function Queued<C>(entries: seq<Option<C>>): seq<C> {
    if entries == [] then [] else AsSeq(entries[0]) + Queued(entries[1..])
  }

  lemma {:induction false} QueuedSnoc<C>(entries: seq<Option<C>>, entry: Option<C>)
    ensures Queued(entries + [entry]) == Queued(entries) + AsSeq(entry)
  {
    if entries == [] {
      assert Queued([entry]) == AsSeq(entry) + Queued([]);
    } else {
      assert (entries + [entry])[1..] == entries[1..] + [entry];
      QueuedSnoc(entries[1..], entry);
    }
  }

  /** Every chunk of the run, in order, wherever it is now. */
  function InOrder<C>(p: Pipe<C>): seq<C> {
    p.started + (AsSeq(p.taken) + (Queued(p.queue) + (AsSeq(p.hand) + p.source)))
  }

  lemma Regroup<C>(a: seq<C>, b: seq<C>, c: seq<C>)
    ensures a + (b + c) == (a + b) + c
  {
  }

  lemma PutKeepsOrder<C>(queue: seq<Option<C>>, hand: Option<C>, source: seq<C>)
    ensures Queued(queue + [hand]) + (AsSeq(None) + source) == Queued(queue) + (AsSeq(hand) + source)
  {
    QueuedSnoc(queue, hand);
    Regroup(Queued(queue), AsSeq(hand), source);
    assert AsSeq<C>(None) + source == source;
  }

  lemma GetKeepsOrder<C>(queue: seq<Option<C>>, rest: seq<C>)
    requires queue != []
    ensures AsSeq(queue[0]) + (Queued(queue[1..]) + rest) == AsSeq(None) + (Queued(queue) + rest)
  {
    Regroup(AsSeq(queue[0]), Queued(queue[1..]), rest);
    assert AsSeq<C>(None) + (Queued(queue) + rest) == Queued(queue) + rest;
  }

  lemma StartKeepsOrder<C>(started: seq<C>, taken: Option<C>, rest: seq<C>)
    requires taken.Some?
    ensures (started + [taken.value]) + (AsSeq(None) + rest) == started + (AsSeq(taken) + rest)
  {
    Regroup(started, AsSeq(taken), rest);
    assert AsSeq<C>(None) + rest == rest;
  }

  lemma StepKeepsOrder<C>(q: nat, s: nat, p: Pipe<C>, e: Event)
    requires Enabled(q, s, p, e)
    ensures InOrder(Next(q, s, p, e)) == InOrder(p)
  {
    match e {
      case Produce => assert [p.source[0]] + p.source[1..] == AsSeq(None) + p.source;
      case Put => PutKeepsOrder(p.queue, p.hand, p.source);
      case PutSentinel => QueuedSnoc(p.queue, None);
      case Get => GetKeepsOrder(p.queue, AsSeq(p.hand) + p.source);
      case Start => StartKeepsOrder(p.started, p.taken, Queued(p.queue) + (AsSeq(p.hand) + p.source));
      case Finish(_) =>
    }
  }

  // ---------- bounds and the end of the stream ----------

  /** The sentinel is the last thing enqueued, and the consumer stops at it. */
  ghost predicate Inv<C>(q: nat, s: nat, p: Pipe<C>) {
    && |p.queue| <= q && |p.running| <= s
    && (forall i | i in p.running :: i < |p.started|)
    && (forall k | 0 <= k < |p.queue| :: p.queue[k].None? ==> p.sentinelPut && k == |p.queue| - 1)
    && (p.sentinelPut ==> p.source == [] && p.hand.None?)
    && (p.sentinelPut && !p.drained ==> p.queue != [] && p.queue[|p.queue| - 1].None?)
    && (p.drained ==> p.sentinelPut && p.queue == [] && p.taken.None?)
  }

  lemma StepKeepsInv<C>(q: nat, s: nat, p: Pipe<C>, e: Event)
    requires Inv(q, s, p) && Enabled(q, s, p, e)
    ensures Inv(q, s, Next(q, s, p, e))
  {
    match e {
      case Get =>
        assert p.queue[0].None? ==> |p.queue| == 1;
      case Finish(i) =>
        assert p.running == (p.running - {i}) + {i};
      case _ =>
    }
  }

  /** Produced chunks whose upload has not ended. */
  function InFlight<C>(p: Pipe<C>): nat {
    |AsSeq(p.hand)| + |Queued(p.queue)| + |AsSeq(p.taken)| + |p.running|
  }

  lemma {:induction false} QueuedSize<C>(entries: seq<Option<C>>)
    ensures |Queued(entries)| <= |entries|
  {
    if entries != [] {
      QueuedSize(entries[1..]);
    }
  }

  // ---------- progress ----------

  predicate Done<C>(p: Pipe<C>) {
    p.drained && p.running == {}
  }

  /** Five steps a chunk and two for the sentinel, less what is done. */
  function StepsLeft<C>(p: Pipe<C>): nat {
    5 * |p.source| + 4 * |AsSeq(p.hand)| + 3 * |Queued(p.queue)| + 2 * |AsSeq(p.taken)| + |p.running|
    + (if p.drained then 0 else if p.sentinelPut then 1 else 2)
  }

  lemma StepCountsDown<C>(q: nat, s: nat, p: Pipe<C>, e: Event)
    requires Inv(q, s, p) && Enabled(q, s, p, e)
    ensures StepsLeft(Next(q, s, p, e)) == StepsLeft(p) - 1
  {
    match e {
      case Put => QueuedSnoc(p.queue, p.hand);
      case PutSentinel => QueuedSnoc(p.queue, None);
      case Finish(i) => assert |p.running - {i}| == |p.running| - 1;
      case Start => assert |p.running + {|p.started|}| == |p.running| + 1;
      case _ =>
    }
  }

  lemma DoneIff<C>(q: nat, s: nat, p: Pipe<C>)
    requires Inv(q, s, p)
    ensures Done(p) <==> StepsLeft(p) == 0
  {
  }

  /** A step is always possible until the pipeline is done: the bounds cannot deadlock it. */
  lemma NeverDeadlocks<C>(q: nat, s: nat, p: Pipe<C>) returns (e: Event)
    requires q >= 1 && s >= 1 && Inv(q, s, p) && !Done(p)
    ensures Enabled(q, s, p, e)
  {
    if i :| i in p.running {
      e := Finish(i);
    } else if p.taken.Some? {
      e := Start;
    } else if p.queue != [] {
      e := Get;
    } else if p.hand.Some? {
      e := Put;
    } else if p.source != [] {
      e := Produce;
    } else {
      e := PutSentinel;
    }
  }

  // ---------- whole runs ----------

  lemma {:induction false} RunKeeps<C>(q: nat, s: nat, p: Pipe<C>, run: seq<Event>)
    requires Inv(q, s, p) && Possible(q, s, p, run)
    ensures var p' := After(q, s, p, run);
      Inv(q, s, p') && InOrder(p') == InOrder(p) && StepsLeft(p') == StepsLeft(p) - |run|
    decreases |run|
  {
    if run != [] {
      StepKeepsInv(q, s, p, run[0]);
      StepKeepsOrder(q, s, p, run[0]);
      StepCountsDown(q, s, p, run[0]);
      RunKeeps(q, s, Next(q, s, p, run[0]), run[1..]);
    }
  }

  /**
   * In every run the uploads started so far are the first chunks, once each and in order, and at most q + s + 2 chunks
   * are produced but not yet uploaded.
   */
  lemma EveryRun<C>(q: nat, s: nat, chunks: seq<C>, run: seq<Event>)
    requires Possible(q, s, Initial(chunks), run)
    ensures var p := After(q, s, Initial(chunks), run);
      && p.started <= chunks
      && InFlight(p) <= q + s + 2
      && (Done(p) ==> p.started == chunks)
  {
    RunKeeps(q, s, Initial(chunks), run);
    var p := After(q, s, Initial(chunks), run);
    QueuedSize(p.queue);
    assert InOrder(Initial(chunks)) == chunks;
  }

  /** Every run can be continued until it is done, and is done after exactly 5n + 2 steps, whatever the schedule. */
  lemma RunsFinish<C>(q: nat, s: nat, chunks: seq<C>, run: seq<Event>)
    requires q >= 1 && s >= 1 && Possible(q, s, Initial(chunks), run)
    ensures |run| <= 5 * |chunks| + 2
    ensures var p := After(q, s, Initial(chunks), run);
      if |run| == 5 * |chunks| + 2 then Done(p) else exists e :: Enabled(q, s, p, e)
  {
    RunKeeps(q, s, Initial(chunks), run);
    var p := After(q, s, Initial(chunks), run);
    DoneIff(q, s, p);
    if !Done(p) {
      var e := NeverDeadlocks(q, s, p);
    }
  }

  /** With the deployed constants at most four chunks are held at any time. */
  lemma AtMostFourInFlight<C>(chunks: seq<C>, run: seq<Event>)
    requires Possible(PIPELINE_QUEUE_MAXSIZE, MAX_CONCURRENT_UPLOADS, Initial(chunks), run)
    ensures InFlight(After(PIPELINE_QUEUE_MAXSIZE, MAX_CONCURRENT_UPLOADS, Initial(chunks), run)) <= 4
  {
    EveryRun(PIPELINE_QUEUE_MAXSIZE, MAX_CONCURRENT_UPLOADS, chunks, run);
  }

  ghost predicate Leads<C>(p: Pipe<C>, run: seq<Event>, end: Pipe<C>) {
    Possible(1, 1, p, run) && After(1, 1, p, run) == end
  }

  lemma OneStepFirst<C>(p: Pipe<C>, e: Event, next: Pipe<C>, run: seq<Event>, end: Pipe<C>)
    requires Enabled(1, 1, p, e) && Next(1, 1, p, e) == next && Leads(next, run, end)
    ensures Leads(p, [e] + run, end)
  {
    assert ([e] + run)[1..] == run;
  }

  /** One chunk travels from the source to the consumer. */
  lemma Passed<C>(source: seq<C>, started: seq<C>, running: set<nat>, run: seq<Event>, end: Pipe<C>)
    requires source != []
    requires Leads(Pipe(source[1..], None, false, [], Some(source[0]), false, started, running), run, end)
    ensures Leads(Pipe(source, None, false, [], None, false, started, running),
                  [Produce] + ([Put] + ([Get] + run)), end)
  {
    var produced := Pipe(source[1..], Some(source[0]), false, [], None, false, started, running);
    var put := Pipe(source[1..], None, false, [Some(source[0])], None, false, started, running);
    OneStepFirst(put, Get, Pipe(source[1..], None, false, [], Some(source[0]), false, started, running), run, end);
    OneStepFirst(produced, Put, put, [Get] + run, end);
    OneStepFirst(Pipe(source, None, false, [], None, false, started, running), Produce, produced,
                 [Put] + ([Get] + run), end);
  }

  const FILL := [Produce] + ([Put] + [Produce])
  const FOUR_IN := [Produce] + ([Put] + ([Get] + ([Start] + ([Produce] + ([Put] + ([Get] + FILL))))))

  /** And four it can be: one being uploaded, one waiting for the semaphore, one in the queue and one in hand. */
  lemma FourCanBeInFlight<C>(a: C, b: C, c: C, d: C)
    ensures
      var start := Initial([a, b, c, d]);
      && Possible(PIPELINE_QUEUE_MAXSIZE, MAX_CONCURRENT_UPLOADS, start, FOUR_IN)
      && InFlight(After(PIPELINE_QUEUE_MAXSIZE, MAX_CONCURRENT_UPLOADS, start, FOUR_IN)) == 4
  {
    var end := Pipe([], Some(d), false, [Some(c)], Some(b), false, [a], {0});
    var waiting := Pipe([c, d], None, false, [], Some(b), false, [a], {0});
    var produced := Pipe([d], Some(c), false, [], Some(b), false, [a], {0});
    var put := Pipe([d], None, false, [Some(c)], Some(b), false, [a], {0});
    assert Leads(end, [], end);
    OneStepFirst(put, Produce, end, [], end);
    assert [Produce] + [] == [Produce];
    OneStepFirst(produced, Put, put, [Produce], end);
    OneStepFirst(waiting, Produce, produced, [Put] + [Produce], end);
    assert [b, c, d][1..] == [c, d] && [a, b, c, d][1..] == [b, c, d];
    Passed([b, c, d], [a], {0}, FILL, end);
    var taken := Pipe([b, c, d], None, false, [], Some(a), false, [], {});
    OneStepFirst(taken, Start, Pipe([b, c, d], None, false, [], None, false, [a], {0}),
                 [Produce] + ([Put] + ([Get] + FILL)), end);
    Passed([a, b, c, d], [], {}, [Start] + ([Produce] + ([Put] + ([Get] + FILL))), end);
    assert Queued([Some(c)]) == [c] + Queued([]);
  }
}
