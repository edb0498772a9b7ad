/** One-time tickets in a bounded store with FIFO eviction. */
module Tickets {
  import opened Common

  datatype Entry<C> = Entry(id: string, claims: C, expires: real)

  datatype TicketError = Unknown | Expired

  // ---------- the ordered dictionary ----------

  /** Expired entries leave from the front only, up to the first that is not expired. */
  function PurgeFront<C>(store: seq<Entry<C>>, now: real): (r: seq<Entry<C>>)
    ensures |r| <= |store|
  {
    if store != [] && store[0].expires < now then PurgeFront(store[1..], now) else store
  }

  /** Assignment to a key: in place when it exists, at the end otherwise. */
  function Assign<C>(store: seq<Entry<C>>, e: Entry<C>): seq<Entry<C>> {
    if store == [] then [e]
    else if store[0].id == e.id then [e] + store[1..]
    else [store[0]] + Assign(store[1..], e)
  }

  function Lookup<C>(store: seq<Entry<C>>, id: string): Option<Entry<C>> {
    if store == [] then None else if store[0].id == id then Some(store[0]) else Lookup(store[1..], id)
  }

  function Without<C>(store: seq<Entry<C>>, id: string): (r: seq<Entry<C>>)
    ensures |r| <= |store|
  {
    if store == [] then [] else if store[0].id == id then store[1..] else [store[0]] + Without(store[1..], id)
  }

  /** Whether a purged store must give up its oldest entry. */
  predicate Full<C>(capacity: int, store: seq<Entry<C>>) {
    |store| >= capacity
  }

  /** The store after a ticket is created; None when evicting from an empty store raises. */
  function Created<C>(capacity: int, store: seq<Entry<C>>, e: Entry<C>, now: real): Option<seq<Entry<C>>> {
    var live := PurgeFront(store, now);
    if !Full(capacity, live) then Some(Assign(live, e))
    else if live == [] then None
    else Some(Assign(live[1..], e))
  }

  function Redeemed<C>(store: seq<Entry<C>>, id: string, now: real): Result<C, TicketError> {
    match Lookup(store, id)
    case None => Err(Unknown)
    case Some(e) => if now > e.expires then Err(Expired) else Ok(e.claims)
  }

  // ---------- what the operations mean when each id occurs once ----------

  ghost predicate Distinct<C>(store: seq<Entry<C>>) {
    store == [] || ((forall e | e in store[1..] :: e.id != store[0].id) && Distinct(store[1..]))
  }

  /** The purge drops expired entries only. */
  lemma {:induction false} PurgeFrontDrops<C>(store: seq<Entry<C>>, now: real)
    requires Distinct(store)
    ensures Distinct(PurgeFront(store, now))
    ensures forall e | e in PurgeFront(store, now) :: e in store
    ensures forall e | e in store && e !in PurgeFront(store, now) :: e.expires < now
  {
    if store != [] {
      assert store == [store[0]] + store[1..];
      if store[0].expires < now {
        PurgeFrontDrops(store[1..], now);
      }
    }
  }

  lemma {:induction false} AssignNew<C>(store: seq<Entry<C>>, e: Entry<C>)
    requires forall f | f in store :: f.id != e.id
    ensures Assign(store, e) == store + [e]
  {
    if store != [] {
      assert store[0] in store;
      assert forall f | f in store[1..] :: f in store;
      AssignNew(store[1..], e);
    }
  }

  lemma {:induction false} AssignedIsFound<C>(store: seq<Entry<C>>, e: Entry<C>)
    ensures Lookup(Assign(store, e), e.id) == Some(e)
    ensures |Assign(store, e)| <= |store| + 1
  {
    if store != [] && store[0].id != e.id {
      AssignedIsFound(store[1..], e);
    }
  }

  lemma {:induction false} DistinctSnoc<C>(store: seq<Entry<C>>, e: Entry<C>)
    requires Distinct(store) && forall f | f in store :: f.id != e.id
    ensures Distinct(store + [e])
  {
    if store != [] {
      assert (store + [e])[1..] == store[1..] + [e];
      assert store[0] in store;
      assert forall f | f in store[1..] :: f in store;
      DistinctSnoc(store[1..], e);
    }
  }

  lemma {:induction false} LookupIs<C>(store: seq<Entry<C>>, id: string)
    requires Distinct(store)
    ensures Lookup(store, id).Some? ==> Lookup(store, id).value in store && Lookup(store, id).value.id == id
    ensures forall e | e in store && e.id == id :: Lookup(store, id) == Some(e)
  {
    if store != [] {
      LookupIs(store[1..], id);
      assert store == [store[0]] + store[1..];
    }
  }

  lemma {:induction false} WithoutIs<C>(store: seq<Entry<C>>, id: string)
    requires Distinct(store)
    ensures Distinct(Without(store, id))
    ensures forall e | e in Without(store, id) :: e in store && e.id != id
    ensures forall e | e in store && e.id != id :: e in Without(store, id)
  {
    if store != [] {
      assert store == [store[0]] + store[1..];
      if store[0].id == id {
        assert Without(store, id) == store[1..];
      } else {
        WithoutIs(store[1..], id);
        var rest := Without(store[1..], id);
        assert forall e | e in rest :: e in store[1..];
        assert ([store[0]] + rest)[1..] == rest;
        assert Distinct([store[0]] + rest);
      }
    }
  }

  class TicketStore<C> {
    const capacity: int
    var tickets: seq<Entry<C>>

    constructor (capacity: int)
      ensures this.capacity == capacity && tickets == []
    {
      this.capacity, tickets := capacity, [];
    }

    /** `id` is the random name, `expires` was computed before the lock was taken at `now`. */
    method CreateTicket(id: string, claims: C, expires: real, now: real) returns (ok: bool)
      modifies this
      ensures ok <==> Created(capacity, old(tickets), Entry(id, claims, expires), now).Some?
      ensures ok ==> Some(tickets) == Created(capacity, old(tickets), Entry(id, claims, expires), now)
      ensures !ok ==> tickets == []
      ensures ok ==> Lookup(tickets, id) == Some(Entry(id, claims, expires))
      ensures capacity >= 1 && |old(tickets)| <= capacity ==> ok && |tickets| <= capacity
    {
      while tickets != []
        invariant PurgeFront(tickets, now) == PurgeFront(old(tickets), now)
        decreases |tickets|
      {
        if tickets[0].expires >= now {
          break;
        }
        tickets := tickets[1..];
      }
      if |tickets| >= capacity {
        if tickets == [] {
          return false;
        }
        tickets := tickets[1..];
      }
      AssignedIsFound(tickets, Entry(id, claims, expires));
      tickets := Assign(tickets, Entry(id, claims, expires));
      ok := true;
    }

    /** A ticket leaves the store whatever the outcome. */
    method ConsumeTicket(id: string, now: real) returns (result: Result<C, TicketError>)
      modifies this
      ensures tickets == Without(old(tickets), id)
      ensures result == Redeemed(old(tickets), id, now)
      ensures Distinct(old(tickets)) ==> Lookup(tickets, id) == None
    {
      var entry := Lookup(tickets, id);
      if Distinct(tickets) {
        WithoutIs(tickets, id);
        LookupIs(Without(tickets, id), id);
      }
      tickets := Without(tickets, id);
      if entry.None? {
        return Err(Unknown);
      }
      result := if now > entry.value.expires then Err(Expired) else Ok(entry.value.claims);
    }
  }

  // ---------- whole runs ----------

  /**
   * The store with what happened so far: every ticket issued, the ids presented for redemption, the tickets redeemed,
   * and the ids evicted from a full store.
   */
  datatype History<C> = History(
    store: seq<Entry<C>>,
    clock: real,
    issued: map<string, Entry<C>>,
    presented: set<string>,
    redeemed: seq<Entry<C>>,
    crowdedOut: set<string>)

  /** The expiry was computed at some time before the lock was taken, so creations may overtake each other. */
  datatype Event<C> = Create(id: string, claims: C, expires: real, locked: real) | Consume(id: string, now: real)

  /** The clock is monotone under the lock, and random ids are new to everyone. */
  predicate Legal<C>(h: History<C>, e: Event<C>) {
    match e
    case Create(id, _, _, locked) => id !in h.issued && id !in h.presented && h.clock <= locked
    case Consume(_, now) => h.clock <= now
  }

  function Next<C>(capacity: int, h: History<C>, e: Event<C>): History<C>
    requires capacity >= 1
  {
    match e
    case Create(id, claims, expires, locked) =>
      var ticket := Entry(id, claims, expires);
      var live := PurgeFront(h.store, locked);
      h.(store := Created(capacity, h.store, ticket, locked).value,
         clock := locked,
         issued := h.issued[id := ticket],
         crowdedOut := if Full(capacity, live) then h.crowdedOut + {live[0].id} else h.crowdedOut)
    case Consume(id, now) =>
      h.(store := Without(h.store, id),
         clock := now,
         presented := h.presented + {id},
         redeemed := if Redeemed(h.store, id, now).Ok? then h.redeemed + [Lookup(h.store, id).value] else h.redeemed)
  }

  /** Each entry is an issued ticket that was neither presented nor crowded out. */
  ghost predicate Genuine<C>(h: History<C>, e: Entry<C>) {
    && e.id in h.issued && h.issued[e.id] == e
    && e.id !in h.presented && e.id !in h.crowdedOut
  }

  /** Where an issued ticket is. */
  ghost predicate Accounted<C>(h: History<C>, id: string)
    requires id in h.issued
  {
    || h.issued[id] in h.store
    || id in h.presented || id in h.crowdedOut
    || h.issued[id].expires < h.clock
  }

  ghost predicate RedeemedOnce<C>(h: History<C>) {
    && (forall i | 0 <= i < |h.redeemed| ::
          && h.redeemed[i].id in h.presented && h.redeemed[i].id in h.issued
          && h.issued[h.redeemed[i].id] == h.redeemed[i])
    && (forall i, j | 0 <= i < j < |h.redeemed| :: h.redeemed[i].id != h.redeemed[j].id)
  }

  ghost predicate Inv<C>(capacity: int, h: History<C>) {
    && |h.store| <= capacity
    && Distinct(h.store)
    && (forall e | e in h.store :: Genuine(h, e))
    && (forall id | id in h.issued :: h.issued[id].id == id && Accounted(h, id))
    && h.crowdedOut <= h.issued.Keys
    && RedeemedOnce(h)
  }

  // ---------- every step ----------

  /** What creation does to the store: the purged store, less its oldest if it is full, then the new ticket. */
  lemma CreatedIs<C>(capacity: int, h: History<C>, e: Event<C>)
    requires capacity >= 1 && Inv(capacity, h) && Legal(h, e) && e.Create?
    ensures
      var ticket, live := Entry(e.id, e.claims, e.expires), PurgeFront(h.store, e.locked);
      var kept := if Full(capacity, live) then live[1..] else live;
      && (Full(capacity, live) ==> live != [] && |live| == capacity)
      && Created(capacity, h.store, ticket, e.locked) == Some(kept + [ticket])
      && Distinct(kept + [ticket])
  {
    var ticket, live := Entry(e.id, e.claims, e.expires), PurgeFront(h.store, e.locked);
    PurgeFrontDrops(h.store, e.locked);
    var kept := if Full(capacity, live) then live[1..] else live;
    forall f | f in kept ensures f.id != ticket.id {
      assert f in live && f in h.store && Genuine(h, f);
    }
    AssignNew(kept, ticket);
    DistinctSnoc(kept, ticket);
  }

  lemma CreateKeepsEntries<C>(capacity: int, h: History<C>, e: Event<C>, f: Entry<C>)
    requires capacity >= 1 && Inv(capacity, h) && Legal(h, e) && e.Create?
    requires f in Next(capacity, h, e).store
    ensures Genuine(Next(capacity, h, e), f)
  {
    CreatedIs(capacity, h, e);
    PurgeFrontDrops(h.store, e.locked);
    var live := PurgeFront(h.store, e.locked);
    if f != Entry(e.id, e.claims, e.expires) {
      assert f in live && f in h.store && Genuine(h, f);
      assert Full(capacity, live) ==> f in live[1..] && f.id != live[0].id;
    }
  }

  lemma CreateKeepsAccounts<C>(capacity: int, h: History<C>, e: Event<C>, id: string)
    requires capacity >= 1 && Inv(capacity, h) && Legal(h, e) && e.Create?
    requires id in Next(capacity, h, e).issued
    ensures Next(capacity, h, e).issued[id].id == id && Accounted(Next(capacity, h, e), id)
  {
    CreatedIs(capacity, h, e);
    PurgeFrontDrops(h.store, e.locked);
    if id != e.id {
      assert Accounted(h, id);
      var live := PurgeFront(h.store, e.locked);
      if h.issued[id] in live && Full(capacity, live) {
        assert live == [live[0]] + live[1..];
      }
    }
  }

  lemma CreateKeepsInv<C>(capacity: int, h: History<C>, e: Event<C>)
    requires capacity >= 1 && Inv(capacity, h) && Legal(h, e) && e.Create?
    ensures Inv(capacity, Next(capacity, h, e))
  {
    var h' := Next(capacity, h, e);
    CreatedIs(capacity, h, e);
    forall f | f in h'.store ensures Genuine(h', f) {
      CreateKeepsEntries(capacity, h, e, f);
    }
    forall id | id in h'.issued ensures h'.issued[id].id == id && Accounted(h', id) {
      CreateKeepsAccounts(capacity, h, e, id);
    }
    var live := PurgeFront(h.store, e.locked);
    if Full(capacity, live) {
      PurgeFrontDrops(h.store, e.locked);
      assert live[0] in h.store && Genuine(h, live[0]);
    }
  }

  lemma ConsumeKeepsInv<C>(capacity: int, h: History<C>, e: Event<C>)
    requires capacity >= 1 && Inv(capacity, h) && Legal(h, e) && e.Consume?
    ensures Inv(capacity, Next(capacity, h, e))
  {
    var h' := Next(capacity, h, e);
    LookupIs(h.store, e.id);
    WithoutIs(h.store, e.id);
    forall f | f in h'.store ensures Genuine(h', f) {
      assert Genuine(h, f);
    }
    forall id | id in h'.issued ensures Accounted(h', id) {
      assert Accounted(h, id);
    }
    if Redeemed(h.store, e.id, e.now).Ok? {
      assert Genuine(h, Lookup(h.store, e.id).value);
    }
  }

  lemma StepKeepsInv<C>(capacity: int, h: History<C>, e: Event<C>)
    requires capacity >= 1 && Inv(capacity, h) && Legal(h, e)
    ensures Inv(capacity, Next(capacity, h, e))
  {
    if e.Create? {
      CreateKeepsInv(capacity, h, e);
    } else {
      ConsumeKeepsInv(capacity, h, e);
    }
  }

  ghost predicate LegalRun<C>(capacity: int, h: History<C>, run: seq<Event<C>>)
    requires capacity >= 1
    decreases |run|
  {
    run == [] || (Legal(h, run[0]) && LegalRun(capacity, Next(capacity, h, run[0]), run[1..]))
  }

  function After<C>(capacity: int, h: History<C>, run: seq<Event<C>>): History<C>
    requires capacity >= 1
    decreases |run|
  {
    if run == [] then h else After(capacity, Next(capacity, h, run[0]), run[1..])
  }

  function Empty<C>(clock: real): History<C> {
    History([], clock, map[], {}, [], {})
  }

  lemma {:induction false} RunKeepsInv<C>(capacity: int, h: History<C>, run: seq<Event<C>>)
    requires capacity >= 1 && Inv(capacity, h) && LegalRun(capacity, h, run)
    ensures Inv(capacity, After(capacity, h, run))
    decreases |run|
  {
    if run != [] {
      StepKeepsInv(capacity, h, run[0]);
      RunKeepsInv(capacity, Next(capacity, h, run[0]), run[1..]);
    }
  }

  /**
   * In every run, however creations overtake each other and whatever their times to live, the store stays within its
   * capacity and each ticket is redeemed at most once, with its own claims.
   */
  lemma EveryRun<C>(capacity: int, clock: real, run: seq<Event<C>>)
    requires capacity >= 1 && LegalRun(capacity, Empty(clock), run)
    ensures var h := After(capacity, Empty(clock), run);
      |h.store| <= capacity && RedeemedOnce(h) && Inv(capacity, h)
  {
    RunKeepsInv(capacity, Empty(clock), run);
  }

  /**
   * When exactly a redemption succeeds in a reachable history: the ticket was issued, never presented before, never
   * crowded out of a full store, and has not expired; it then yields the claims it was issued for.
   */
  lemma RedeemedIff<C>(capacity: int, clock: real, run: seq<Event<C>>, id: string, now: real)
    requires capacity >= 1 && LegalRun(capacity, Empty(clock), run)
    requires After(capacity, Empty(clock), run).clock <= now
    ensures
      var h := After(capacity, Empty(clock), run);
      var result := Redeemed(h.store, id, now);
      && (result.Ok? <==> id in h.issued && id !in h.presented && id !in h.crowdedOut && now <= h.issued[id].expires)
      && (result.Ok? ==> result.value == h.issued[id].claims)
  {
    EveryRun(capacity, clock, run);
    var h := After(capacity, Empty(clock), run);
    LookupIs(h.store, id);
    if Redeemed(h.store, id, now).Ok? {
      assert Genuine(h, Lookup(h.store, id).value);
    }
    if id in h.issued {
      assert Accounted(h, id);
    }
  }

  // ---------- when exactly eviction spares the live ----------

  /** Whenever the next creation takes the lock, if it has to evict, then every ticket in the store is live. */
  ghost predicate EvictsOnlyWhenAllLive<C>(capacity: int, h: History<C>) {
    forall locked | locked >= h.clock && Full(capacity, PurgeFront(h.store, locked)) ::
      forall f | f in PurgeFront(h.store, locked) :: f.expires >= locked
  }

  /** There is room, or the oldest stored ticket has expired, or no stored ticket expires before it. */
  ghost predicate OldestExpiresFirst<C>(capacity: int, h: History<C>) {
    || |h.store| < capacity
    || h.store == []
    || h.store[0].expires < h.clock
    || forall f | f in h.store :: h.store[0].expires <= f.expires
  }

  lemma FullMeansUnpurged<C>(capacity: int, store: seq<Entry<C>>, locked: real)
    requires |store| <= capacity && store != [] && Full(capacity, PurgeFront(store, locked))
    ensures PurgeFront(store, locked) == store && store[0].expires >= locked && |store| == capacity
  {
  }

  lemma EvictsOnlyWhenAllLiveIff<C>(capacity: int, h: History<C>)
    requires capacity >= 1 && |h.store| <= capacity
    ensures EvictsOnlyWhenAllLive(capacity, h) <==> OldestExpiresFirst(capacity, h)
  {
    if OldestExpiresFirst(capacity, h) {
      forall locked | locked >= h.clock && Full(capacity, PurgeFront(h.store, locked))
        ensures forall f | f in PurgeFront(h.store, locked) :: f.expires >= locked
      {
        if h.store != [] {
          FullMeansUnpurged(capacity, h.store, locked);
        }
      }
    } else {
      var f :| f in h.store && f.expires < h.store[0].expires;
      assert PurgeFront(h.store, h.store[0].expires) == h.store;
    }
  }

  /**
   * In every reachable history, creations overtaking each other included: the next eviction is sure to find a store
   * of live tickets only, if and only if there is room, or the oldest stored ticket has expired, or none expires
   * before it.
   */
  lemma ReachableEvictsOnlyWhenAllLiveIff<C>(capacity: int, clock: real, run: seq<Event<C>>)
    requires capacity >= 1 && LegalRun(capacity, Empty(clock), run)
    ensures var h := After(capacity, Empty(clock), run);
      EvictsOnlyWhenAllLive(capacity, h) <==> OldestExpiresFirst(capacity, h)
  {
    EveryRun(capacity, clock, run);
    EvictsOnlyWhenAllLiveIff(capacity, After(capacity, Empty(clock), run));
  }

  // ---------- creations that do not overtake each other ----------

  ghost predicate Ordered<C>(store: seq<Entry<C>>) {
    store == [] || ((forall e | e in store[1..] :: store[0].expires <= e.expires) && Ordered(store[1..]))
  }

  /** The ticket's time to live is the common one, and it started after the last event. */
  predicate Atomic<C>(ttl: real, h: History<C>, e: Event<C>) {
    e.Create? ==> h.clock + ttl <= e.expires <= e.locked + ttl
  }

  ghost predicate Timely<C>(ttl: real, h: History<C>) {
    Ordered(h.store) && forall e | e in h.store :: e.expires <= h.clock + ttl
  }

  /** In a store ordered by expiry the purge from the front removes every expired ticket. */
  lemma {:induction false} PurgeFrontIs<C>(store: seq<Entry<C>>, now: real)
    requires Ordered(store)
    ensures Ordered(PurgeFront(store, now))
    ensures forall e :: e in PurgeFront(store, now) <==> e in store && e.expires >= now
  {
    if store != [] {
      assert store == [store[0]] + store[1..];
      if store[0].expires < now {
        PurgeFrontIs(store[1..], now);
      }
    }
  }

  lemma {:induction false} OrderedSnoc<C>(store: seq<Entry<C>>, e: Entry<C>)
    requires Ordered(store) && forall f | f in store :: f.expires <= e.expires
    ensures Ordered(store + [e])
  {
    if store != [] {
      assert (store + [e])[1..] == store[1..] + [e];
      assert store[0] in store;
      assert forall f | f in store[1..] :: f in store;
      OrderedSnoc(store[1..], e);
    }
  }

  lemma {:induction false} OrderedWithout<C>(store: seq<Entry<C>>, id: string)
    requires Ordered(store)
    ensures Ordered(Without(store, id))
    ensures forall e | e in Without(store, id) :: e in store
  {
    if store != [] {
      assert store == [store[0]] + store[1..];
      if store[0].id == id {
        assert Without(store, id) == store[1..];
      } else {
        OrderedWithout(store[1..], id);
        var rest := Without(store[1..], id);
        assert ([store[0]] + rest)[1..] == rest;
        assert Ordered([store[0]] + rest);
      }
    }
  }

  lemma TimelyStep<C>(capacity: int, ttl: real, h: History<C>, e: Event<C>)
    requires capacity >= 1 && Inv(capacity, h) && Timely(ttl, h) && Legal(h, e) && Atomic(ttl, h, e)
    ensures Timely(ttl, Next(capacity, h, e))
  {
    if e.Create? {
      CreatedIs(capacity, h, e);
      PurgeFrontIs(h.store, e.locked);
      var live := PurgeFront(h.store, e.locked);
      var kept := if Full(capacity, live) then live[1..] else live;
      assert forall f | f in kept :: f in live;
      OrderedSnoc(kept, Entry(e.id, e.claims, e.expires));
    } else {
      OrderedWithout(h.store, e.id);
    }
  }

  ghost predicate AtomicRun<C>(capacity: int, ttl: real, h: History<C>, run: seq<Event<C>>)
    requires capacity >= 1
    decreases |run|
  {
    run == [] || (Atomic(ttl, h, run[0]) && AtomicRun(capacity, ttl, Next(capacity, h, run[0]), run[1..]))
  }

  lemma {:induction false} RunKeepsTimely<C>(capacity: int, ttl: real, h: History<C>, run: seq<Event<C>>)
    requires capacity >= 1 && Inv(capacity, h) && Timely(ttl, h)
    requires LegalRun(capacity, h, run) && AtomicRun(capacity, ttl, h, run)
    ensures Inv(capacity, After(capacity, h, run)) && Timely(ttl, After(capacity, h, run))
    decreases |run|
  {
    if run != [] {
      TimelyStep(capacity, ttl, h, run[0]);
      StepKeepsInv(capacity, h, run[0]);
      RunKeepsTimely(capacity, ttl, Next(capacity, h, run[0]), run[1..]);
    }
  }

  lemma OrderedExpiresFirst<C>(capacity: int, h: History<C>)
    requires Ordered(h.store)
    ensures OldestExpiresFirst(capacity, h)
  {
    if h.store != [] {
      assert h.store == [h.store[0]] + h.store[1..];
    }
  }

  /**
   * So it is with atomic creations and one time to live: a ticket is crowded out only while the store holds `capacity`
   * live tickets that were never presented, of which it is the oldest.
   */
  lemma CrowdedOutOnlyWhenFull<C>(capacity: int, ttl: real, clock: real, run: seq<Event<C>>, e: Event<C>, id: string)
    requires capacity >= 1 && LegalRun(capacity, Empty(clock), run) && AtomicRun(capacity, ttl, Empty(clock), run)
    requires Legal(After(capacity, Empty(clock), run), e)
    requires id !in After(capacity, Empty(clock), run).crowdedOut
    requires id in Next(capacity, After(capacity, Empty(clock), run), e).crowdedOut
    ensures e.Create?
    ensures
      var h := After(capacity, Empty(clock), run);
      var live := PurgeFront(h.store, e.locked);
      && |live| == capacity && id in h.issued
      && forall f | f in live :: f.expires >= e.locked && f.id !in h.presented && f.expires >= h.issued[id].expires
  {
    RunKeepsTimely(capacity, ttl, Empty(clock), run);
    var h := After(capacity, Empty(clock), run);
    OrderedExpiresFirst(capacity, h);
    EvictsOnlyWhenAllLiveIff(capacity, h);
    CreatedIs(capacity, h, e);
    FullMeansUnpurged(capacity, h.store, e.locked);
    forall f | f in h.store ensures f.id !in h.presented && f.expires >= h.store[0].expires {
      assert Genuine(h, f) && h.store == [h.store[0]] + h.store[1..];
    }
    assert Genuine(h, h.store[0]);
  }

  /**
   * Creations that overtake each other can break the condition: ticket A starts first but is stored behind B, so at
   * time 35 it has expired without being purged, and C crowds B out although B is the only live ticket of a store for
   * two.
   */
  lemma OvertakingCrowdsOutEarly<C>(c: C)
    ensures
      var h := History([Entry("B", c, 40.0), Entry("A", c, 30.0)], 20.0,
                       map["A" := Entry("A", c, 30.0), "B" := Entry("B", c, 40.0)], {}, [], {});
      && LegalRun(2, Empty(0.0), [Create("B", c, 40.0, 15.0), Create("A", c, 30.0, 20.0)])
      && After(2, Empty(0.0), [Create("B", c, 40.0, 15.0), Create("A", c, 30.0, 20.0)]) == h
      && "B" in Next(2, h, Create("C", c, 65.0, 35.0)).crowdedOut
      && (forall f | f in h.store && f.expires >= 35.0 :: f.id == "B")
      && !OldestExpiresFirst(2, h)
  {
    var a, b := Create("A", c, 30.0, 20.0), Create("B", c, 40.0, 15.0);
    var h1 := Next(2, Empty<C>(0.0), b);
    assert h1.store == [Entry("B", c, 40.0)];
    var h2 := Next(2, h1, a);
    assert Assign(h1.store, Entry("A", c, 30.0)) == [Entry("B", c, 40.0), Entry("A", c, 30.0)];
    assert [b, a][1..] == [a] && [a][1..] == [];
    assert After(2, h1, [a]) == After(2, h2, []) == h2;
    assert h2.issued == map["A" := Entry("A", c, 30.0), "B" := Entry("B", c, 40.0)];
  }

  /** They need not break it: stored in the order of expiry, the same two tickets are evicted only while both live. */
  lemma OvertakingCanBeHarmless<C>(c: C)
    ensures
      var run := [Create("B", c, 30.0, 15.0), Create("A", c, 30.0, 20.0)];
      && LegalRun(2, Empty(0.0), run) && !AtomicRun(2, 30.0, Empty(0.0), run)
      && OldestExpiresFirst(2, After(2, Empty(0.0), run)) && EvictsOnlyWhenAllLive(2, After(2, Empty(0.0), run))
  {
    var a, b := Create("A", c, 30.0, 20.0), Create("B", c, 30.0, 15.0);
    var h1 := Next(2, Empty<C>(0.0), b);
    assert h1.store == [Entry("B", c, 30.0)];
    var h2 := Next(2, h1, a);
    assert Assign(h1.store, Entry("A", c, 30.0)) == [Entry("B", c, 30.0), Entry("A", c, 30.0)];
    assert [b, a][1..] == [a] && [a][1..] == [];
    assert After(2, h1, [a]) == After(2, h2, []) == h2;
    assert !Atomic(30.0, h1, a);
    EvictsOnlyWhenAllLiveIff(2, h2);
  }
}
